/** Allocation table and block contents together, as a value. */
module BlockStore {
  import opened Common
  import opened FatTable
  import opened FileContents

  datatype Store = Store(fat: seq<int>, data: seq<seq<byte>>, chains: seq<seq<int>>, place: seq<Place>)

  /** The chains partition the blocks in use, and free blocks are all zeros. */
  ghost predicate Sound(d: Store, bs: nat) {
    && Partition(d.fat, d.chains, d.place) && |d.data| == |d.fat|
    && (forall b :: 0 <= b < |d.data| ==> |d.data[b]| == bs)
    && (forall b :: 0 <= b < |d.data| && d.fat[b] == FREE ==> d.data[b] == Zeros(bs))
  }

  /** The contents of the blocks of chain c, in order. */
  function Rows(data: seq<seq<byte>>, c: seq<int>): seq<seq<byte>> {
    seq(|c|, j requires 0 <= j < |c| => if 0 <= c[j] < |data| then data[c[j]] else [])
  }

  /** Everything but the contents of the chains k and k' is as before. */
  ghost predicate OthersKept(d: Store, e: Store, k: int, k': int) {
    && |e.chains| == |d.chains| && |e.fat| == |d.fat|
    && forall i :: 0 <= i < |d.chains| && i != k && i != k' ==>
         e.chains[i] == d.chains[i] && Rows(e.data, e.chains[i]) == Rows(d.data, d.chains[i])
  }

  // ----- a free block b gets the contents row and goes to the end of chain k

  function Stored(d: Store, k: int, b: int, row: seq<byte>): Store
    requires |d.data| == |d.fat| == |d.place| && 0 <= k < |d.chains| && 0 <= b < |d.fat|
    requires d.chains[k] != [] ==> 0 <= d.chains[k][|d.chains[k]| - 1] < |d.fat|
  {
    Store(Appended(d.fat, d.chains[k], b), d.data[b := row], d.chains[k := d.chains[k] + [b]],
          d.place[b := Place(k, |d.chains[k]|)])
  }

  lemma RowsUntouched(d: Store, i: int, b: int, row: seq<byte>)
    requires Partition(d.fat, d.chains, d.place) && |d.data| == |d.fat|
    requires 0 <= b < |d.fat| && 0 <= i < |d.chains| && d.place[b].chain != i
    ensures Rows(d.data[b := row], d.chains[i]) == Rows(d.data, d.chains[i])
  {
    forall j | 0 <= j < |d.chains[i]|
      ensures d.chains[i][j] != b
    {
      assert Entry(d.fat, d.chains, d.place, i, j);
    }
  }

  lemma StoreKeeps(d: Store, bs: nat, k: int, b: int, row: seq<byte>)
    requires Sound(d, bs) && 0 <= k < |d.chains| && 0 <= b < |d.fat| && d.fat[b] == FREE && |row| == bs
    ensures d.chains[k] != [] ==> 0 <= d.chains[k][|d.chains[k]| - 1] < |d.fat|
    ensures var e := Stored(d, k, b, row);
            && Sound(e, bs) && OthersKept(d, e, k, k)
            && Rows(e.data, e.chains[k]) == Rows(d.data, d.chains[k]) + [row]
            && FreeBlocks(e.fat) == FreeBlocks(d.fat) - {b}
  {
    AppendKeeps(d.fat, d.chains, d.place, k, b);
    assert Located(d.fat, d.chains, d.place, b);
    forall i | 0 <= i < |d.chains|
      ensures Rows(d.data[b := row], d.chains[i]) == Rows(d.data, d.chains[i])
    {
      RowsUntouched(d, i, b, row);
    }
    var e := Stored(d, k, b, row);
    assert Rows(e.data, d.chains[k] + [b]) == Rows(e.data, d.chains[k]) + [row];
    forall x | 0 <= x < |e.fat| && e.fat[x] == FREE
      ensures x in FreeBlocks(d.fat) && x != b
    {
      assert x in FreeBlocks(e.fat);
    }
  }

  // ----- chain k goes to the end of chain i

  function JoinedStore(d: Store, i: int, k: int): Store
    requires 0 <= i < |d.chains| && 0 <= k < |d.chains| && i != k
    requires d.chains[i] != [] ==> 0 <= d.chains[i][|d.chains[i]| - 1] < |d.fat|
  {
    d.(fat := Joined(d.fat, d.chains[i], d.chains[k]), chains := d.chains[i := d.chains[i] + d.chains[k]][k := []],
       place := Moved(d.place, i, k, |d.chains[i]|))
  }

  lemma JoinStoreKeeps(d: Store, bs: nat, i: int, k: int)
    requires Sound(d, bs) && 0 <= i < |d.chains| && 0 <= k < |d.chains| && i != k
    ensures d.chains[i] != [] ==> 0 <= d.chains[i][|d.chains[i]| - 1] < |d.fat|
    ensures var e := JoinedStore(d, i, k);
            && Sound(e, bs) && OthersKept(d, e, i, k) && e.chains[k] == []
            && Rows(e.data, e.chains[i]) == Rows(d.data, d.chains[i]) + Rows(d.data, d.chains[k])
            && FreeBlocks(e.fat) == FreeBlocks(d.fat)
  {
    JoinKeeps(d.fat, d.chains, d.place, i, k);
    var e := JoinedStore(d, i, k);
    forall x | 0 <= x < |e.fat| && e.fat[x] == FREE
      ensures x in FreeBlocks(d.fat)
    {
      assert x in FreeBlocks(e.fat);
    }
  }

  // ----- the first block of chain i is freed and cleared

  function Beheaded(d: Store, bs: nat, i: int): Store
    requires 0 <= i < |d.chains| && d.chains[i] != [] && 0 <= d.chains[i][0] < |d.fat| == |d.data|
  {
    var b := d.chains[i][0];
    Store(d.fat[b := FREE], d.data[b := Zeros(bs)], d.chains[i := d.chains[i][1..]], Behead(d.place, i))
  }

  lemma BeheadStoreKeeps(d: Store, bs: nat, i: int)
    requires Sound(d, bs) && 0 <= i < |d.chains| && d.chains[i] != []
    ensures 0 <= d.chains[i][0] < |d.fat| && d.fat[d.chains[i][0]] == First(d.chains[i][1..])
    ensures var e := Beheaded(d, bs, i);
            Sound(e, bs) && OthersKept(d, e, i, i) && FreeBlocks(e.fat) == FreeBlocks(d.fat) + {d.chains[i][0]}
  {
    BeheadKeeps(d.fat, d.chains, d.place, i);
    var b := d.chains[i][0];
    assert Entry(d.fat, d.chains, d.place, i, 0);
    forall a | 0 <= a < |d.chains| && a != i
      ensures Rows(d.data[b := Zeros(bs)], d.chains[a]) == Rows(d.data, d.chains[a])
    {
      RowsUntouched(d, a, b, Zeros(bs));
    }
  }

  // ----- an empty disk

  function EmptyStore(n: nat, bs: nat, k: nat): Store {
    Store(seq(n, _ => FREE), seq(n, _ => Zeros(bs)), seq(k, _ => []), seq(n, _ => NOWHERE))
  }

  lemma StoreIsEmpty(d: Store, bs: nat)
    requires d == EmptyStore(|d.fat|, bs, |d.chains|)
    ensures Sound(d, bs) && |FreeBlocks(d.fat)| == |d.fat|
  {
    assert FreeBlocks(d.fat) == Interval(|d.fat|);
  }

  // ----- filling memory byte by byte

  /** The 32-bit number each of whose four bytes is the byte b, as memset leaves it. */
  function MemsetWord(b: int): (w: int)
    requires -128 <= b < 128
  {
    var u := (if b < 0 then b + 256 else b) * 0x0101_0101;
    if u >= 0x8000_0000 then u - 0x1_0000_0000 else u
  }

  /** memset stores the intended number only for 0 and -1. The table of fs_init is filled with -2: as
      written it holds no entry that find_free_block would take for a free block, so that every write is
      refused. The rest of this model takes the intended fill. */
  lemma MemsetFillsWord(b: int, n: nat)
    requires -128 <= b < 128
    ensures MemsetWord(b) == b <==> b == 0 || b == -1
    ensures MemsetWord(FREE) == -0x0101_0102
    ensures FreeBlocks(seq(n, _ => MemsetWord(FREE))) == {}
    ensures FreeBlocks(seq(n, _ => FREE)) == Interval(n)
  {
  }
}
