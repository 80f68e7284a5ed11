/** The file allocation table as a value: block chains that partition the blocks in use. */
module FatTable {
  import opened Common

  const FREE := -2
  const END := -1

  /** What the table holds at position j of a chain. */
  function Link(c: seq<int>, j: int): int
    requires 0 <= j < |c|
  {
    if j + 1 < |c| then c[j + 1] else END
  }

  function First(c: seq<int>): int {
    if c == [] then END else c[0]
  }

  /** Which chain a block is on, and where; chain -1 for a free block. */
  datatype Place = Place(chain: int, at: int)

  const NOWHERE := Place(-1, 0)

  /** The block at position j of chain i is in range, links to the next one, and is nowhere else. */
  ghost predicate Entry(fat: seq<int>, chains: seq<seq<int>>, place: seq<Place>, i: int, j: int)
    requires |place| == |fat| && 0 <= i < |chains| && 0 <= j < |chains[i]|
  {
    var b := chains[i][j];
    0 <= b < |fat| && fat[b] == Link(chains[i], j) && place[b] == Place(i, j)
  }

  /** Block b is marked free and on no chain, or on the chain that place says. */
  ghost predicate Located(fat: seq<int>, chains: seq<seq<int>>, place: seq<Place>, b: int)
    requires |place| == |fat| && 0 <= b < |fat|
  {
    var p := place[b];
    if fat[b] == FREE then p == NOWHERE
    else 0 <= p.chain < |chains| && 0 <= p.at < |chains[p.chain]| && chains[p.chain][p.at] == b
  }

  /** Every chain is in range, linked through the table and ended by -1; no block is on two chains or
      twice on one; and the blocks on no chain are exactly those marked free. */
  ghost predicate Partition(fat: seq<int>, chains: seq<seq<int>>, place: seq<Place>) {
    && |place| == |fat|
    && (forall i, j {:trigger Entry(fat, chains, place, i, j)} ::
          0 <= i < |chains| && 0 <= j < |chains[i]| ==> Entry(fat, chains, place, i, j))
    && (forall b {:trigger Located(fat, chains, place, b)} ::
          0 <= b < |fat| ==> Located(fat, chains, place, b))
  }

  ghost function FreeBlocks(fat: seq<int>): set<int> {
    set b | 0 <= b < |fat| && fat[b] == FREE
  }

  /** Following a chain stops exactly at its last block. */
  lemma ChainStep(fat: seq<int>, chains: seq<seq<int>>, place: seq<Place>, i: int, j: int)
    requires Partition(fat, chains, place) && 0 <= i < |chains| && 0 <= j < |chains[i]|
    ensures 0 <= chains[i][j] < |fat| && fat[chains[i][j]] == Link(chains[i], j)
    ensures fat[chains[i][j]] == END <==> j == |chains[i]| - 1
  {
    assert Entry(fat, chains, place, i, j);
    if j + 1 < |chains[i]| {
      assert Entry(fat, chains, place, i, j + 1);
    }
  }

  // ----- the order in which free blocks are taken

  /** These are the lowest free blocks of the table, from the lowest up. */
  ghost predicate TakesLowest(fat: seq<int>, taken: seq<int>) {
    && (forall i :: 0 <= i < |taken| ==> 0 <= taken[i] < |fat| && fat[taken[i]] == FREE)
    && (forall i, j :: 0 <= i < j < |taken| ==> taken[i] < taken[j])
    && (forall i, x :: 0 <= i < |taken| && x in FreeBlocks(fat) && x !in taken ==> taken[i] < x)
  }

  /** Taking the lowest block that is still free. */
  lemma TakesNext(fat0: seq<int>, fat: seq<int>, taken: seq<int>, b: int)
    requires TakesLowest(fat0, taken) && FreeBlocks(fat) == FreeBlocks(fat0) - Elements(taken)
    requires b in FreeBlocks(fat) && forall x :: x in FreeBlocks(fat) ==> b <= x
    ensures TakesLowest(fat0, taken + [b])
  {
    var next := taken + [b];
    assert b in FreeBlocks(fat0) && b !in taken;
    forall i, x | 0 <= i < |next| && x in FreeBlocks(fat0) && x !in next
      ensures next[i] < x
    {
      assert next[|taken|] == b && x != b;
      assert x !in taken by {
        assert forall y :: y in taken ==> y in next;
      }
      assert x in FreeBlocks(fat);
    }
  }

  // ----- a free block is appended to a chain

  function Appended(fat: seq<int>, c: seq<int>, b: int): seq<int>
    requires 0 <= b < |fat| && (c != [] ==> 0 <= c[|c| - 1] < |fat|)
  {
    (if c == [] then fat else fat[c[|c| - 1] := b])[b := END]
  }

  lemma AppendKeeps(fat: seq<int>, chains: seq<seq<int>>, place: seq<Place>, k: int, b: int)
    requires Partition(fat, chains, place) && 0 <= k < |chains| && 0 <= b < |fat| && fat[b] == FREE
    ensures chains[k] != [] ==> 0 <= chains[k][|chains[k]| - 1] < |fat|
    ensures Partition(Appended(fat, chains[k], b), chains[k := chains[k] + [b]], place[b := Place(k, |chains[k]|)])
    ensures FreeBlocks(Appended(fat, chains[k], b)) == FreeBlocks(fat) - {b}
  {
    var c := chains[k];
    assert c != [] ==> Entry(fat, chains, place, k, |c| - 1);
    var fat', chains', place' := Appended(fat, c, b), chains[k := c + [b]], place[b := Place(k, |c|)];
    assert Located(fat, chains, place, b);
    forall i, j | 0 <= i < |chains'| && 0 <= j < |chains'[i]|
      ensures Entry(fat', chains', place', i, j)
    {
      if i != k || j < |c| {
        assert Entry(fat, chains, place, i, j);
      }
    }
    forall x | 0 <= x < |fat'|
      ensures Located(fat', chains', place', x)
    {
      assert Located(fat, chains, place, x);
    }
  }

  // ----- chain k is moved to the end of chain i

  function Joined(fat: seq<int>, c: seq<int>, d: seq<int>): seq<int>
    requires c != [] ==> 0 <= c[|c| - 1] < |fat|
  {
    if c == [] || d == [] then fat else fat[c[|c| - 1] := d[0]]
  }

  function Moved(place: seq<Place>, i: int, k: int, shift: int): seq<Place> {
    seq(|place|, b requires 0 <= b < |place| =>
      if place[b].chain == k then Place(i, shift + place[b].at) else place[b])
  }

  lemma JoinKeeps(fat: seq<int>, chains: seq<seq<int>>, place: seq<Place>, i: int, k: int)
    requires Partition(fat, chains, place) && 0 <= i < |chains| && 0 <= k < |chains| && i != k
    ensures var c, d := chains[i], chains[k];
            && (c != [] ==> 0 <= c[|c| - 1] < |fat|)
            && Partition(Joined(fat, c, d), chains[i := c + d][k := []], Moved(place, i, k, |c|))
            && FreeBlocks(Joined(fat, c, d)) == FreeBlocks(fat)
  {
    var c, d := chains[i], chains[k];
    assert c != [] ==> Entry(fat, chains, place, i, |c| - 1);
    assert d != [] ==> Entry(fat, chains, place, k, 0);
    var fat', chains', place' := Joined(fat, c, d), chains[i := c + d][k := []], Moved(place, i, k, |c|);
    forall a, j | 0 <= a < |chains'| && 0 <= j < |chains'[a]|
      ensures Entry(fat', chains', place', a, j)
    {
      if a == i && j >= |c| {
        assert Entry(fat, chains, place, k, j - |c|);
      } else {
        assert Entry(fat, chains, place, a, j);
      }
    }
    forall x | 0 <= x < |fat'|
      ensures Located(fat', chains', place', x)
    {
      assert Located(fat, chains, place, x);
    }
  }

  // ----- the first block of a chain is freed

  function Behead(place: seq<Place>, i: int): seq<Place> {
    seq(|place|, b requires 0 <= b < |place| =>
      if place[b].chain != i then place[b] else if place[b].at == 0 then NOWHERE else Place(i, place[b].at - 1))
  }

  lemma BeheadKeeps(fat: seq<int>, chains: seq<seq<int>>, place: seq<Place>, i: int)
    requires Partition(fat, chains, place) && 0 <= i < |chains| && chains[i] != []
    ensures var b := chains[i][0];
            && 0 <= b < |fat| && fat[b] == First(chains[i][1..])
            && Partition(fat[b := FREE], chains[i := chains[i][1..]], Behead(place, i))
            && FreeBlocks(fat[b := FREE]) == FreeBlocks(fat) + {b}
  {
    var c := chains[i];
    assert Entry(fat, chains, place, i, 0);
    var fat', chains', place' := fat[c[0] := FREE], chains[i := c[1..]], Behead(place, i);
    forall a, j | 0 <= a < |chains'| && 0 <= j < |chains'[a]|
      ensures Entry(fat', chains', place', a, j)
    {
      assert Entry(fat, chains, place, a, if a == i then j + 1 else j);
    }
    forall x | 0 <= x < |fat'|
      ensures Located(fat', chains', place', x)
    {
      assert Located(fat, chains, place, x);
    }
  }

  // ----- counting

  function TotalLength(chains: seq<seq<int>>): nat {
    if chains == [] then 0 else TotalLength(chains[..|chains| - 1]) + |chains[|chains| - 1]|
  }

  /** The blocks on the chains below k. */
  ghost function OnChains(place: seq<Place>, k: int): set<int> {
    set b | 0 <= b < |place| && 0 <= place[b].chain < k
  }

  lemma {:induction false} CountOnChains(fat: seq<int>, chains: seq<seq<int>>, place: seq<Place>, k: nat)
    requires Partition(fat, chains, place) && k <= |chains|
    ensures |OnChains(place, k)| == TotalLength(chains[..k])
  {
    if k == 0 {
      assert OnChains(place, 0) == {};
    } else {
      var c := chains[k - 1];
      CountOnChains(fat, chains, place, k - 1);
      forall j | 0 <= j < |c|
        ensures 0 <= c[j] < |fat| && place[c[j]] == Place(k - 1, j)
      {
        assert Entry(fat, chains, place, k - 1, j);
      }
      DistinctCount(c);
      forall b | b in OnChains(place, k) && b !in OnChains(place, k - 1)
        ensures b in Elements(c)
      {
        assert Located(fat, chains, place, b);
      }
      assert OnChains(place, k) == OnChains(place, k - 1) + Elements(c);
      assert OnChains(place, k - 1) !! Elements(c);
      assert chains[..k][..k - 1] == chains[..k - 1];
    }
  }

  /** No block is ever lost: free blocks and chain lengths add up to the number of blocks. */
  lemma BlocksConserved(fat: seq<int>, chains: seq<seq<int>>, place: seq<Place>)
    requires Partition(fat, chains, place)
    ensures |FreeBlocks(fat)| + TotalLength(chains) == |fat|
  {
    CountOnChains(fat, chains, place, |chains|);
    assert chains[..|chains|] == chains;
    forall b | 0 <= b < |fat|
      ensures b in FreeBlocks(fat) <==> b !in OnChains(place, |chains|)
    {
      assert Located(fat, chains, place, b);
    }
    assert FreeBlocks(fat) + OnChains(place, |chains|) == Interval(|fat|);
    assert FreeBlocks(fat) !! OnChains(place, |chains|);
  }
}
