/** The directory of the file system as a value: the file entries, where each path is entered, and what
    was written to it, piece by piece. */
module Directories {
  import opened FatTable
  import opened FileContents
  import opened BlockStore

  const MAX_PATH := 63

  /** What an entry keeps of a path. */
  function Cut(path: string): (name: string)
    ensures |name| <= MAX_PATH
  {
    if |path| <= MAX_PATH then path else path[..MAX_PATH]
  }

  /** A path of up to 63 characters is kept as it is, of a longer one the first 63. */
  lemma CutOutcome(path: string)
    ensures Cut(path) <= path && |Cut(path)| == if |path| <= 63 then |path| else 63
  {
  }

  datatype FileEntry = FileEntry(path: string, firstBlock: int, size: int, used: bool)

  datatype Directory = Directory(
    files: seq<FileEntry>,
    slot: map<string, int>,
    history: map<string, seq<seq<byte>>>)

  /** A used entry describes the chain of its file, which holds what was written to it. */
  ghost predicate EntryOk(t: Directory, d: Store, bs: nat, i: int)
    requires 0 <= i < |t.files| < |d.chains| && bs > 0
  {
    var f := t.files[i];
    if f.used then
      && f.path in t.history && f.path in t.slot && t.slot[f.path] == i
      && f.firstBlock == First(d.chains[i]) && f.size == Size(t.history[f.path])
      && Rows(d.data, d.chains[i]) == AllChunks(t.history[f.path], bs)
    else d.chains[i] == []
  }

  /** A path in use has its entry, and fits into it. */
  ghost predicate NameOk(t: Directory, p: string) {
    p in t.slot ==>
      0 <= t.slot[p] < |t.files| && t.files[t.slot[p]].used && t.files[t.slot[p]].path == p && |p| <= MAX_PATH
  }

  /** The entries agree with the block store, whose last chain is not a file's. */
  ghost predicate Agrees(t: Directory, d: Store, bs: nat) {
    && bs > 0 && |t.files| + 1 == |d.chains| && d.chains[|t.files|] == [] && t.slot.Keys == t.history.Keys
    && (forall i {:trigger EntryOk(t, d, bs, i)} :: 0 <= i < |t.files| ==> EntryOk(t, d, bs, i))
    && (forall p {:trigger NameOk(t, p)} :: NameOk(t, p))
  }

  ghost function UsedSlots(files: seq<FileEntry>): set<int> {
    set i | 0 <= i < |files| && files[i].used
  }

  lemma SlotOf(t: Directory, d: Store, bs: nat, p: string)
    requires Agrees(t, d, bs) && p in t.history
    ensures p in t.slot && 0 <= t.slot[p] < |t.files| && |p| <= MAX_PATH
    ensures var f := t.files[t.slot[p]]; f.used && f.path == p && EntryOk(t, d, bs, t.slot[p])
  {
    assert NameOk(t, p);
  }

  lemma AllSlots(t: Directory, d: Store, bs: nat)
    requires Agrees(t, d, bs)
    ensures forall p :: p in t.history ==>
              p in t.slot && 0 <= t.slot[p] < |t.files| && t.files[t.slot[p]].used && t.files[t.slot[p]].path == p
  {
    forall p | p in t.history
      ensures p in t.slot && 0 <= t.slot[p] < |t.files| && t.files[t.slot[p]].used && t.files[t.slot[p]].path == p
    {
      SlotOf(t, d, bs, p);
    }
  }

  // ----- a free entry is filled in

  function Entered(t: Directory, idx: int, path: string): Directory
    requires 0 <= idx < |t.files|
  {
    Directory(t.files[idx := FileEntry(path, -1, 0, true)], t.slot[path := idx], t.history[path := []])
  }

  lemma EnterKeeps(t: Directory, d: Store, bs: nat, idx: int, path: string)
    requires Agrees(t, d, bs) && 0 <= idx < |t.files| && !t.files[idx].used
    requires path !in t.history && |path| <= MAX_PATH
    ensures Agrees(Entered(t, idx, path), d, bs)
    ensures UsedSlots(Entered(t, idx, path).files) == UsedSlots(t.files) + {idx}
  {
    var u := Entered(t, idx, path);
    forall i | 0 <= i < |u.files|
      ensures EntryOk(u, d, bs, i)
    {
      assert EntryOk(t, d, bs, i);
    }
    forall p
      ensures NameOk(u, p)
    {
      assert NameOk(t, p);
    }
  }

  // ----- a piece was appended to a file

  function Accounted(t: Directory, idx: int, path: string, piece: seq<byte>, first: int): Directory
    requires 0 <= idx < |t.files| && path in t.history
  {
    var f := t.files[idx];
    t.(files := t.files[idx := f.(firstBlock := first, size := f.size + |piece|)],
       history := t.history[path := t.history[path] + [piece]])
  }

  lemma AccountKeeps(t: Directory, d: Store, e: Store, bs: nat, path: string, piece: seq<byte>)
    requires Agrees(t, d, bs) && path in t.history && path in t.slot && 0 <= t.slot[path] < |t.files|
    requires |e.chains| == |d.chains| && e.chains[|t.files|] == [] && OthersKept(d, e, t.slot[path], |t.files|)
    requires var i := t.slot[path];
             Rows(e.data, e.chains[i]) == Rows(d.data, d.chains[i]) + Chunks(piece, bs)
    ensures var u := Accounted(t, t.slot[path], path, piece, First(e.chains[t.slot[path]]));
            Agrees(u, e, bs) && UsedSlots(u.files) == UsedSlots(t.files)
  {
    var idx := t.slot[path];
    var u := Accounted(t, idx, path, piece, First(e.chains[idx]));
    var pieces := t.history[path] + [piece];
    assert pieces[..|pieces| - 1] == t.history[path];
    SlotOf(t, d, bs, path);
    forall i | 0 <= i < |u.files|
      ensures EntryOk(u, e, bs, i)
    {
      assert EntryOk(t, d, bs, i);
    }
    forall p
      ensures NameOk(u, p)
    {
      assert NameOk(t, p);
    }
  }

  // ----- an entry is given up

  function Forgotten(t: Directory, idx: int, path: string): Directory
    requires 0 <= idx < |t.files|
  {
    Directory(t.files[idx := t.files[idx].(used := false, path := "")], t.slot - {path}, t.history - {path})
  }

  lemma ForgetKeeps(t: Directory, d: Store, e: Store, bs: nat, path: string)
    requires Agrees(t, d, bs) && path in t.slot && 0 <= t.slot[path] < |t.files|
    requires |e.chains| == |d.chains| && e.chains[|t.files|] == [] == e.chains[t.slot[path]]
    requires OthersKept(d, e, t.slot[path], t.slot[path])
    ensures var u := Forgotten(t, t.slot[path], path);
            Agrees(u, e, bs) && UsedSlots(u.files) == UsedSlots(t.files) - {t.slot[path]}
    ensures t.slot[path] in UsedSlots(t.files)
  {
    var u := Forgotten(t, t.slot[path], path);
    SlotOf(t, d, bs, path);
    forall i | 0 <= i < |u.files|
      ensures EntryOk(u, e, bs, i)
    {
      assert EntryOk(t, d, bs, i);
    }
    forall p
      ensures NameOk(u, p)
    {
      assert NameOk(t, p);
    }
  }
}
