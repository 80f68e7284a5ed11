/** The FAT file system of src/filesystem.c. Ghost fields: store is the block store as a value, slot tells
    where each path is entered, and history what was written to it, piece by piece. */
module FileSystems {
  import opened Common
  import opened FatTable
  import opened FileContents
  import opened BlockStore
  import opened Directories
  import opened LogPaths

  class FileSystem {
    const blockCount: nat
    const blockSize: nat
    const maxFiles: nat
    const data: array<seq<byte>>
    const fat: array<int>
    const files: array<FileEntry>
    var fileCount: int
    ghost var store: Store
    ghost var slot: map<string, int>
    ghost var history: map<string, seq<seq<byte>>>

    /** The arrays hold the block store; its last chain is the one being written. */
    ghost predicate Disk()
      reads this, data, fat
    {
      && blockSize > 0 && data.Length == fat.Length == blockCount && files.Length == maxFiles
      && fat[..] == store.fat && data[..] == store.data && |store.chains| == maxFiles + 1 && Sound(store, blockSize)
    }

    ghost function Dir(): Directory
      reads this, files
    {
      Directory(files[..], slot, history)
    }

    ghost predicate Valid()
      reads this, data, fat, files
    {
      Disk() && Agrees(Dir(), store, blockSize) && fileCount == |UsedSlots(files[..])|
    }

    ghost function FreeCount(): nat
      reads this
    {
      FreeCountOf(store)
    }

    static ghost function FreeCountOf(store: Store): nat {
      |FreeBlocks(store.fat)|
    }

    /** b blocks hold the bytes written, which are all of them or as many as fit. */
    lemma BlocksNeeded(b: nat, free: nat, size: int, p: seq<byte>)
      requires blockSize > 0 && b == |Chunks(p, blockSize)| <= free && 0 < size && |p| == Min(size, b * blockSize)
      requires |p| == size || b == free
      ensures |p| == Min(size, free * blockSize) && b == (|p| + blockSize - 1) / blockSize
    {
      ChunkCount(p, blockSize);
      assert free * blockSize == b * blockSize + (free - b) * blockSize;
    }

    // ----- searching

    /** find_free_block: the lowest free block, or -1. */
    method FindFreeBlock() returns (b: int)
      ensures if b < 0 then forall i :: 0 <= i < fat.Length ==> fat[i] != FREE
              else b < fat.Length && fat[b] == FREE && forall i :: 0 <= i < b ==> fat[i] != FREE
    {
      for i := 0 to fat.Length
        invariant forall j :: 0 <= j < i ==> fat[j] != FREE
      {
        if fat[i] == FREE {
          return i;
        }
      }
      return -1;
    }

    /** find_file: the entry of that path, or -1. */
    method FindFile(path: string) returns (idx: int)
      requires Valid()
      ensures if path in history then path in slot && idx == slot[path] else idx == -1
      ensures path in history ==> 0 <= idx < maxFiles && |path| <= MAX_PATH
    {
      if path in history {
        SlotOf(Dir(), store, blockSize, path);
      }
      for i := 0 to files.Length
        invariant path in slot ==> i <= slot[path]
      {
        if files[i].used && files[i].path == path {
          assert EntryOk(Dir(), store, blockSize, i);
          return i;
        }
      }
      return -1;
    }

    // ----- creating

    /** fs_create: -1 when the table is full (even if the file exists), else 0. A path that is too long is
        cut off; that must not give the name of a file that exists. */
    method Create(path: string) returns (code: int)
      requires Valid() && (|path| <= MAX_PATH || Cut(path) !in history)
      modifies files, this`fileCount, this`slot, this`history
      ensures Valid()
      ensures code == if old(fileCount) >= maxFiles then -1 else 0
      ensures history == if code == 0 && path !in old(history) then old(history)[Cut(path) := []] else old(history)
      ensures fileCount == old(fileCount) + (if code == 0 && path !in old(history) then 1 else 0)
      ensures if code == 0 && path !in old(history)
              then Cut(path) in slot && LowestUnused(old(files[..]), slot[Cut(path)])
                && slot == old(slot)[Cut(path) := slot[Cut(path)]]
              else slot == old(slot)
    {
      if fileCount >= maxFiles {
        return -1;
      }
      var found := FindFile(path);
      if found >= 0 {
        return 0;
      }
      FullWhenAllUsed();
      var idx := 0;
      while idx < maxFiles && files[idx].used
        invariant 0 <= idx <= maxFiles && forall j :: 0 <= j < idx ==> files[j].used
      {
        idx := idx + 1;
      }
      if idx >= maxFiles {
        return -1;
      }
      Enter(idx, Cut(path));
      return 0;
    }

    /** Entry i is the first that is not in use. */
    static predicate LowestUnused(files: seq<FileEntry>, i: int) {
      0 <= i < |files| && !files[i].used && forall j :: 0 <= j < i ==> files[j].used
    }

    lemma FullWhenAllUsed()
      requires Valid()
      ensures (forall i :: 0 <= i < maxFiles ==> files[i].used) ==> fileCount == maxFiles
    {
      if forall i :: 0 <= i < maxFiles ==> files[i].used {
        assert UsedSlots(files[..]) == Interval(maxFiles);
      }
    }

    /** Fills in a free entry. */
    method Enter(idx: int, path: string)
      requires Valid() && 0 <= idx < maxFiles && !files[idx].used && path !in history && |path| <= MAX_PATH
      modifies files, this`fileCount, this`slot, this`history
      ensures Valid() && history == old(history)[path := []] && slot == old(slot)[path := idx]
      ensures fileCount == old(fileCount) + 1
    {
      ghost var t := Dir();
      EnterKeeps(t, store, blockSize, idx, path);
      hide Agrees, Sound;
      files[idx] := FileEntry(path, -1, 0, true);
      fileCount := fileCount + 1;
      history := history[path := []];
      slot := slot[path := idx];
      assert Dir() == Entered(t, idx, path);
    }

    // ----- writing

    /** One turn of the loop of fs_write: the chunk goes into the free block cur, which is linked
        behind the last block of the new chain. */
    method StoreChunk(cur: int, prev: int, chunk: seq<byte>)
      requires Disk() && 0 <= cur < blockCount && fat[cur] == FREE && 0 < |chunk| <= blockSize
      requires var pend := store.chains[maxFiles]; prev == if pend == [] then -1 else pend[|pend| - 1]
      modifies data, fat, this`store
      ensures Disk() && OthersKept(old(store), store, maxFiles, maxFiles)
      ensures store.chains[maxFiles] == old(store).chains[maxFiles] + [cur]
      ensures Rows(store.data, store.chains[maxFiles]) ==
              Rows(old(store).data, old(store).chains[maxFiles]) + Chunks(chunk, blockSize)
      ensures FreeBlocks(store.fat) == FreeBlocks(old(store).fat) - {cur}
    {
      ghost var row := chunk + Zeros(blockSize - |chunk|);
      assert store.fat[cur] == FREE && store.data[cur] == data[cur] == Zeros(blockSize);
      StoreKeeps(store, blockSize, maxFiles, cur, row);
      assert Zeros(blockSize)[|chunk|..] == Zeros(blockSize - |chunk|);
      data[cur] := chunk + data[cur][|chunk|..];
      assert data[..] == store.data[cur := row];
      if prev >= 0 {
        fat[prev] := cur;
      }
      fat[cur] := END;
      assert fat[..] == Appended(store.fat, store.chains[maxFiles], cur);
      store := Stored(store, maxFiles, cur, row);
    }

    /** How far fs_write has got: b blocks hold the first bytes of src. */
    ghost predicate Writing(d0: Store, src: seq<byte>, size: int, b: int, written: int)
      requires 0 <= size <= |src| && b >= 0
      reads this
    {
      && |store.chains| == |d0.chains| == maxFiles + 1 && blockSize > 0
      && written == Min(size, b * blockSize) && 0 <= written
      && OthersKept(d0, store, maxFiles, maxFiles) && |store.chains[maxFiles]| == b
      && Rows(store.data, store.chains[maxFiles]) == Chunks(src[..written], blockSize)
      && |FreeBlocks(store.fat)| == |FreeBlocks(d0.fat)| - b
    }

    method WriteOne(cur: int, prev: int, src: seq<byte>, size: int, b: nat, written: int, ghost d0: Store)
      returns (written': int)
      requires Disk() && 0 < size <= |src| && Writing(d0, src, size, b, written) && written < size
      requires 0 <= cur < blockCount && fat[cur] == FREE
      requires var pend := store.chains[maxFiles]; prev == if pend == [] then -1 else pend[|pend| - 1]
      modifies data, fat, this`store
      ensures Disk() && Writing(d0, src, size, b + 1, written')
      ensures store.chains[maxFiles] == old(store).chains[maxFiles] + [cur]
      ensures FreeBlocks(store.fat) == FreeBlocks(old(store).fat) - {cur}
    {
      var chunk := size - written;
      if chunk > blockSize {
        chunk := blockSize;
      }
      assert cur in FreeBlocks(store.fat);
      StoreChunk(cur, prev, src[written..written + chunk]);
      written' := written + chunk;
      assert (b + 1) * blockSize == b * blockSize + blockSize;
      ChunksAppend(src[..written], src[written..written'], blockSize, b);
      assert src[..written'] == src[..written] + src[written..written'];
    }

    /** b is the lowest free block. */
    ghost predicate LowestFree(b: int)
      reads fat
    {
      0 <= b < fat.Length && fat[b] == FREE && forall i :: 0 <= i < b ==> fat[i] != FREE
    }

    /** The new chain holds the lowest blocks that were free in d0. */
    ghost predicate Taken(d0: Store)
      reads this
    {
      && |store.chains| == maxFiles + 1 && TakesLowest(d0.fat, store.chains[maxFiles])
      && FreeBlocks(store.fat) == FreeBlocks(d0.fat) - Elements(store.chains[maxFiles])
    }

    /** prev is the last block of the new chain, if it has one. */
    ghost predicate IsLast(prev: int)
      requires |store.chains| == maxFiles + 1
      reads this
    {
      var pend := store.chains[maxFiles]; prev == if pend == [] then -1 else pend[|pend| - 1]
    }

    method TakeOne(cur: int, prev: int, src: seq<byte>, size: int, b: nat, written: int, ghost d0: Store)
      returns (written': int)
      requires Disk() && 0 < size <= |src| && Writing(d0, src, size, b, written) && written < size
      requires LowestFree(cur) && Taken(d0) && |store.chains| == maxFiles + 1 && IsLast(prev)
      modifies data, fat, this`store
      ensures Disk() && Writing(d0, src, size, b + 1, written') && Taken(d0)
      ensures |store.chains| == maxFiles + 1 && IsLast(cur)
      ensures |store.chains[maxFiles]| == |old(store).chains[maxFiles]| + 1
      ensures store.chains[maxFiles][0] ==
              if old(store).chains[maxFiles] == [] then cur else old(store).chains[maxFiles][0]
    {
      LowestTaken(d0, cur);
      hide Writing, Sound, TakesLowest, FreeBlocks, Elements;
      written' := WriteOne(cur, prev, src, size, b, written, d0);
    }

    /** The search for the next block. */
    method NextBlock() returns (b: int)
      requires Disk()
      ensures if b < 0 then FreeBlocks(store.fat) == {} else LowestFree(b)
    {
      b := FindFreeBlock();
      assert forall i :: 0 <= i < |store.fat| ==> store.fat[i] == fat[i];
    }

    lemma LowestTaken(d0: Store, cur: int)
      requires Disk() && LowestFree(cur) && TakesLowest(d0.fat, store.chains[maxFiles])
      requires FreeBlocks(store.fat) == FreeBlocks(d0.fat) - Elements(store.chains[maxFiles])
      ensures TakesLowest(d0.fat, store.chains[maxFiles] + [cur])
      ensures FreeBlocks(store.fat) - {cur} == FreeBlocks(d0.fat) - Elements(store.chains[maxFiles] + [cur])
    {
      assert forall x :: x in FreeBlocks(store.fat) ==> fat[x] == FREE;
      assert store.fat[cur] == FREE;
      TakesNext(d0.fat, store.fat, store.chains[maxFiles], cur);
      assert Elements(store.chains[maxFiles] + [cur]) == Elements(store.chains[maxFiles]) + {cur};
    }

    /** The allocation loop of fs_write. It stops early when no block is free: then it has used them all. */
    method WriteBlocks(src: seq<byte>, size: int, total: int, first: int) returns (written: int)
      requires Disk() && store.chains[maxFiles] == [] && 0 < size <= |src|
      requires Planned(size, total) && LowestFree(first)
      modifies data, fat, this`store
      ensures Filled(old(store), src, size, written, first)
    {
      hide Planned, Filling, Filled, Writing, LowestFree, Taken, Disk, FreeBlocks, TakesLowest;
      ghost var d0 := store;
      SomePlanned(size, total);
      WriteStart(src, size, first);
      var prev := -1;
      written := 0;
      var cur := first;
      var b := 0;
      while b < total && written < size
        invariant 0 <= b <= total && Filling(d0, src, size, b, written, prev, first)
        invariant b < total ==> LowestFree(cur)
        invariant b == 0 ==> cur == first && written == 0
      {
        var next;
        written, next := WriteTurn(cur, prev, src, size, b, b + 1 < total, written, first, d0);
        prev := cur;
        b := b + 1;
        if b < total {
          if next < 0 {
            break;
          }
          cur := next;
        }
      }
      FillingEnds(d0, src, size, total, b, written, prev, first);
    }

    /** total blocks are what size bytes need. */
    ghost predicate Planned(size: int, total: int) {
      blockSize > 0 && total == (size + blockSize - 1) / blockSize
    }

    lemma SomePlanned(size: int, total: int)
      requires Planned(size, total) && size > 0
      ensures total >= 1
    {
      AtLeastOne(size, blockSize);
    }

    /** b blocks are written, starting with first. */
    ghost predicate Filling(d0: Store, src: seq<byte>, size: int, b: int, written: int, prev: int, first: int)
      requires 0 <= size <= |src| && b >= 0
      reads this, data, fat
    {
      && Disk() && Writing(d0, src, size, b, written) && Taken(d0)
      && |store.chains| == maxFiles + 1 && IsLast(prev)
      && |store.chains[maxFiles]| == b && (b > 0 ==> store.chains[maxFiles][0] == first)
    }

    /** The new chain, which starts with first, holds the lowest free blocks and in them the first bytes of src:
        all of them, or as many as the free blocks could take. */
    ghost predicate Filled(d0: Store, src: seq<byte>, size: int, written: int, first: int)
      requires 0 <= size <= |src|
      reads this, data, fat
    {
      && Disk() && store.chains[maxFiles] != [] && store.chains[maxFiles][0] == first
      && TakesLowest(d0.fat, store.chains[maxFiles])
      && Writing(d0, src, size, |store.chains[maxFiles]|, written)
      && (written == size || FreeBlocks(store.fat) == {})
    }

    lemma FillingEnds(d0: Store, src: seq<byte>, size: int, total: int, b: int, written: int, prev: int, first: int)
      requires 0 < size <= |src| && b > 0 && Filling(d0, src, size, b, written, prev, first) && Planned(size, total)
      requires b >= total || written >= size || FreeBlocks(store.fat) == {}
      ensures Filled(d0, src, size, written, first)
    {
      WriteEnd(d0, src, size, b, total, written);
      hide Disk, FreeBlocks, TakesLowest, Rows, Chunks, OthersKept, Planned;
    }

    /** One turn of the allocation loop; next is the block for the next turn, if one is wanted and there is. */
    method WriteTurn(cur: int, prev: int, src: seq<byte>, size: int, b: nat, more: bool, written: int,
                     ghost first: int, ghost d0: Store)
      returns (written': int, next: int)
      requires 0 < size <= |src| && written < size && Filling(d0, src, size, b, written, prev, first)
      requires LowestFree(cur) && (b == 0 ==> cur == first)
      modifies data, fat, this`store
      ensures Filling(d0, src, size, b + 1, written', cur, first)
      ensures more ==> if next < 0 then FreeBlocks(store.fat) == {} else LowestFree(next)
    {
      hide Disk, Writing, LowestFree, Taken, FreeBlocks;
      next := -1;
      written' := TakeOne(cur, prev, src, size, b, written, d0);
      if more {
        next := NextBlock();
      }
    }

    lemma WriteStart(src: seq<byte>, size: int, first: int)
      requires Disk() && store.chains[maxFiles] == [] && 0 < size <= |src|
      ensures Filling(store, src, size, 0, 0, -1, first)
    {
      assert src[..0] == [] && Elements([]) == {};
    }

    /** As many blocks as were planned hold everything. */
    lemma WriteEnd(d0: Store, src: seq<byte>, size: int, b: int, total: int, written: int)
      requires 0 < size <= |src| && b >= 0 && Writing(d0, src, size, b, written) && Taken(d0)
      requires Planned(size, total)
      ensures b >= total ==> written == size
      ensures TakesLowest(d0.fat, store.chains[maxFiles])
    {
      hide OthersKept, Rows, Chunks, FreeBlocks, TakesLowest, Elements;
      if b >= total {
        EnoughBlocks(size, blockSize, b);
      }
    }

    /** The loop of fs_write that follows a chain to its last block. */
    method LastBlock(idx: int, first: int) returns (blk: int)
      requires Disk() && 0 <= idx < maxFiles && store.chains[idx] != [] && first == store.chains[idx][0]
      ensures blk == store.chains[idx][|store.chains[idx]| - 1]
    {
      blk := first;
      ghost var j := 0;
      ChainStep(store.fat, store.chains, store.place, idx, 0);
      while fat[blk] != END
        invariant 0 <= j < |store.chains[idx]| && blk == store.chains[idx][j] && 0 <= blk < blockCount
        invariant fat[blk] == END <==> j == |store.chains[idx]| - 1
        decreases |store.chains[idx]| - j
      {
        ChainStep(store.fat, store.chains, store.place, idx, j);
        blk := fat[blk];
        j := j + 1;
        ChainStep(store.fat, store.chains, store.place, idx, j);
      }
    }

    /** The last steps of fs_write: the new chain goes behind the file's last block. */
    method Attach(idx: int, first: int)
      requires Disk() && 0 <= idx < maxFiles && files[idx].firstBlock == First(store.chains[idx])
      requires store.chains[maxFiles] != [] && first == store.chains[maxFiles][0]
      modifies files, fat, this`store
      ensures Disk() && OthersKept(old(store), store, idx, maxFiles) && store.chains[maxFiles] == []
      ensures store.chains[idx] == old(store).chains[idx] + old(store).chains[maxFiles]
      ensures Rows(store.data, store.chains[idx]) ==
              Rows(old(store).data, old(store).chains[idx]) + Rows(old(store).data, old(store).chains[maxFiles])
      ensures FreeBlocks(store.fat) == FreeBlocks(old(store).fat)
      ensures files[..] == old(files[..])[idx := old(files[idx]).(firstBlock := First(store.chains[idx]))]
    {
      JoinStoreKeeps(store, blockSize, idx, maxFiles);
      ghost var c := store.chains[idx];
      if c != [] {
        ChainStep(store.fat, store.chains, store.place, idx, 0);
      }
      if files[idx].firstBlock < 0 {
        files[idx] := files[idx].(firstBlock := first);
      } else {
        var last := LastBlock(idx, files[idx].firstBlock);
        fat[last] := first;
      }
      assert fat[..] == Joined(store.fat, c, store.chains[maxFiles]);
      store := JoinedStore(store, idx, maxFiles);
    }

    /** What writing blocks and attaching them to entry idx does to the store. */
    lemma AppendedRows(d0: Store, d1: Store, d2: Store, idx: int)
      requires |d0.chains| == |d1.chains| == |d2.chains| == maxFiles + 1 && 0 <= idx < maxFiles
      requires OthersKept(d0, d1, maxFiles, maxFiles) && OthersKept(d1, d2, idx, maxFiles)
      ensures OthersKept(d0, d2, idx, maxFiles)
      ensures Rows(d1.data, d1.chains[idx]) == Rows(d0.data, d0.chains[idx]) && d1.chains[idx] == d0.chains[idx]
    {
    }

    /** The last step of fs_write: the size is counted, when t was the directory before. */
    method Account(path: string, idx: int, written: int, ghost piece: seq<byte>, ghost t: Directory)
      requires 0 <= idx < files.Length && path in history && written == |piece|
      requires t.slot == slot && t.history == history && |t.files| == files.Length
      requires files[..] == t.files[idx := t.files[idx].(firstBlock := files[idx].firstBlock)]
      modifies files, this`history
      ensures Dir() == Accounted(t, idx, path, piece, old(files[idx].firstBlock))
    {
      files[idx] := files[idx].(size := files[idx].size + written);
      history := history[path := history[path] + [piece]];
    }

    /** What fs_write does once the file exists and a first block was found. */
    method Append(path: string, idx: int, src: seq<byte>, size: int, total: int, first: int) returns (written: int)
      requires Valid() && path in history && path in slot && slot[path] == idx && 0 < size <= |src|
      requires total == (size + blockSize - 1) / blockSize
      requires LowestFree(first)
      modifies data, fat, files, this`store, this`history
      ensures Valid() && written == Min(size, FreeCountOf(old(store)) * blockSize)
      ensures 0 < written <= size && history == old(history)[path := old(history)[path] + [src[..written]]]
      ensures FreeCount() == FreeCountOf(old(store)) - (written + blockSize - 1) / blockSize
      ensures 0 <= idx < maxFiles && Extended(old(store), idx, old(store).chains[idx])
    {
      ghost var d0, t := store, Dir();
      SlotOf(t, store, blockSize, path);
      assert |t.files| == maxFiles && store.chains[maxFiles] == [];
      hide Agrees, Sound, EntryOk;
      written := WriteBlocks(src, size, total, first);
      ghost var d1, piece := store, src[..written];
      AppendedRows(d0, d1, d1, idx);
      Attach(idx, first);
      AppendedRows(d0, d1, store, idx);
      assert store.chains[idx][|d0.chains[idx]|..] == d1.chains[maxFiles];
      AccountKeeps(t, d0, store, blockSize, path, piece);
      Account(path, idx, written, piece, t);
      BlocksNeeded(|d1.chains[maxFiles]|, FreeCountOf(d0), size, piece);
    }

    /** To the blocks before of file idx the lowest free blocks of d0 were added, from the lowest up; no other
        chain is different. */
    ghost predicate Extended(d0: Store, idx: int, before: seq<int>)
      reads this
    {
      && |store.chains| == |d0.chains| == maxFiles + 1 && 0 <= idx < maxFiles
      && before <= store.chains[idx] && TakesLowest(d0.fat, store.chains[idx][|before|..])
      && forall i :: 0 <= i < maxFiles && i != idx ==> store.chains[i] == d0.chains[i]
    }

    ghost predicate NoRoom(size: int)
      requires blockSize > 0
      reads this
    {
      (size + blockSize - 1) / blockSize > blockCount || FreeCount() == 0
    }

    /** The part of fs_write after the file was found. */
    method AppendIfRoom(path: string, idx: int, src: seq<byte>, size: int) returns (code: int)
      requires Valid() && path in history && path in slot && slot[path] == idx && 0 < size <= |src|
      modifies data, fat, files, this`store, this`history
      ensures Valid() && code == if old(NoRoom(size)) then -1 else Min(size, old(FreeCount()) * blockSize)
      ensures code != -1 ==> 0 < code <= size
      ensures history == if old(NoRoom(size)) then old(history)
                         else old(history)[path := old(history)[path] + [src[..code]]]
      ensures FreeCount() == old(FreeCount()) - (if old(NoRoom(size)) then 0 else (code + blockSize - 1) / blockSize)
      ensures !old(NoRoom(size)) ==> 0 <= idx < maxFiles && Extended(old(store), idx, old(store).chains[idx])
      ensures old(NoRoom(size)) ==> store == old(store)
    {
      SlotOf(Dir(), store, blockSize, path);
      var total := (size + blockSize - 1) / blockSize;
      if total > blockCount {
        return -1;
      }
      var first := FindFreeBlock();
      if first < 0 {
        assert forall i :: 0 <= i < |store.fat| ==> store.fat[i] == fat[i];
        assert FreeBlocks(store.fat) == {};
        return -1;
      }
      assert first in FreeBlocks(store.fat);
      code := Append(path, idx, src, size, total, first);
    }

    /** fs_write refuses, before anything is written, a write of nothing, a path that is too long, a new
        file for which there is no entry, a write longer than the disk, and any write to a full disk. */
    ghost predicate Refuses(path: string, size: int)
      requires blockSize > 0
      reads this
    {
      size <= 0 || |path| > MAX_PATH || (path !in history && fileCount >= maxFiles) || NoRoom(size)
    }

    /** An entry that is not in use has no blocks. */
    lemma UnusedIsEmpty()
      requires Valid()
      ensures |store.chains| == maxFiles + 1
      ensures forall i :: 0 <= i < maxFiles && !files[i].used ==> store.chains[i] == []
    {
      forall i | 0 <= i < maxFiles && !files[i].used
        ensures store.chains[i] == []
      {
        assert EntryOk(Dir(), store, blockSize, i);
      }
    }

    /** The start of fs_write: the entry of the file, which is created if there is none; or -1. */
    method FindOrCreate(path: string) returns (idx: int)
      requires Valid() && (|path| <= MAX_PATH || Cut(path) !in history)
      modifies files, this`fileCount, this`slot, this`history
      ensures Valid()
      ensures path in old(history) ==> |path| <= MAX_PATH
      ensures if path !in old(history) && (old(fileCount) >= maxFiles || |path| > MAX_PATH) then idx == -1
              else path in history && path in slot && 0 <= idx == slot[path]
      ensures history == if path in old(history) || old(fileCount) >= maxFiles then old(history)
                         else old(history)[Cut(path) := []]
      ensures path in old(history) ==> slot == old(slot)
      ensures path in slot && path !in old(history) ==>
                LowestUnused(old(files[..]), slot[path]) && store.chains[slot[path]] == []
    {
      UnusedIsEmpty();
      idx := FindFile(path);
      if idx < 0 {
        var made := Create(path);
        if made < 0 {
          return -1;
        }
        idx := FindFile(path);
      }
    }

    /** fs_write: as many bytes as fit into the free blocks become a new piece of the file; the blocks
        they need are taken and no others; a missing file is created first. */
    method Write(path: string, src: seq<byte>, size: int) returns (code: int)
      requires Valid() && (|path| <= MAX_PATH || Cut(path) !in history) && size <= |src|
      modifies data, fat, files, this`fileCount, this`store, this`slot, this`history
      ensures Valid()
      ensures code == if old(Refuses(path, size)) then -1 else Min(size, old(FreeCount()) * blockSize)
      ensures code != -1 ==> 0 < code <= size
      ensures var before := if path in old(history) || size <= 0 || old(fileCount) >= maxFiles then old(history)
                            else old(history)[Cut(path) := []];
              history == if old(Refuses(path, size)) then before else before[path := before[path] + [src[..code]]]
      ensures FreeCount() ==
              old(FreeCount()) - (if old(Refuses(path, size)) then 0 else (code + blockSize - 1) / blockSize)
      ensures old(Refuses(path, size)) ==> store == old(store)
      ensures !old(Refuses(path, size)) && path in old(history) ==>
                && slot == old(slot) && path in slot && 0 <= slot[path] < maxFiles
                && |old(store).chains| == maxFiles + 1
                && Extended(old(store), slot[path], old(store).chains[slot[path]])
      ensures !old(Refuses(path, size)) && path !in old(history) ==>
                && path in slot && LowestUnused(old(files[..]), slot[path]) && Extended(old(store), slot[path], [])
    {
      if size <= 0 {
        return -1;
      }
      assert blockSize > 0;
      hide Agrees, Disk, NoRoom, Cut;
      var idx := FindOrCreate(path);
      if idx < 0 {
        return -1;
      }
      code := AppendIfRoom(path, idx, src, size);
    }

    // ----- reading

    /** blk is block j of the chain, or what comes after its end. */
    ghost predicate At(idx: int, j: nat, blk: int)
      requires 0 <= idx < |store.chains|
      reads this
    {
      var c := store.chains[idx];
      j <= |c| && (if j < |c| then blk == c[j] != END else blk == END)
    }

    /** What fs_read has read from the first j blocks of a chain. */
    ghost predicate ReadFrom(idx: int, m: nat, j: nat, count: int, out: seq<byte>)
      requires 0 <= idx < |store.chains|
      reads this
    {
      ReadUpTo(Rows(store.data, store.chains[idx]), blockSize, m, j, count, out)
    }

    /** The loop of fs_read: the first n bytes, but no more than size, of a chain. */
    method ReadChain(idx: int, n: int, size: nat) returns (count: int, out: seq<byte>)
      requires Disk() && 0 <= idx < maxFiles && n > 0 && files[idx].firstBlock == First(store.chains[idx])
      requires size <= |store.chains[idx]| * blockSize
      ensures count == |out| == Min(n, size) <= |Flatten(Rows(store.data, store.chains[idx]))|
      ensures out == Flatten(Rows(store.data, store.chains[idx]))[..count]
    {
      ghost var m := Min(n, size);
      var blk := files[idx].firstBlock;
      count, out := 0, [];
      ghost var j := 0;
      ReadBegin(idx, m, blk);
      hide Disk, ReadFrom, Flatten, Rows, First;
      while blk != END && count < n
        invariant At(idx, j, blk) && ReadFrom(idx, m, j, count, out)
        decreases |store.chains[idx]| - j
      {
        blk, count, out := ReadNext(idx, j, blk, n, size, count, out);
        j := j + 1;
      }
      ReadEnd(idx, n, size, j, blk, count, out);
    }

    lemma ReadBegin(idx: int, m: nat, blk: int)
      requires Disk() && 0 <= idx < maxFiles && blk == First(store.chains[idx])
      ensures idx < |store.chains| && At(idx, 0, blk) && ReadFrom(idx, m, 0, 0, [])
    {
      RowsSized(idx);
      ReadStart(Rows(store.data, store.chains[idx]), blockSize, m);
    }

    lemma ReadEnd(idx: int, n: int, size: nat, j: nat, blk: int, count: int, out: seq<byte>)
      requires Disk() && 0 <= idx < maxFiles && n > 0 && size <= |store.chains[idx]| * blockSize
      requires At(idx, j, blk) && ReadFrom(idx, Min(n, size), j, count, out) && (blk == END || count >= n)
      ensures count == |out| == Min(n, size) <= |Flatten(Rows(store.data, store.chains[idx]))|
      ensures out == Flatten(Rows(store.data, store.chains[idx]))[..count]
    {
      RowsSized(idx);
      ReadDone(Rows(store.data, store.chains[idx]), blockSize, Min(n, size), j, count, out);
    }

    /** One turn of that loop. */
    method ReadNext(idx: int, ghost j: nat, blk: int, n: int, size: nat, count: int, out: seq<byte>)
      returns (blk': int, count': int, out': seq<byte>)
      requires Disk() && 0 <= idx < maxFiles && n > 0
      requires At(idx, j, blk) && ReadFrom(idx, Min(n, size), j, count, out) && blk != END
      ensures j < |store.chains[idx]| && At(idx, j + 1, blk') && ReadFrom(idx, Min(n, size), j + 1, count', out')
    {
      RowsSized(idx);
      assert idx < |store.chains| && blockSize > 0;
      hide Disk, ReadUpTo, Rows;
      ReadStep(Rows(store.data, store.chains[idx]), blockSize, Min(n, size), j, count, out);
      assert Min(n - count, size - count) == Min(n, size) - count;
      var piece;
      piece, blk' := ReadBlock(idx, j, blk, n - count, size - count);
      count', out' := count + |piece|, out + piece;
    }

    /** The body of that loop: what is read from block j of the chain, and the block after it. */
    method ReadBlock(idx: int, ghost j: nat, blk: int, wanted: int, left: int) returns (piece: seq<byte>, next: int)
      requires Disk() && 0 <= idx < |store.chains| && j < |store.chains[idx]| && blk == store.chains[idx][j]
      requires wanted >= 0 && left >= 0
      ensures var row := Rows(store.data, store.chains[idx])[j];
              var chunk := Min(blockSize, Min(wanted, left));
              |row| == blockSize && |piece| == chunk && piece == row[..chunk]
      ensures if j + 1 < |store.chains[idx]| then next == store.chains[idx][j + 1] != END else next == END
    {
      FollowChain(idx, j);
      var chunk := ChunkSize(wanted, left);
      piece := data[blk][..chunk];
      next := fat[blk];
    }

    /** How much of a block is read. */
    method ChunkSize(wanted: int, left: int) returns (chunk: int)
      ensures chunk == Min(wanted, Min(blockSize, left))
    {
      chunk := wanted;
      if chunk > blockSize {
        chunk := blockSize;
      }
      if chunk > left {
        chunk := left;
      }
    }

    lemma FollowChain(idx: int, j: nat)
      requires Disk() && 0 <= idx < |store.chains| && j < |store.chains[idx]|
      ensures var b := store.chains[idx][j];
              && 0 <= b < fat.Length && b < data.Length && fat[b] == Link(store.chains[idx], j)
              && data[b] == Rows(store.data, store.chains[idx])[j]
      ensures j + 1 < |store.chains[idx]| ==> store.chains[idx][j + 1] != END
    {
      ChainStep(store.fat, store.chains, store.place, idx, j);
      if j + 1 < |store.chains[idx]| {
        ChainStep(store.fat, store.chains, store.place, idx, j + 1);
      }
    }

    lemma RowsSized(idx: int)
      requires Disk() && 0 <= idx < maxFiles
      ensures |Rows(store.data, store.chains[idx])| == |store.chains[idx]|
      ensures forall j :: 0 <= j < |store.chains[idx]| ==>
                0 <= store.chains[idx][j] < blockCount && |Rows(store.data, store.chains[idx])[j]| == blockSize
    {
      forall j | 0 <= j < |store.chains[idx]|
        ensures 0 <= store.chains[idx][j] < blockCount
      {
        ChainStep(store.fat, store.chains, store.place, idx, j);
      }
    }

    /** fs_read: the bytes read, which are the first min(n, size) bytes of the file's view. */
    method Read(path: string, n: int) returns (count: int, out: seq<byte>)
      requires Valid()
      ensures n <= 0 || path !in history ==> count == -1 && out == []
      ensures n > 0 && path in history ==>
                count == Min(n, Size(history[path])) && out == View(history[path], blockSize)[..count]
    {
      if n <= 0 {
        return -1, [];
      }
      var idx := FindFile(path);
      if idx < 0 {
        return -1, [];
      }
      SlotOf(Dir(), store, blockSize, path);
      AllChunksPad(history[path], blockSize);
      PaddedIsLonger(history[path], blockSize);
      RowsSized(idx);
      FlattenLength(Rows(store.data, store.chains[idx]), blockSize);
      count, out := ReadChain(idx, n, files[idx].size);
    }

    // ----- deleting

    /** The loop of fs_delete: frees and clears a chain block by block. */
    method FreeChain(idx: int, first: int)
      requires Disk() && 0 <= idx < maxFiles && first == First(store.chains[idx])
      modifies data, fat, this`store
      ensures Disk() && OthersKept(old(store), store, idx, idx) && store.chains[idx] == []
      ensures FreeCount() == old(FreeCount()) + |old(store).chains[idx]|
    {
      ghost var d0 := store;
      var blk := first;
      while blk != END
        invariant Disk() && OthersKept(d0, store, idx, idx) && blk == First(store.chains[idx])
        invariant FreeCount() + |store.chains[idx]| == FreeCountOf(d0) + |d0.chains[idx]|
        decreases |store.chains[idx]|
      {
        blk := FreeOne(idx, blk);
      }
      if store.chains[idx] != [] {
        ChainStep(store.fat, store.chains, store.place, idx, 0);
      }
    }

    method FreeOne(idx: int, blk: int) returns (next: int)
      requires Disk() && 0 <= idx < maxFiles && blk == First(store.chains[idx]) && blk != END
      modifies data, fat, this`store
      ensures Disk() && OthersKept(old(store), store, idx, idx) && store.chains[idx] == old(store).chains[idx][1..]
      ensures next == First(store.chains[idx]) && FreeCount() == old(FreeCount()) + 1
    {
      BeheadStoreKeeps(store, blockSize, idx);
      ChainStep(store.fat, store.chains, store.place, idx, 0);
      assert blk !in FreeBlocks(store.fat) by {
        assert Entry(store.fat, store.chains, store.place, idx, 0);
        assert Located(store.fat, store.chains, store.place, blk);
      }
      next := fat[blk];
      fat[blk] := FREE;
      data[blk] := Zeros(blockSize);
      assert fat[..] == store.fat[blk := FREE] && data[..] == store.data[blk := Zeros(blockSize)];
      store := Beheaded(store, blockSize, idx);
    }

    /** fs_delete: the file is gone, and its blocks are free again. */
    method Delete(path: string) returns (code: int)
      requires Valid()
      modifies data, fat, files, this`fileCount, this`store, this`slot, this`history
      ensures Valid() && code == if path in old(history) then 0 else -1
      ensures history == old(history) - {path} && slot == old(slot) - {path}
      ensures FreeCount() ==
              old(FreeCount()) + (if path in old(history) then |AllChunks(old(history)[path], blockSize)| else 0)
    {
      var idx := FindFile(path);
      if idx < 0 {
        assert history - {path} == history && slot - {path} == slot;
        return -1;
      }
      ghost var d0, t := store, Dir();
      SlotOf(t, store, blockSize, path);
      assert |t.files| == maxFiles && store.chains[maxFiles] == [];
      assert |store.chains[idx]| == |AllChunks(history[path], blockSize)| by {
        assert |Rows(store.data, store.chains[idx])| == |store.chains[idx]|;
      }
      hide Agrees, Sound, EntryOk;
      FreeChain(idx, files[idx].firstBlock);
      ForgetKeeps(t, d0, store, blockSize, path);
      Forget(path, idx);
      return 0;
    }

    /** The last steps of fs_delete: the entry idx is given up. */
    method Forget(path: string, idx: int)
      requires 0 <= idx < files.Length
      modifies files, this`fileCount, this`slot, this`history
      ensures Dir() == Forgotten(old(Dir()), idx, path) && fileCount == old(fileCount) - 1
    {
      files[idx] := files[idx].(used := false, path := "");
      fileCount := fileCount - 1;
      history := history - {path};
      slot := slot - {path};
    }

    /** fs_cleanup_process: deletes exactly the files whose path starts with the log prefix of the process. */
    method CleanupProcess(pid: int)
      requires Valid()
      modifies data, fat, files, this`fileCount, this`store, this`slot, this`history
      ensures Valid()
      ensures history == map p | p in old(history) && !(LogPrefix(pid) <= p) :: old(history)[p]
      ensures forall d, q, e, k :: Reads(d, q) && Reads(e, k) ==>
                var path := "/logs/drone_" + d + "_seq_" + e + ".log";
                (path in history <==> path in old(history) && q != pid)
      ensures forall path :: !("/logs/drone_" <= path) ==> (path in history <==> path in old(history))
      ensures forall path :: path in history ==> path in old(history) && history[path] == old(history)[path]
    {
      var prefix := LogPrefix(pid);
      hide LogPrefix;
      ghost var h0, s0 := history, slot;
      AllSlots(Dir(), store, blockSize);
      for i := 0 to maxFiles
        invariant Valid() && slot.Keys <= s0.Keys && (forall p :: p in slot ==> slot[p] == s0[p])
        invariant forall p :: p in history <==> p in h0 && !(prefix <= p && s0[p] < i)
        invariant forall p :: p in history ==> history[p] == h0[p]
      {
        CleanupSlot(prefix, i);
      }
      assert forall p :: p in h0 ==> s0[p] < maxFiles;
      KernelFiles(pid, h0, history);
    }

    /** What the prefix means for the kernel's own log files, and for files elsewhere. */
    lemma KernelFiles(pid: int, h0: map<string, seq<seq<byte>>>, h: map<string, seq<seq<byte>>>)
      requires forall p :: p in h <==> p in h0 && !(LogPrefix(pid) <= p)
      ensures forall d, q, e, k :: Reads(d, q) && Reads(e, k) ==>
                var path := "/logs/drone_" + d + "_seq_" + e + ".log";
                (path in h <==> path in h0 && q != pid)
      ensures forall path :: !("/logs/drone_" <= path) ==> (path in h <==> path in h0)
    {
      forall d, q, e, k | Reads(d, q) && Reads(e, k)
        ensures var path := "/logs/drone_" + d + "_seq_" + e + ".log"; path in h <==> path in h0 && q != pid
      {
        PrefixFitsKernelFiles(pid, d, q, e, k);
      }
      forall path | !("/logs/drone_" <= path)
        ensures path in h <==> path in h0
      {
        if LogPrefix(pid) <= path {
          PrefixFitsLogsOnly(pid, path);
        }
      }
    }

    /** The body of the loop of fs_cleanup_process. */
    method CleanupSlot(prefix: string, i: int)
      requires Valid() && 0 <= i < maxFiles
      modifies data, fat, files, this`fileCount, this`store, this`slot, this`history
      ensures Valid()
      ensures history == map p | p in old(history) && !(prefix <= p && old(slot)[p] == i) :: old(history)[p]
      ensures slot.Keys <= old(slot).Keys && forall p :: p in slot ==> slot[p] == old(slot)[p]
    {
      AllSlots(Dir(), store, blockSize);
      assert EntryOk(Dir(), store, blockSize, i);
      if files[i].used && prefix <= files[i].path {
        var code := Delete(files[i].path);
      }
    }

    /** No block is ever lost or shared: the free blocks and the blocks of the files make up the disk,
        and each file's chain is as long as what was written to it needs. */
    lemma BlocksAccountedFor()
      requires Valid()
      ensures FreeCount() + TotalLength(store.chains) == blockCount
      ensures forall p :: p in history ==>
                0 <= slot[p] < maxFiles && |store.chains[slot[p]]| == |AllChunks(history[p], blockSize)|
      ensures forall i, j, k, l | 0 <= i < |store.chains| && 0 <= j < |store.chains[i]|
                && 0 <= k < |store.chains| && 0 <= l < |store.chains[k]| ::
                store.chains[i][j] == store.chains[k][l] ==> i == k && j == l
    {
      BlocksConserved(store.fat, store.chains, store.place);
      forall p | p in history
        ensures 0 <= slot[p] < maxFiles && |store.chains[slot[p]]| == |AllChunks(history[p], blockSize)|
      {
        SlotOf(Dir(), store, blockSize, p);
      }
      forall i, j | 0 <= i < |store.chains| && 0 <= j < |store.chains[i]|
        ensures 0 <= store.chains[i][j] < blockCount && store.place[store.chains[i][j]] == Place(i, j)
      {
        assert Entry(store.fat, store.chains, store.place, i, j);
      }
    }

    // ----- starting

    /** fs_init, with every table entry marked free as intended, before the directories are made. */
    constructor Empty(blockCount: nat, blockSize: nat, maxFiles: nat)
      requires blockSize > 0
      ensures Valid() && history == map[] && FreeCount() == blockCount
      ensures this.blockCount == blockCount && this.blockSize == blockSize && this.maxFiles == maxFiles
      ensures fresh(data) && fresh(fat) && fresh(files)
    {
      this.blockCount, this.blockSize, this.maxFiles := blockCount, blockSize, maxFiles;
      data := new seq<byte>[blockCount](i => Zeros(blockSize));
      fat := new int[blockCount](i => FREE);
      files := new FileEntry[maxFiles](i => FileEntry("", 0, 0, false));
      fileCount := 0;
      history, slot := map[], map[];
      store := EmptyStore(blockCount, blockSize, maxFiles + 1);
      new;
      StoreIsEmpty(store, blockSize);
      assert fat[..] == store.fat && data[..] == store.data;
      assert UsedSlots(files[..]) == {};
      hide Sound, FreeBlocks;
    }

    /** The rest of fs_init. */
    method MakeDirectories()
      requires Valid() && history == map[] && fileCount == 0
      modifies files, this`fileCount, this`slot, this`history
      ensures Valid()
      ensures maxFiles >= 3 ==> history == map["/missions/" := [], "/logs/" := [], "/config/" := []]
    {
      var code := Create("/missions/");
      code := Create("/logs/");
      code := Create("/config/");
    }
  }
}
