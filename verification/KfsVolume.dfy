/**
  The KyuzenFS driver: the operations of the file system as they update the
  allocation table, the disk and the header in place.
 */
module KfsVolume {
  import opened Basics
  import opened KfsTree
  import opened KfsDisk
  import opened KfsEffects
  import opened KfsDurable
  import opened KfsPath
  import opened KfsOps

  const NO_SLOT: nat := 16

  /** Index just behind the last slash, 0 when there is none. */
  method BehindLastSlash(path: string) returns (n: nat)
    ensures n == NameStart(path)
  {
    n := 0;
    var p := 0;
    while p < |path|
      invariant 0 <= n <= p <= |path|
      invariant forall k :: n <= k < p ==> path[k] != '/'
      invariant n > 0 ==> path[n - 1] == '/'
    {
      if path[p] == '/' { n := p + 1; }
      p := p + 1;
    }
    NameStartIs(path, n);
  }

  class Volume {
    const total: nat
    const fat: array<nat>
    var disk: seq<Sector>
    var root: nat
    var files: nat
    ghost var st: Fs
    ghost var layout: Layout
    ghost var stale: set<nat>
    ghost var dirty: set<nat>

    /** `st` is the current value of the volume and the buffers fit the disk. */
    ghost predicate Sized()
      reads this, fat
    {
      && st == Fs(total, fat[..], disk, root, files)
      && GoodSize(total) && |st.fat| == LINKS * FatSectors(total) && |disk| == total
    }

    /** Geometry, and every link outside `dirty` is on disk. */
    ghost predicate Base()
      reads this, fat
    {
      Sized() && BaseOk(st, stale, dirty)
    }

    /** The invariant between operations. */
    ghost predicate Valid()
      reads this, fat
    {
      Sized() && dirty == {} && ValidFs(st, layout, stale)
    }

    // ------------------------------------------------------- single accesses

    method SetLink(x: nat, v: nat)
      requires Base() && x < |st.fat|
      modifies fat, this`st, this`dirty
      ensures Base() && st == old(st).(fat := old(st).fat[x := v]) && dirty == old(dirty) + {x}
    {
      SetDirties(fat[..], disk, FatSectors(total), stale, dirty, x, v);
      fat[x] := v;
      dirty := dirty + {x};
      st := st.(fat := st.fat[x := v]);
      assert fat[..] == st.fat;
    }

    method WriteSector(y: nat, v: Sector)
      requires Base() && y < total && (y == 0 || y >= root)
      modifies this`disk, this`st
      ensures Base() && st == old(st).(disk := old(st).disk[y := v])
    {
      WriteKeepsSaved(fat[..], disk, FatSectors(total), stale, dirty, y, v);
      disk := disk[y := v];
      st := st.(disk := disk);
    }

    /** Writes the table sector holding the link of `x`. */
    method SyncFat(x: nat)
      requires Base()
      modifies this`disk, this`st, this`dirty
      ensures Base() && SameHeader(old(st), st) && st.fat == old(st).fat
      ensures forall y :: st.root <= y < |st.disk| ==> st.disk[y] == old(st).disk[y]
      ensures dirty == if x < total then old(dirty) - {x} else old(dirty)
    {
      if x >= total { return; }
      FatCovers(total);
      SyncCleans(fat[..], disk, FatSectors(total), stale, dirty, x);
      var sectorOffset := x / LINKS;
      disk := disk[1 + sectorOffset := FatSector(fat[sectorOffset * LINKS..sectorOffset * LINKS + LINKS])];
      st := st.(disk := disk);
      dirty := dirty - {x};
      assert disk == old(disk)[1 + x / LINKS := TableSector(fat[..], x)];
    }

    /** The lowest free sector behind the root, or 0. */
    method FindFreeSector() returns (x: nat)
      requires Base()
      ensures x == 0 ==> FreeSet(st) == {}
      ensures x != 0 ==> x in FreeSet(st) && forall y :: y in FreeSet(st) ==> x <= y
    {
      FatCovers(total);
      var i := root + 1;
      while i < total
        invariant root < i <= total
        invariant forall y :: root < y < i ==> st.fat[y] != FAT_FREE
      {
        if fat[i] == FAT_FREE { return i; }
        i := i + 1;
      }
      return 0;
    }

    // ----------------------------------------------------------- directories

    /** The first entry of that name in one sector, or 16. */
    static method ScanFor(entries: seq<Entry>, name: string) returns (k: nat)
      requires |entries| == SLOTS
      ensures k <= SLOTS && (k < SLOTS ==> Named(entries[k], name))
      ensures forall m :: 0 <= m < k ==> !Named(entries[m], name)
    {
      k := 0;
      while k < 16
        invariant 0 <= k <= 16 && forall m :: 0 <= m < k ==> !Named(entries[m], name)
      {
        if Named(entries[k], name) { return; }
        k := k + 1;
      }
    }

    /** Searches the directory `slots`, stored on chain `c` from sector `dir`, for `name`. */
    method FindEntryIn(dir: nat, name: string, ghost c: seq<nat>, ghost slots: seq<Entry>)
      returns (found: bool, entry: Entry, sec: nat, idx: nat)
      requires Sized() && root >= 2 && IsChain(st.fat, root, total, c) && c[0] == dir && DirIs(st.disk, c, slots)
      ensures found <==> Find(slots, name) < |slots|
      ensures found ==> entry == slots[Find(slots, name)]
      ensures found ==> sec == c[Find(slots, name) / SLOTS] && idx == Find(slots, name) % SLOTS
    {
      hide Find, IsChain, DirIs, FatSectors;
      FatCovers(total);
      ChainStarts(st.fat, root, total, c, disk, slots);
      found, entry, sec, idx := false, EMPTY_ENTRY, 0, 0;
      if dir < 2 { return; }
      var curr := dir;
      ghost var i := 0;
      while curr != FAT_EOF && curr != FAT_FREE
        invariant 0 <= i <= |c|
        invariant (curr == if i < |c| then c[i] else FAT_EOF) && (i < |c| ==> root <= curr < total)
        invariant |slots| == SLOTS * |c| && forall j :: 0 <= j < SLOTS * i ==> !Named(slots[j], name)
        decreases |c| - i
      {
        DirSectorAt(st.fat, root, total, c, disk, slots, i);
        var entries := disk[curr].slots;
        var k := ScanFor(entries, name);
        NoneNamed(slots, entries, name, SLOTS * i, k);
        if k < 16 {
          FindIs(slots, name, SLOTS * i + k);
          return true, entries[k], curr, k;
        }
        curr := fat[curr];
        i := i + 1;
      }
      FindIs(slots, name, |slots|);
    }

    /** The first empty entry of one sector, or 16. */
    static method ScanEmpty(entries: seq<Entry>) returns (k: nat)
      requires |entries| == SLOTS
      ensures k <= SLOTS && (k < SLOTS ==> !Live(entries[k]))
      ensures forall m :: 0 <= m < k ==> Live(entries[m])
    {
      k := 0;
      while k < 16
        invariant 0 <= k <= 16 && forall m :: 0 <= m < k ==> Live(entries[m])
      {
        if !Live(entries[k]) { return; }
        k := k + 1;
      }
    }

    /** The search of `InsertDirEntry`: first empty slot, or none and the last sector of the chain. */
    method FindEmptySlot(dir: nat, ghost c: seq<nat>, ghost slots: seq<Entry>)
      returns (dirSec: nat, lastSec: nat, foundIdx: nat)
      requires Sized() && root >= 2 && IsChain(st.fat, root, total, c) && c[0] == dir && DirIs(st.disk, c, slots)
      ensures foundIdx <= NO_SLOT
      ensures foundIdx < NO_SLOT <==> FirstEmpty(slots) < |slots|
      ensures foundIdx < NO_SLOT ==> dirSec == c[FirstEmpty(slots) / SLOTS] && foundIdx == FirstEmpty(slots) % SLOTS
      ensures foundIdx == NO_SLOT ==> lastSec == c[|c| - 1]
    {
      hide FirstEmpty, IsChain, DirIs, FatSectors;
      FatCovers(total);
      ChainStarts(st.fat, root, total, c, disk, slots);
      dirSec, lastSec, foundIdx := dir, dir, NO_SLOT;
      ghost var i := 0;
      while dirSec != FAT_EOF && dirSec != FAT_FREE
        invariant 0 <= i <= |c|
        invariant (dirSec == if i < |c| then c[i] else FAT_EOF) && (i < |c| ==> root <= dirSec < total)
        invariant lastSec == if i == 0 then c[0] else c[i - 1]
        invariant foundIdx == NO_SLOT
        invariant |slots| == SLOTS * |c| && forall m :: 0 <= m < SLOTS * i ==> Live(slots[m])
        decreases |c| - i
      {
        DirSectorAt(st.fat, root, total, c, disk, slots, i);
        var entries := disk[dirSec].slots;
        var k := ScanEmpty(entries);
        AllLive(slots, entries, SLOTS * i, k);
        if k < 16 {
          FirstEmptyIs(slots, SLOTS * i + k);
          foundIdx := k;
          return;
        }
        lastSec := dirSec;
        dirSec := fat[dirSec];
        i := i + 1;
      }
      FirstEmptyIs(slots, |slots|);
    }

    /** Puts `e` into the first empty slot of the directory, growing its chain when it is full. */
    method InsertDirEntry(dir: nat, e: Entry, ghost c: seq<nat>, ghost slots: seq<Entry>)
      returns (ok: bool, ghost j: nat, ghost x: nat)
      requires Base() && dirty == {} && IsChain(st.fat, root, total, c) && c[0] == dir && DirIs(st.disk, c, slots)
      modifies fat, this`disk, this`st, this`dirty
      ensures Base() && dirty == {} && InsertResult(old(st), st, c, slots, e, ok, j, x)
    {
      hide FirstEmpty, Saved, IsChain, DirIs, FreeSet, DiskLink;
      j, x := FirstEmpty(slots), 0;
      var dirSec, lastSec, foundIdx := FindEmptySlot(dir, c, slots);
      if foundIdx == NO_SLOT {
        var newSec := FindFreeSector();
        if newSec == 0 {
          return false, j, 0;
        }
        x := newSec;
        GrowDir(lastSec, newSec, e, c, slots);
        return true, j, x;
      }
      FatCovers(total);
      SlotSector(st.fat, root, total, disk, c, slots, j);
      WriteSector(dirSec, DirSector(disk[dirSec].slots[foundIdx := e]));
      return true, j, x;
    }

    /** Links a free sector behind the last one of a full directory and puts the entry there. */
    method GrowDir(lastSec: nat, newSec: nat, e: Entry, ghost c: seq<nat>, ghost slots: seq<Entry>)
      requires Base() && dirty == {} && IsChain(st.fat, root, total, c) && DirIs(st.disk, c, slots)
      requires FirstEmpty(slots) == |slots| && lastSec == c[|c| - 1] && newSec in FreeSet(st)
      modifies fat, this`disk, this`st, this`dirty
      ensures Base() && dirty == {} && SameHeader(old(st), st) && ChainExtended(old(st), st, c, slots, e, newSec)
    {
      hide FirstEmpty, Saved, DirIs, FatSectors, DiskLink;
      FatCovers(total);
      ChainInRange(st.fat, root, total, c);
      assert c[|c| - 1] in c;
      hide IsChain;
      SetLink(lastSec, newSec);
      SetLink(newSec, FAT_EOF);
      SyncFat(lastSec);
      SyncFat(newSec);
      WriteSector(newSec, DirSector([e] + EmptySlots(15)));
    }

    // ----------------------------------------------------------------- paths

    /** Follows `path` from the root; every component must be a folder. */
    method ResolveDir(path: string) returns (ok: bool, dir: nat)
      requires Sized() && layout.tree.root in layout.tree.dirs && WellFormed(st, layout)
      ensures ok <==> Walk(layout.tree, Components(path)).Some?
      ensures ok ==> Walk(layout.tree, Components(path)) == Some(dir)
    {
      hide Walk, Find, Components, IsChain, DirIs, WellFormed, HomesOk;
      ghost var t := layout.tree;
      ghost var done: seq<string> := [];
      RootFacts(st, layout);
      WellFormedHomes(st, layout);
      EmptyPath(t);
      assert path[0..] == path && [] + Components(path) == Components(path);
      dir := root;
      var i := 0;
      while i < |path|
        invariant 0 <= i <= |path|
        invariant Components(path) == done + Components(path[i..])
        invariant Walk(t, done) == Some(dir)
      {
        ghost var from := i;
        while i < |path| && path[i] == '/'
          invariant from <= i <= |path|
          invariant forall k :: from <= k < i ==> path[k] == '/'
        {
          i := i + 1;
        }
        ComponentsSkip(path[from..], i - from);
        assert path[from..][i - from..] == path[i..];
        if i == |path| { break; }
        var start := i;
        while i < |path| && path[i] != '/'
          invariant start <= i <= |path|
          invariant forall k :: start <= k < i ==> path[k] != '/'
        {
          i := i + 1;
        }
        var len, comp := i - start, path[start..i];
        ComponentAt(path, start, i);
        assert Components(path) == done + [comp] + Components(path[i..]);
        WalkSnoc(t, done, comp);
        if len > 22 {
          LongNamesAreAbsent(t, layout.home, dir, comp);
          WalkStuck(t, done + [comp], Components(path[i..]));
          return false, 0;
        }
        DirFacts(st, layout, dir);
        var found, e, _, _ := FindEntryIn(dir, comp, layout.chains[dir], t.dirs[dir]);
        if !found || e.flag != FlagFolder {
          WalkStuck(t, done + [comp], Components(path[i..]));
          return false, 0;
        }
        EntryFacts(t, layout.home, dir, Find(t.dirs[dir], comp));
        dir := e.start;
        done := done + [comp];
      }
      assert path[|path|..] == "" && done + [] == done;
      return true, dir;
    }

    /** Splits `path` into the directory of its parent part and its final name. */
    method SplitLast(path: string) returns (ok: bool, parent: nat, name: string)
      requires Sized() && layout.tree.root in layout.tree.dirs && WellFormed(st, layout)
      ensures ok <==> FinalName(path) != "" && Walk(layout.tree, Components(ParentPart(path))).Some?
      ensures ok ==> Walk(layout.tree, Components(ParentPart(path))) == Some(parent)
      ensures name == FinalName(path)
    {
      hide Walk, Components, NameStart, WellFormed;
      var nameIdx := BehindLastSlash(path);
      name := path[nameIdx..];
      if name == "" { return false, 0, name; }
      var plen := nameIdx;
      if plen > 0 { plen := plen - 1; }
      if plen > 127 { plen := 127; }
      ok, parent := ResolveDir(path[..plen]);
    }

    // -------------------------------------------------------------- creation

    /** The allocation loop of file creation: links sectors one by one and fills them. */
    method AllocateFile(data: seq<Byte>) returns (ok: bool, start: nat, ghost c: seq<nat>)
      requires Base() && dirty == {} && |data| < 0x1_0000_0000
      modifies fat, this`disk, this`st, this`dirty
      ensures Base() && dirty == {} && AllocResult(old(st), st, data, c, ok, start)
    {
      hide Padded, PaddedSector, PaddedSectors, Allocated, Saved, FreeSet;
      ghost var s0 := st;
      NothingAllocated(s0);
      var sectorsNeeded := if |data| == 0 then 1 else (|data| + 511) % 0x1_0000_0000 / 512;
      SectorCountIsExactIff(|data|);
      start, c := 0, [];
      var prev, offset := 0, 0;
      var i := 0;
      while i < sectorsNeeded
        invariant 0 <= i <= sectorsNeeded && |c| == i && Base() && dirty == {}
        invariant AllocatedSoFar(s0, st, data, c, start, prev, offset) && (c == [] ==> start == 0 && st == s0)
      {
        var freeSec := FindFreeSector();
        if freeSec == 0 {
          return false, start, c;
        }
        offset := AllocateNext(data, c, start, prev, offset, freeSec, s0);
        if i == 0 { start := freeSec; }
        prev := freeSec;
        c := c + [freeSec];
        i := i + 1;
      }
      return true, start, c;
    }

    /** One round of the loop: take sector `freeSec` and fill it with the next chunk. */
    method AllocateNext(data: seq<Byte>, ghost c: seq<nat>, start: nat, prev: nat, offset: nat, freeSec: nat, ghost s0: Fs)
      returns (next: nat)
      requires Base() && dirty == {} && freeSec in FreeSet(st)
      requires |c| < SectorsFor(|data|) && AllocatedSoFar(s0, st, data, c, start, prev, offset)
      modifies fat, this`disk, this`st, this`dirty
      ensures Base() && dirty == {}
      ensures AllocatedSoFar(s0, st, data, c + [freeSec], if c == [] then freeSec else start, freeSec, next)
    {
      hide Padded, PaddedSector, PaddedSectors, Allocated, Saved, FreeSet;
      ghost var i := |c|;
      var remaining := |data| - offset;
      var chunk := if remaining > 512 then 512 else remaining;
      ChunkIsPadded(data, i, offset, chunk);
      LinkAndFill(c, prev, freeSec, DataSector(data[offset..offset + chunk] + Zeros(512 - chunk)), s0, PaddedSectors(data, i));
      PaddedSnoc(data, i);
      next := offset + chunk;
    }

    /** Mark the sector as end of chain, link the previous one to it, write it. */
    method LinkAndFill(ghost c: seq<nat>, prev: nat, freeSec: nat, v: Sector, ghost s0: Fs, ghost content: seq<Sector>)
      requires Base() && dirty == {} && freeSec in FreeSet(st) && s0.root == root
      requires Allocated(s0, st, c, content) && (c != [] ==> prev == c[|c| - 1]) && (c == [] ==> prev == 0)
      modifies fat, this`disk, this`st, this`dirty
      ensures Base() && dirty == {} && SameHeader(old(st), st)
      ensures Allocated(s0, st, c + [freeSec], content + [v])
      ensures FreeSet(st) == FreeSet(old(st)) - {freeSec}
    {
      hide Saved, DiskLink;
      FatCovers(total);
      ghost var s1 := st;
      if c != [] { ChainInRange(st.fat, root, total, c); assert c[|c| - 1] in c; }
      hide IsChain;
      SetLink(freeSec, FAT_EOF);
      if prev != 0 {
        SetLink(prev, freeSec);
        SyncFat(prev);
      }
      SyncFat(freeSec);
      WriteSector(freeSec, v);
      AllocateOne(s0, s1, st, c, content, freeSec, v);
    }

    /** Inserts the entry and, on success, counts it and writes the header. */
    method AddEntry(d: nat, e: Entry, ghost c: seq<nat>, ghost o: Object) returns (ok: bool, ghost j: nat, ghost x: nat)
      requires Valid() && d in layout.tree.dirs && d in layout.chains && (c != [] ==> Attachable(st, layout, c, e, o))
      modifies fat, this`disk, this`st, this`dirty, this`files, this`layout
      ensures c != [] || !ok ==> Valid() && AddResult(old(st), old(layout), st, layout, stale, d, e, c, o, ok, j, x)
      ensures c == [] && ok ==> Sized() && LooseAdded(old(st), old(layout), st, d, e, j, x)
    {
      hide WellFormed, Attachable, IsChain, DirIs, TreeInserted, FirstEmpty, AfterInsert, InsertResult, AddResult, Saved, LooseAdded;
      ghost var s0 := st;
      DirFacts(s0, layout, d);
      ok, j, x := InsertDirEntry(d, e, layout.chains[d], layout.tree.dirs[d]);
      ghost var s1 := st;
      InsertShape(s0, s1, layout.chains[d], layout.tree.dirs[d], e, ok, j, x);
      if !ok {
        InsertFails(s0, layout, stale, s1, d, e, c, o, j, x);
        return;
      }
      files := files + 1;
      st := st.(files := files);
      assert Base();
      WriteSector(0, HeaderSector(root, files));
      assert st == Counted(s1, s0.files + 1);
      if c != [] {
        InsertSucceeds(s0, layout, stale, s1, d, e, c, o, j, x);
        layout := AfterInsert(layout, d, e, j, x, c, o);
        AddIsValid(s0, old(layout), st, layout, stale, d, e, c, o, ok, j, x);
      } else {
        LooseIs(s0, layout, s1, d, e, j, x);
      }
    }

    /**
      Creates the file `path` with contents `data`. The sum of the size and 511 is taken in 32
      bits; where it wraps, the entry is made without any sector.
     */
    method CreateMountedFile(path: string, data: seq<Byte>) returns (ok: bool)
      requires Valid() && layout.tree.root in layout.tree.dirs && |data| < 0x1_0000_0000
      modifies fat, this`disk, this`st, this`dirty, this`files, this`layout
      ensures |data| + 511 < 0x1_0000_0000 ==> Valid() && CreateResult(old(st), old(layout), st, layout, stale, path, data, ok)
      ensures |data| + 511 >= 0x1_0000_0000 ==> Sized() && LooseResult(old(st), old(layout), st, path, |data|, ok)
      ensures !ok ==> Valid()
    {
      hide WellFormed, BaseOk, HeaderSaved, Walk, Find, FirstEmpty, Components, TreeOk, AllocResult, AddResult, Attachable, IsChain, DirIs, PathsAdded, FreeSet, LooseAdded, FinalName, ParentPart;
      ghost var s0, l0 := st, layout;
      RootFacts(st, layout);
      var split, parent, name := SplitLast(path);
      if !split { return false; }
      DirFacts(s0, l0, parent);
      var exists_, _, _, _ := FindEntryIn(parent, name, layout.chains[parent], layout.tree.dirs[parent]);
      if exists_ { return false; }
      var enough, start, c := AllocateFile(data);
      ghost var s1 := st;
      if !enough {
        SomethingCounted(s0, s1, data, c, start);
        AllocationFails(s0, l0, s1, stale, path, data, c, start);
        return false;
      }
      if |data| + 511 < 0x1_0000_0000 {
        AllocationSucceeds(s0, l0, stale, s1, data, c, start, name);
      } else {
        NothingCounted(s0, s1, data, c, start);
      }
      var added, j, x := AddEntry(parent, Entry(StoredName(name), FlagFile, start, |data|), c, NewFile(Padded(data)));
      if |data| + 511 < 0x1_0000_0000 {
        CreationEnds(s0, l0, s1, st, layout, stale, path, data, parent, c, start, added, j, x);
      } else {
        LooseEnds(s0, l0, stale, st, layout, path, |data|, parent, NewFile(Padded(data)), added, j, x);
      }
      return added;
    }

    /** Creates the file `path`; when no volume is mounted the disk is formatted first. */
    method CreateFile(path: string, data: seq<Byte>) returns (ok: bool, ghost before: Fs, ghost was: Layout)
      requires Sized() && (root < 2 || Valid()) && |data| < 0x1_0000_0000
      modifies this, fat
      ensures ValidFs(before, was, stale) && was.tree.root in was.tree.dirs
      ensures old(root) >= 2 ==> before == old(st) && was == old(layout) && stale == old(stale)
      ensures old(root) < 2 ==> was == EmptyLayout(root) && stale == {}
      ensures |data| + 511 < 0x1_0000_0000 ==> Valid() && CreateResult(before, was, st, layout, stale, path, data, ok)
      ensures |data| + 511 >= 0x1_0000_0000 ==> Sized() && LooseResult(before, was, st, path, |data|, ok)
    {
      hide ValidFs, CreateResult, BaseOk, LooseResult;
      if root < 2 { Format(); }
      ValidRoot(st, layout, stale);
      before, was := st, layout;
      ok := CreateMountedFile(path, data);
    }

    /** Creates the folder `path`: one empty directory sector and an entry in the parent. */
    method CreateFolder(path: string) returns (ok: bool)
      requires Valid() && layout.tree.root in layout.tree.dirs
      modifies fat, this`disk, this`st, this`dirty, this`files, this`layout, this`stale
      ensures Valid() && FolderResult(old(st), old(layout), st, layout, old(stale), stale, path, ok)
    {
      hide WellFormed, Walk, Find, FirstEmpty, Components, TreeOk, AddResult, Attachable, IsChain, DirIs, PathsAdded, OutOfSync, Saved, Allocated;
      ghost var s0, l0 := st, layout;
      RootFacts(st, layout);
      var split, parent, name := SplitLast(path);
      if !split { return false; }
      DirFacts(s0, l0, parent);
      var exists_, _, _, _ := FindEntryIn(parent, name, layout.chains[parent], layout.tree.dirs[parent]);
      if exists_ { return false; }
      var newSec := FindFreeSector();
      if newSec == 0 { return false; }
      NothingTaken(st);
      LinkAndFill([], 0, newSec, DirSector(EmptySlots(16)), st, []);
      assert [] + [newSec] == [newSec] && [] + [DirSector(EmptySlots(SLOTS))] == [DirSector(EmptySlots(SLOTS))];
      ghost var s1 := st;
      hide FreeSet;
      FolderAllocated(s0, l0, stale, s1, newSec, name);
      var added, j, x := AddEntry(parent, Entry(StoredName(name), FlagFolder, newSec, 0), [newSec], NewDir(EmptySlots(SLOTS)));
      if added {
        FolderEnds(s0, l0, s1, st, layout, stale, path, parent, newSec, j, x);
        return true;
      }
      AddFailed(s1, l0, st, layout, stale, parent, Entry(StoredName(name), FlagFolder, newSec, 0), [newSec], NewDir(EmptySlots(SLOTS)), j, x);
      GiveUpFolder(newSec, s0, path, parent);
      return false;
    }

    /** The rollback: the sector is free again in memory only. */
    method GiveUpFolder(newSec: nat, ghost s0: Fs, ghost path: string, ghost parent: nat)
      requires Sized() && dirty == {} && BaseOk(st, stale, {}) && ValidFs(s0, layout, stale) && SameHeader(s0, st)
      requires layout.tree.root in layout.tree.dirs && parent in layout.tree.dirs
      requires Allocated(s0, st, [newSec], [DirSector(EmptySlots(SLOTS))]) && FreeSet(s0) == {newSec}
      requires FirstEmpty(layout.tree.dirs[parent]) == |layout.tree.dirs[parent]| && FinalName(path) != ""
      requires Walk(layout.tree, Components(ParentPart(path))) == Some(parent)
      requires Find(layout.tree.dirs[parent], FinalName(path)) == |layout.tree.dirs[parent]|
      modifies fat, this`st, this`stale
      ensures Valid() && FolderResult(s0, layout, st, layout, old(stale), stale, path, false)
    {
      hide WellFormed, Walk, Find, FirstEmpty, Components, Saved, Allocated, FreeSet, OutOfSync, BaseOk, FatSectors, FinalName, ParentPart, FolderResult;
      ghost var s1 := st;
      SoleSector(s0, s1, newSec, DirSector(EmptySlots(SLOTS)));
      fat[newSec] := FAT_FREE;
      st := st.(fat := st.fat[newSec := FAT_FREE]);
      assert fat[..] == st.fat;
      RollbackEnds(s0, layout, stale, s1, st, path, parent, newSec);
      stale := stale + {newSec};
      FolderIsValid(s0, layout, st, old(stale), stale, path);
    }

    // -------------------------------------------------------------- deletion

    /** Gives every sector of the chain starting at `start` back. */
    method FreeChain(start: nat, ghost c: seq<nat>)
      requires Base() && dirty == {} && IsChain(st.fat, root, total, c) && c[0] == start
      modifies fat, this`disk, this`st, this`dirty
      ensures Base() && dirty == {} && ChainFreed(old(st), st, c, |c|)
    {
      hide Saved;
      ghost var s0 := st;
      FatCovers(total);
      var curr := start;
      ghost var i := 0;
      while curr != FAT_EOF && curr != FAT_FREE
        invariant Base() && dirty == {} && 0 <= i <= |c| && ChainFreed(s0, st, c, i)
        invariant curr == if i < |c| then c[i] else FAT_EOF
        decreases |c| - i
      {
        ghost var s1 := st;
        UnfreedLink(s0, s1, c, i);
        var next := fat[curr];
        SetLink(curr, FAT_FREE);
        SyncFat(curr);
        FreeOne(s0, s1, st, c, i);
        curr := next;
        i := i + 1;
      }
    }

    /** Deletes the file `path`; folders and missing paths are refused. */
    method DeleteFile(path: string) returns (removed: bool)
      requires Valid() && layout.tree.root in layout.tree.dirs
      modifies fat, this`disk, this`st, this`dirty, this`files, this`layout
      ensures Valid() && DeleteResult(old(st), old(layout), st, layout, stale, path, removed)
    {
      hide WellFormed, Walk, Find, Components, TreeOk, IsChain, DirIs, FileIs, PathsRemoved, Saved, ChainFreed, HomesOk, Deleted;
      ghost var s0, l0 := st, layout;
      RootFacts(st, layout);
      WellFormedHomes(s0, l0);
      var split, parent, name := SplitLast(path);
      if !split { return false; }
      DirFacts(s0, l0, parent);
      ghost var dc, slots := l0.chains[parent], l0.tree.dirs[parent];
      var found, entry, dirSec, dirIdx := FindEntryIn(parent, name, dc, slots);
      if !found || entry.flag == FlagFolder { return false; }
      ghost var j := Find(slots, name);
      EntryFacts(l0.tree, l0.home, parent, j);
      FileFacts(s0, l0, entry.start);
      SlotSector(s0.fat, s0.root, s0.total, s0.disk, dc, slots, j);
      HomeCounted(s0, l0, entry.start);
      FreeChain(entry.start, l0.chains[entry.start]);
      ghost var s1 := st;
      FreedShape(s0, s1, l0.chains[entry.start]);
      var sector := disk[dirSec];
      WriteSector(dirSec, DirSector(sector.slots[dirIdx := sector.slots[dirIdx].(flag := FlagEmpty)]));
      files := files - 1;
      st := st.(files := files);
      assert Base();
      WriteSector(0, HeaderSector(root, files));
      EmptiedSlot(s0, s1, st, l0.chains[entry.start], dc, slots, j);
      DeletionEnds(s0, l0, stale, st, path, parent, entry.start);
      layout := Unregistered(l0, entry.start, parent, j);
      removed := true;
    }

    // --------------------------------------------------------------- reading

    /** Copies the first `size` bytes of the file on chain `c`. */
    method ReadChain(start: nat, size: nat, ghost c: seq<nat>, ghost bytes: seq<Byte>) returns (out: seq<Byte>)
      requires Sized() && root >= 2 && IsChain(st.fat, root, total, c) && c[0] == start
      requires FileIs(st.disk, c, bytes) && size <= |bytes|
      ensures out == bytes[..size]
    {
      FatCovers(total);
      var curr, remaining := start, size;
      out := [];
      ghost var i := 0;
      while curr != FAT_EOF && curr != FAT_FREE && remaining > 0
        invariant 0 <= i <= |c| && curr == if i < |c| then c[i] else FAT_EOF
        invariant |out| == (if SECTOR * i <= size then SECTOR * i else size) && remaining == size - |out|
        invariant out == bytes[..|out|]
        decreases |c| - i
      {
        var temp := disk[curr].bytes;
        assert temp == bytes[SECTOR * i..SECTOR * i + SECTOR];
        var chunk := if remaining > 512 then 512 else remaining;
        assert bytes[..|out| + chunk] == bytes[..|out|] + temp[..chunk];
        out := out + temp[..chunk];
        remaining := remaining - chunk;
        assert st.fat[c[i]] == fat[c[i]];
        curr := fat[curr];
        i := i + 1;
      }
    }

    /** Reads what `path` denotes into a buffer of `capacity` bytes. */
    method ReadToBuffer(path: string, capacity: nat) returns (ok: bool, out: seq<Byte>)
      requires Valid() && layout.tree.root in layout.tree.dirs
      ensures ok <==> FinalName(path) != "" && View(layout.tree, Target(path)).Some? && NodeSize(View(layout.tree, Target(path)).value) <= capacity
      ensures ok ==> out == NodeBytes(View(layout.tree, Target(path)).value)
    {
      hide WellFormed, Walk, Find, Components, TreeOk, IsChain, DirIs, FileIs, View, HomesOk, Saved;
      RootFacts(st, layout);
      WellFormedHomes(st, layout);
      var split, parent, name := SplitLast(path);
      if !split {
        if name != "" { NotFoundIsNoView(layout.tree, path); }
        return false, [];
      }
      DirFacts(st, layout, parent);
      FoundIsView(layout.tree, layout.home, path, parent);
      var found, entry, _, _ := FindEntryIn(parent, name, layout.chains[parent], layout.tree.dirs[parent]);
      if !found || entry.size > capacity { return false, []; }
      if entry.size == 0 { return true, []; }
      FileFacts(st, layout, entry.start);
      out := ReadChain(entry.start, entry.size, layout.chains[entry.start], layout.tree.files[entry.start]);
      return true, out;
    }

    /** Lists the live entries of the directory `path`, at most `maxEntries` of them. */
    method GetFileList(path: string, maxEntries: int) returns (list: seq<Info>)
      requires Valid() && layout.tree.root in layout.tree.dirs
      ensures var d := Walk(layout.tree, Components(path));
              list == if d.None? then [] else Take(Listing(layout.tree.dirs[d.value]), maxEntries)
      ensures maxEntries >= 0 ==> |list| <= maxEntries
      ensures ItemsAreViews(layout.tree, Components(path), list)
      ensures |list| < maxEntries && Walk(layout.tree, Components(path)).Some? ==> EveryNameListed(layout.tree, Components(path), list)
    {
      hide WellFormed, Walk, Components, TreeOk, IsChain, DirIs, Listing, Saved, ItemIsView, EveryNameListed, Take, HomesOk;
      assert ItemsAreViews(layout.tree, Components(path), []);
      hide ItemsAreViews;
      RootFacts(st, layout);
      var ok, dir := ResolveDir(path);
      if !ok { return []; }
      DirFacts(st, layout, dir);
      WellFormedHomes(st, layout);
      ListingIsView(layout.tree, layout.home, Components(path), dir);
      PartIsView(layout.tree, Components(path), Listing(layout.tree.dirs[dir]), maxEntries);
      list := ListChain(dir, maxEntries, layout.chains[dir], layout.tree.dirs[dir]);
    }

    method ListChain(dir: nat, maxEntries: int, ghost c: seq<nat>, ghost slots: seq<Entry>) returns (list: seq<Info>)
      requires Sized() && root >= 2 && IsChain(st.fat, root, total, c) && c[0] == dir && DirIs(st.disk, c, slots)
      ensures list == Take(Listing(slots), maxEntries)
    {
      hide Listing;
      FatCovers(total);
      list := [];
      ghost var i := 0;
      var curr := dir;
      ListingGrows(slots, 0);
      NothingListed(slots);
      while curr != FAT_EOF && curr != FAT_FREE && |list| < maxEntries
        invariant 0 <= i <= |c| && curr == if i < |c| then c[i] else FAT_EOF
        invariant |list| < maxEntries ==> list == Listing(slots[..SLOTS * i])
        invariant |list| >= maxEntries ==> list == Take(Listing(slots), maxEntries)
        decreases |c| - i
      {
        var entries := disk[curr].slots;
        assert entries == slots[SLOTS * i..SLOTS * i + SLOTS];
        var k := 0;
        while k < 16
          invariant 0 <= k <= 16
          invariant |list| < maxEntries && list == Listing(slots[..SLOTS * i + k])
        {
          assert entries[k] == slots[SLOTS * i + k];
          ListingSnoc(slots, SLOTS * i + k);
          if Live(entries[k]) {
            list := list + [InfoOf(entries[k])];
            if |list| >= maxEntries {
              ListingGrows(slots, SLOTS * i + k + 1);
              return;
            }
          }
          k := k + 1;
        }
        assert st.fat[c[i]] == fat[c[i]];
        curr := fat[curr];
        i := i + 1;
      }
      assert slots[..|slots|] == slots;
    }

    // ------------------------------------------------------------ formatting

    /** Marks the header, the table and the root directory as used and everything else as free. */
    method ClearTable(rootSector: nat)
      requires GoodSize(total) && fat.Length == LINKS * FatSectors(total) && rootSector == 1 + FatSectors(total)
      modifies fat
      ensures fat[rootSector] == FAT_EOF
      ensures forall x :: rootSector < x < total ==> fat[x] == FAT_FREE
    {
      FatCovers(total);
      var i := 0;
      while i < total
        invariant 0 <= i <= total
        invariant forall x :: 0 <= x < i ==> fat[x] == FAT_FREE
      {
        fat[i] := FAT_FREE;
        i := i + 1;
      }
      fat[0] := FAT_EOF;
      i := 1;
      while i < rootSector
        invariant 1 <= i <= rootSector
        invariant forall x :: rootSector <= x < total ==> fat[x] == FAT_FREE
      {
        fat[i] := FAT_EOF;
        i := i + 1;
      }
      fat[rootSector] := FAT_EOF;
    }

    /** Writes the first `n` sectors of the table, by value, behind the header. */
    method WriteTable(n: nat)
      requires n < |disk| && LINKS * n <= fat.Length
      modifies this`disk
      ensures |disk| == |old(disk)| && disk[0] == old(disk)[0]
      ensures TableWritten(disk, fat[..], n)
    {
      hide FatSectors;
      var i := 0;
      while i < n
        invariant 0 <= i <= n && |disk| == |old(disk)| && disk[0] == old(disk)[0]
        invariant forall k :: 0 <= k < i ==> disk[1 + k] == FatSector(fat[LINKS * k..LINKS * k + LINKS])
      {
        disk := disk[1 + i := FatSector(fat[LINKS * i..LINKS * i + LINKS])];
        i := i + 1;
      }
      forall k | 0 <= k < n
        ensures disk[1 + k] == FatSector(fat[..][LINKS * k..LINKS * k + LINKS])
      {
        assert fat[LINKS * k..LINKS * k + LINKS] == fat[..][LINKS * k..LINKS * k + LINKS];
      }
    }

    /** Formats the disk: empty table, empty root directory, fresh header. */
    method Format()
      requires Sized()
      modifies this, fat
      ensures Valid() && layout == EmptyLayout(root) && stale == {} && root == 1 + FatSectors(total) && files == 0
      ensures FormatResult(old(st), st, layout)
      ensures forall x :: x in FreeSet(st) <==> root < x < total
    {
      hide ValidFs, TableWritten, EmptySlots, EmptyLayout, FreeSet;
      FatCovers(total);
      var n := FatSectors(total);
      root, files := 1 + n, 0;
      ClearTable(root);
      disk := disk[0 := HeaderSector(root, files)];
      WriteTable(n);
      ghost var written := disk;
      disk := disk[root := DirSector(EmptySlots(16))];
      st := Fs(total, fat[..], disk, root, files);
      layout, stale, dirty := EmptyLayout(root), {}, {};
      TableKept(written, disk, st.fat, n, root);
      FormattedIsValid(st);
      FormattedIsFree(st);
    }

    // -------------------------------------------------------------- mounting

    /** Reads the table back from the disk. */
    method ReadTable(n: nat)
      requires HasTable(disk, n) && fat.Length == LINKS * n
      modifies fat
      ensures forall x :: 0 <= x < LINKS * n ==> fat[x] == DiskLink(disk, n, x)
    {
      var i := 0;
      while i < n
        invariant 0 <= i <= n
        invariant forall x :: 0 <= x < LINKS * i ==> fat[x] == DiskLink(disk, n, x)
      {
        var links := disk[1 + i].links;
        var k := 0;
        while k < 128
          invariant 0 <= k <= 128
          invariant forall x :: 0 <= x < LINKS * i + k ==> fat[x] == DiskLink(disk, n, x)
        {
          fat[LINKS * i + k] := links[k];
          assert DiskLink(disk, n, LINKS * i + k) == links[k];
          k := k + 1;
        }
        i := i + 1;
      }
    }

    /** A disk that is attached but not yet mounted. */
    constructor (total: nat, image: seq<Sector>)
      requires GoodSize(total) && |image| == total
      ensures this.total == total && Sized() && root == 0 && disk == image && fresh(fat)
    {
      this.total := total;
      fat := new nat[LINKS * FatSectors(total)];
      disk := image;
      root, files := 0, 0;
      layout, stale, dirty := EmptyLayout(0), {}, {};
      new;
      st := Fs(total, fat[..], disk, root, files);
    }

    /**
      Mounts the disk: formats it unless it carries the header, and otherwise
      reads header and table. `prior` is the volume last seen on that disk.
     */
    method Init(ghost prior: Fs, ghost l: Layout, ghost lost: set<nat>)
      requires Sized()
      requires disk[0].HeaderSector? ==> prior.total == total && prior.disk == disk && ValidFs(prior, l, lost)
      modifies this, fat
      ensures Valid() && stale == {}
      ensures old(disk)[0].HeaderSector? ==> layout == l && MountOf(prior, lost, st)
      ensures !old(disk)[0].HeaderSector? ==> layout == EmptyLayout(root)
    {
      hide ValidFs, MountOf, EmptyLayout;
      if !disk[0].HeaderSector? {
        Format();
        return;
      }
      ValidHasTable(prior, l, lost);
      root, files := disk[0].rootDir, disk[0].fileCount;
      ReadTable(FatSectors(total));
      st := Fs(total, fat[..], disk, root, files);
      layout, stale, dirty := l, {}, {};
      MountedIsValid(prior, l, lost, st);
    }
  }

  lemma ChainStarts(fat: seq<nat>, lo: nat, hi: nat, c: seq<nat>, disk: seq<Sector>, slots: seq<Entry>)
    requires IsChain(fat, lo, hi, c) && DirIs(disk, c, slots)
    ensures |c| > 0 && |slots| == SLOTS * |c| && lo <= c[0] < hi
  {
  }

  /** The `i`-th sector of a directory's chain: its entries and where the chain goes on. */
  lemma DirSectorAt(fat: seq<nat>, lo: nat, hi: nat, c: seq<nat>, disk: seq<Sector>, slots: seq<Entry>, i: nat)
    requires IsChain(fat, lo, hi, c) && DirIs(disk, c, slots) && i < |c|
    ensures lo <= c[i] < hi && c[i] < |disk| && c[i] < |fat| && SLOTS * i + SLOTS <= |slots|
    ensures disk[c[i]] == DirSector(slots[SLOTS * i..SLOTS * i + SLOTS])
    ensures fat[c[i]] == (if i + 1 < |c| then c[i + 1] else FAT_EOF) && (i + 1 < |c| ==> lo <= c[i + 1] < hi)
  {
  }

  lemma NoneNamed(slots: seq<Entry>, entries: seq<Entry>, name: string, n: nat, k: nat)
    requires n + |entries| <= |slots| && entries == slots[n..n + |entries|] && k <= |entries|
    requires forall m :: 0 <= m < n ==> !Named(slots[m], name)
    requires forall m :: 0 <= m < k ==> !Named(entries[m], name)
    ensures forall m :: 0 <= m < n + k ==> !Named(slots[m], name)
    ensures k < |entries| ==> entries[k] == slots[n + k]
  {
    forall m | 0 <= m < n + k ensures !Named(slots[m], name) {
      if m >= n { assert entries[m - n] == slots[m]; }
    }
  }

  lemma AllLive(slots: seq<Entry>, entries: seq<Entry>, n: nat, k: nat)
    requires n + |entries| <= |slots| && entries == slots[n..n + |entries|] && k <= |entries|
    requires forall m :: 0 <= m < n ==> Live(slots[m])
    requires forall m :: 0 <= m < k ==> Live(entries[m])
    ensures forall m :: 0 <= m < n + k ==> Live(slots[m])
    ensures k < |entries| ==> entries[k] == slots[n + k]
  {
    forall m | 0 <= m < n + k ensures Live(slots[m]) {
      if m >= n { assert entries[m - n] == slots[m]; }
    }
  }
}
