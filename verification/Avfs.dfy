/** The RAM filesystem: its arrays, and the operations that change them in place. */
module Avfs {
  import opened Bits
  import opened AvfsPath
  import opened AvfsBlocks

  class FileSystem {
    const data: array<u8>
    const files: array<Entry>
    const bitmap: array<bool>
    var cwd: seq<string>
    ghost var owner: seq<int>

    ghost predicate Shape() {
      data.Length == DATA_SIZE && files.Length == MAX_FILES && bitmap.Length == NUM_BLOCKS
    }

    /** What every operation keeps: a tree of entries with directories below directories, blocks that match it, a clean
        current directory. */
    ghost predicate Valid()
      reads this, files, bitmap
    {
      Shape() && Tree(files[..]) && Nested(files[..]) && Alloc(files[..], bitmap[..], owner) && Clean(cwd)
    }

    /** Nothing is different from an earlier state. */
    twostate predicate Untouched()
      reads this, files, bitmap, data
    {
      files[..] == old(files[..]) && bitmap[..] == old(bitmap[..]) && data[..] == old(data[..])
    }

    constructor ()
      ensures Valid() && fresh(data) && fresh(files) && fresh(bitmap) && cwd == []
      ensures files[0] == Entry("/", 0, 0, true, true, -1) && forall i :: 0 < i < MAX_FILES ==> files[i] == BLANK
      ensures forall b :: 0 <= b < NUM_BLOCKS ==> !bitmap[b]
      ensures files.Length == 512 && bitmap.Length == 32768 && data.Length == 32768 * 512
    {
      data := new u8[DATA_SIZE](_ => 0);
      files := new Entry[MAX_FILES](_ => BLANK);
      bitmap := new bool[NUM_BLOCKS](_ => false);
      cwd := [];
      owner := seq(NUM_BLOCKS, _ => -1);
      new;
      files[0] := Entry("/", 0, 0, true, true, -1);
      assert DirAt(files[..], 0, 0);
    }

    // Helpers.

    /** The first run of count free blocks, or -1 if there is none. */
    method FindFreeBlocks(count: int) returns (r: int)
      requires Shape()
      ensures count <= 0 ==> r == -1
      ensures r >= 0 ==> count > 0 && FirstFit(bitmap[..], count, r)
      ensures r < 0 ==> r == -1 && (count > 0 ==> forall s :: !FreeRun(bitmap[..], s, count))
    {
      if count <= 0 {
        return -1;
      }
      var consecutive := 0;
      for i := 0 to NUM_BLOCKS
        invariant 0 <= consecutive <= i && consecutive < count
        invariant FreeRun(bitmap[..], i - consecutive, consecutive)
        invariant consecutive < i ==> bitmap[i - consecutive - 1]
        invariant forall s :: s + count <= i ==> !FreeRun(bitmap[..], s, count)
      {
        if !bitmap[i] {
          consecutive := consecutive + 1;
          if consecutive == count {
            return i - count + 1;
          }
        } else {
          consecutive := 0;
        }
      }
      return -1;
    }

    /** Marks or unmarks a run of blocks. */
    method MarkRun(a: nat, n: nat, v: bool)
      requires Shape() && a + n <= NUM_BLOCKS
      modifies bitmap
      ensures bitmap[..] == SetRun(old(bitmap[..]), a, n, v)
    {
      for i := a to a + n
        invariant forall k :: 0 <= k < NUM_BLOCKS ==> bitmap[k] == if a <= k < i then v else old(bitmap[k])
      {
        bitmap[i] := v;
      }
    }

    /** Copies bytes from a buffer into the data. */
    method CopyIn(dst: nat, buffer: seq<u8>)
      requires Shape() && dst + |buffer| <= DATA_SIZE
      modifies data
      ensures data[..] == Spliced(old(data[..]), dst, buffer)
    {
      for k := 0 to |buffer|
        invariant data[..] == Spliced(old(data[..]), dst, buffer[..k])
      {
        data[dst + k] := buffer[k];
      }
      assert buffer[..|buffer|] == buffer;
    }

    /** Copies bytes inside the data in ascending order, which is right when the target is not above the source. */
    method CopyDown(dst: nat, src: nat, n: nat)
      requires Shape() && dst + n <= DATA_SIZE && src + n <= DATA_SIZE
      requires dst <= src || src + n <= dst
      modifies data
      ensures data[..] == Spliced(old(data[..]), dst, old(data[src..src + n]))
    {
      hide Spliced;
      ghost var d := data[..];
      SpliceNone(d, dst);
      assert d[src..src + 0] == [];
      for k := 0 to n
        invariant data[..] == Spliced(d, dst, d[src..src + k])
      {
        assert data[src + k] == data[..][src + k] == d[src + k];
        SpliceNext(d, dst, d[src..src + k], d[src + k]);
        assert d[src..src + k] + [d[src + k]] == d[src..src + (k + 1)];
        data[dst + k] := data[src + k];
      }
    }

    method FindByPath(p: Path) returns (r: int)
      requires Shape()
      ensures r == Lookup(files[..], Normalized(cwd, p))
    {
      var parts := NormalizePath(cwd, p);
      r := FindEntry(files, parts);
    }

    /** The components a file operation looks up: a bare name is put behind the current directory. */
    function FileParts(p: Path): seq<string>
      reads `cwd
    {
      if !p.absolute && |p.tokens| <= 1 then Normalized(cwd, Path(true, cwd + p.tokens)) else Normalized(cwd, p)
    }

    method FindFile(p: Path) returns (r: int)
      requires Shape()
      ensures r == Lookup(files[..], FileParts(p))
    {
      if !p.absolute && |p.tokens| <= 1 {
        r := FindByPath(Path(true, cwd + p.tokens));
      } else {
        r := FindByPath(p);
      }
    }

    /** Both ways of looking up agree, except on the empty name: there the file operations take the current directory
        and the others the root. */
    lemma FilePartsAgree(p: Path)
      requires Clean(cwd)
      ensures FileParts(p) == if !p.absolute && p.tokens == [] then cwd else Normalized(cwd, p)
    {
      if !p.absolute && p.tokens == [] {
        WalkAppends([], cwd);
        assert cwd + p.tokens == cwd && [] + cwd == cwd;
      } else if !p.absolute {
        RelativeIsAbsolute(cwd, p, cwd);
      }
    }

    /** The first unused entry. */
    method FindSlot() returns (r: int)
      requires Shape()
      ensures -1 <= r < MAX_FILES && (r >= 0 ==> !files[r].used)
      ensures r < 0 ==> forall i :: 0 <= i < MAX_FILES ==> files[i].used
    {
      for i := 0 to MAX_FILES
        invariant forall j :: 0 <= j < i ==> files[j].used
      {
        if !files[i].used {
          return i;
        }
      }
      return -1;
    }

    // Operations on files.

    /** A new file of the given size, on the first run of blocks that is long enough. The error codes are tried in
        this order: it exists, no space, no parent, no free entry. The parent's type is not looked at. A size for
        which the block count overflows gets too few blocks, and that is the only way to lose the invariant. */
    method CreateFile(p: Path, size: u32) returns (r: int)
      requires Valid() && ValidPath(p)
      modifies `owner, files, bitmap
      ensures Valid() <==> r != 0 || size <= 0xFFFFFE00
      ensures r != 0 ==> Untouched()
      ensures var fs, parts := old(files[..]), Normalized(cwd, p);
              r == if Lookup(fs, parts) != -1 then -1
                   else if forall s :: !FreeRun(old(bitmap[..]), s, CountBlocks(size)) then -2
                   else if Lookup(fs, parts[..|parts| - 1]) == -1 then -5
                   else if forall i :: 0 <= i < MAX_FILES ==> fs[i].used then -3
                   else 0
      ensures r == 0 ==>
                var fs, parts := old(files[..]), Normalized(cwd, p);
                var i := Lookup(files[..], parts);
                && 0 < i < MAX_FILES && !fs[i].used && files[..] == fs[i := files[i]]
                && files[i] == Entry(parts[|parts| - 1], size, files[i].start, true, false,
                                     Lookup(fs, parts[..|parts| - 1]))
                && FirstFit(old(bitmap[..]), CountBlocks(size), files[i].start)
    {
      hide Alloc, Tree, Nested, Lookup, Child, Normalized, FirstFit, FreeRun, SetRun, BlocksOf, CountBlocks;
      ghost var fs, bm := files[..], bitmap[..];
      var parts := NormalizePath(cwd, p);
      NormalizedClean(cwd, p);
      NormalizedTwice(cwd, p, cwd);
      ParentFound(fs, parts);
      var existing := FindByPath(Path(true, parts));
      if existing != -1 {
        return -1;
      }
      RootFound(fs, parts);
      CountIsRight(size);
      var blocks := CountBlocks(size);
      var start := FindFreeBlocks(blocks);
      if start < 0 {
        return -2;
      }
      FirstIsFree(bm, blocks, start);
      AllocSizes(fs, bm, owner);
      var up := parts[..|parts| - 1];
      ParentParts(cwd, parts);
      ParentFound(fs, up);
      var parent := FindByPath(Path(true, up));
      if parent == -1 {
        return -5;
      }
      var slot := FindSlot();
      if slot == -1 {
        return -3;
      }
      MarkRun(start, blocks, true);
      var e := Entry(parts[|parts| - 1], size, start, true, false, parent);
      NewChild(fs, parts);
      RootUsed(fs);
      TreeWith(fs, slot, e);
      NestedWith(fs, slot, e, 0);
      if size <= 0xFFFFFE00 {
        AllocTake(fs, bm, owner, slot, e);
      }
      LookupAdded(fs, slot, e, parts);
      files[slot] := e;
      owner := SetRun(owner, start, blocks, slot);
      if size > 0xFFFFFE00 {
        AllocBounds(files[..], bitmap[..], owner, slot);
      }
      assert files[..] == fs[slot := e];
      return 0;
    }

    /** What a file operation on an existing file answers before it looks at sizes. */
    function Refusal(p: Path): int
      requires Shape()
      reads `cwd, files
    {
      var i := Lookup(files[..], FileParts(p));
      if i < 0 then -1 else if i < MAX_FILES && files[i].isDir then -3 else 0
    }

    /** The entry a file operation works on. */
    ghost function Target(p: Path): (i: int)
      requires Valid() && Refusal(p) == 0
      reads this, files, bitmap
      ensures 0 <= i < MAX_FILES && IsFile(files[i])
    {
      ParentFound(files[..], FileParts(p));
      Lookup(files[..], FileParts(p))
    }

    method FindTarget(p: Path) returns (r: int, i: int)
      requires Valid()
      ensures r == Refusal(p)
      ensures r == 0 ==> i == Target(p)
    {
      ParentFound(files[..], FileParts(p));
      i := FindFile(p);
      if i == -1 {
        return -1, i;
      }
      if files[i].isDir {
        return -3, i;
      }
      return 0, i;
    }

    /** Writing replaces bytes inside the file's size and changes no other file. */
    method WriteFile(p: Path, buffer: seq<u8>, offset: nat) returns (r: int)
      requires Valid() && offset + |buffer| < 0x1_0000_0000
      modifies data
      ensures r == if Refusal(p) != 0 then Refusal(p) else if offset + |buffer| > files[Target(p)].size then -2 else 0
      ensures r != 0 ==> data[..] == old(data[..])
      ensures r == 0 ==>
                var i, before := Target(p), old(data[..]);
                && offset + |buffer| <= |Content(files[i], before)|
                && Content(files[i], data[..]) == Spliced(Content(files[i], before), offset, buffer)
                && OthersKept(files[..], before, files[..], data[..], i)
    {
      hide Alloc, Tree, Nested, Lookup, BlocksOf, OthersKept, Spliced, Content, Refusal, FileParts, OnlyBlocks;
      var i;
      r, i := FindTarget(p);
      if r != 0 {
        return;
      }
      ghost var fs, d := files[..], data[..];
      if offset + |buffer| > files[i].size {
        return -2;
      }
      ExtentFits(fs, bitmap[..], owner, i);
      var start := files[i].start * BLOCK_SIZE + offset;
      if start + |buffer| > DATA_SIZE {
        return -4;
      }
      CopyIn(start, buffer);
      BlocksHold(files[i].size);
      ContentSize(files[i], d);
      SpliceOnly(d, start, buffer, files[i].start, BlocksOf(files[i].size));
      SpliceContent(files[i], d, offset, buffer);
      OthersUnharmed(fs, bitmap[..], owner, d, data[..], files[i].start, BlocksOf(files[i].size), i, files[i]);
      assert fs[i := files[i]] == fs;
    }

    /** Reading gives the bytes of the file. */
    method ReadFile(p: Path, size: nat, offset: nat) returns (r: int, bytes: seq<u8>)
      requires Valid() && offset + size < 0x1_0000_0000
      ensures r == if Refusal(p) != 0 then Refusal(p) else if offset + size > files[Target(p)].size then -2 else 0
      ensures r == 0 ==> offset + size <= |Content(files[Target(p)], data[..])|
      ensures r == 0 ==> bytes == Content(files[Target(p)], data[..])[offset..offset + size]
    {
      hide Alloc, Tree, Nested, Lookup, BlocksOf;
      bytes := [];
      var i;
      r, i := FindTarget(p);
      if r != 0 {
        return;
      }
      if offset + size > files[i].size {
        return -2, [];
      }
      ExtentFits(files[..], bitmap[..], owner, i);
      var start := files[i].start * BLOCK_SIZE + offset;
      bytes := data[start..start + size];
    }

    /** Moves a file to the first run of n1 blocks that is free once its own n0 blocks are; the size is left to the
        caller. Without such a run everything is as before. */
    method Relocate(i: nat, n0: nat, n1: nat) returns (ok: bool)
      requires Valid() && i < MAX_FILES && IsFile(files[i]) && n0 == BlocksOf(files[i].size) < n1
      modifies files, bitmap, data
      ensures ok <==> exists s :: FreeRun(Unmarked(old(files[..]), old(bitmap[..]), i), s, n1)
      ensures !ok ==> Untouched()
      ensures ok ==>
                var e, d := old(files[i]), old(data[..]);
                var s := files[i].start;
                && FreeRun(Unmarked(old(files[..]), old(bitmap[..]), i), s, n1) && s + n1 <= NUM_BLOCKS
                && files[..] == old(files[..])[i := e.(start := s)]
                && bitmap[..] == SetRun(Unmarked(old(files[..]), old(bitmap[..]), i), s, n1, true)
                && s * BLOCK_SIZE + e.size <= DATA_SIZE && e.start * BLOCK_SIZE + e.size <= DATA_SIZE
                && data[..] == Spliced(d, s * BLOCK_SIZE, d[e.start * BLOCK_SIZE..e.start * BLOCK_SIZE + e.size])
    {
      hide Alloc, Tree, Nested, FirstFit, FreeRun, SetRun, BlocksOf, Spliced;
      ghost var fs, bm := files[..], bitmap[..];
      var e := files[i];
      ExtentFits(fs, bm, owner, i);
      AllocSizes(fs, bm, owner);
      MarkedAgain(fs, bm, owner, i);
      BlocksHold(e.size);
      MarkRun(e.start, n0, false);
      var s := FindFreeBlocks(n1);
      if s < 0 {
        MarkRun(e.start, n0, true);
        return false;
      }
      FirstIsFree(bitmap[..], n1, s);
      OverlapMovesDown(bitmap[..], e.start, n0, n1, s);
      CopyDown(s * BLOCK_SIZE, e.start * BLOCK_SIZE, e.size);
      MarkRun(s, n1, true);
      files[i] := e.(start := s);
      assert files[..] == fs[i := e.(start := s)];
      return true;
    }

    /** Appending concatenates; it fails only when no run is long enough, not even counting the file's own blocks. */
    method AppendFile(p: Path, buffer: seq<u8>) returns (r: int)
      requires Valid() && DATA_SIZE + |buffer| <= 0xFFFFFE00
      modifies `owner, files, bitmap, data
      ensures Valid()
      ensures r != 0 ==> Untouched()
      ensures old(Refusal(p)) != 0 ==> r == old(Refusal(p))
      ensures old(Refusal(p)) == 0 ==>
                var i := old(Target(p));
                var n := BlocksOf(old(files[i]).size + |buffer|);
                r == if n > BlocksOf(old(files[i]).size)
                        && forall s :: !FreeRun(Unmarked(old(files[..]), old(bitmap[..]), i), s, n) then -2 else 0
      ensures r == 0 ==>
                var i := old(Target(p));
                var e := old(files[i]);
                && files[i] == e.(start := files[i].start, size := e.size + |buffer|)
                && Content(files[i], data[..]) == Content(e, old(data[..])) + buffer
                && OthersKept(old(files[..]), old(data[..]), files[..], data[..], i)
    {
      hide Alloc, Tree, Nested, Lookup, BlocksOf, Spliced, SetRun, FreeRun, Content, OthersKept, CountBlocks, Unmarked,
           Released;
      var i;
      r, i := FindTarget(p);
      if r != 0 {
        return;
      }
      ghost var fs, bm, d := files[..], bitmap[..], data[..];
      ExtentFits(fs, bm, owner, i);
      var oldSize := files[i].size;
      var newSize := oldSize + |buffer|;
      CountIsRight(oldSize);
      CountIsRight(newSize);
      BlocksGrow(oldSize, newSize);
      var oldBlocks, newBlocks := CountBlocks(oldSize), CountBlocks(newSize);
      if newBlocks > oldBlocks {
        var ok := Relocate(i, oldBlocks, newBlocks);
        if !ok {
          return -2;
        }
      }
      ghost var s := files[i].start;
      ghost var e' := fs[i].(start := s, size := newSize);
      if newBlocks > oldBlocks {
        FreeIsTakeable(fs, bm, owner, i, s, newBlocks);
      } else {
        SpliceSelf(d, s * BLOCK_SIZE, oldSize);
      }
      AllocSizes(fs, bm, owner);
      PlacedContent(fs, bm, owner, d, i, s, oldSize, buffer, e');
      ContentSize(fs[i], d);
      CopyIn(files[i].start * BLOCK_SIZE + oldSize, buffer);
      files[i] := files[i].(size := newSize);
      assert files[..] == fs[i := e'];
      if newBlocks > oldBlocks {
        AllocMove(fs, bm, owner, i, e');
        owner := SetRun(Released(fs, owner, i), s, newBlocks, i);
      } else {
        AllocStay(fs, bm, owner, i, e');
      }
      TreeSame(fs, i, e');
      NestedSame(fs, i, e');
      return 0;
    }

    /** Whether the blocks behind a file allow it to grow to newBlocks where it is. */
    method CanExtend(start: nat, oldBlocks: nat, newBlocks: nat) returns (ok: bool)
      requires Shape() && oldBlocks < newBlocks
      ensures ok <==> FreeRun(bitmap[..], start + oldBlocks, newBlocks - oldBlocks)
    {
      for i := start + oldBlocks to start + newBlocks
        invariant start + oldBlocks < i ==> i <= NUM_BLOCKS
        invariant forall b :: start + oldBlocks <= b < i ==> b < NUM_BLOCKS && !bitmap[b]
      {
        if i >= NUM_BLOCKS || bitmap[i] {
          return false;
        }
      }
      return true;
    }

    /** The bytes of a file of this entry after its size is set to n: its prefix, or its bytes followed by zeros if the
        number of blocks grows, or else by whatever the rest of its last block holds. */
    static ghost function Resized(e: Entry, d: seq<u8>, n: nat): seq<u8> {
      var c := Content(e, d);
      if n <= |c| then c[..n]
      else if BlocksOf(n) > BlocksOf(e.size) then c + Zeros(n - |c|)
      else Content(e.(size := n), d)
    }

    method Truncate(p: Path, newSize: int) returns (r: int)
      requires Valid() && newSize < 0x8000_0000
      modifies `owner, files, bitmap, data
      ensures Valid()
      ensures r != 0 ==> Untouched()
      ensures newSize < 0 ==> r == -5
      ensures newSize >= 0 && old(Refusal(p)) != 0 ==> r == old(Refusal(p))
      ensures newSize >= 0 && old(Refusal(p)) == 0 ==>
                var i := old(Target(p));
                r == if BlocksOf(newSize) > BlocksOf(old(files[i]).size)
                        && forall s :: !FreeRun(Unmarked(old(files[..]), old(bitmap[..]), i), s, BlocksOf(newSize))
                     then -2 else 0
      ensures r == 0 ==>
                var i := old(Target(p));
                var e := old(files[i]);
                && files[i] == e.(start := files[i].start, size := newSize)
                && Content(files[i], data[..]) == Resized(e, old(data[..]), newSize)
                && OthersKept(old(files[..]), old(data[..]), files[..], data[..], i)
                && (BlocksOf(newSize) <= BlocksOf(e.size) ==> files[i].start == e.start && data[..] == old(data[..]))
    {
      hide Alloc, Tree, Nested, Lookup, BlocksOf, Spliced, SetRun, FreeRun, Content, OthersKept, CountBlocks, Unmarked,
           Released, Zeros;
      if newSize < 0 {
        return -5;
      }
      var i;
      r, i := FindTarget(p);
      if r != 0 {
        return;
      }
      ghost var fs, bm, d := files[..], bitmap[..], data[..];
      var oldSize := files[i].size;
      ExtentFits(fs, bm, owner, i);
      ContentSize(fs[i], d);
      AllocSizes(fs, bm, owner);
      CountIsRight(oldSize);
      CountIsRight(newSize);
      var oldBlocks, newBlocks := CountBlocks(oldSize), CountBlocks(newSize);
      if newSize == oldSize {
        Unresized(fs, d, i);
        return 0;
      }
      if newBlocks <= oldBlocks {
        ShrinkTo(i, newSize, oldBlocks, newBlocks);
        return 0;
      }
      var ok := GrowTo(i, newSize, oldBlocks, newBlocks);
      return if ok then 0 else -2;
    }

    /** A new size that needs no more blocks: the blocks that are no longer needed are freed. */
    method ShrinkTo(i: nat, newSize: nat, oldBlocks: nat, newBlocks: nat)
      requires Valid() && i < MAX_FILES && IsFile(files[i])
      requires oldBlocks == BlocksOf(files[i].size) && newBlocks == BlocksOf(newSize) <= oldBlocks
      modifies `owner, files, bitmap
      ensures Valid() && files[i] == old(files[i]).(size := newSize)
      ensures Content(files[i], data[..]) == Resized(old(files[i]), data[..], newSize)
      ensures OthersKept(old(files[..]), data[..], files[..], data[..], i)
    {
      hide Alloc, Tree, Nested, BlocksOf, Spliced, SetRun, FreeRun, OthersKept, Unmarked, Released, Zeros;
      ghost var fs, bm, d := files[..], bitmap[..], data[..];
      var e := files[i];
      ghost var e' := e.(size := newSize);
      ExtentFits(fs, bm, owner, i);
      AllocSizes(fs, bm, owner);
      if newBlocks < oldBlocks {
        MarkRun(e.start + newBlocks, oldBlocks - newBlocks, false);
      }
      files[i] := files[i].(size := newSize);
      assert files[..] == fs[i := e'];
      EmptyRun(bm, e.start + newBlocks, false);
      ResizedInPlace(fs, bm, owner, i, newBlocks);
      AllocMove(fs, bm, owner, i, e');
      owner := SetRun(Released(fs, owner, i), e.start, newBlocks, i);
      TreeSame(fs, i, e');
      NestedSame(fs, i, e');
      OthersSame(fs, d, i, e');
    }

    method GrowTo(i: nat, newSize: nat, oldBlocks: nat, newBlocks: nat) returns (ok: bool)
      requires Valid() && i < MAX_FILES && IsFile(files[i])
      requires oldBlocks == BlocksOf(files[i].size) && newBlocks == BlocksOf(newSize) > oldBlocks
      modifies `owner, files, bitmap, data
      ensures Valid()
      ensures !ok ==> Untouched()
      ensures ok <==> exists s :: FreeRun(Unmarked(old(files[..]), old(bitmap[..]), i), s, newBlocks)
      ensures ok ==> files[i] == old(files[i]).(start := files[i].start, size := newSize)
      ensures ok ==> Content(files[i], data[..]) == Resized(old(files[i]), old(data[..]), newSize)
      ensures ok ==> OthersKept(old(files[..]), old(data[..]), files[..], data[..], i)
    {
      hide Alloc, Tree, Nested, BlocksOf, Spliced, SetRun, FreeRun, OthersKept, Unmarked, Released, Content;
      ghost var fs, bm, d := files[..], bitmap[..], data[..];
      var e := files[i];
      ExtentFits(fs, bm, owner, i);
      AllocSizes(fs, bm, owner);
      SpliceSelf(d, e.start * BLOCK_SIZE, e.size);
      ok := CanExtend(e.start, oldBlocks, newBlocks);
      if ok {
        RunFits(bm, e.start + oldBlocks, newBlocks - oldBlocks);
        MarkRun(e.start + oldBlocks, newBlocks - oldBlocks, true);
        ResizedInPlace(fs, bm, owner, i, newBlocks);
        InPlaceTakeable(fs, bm, owner, i, newBlocks);
      } else {
        ok := Relocate(i, oldBlocks, newBlocks);
        if !ok {
          return;
        }
        FreeIsTakeable(fs, bm, owner, i, files[i].start, newBlocks);
      }
      ghost var s := files[i].start;
      ghost var e' := e.(start := s, size := newSize);
      BlocksShrink(e.size, newSize);
      PlacedContent(fs, bm, owner, d, i, s, e.size, Zeros(newSize - e.size), e');
      ContentSize(e, d);
      CopyIn(files[i].start * BLOCK_SIZE + e.size, Zeros(newSize - e.size));
      files[i] := files[i].(size := newSize);
      assert files[..] == fs[i := e'];
      AllocMove(fs, bm, owner, i, e');
      owner := SetRun(Released(fs, owner, i), s, newBlocks, i);
      TreeSame(fs, i, e');
      NestedSame(fs, i, e');
    }

    /** Removing a file frees its blocks; a directory must be empty. Only an empty root is not refused although the
        file system is gone with it. */
    method RemoveFile(p: Path) returns (r: int)
      requires Valid()
      modifies `owner, files, bitmap
      ensures Valid() <==> r != 0 || Lookup(old(files[..]), old(FileParts(p))) != 0
      ensures r != 0 ==> Untouched()
      ensures var i := Lookup(old(files[..]), old(FileParts(p)));
              && r == (if i < 0 then -1
                       else if i < MAX_FILES && old(files[i].isDir)
                               && exists j :: 0 <= j < MAX_FILES && old(files[j]).used && old(files[j]).parent == i
                       then -2 else 0)
              && (r == 0 ==> 0 <= i < MAX_FILES && files[..] == old(files[..])[i := BLANK])
    {
      hide Alloc, Tree, Nested, Lookup, BlocksOf, SetRun, CountBlocks;
      ghost var fs, bm := files[..], bitmap[..];
      ParentFound(fs, FileParts(p));
      var i := FindFile(p);
      if i == -1 {
        return -1;
      }
      if files[i].isDir {
        for j := 0 to MAX_FILES
          invariant forall k :: 0 <= k < j ==> !(files[k].used && files[k].parent == i)
        {
          if files[j].used && files[j].parent == i {
            return -2;
          }
        }
      } else {
        ExtentFits(fs, bm, owner, i);
        CountIsRight(files[i].size);
        MarkRun(files[i].start, CountBlocks(files[i].size), false);
      }
      AllocDrop(fs, bm, owner, i, BLANK);
      AllocSizes(fs, bm, owner);
      TreeWithout(fs, i);
      if i > 0 {
        if !files[i].isDir {
          FileHoldsNone(fs, i);
        }
        NestedWithout(fs, i);
      }
      owner := Released(fs, owner, i);
      files[i] := BLANK;
      assert files[..] == fs[i := BLANK];
      return 0;
    }

    /** Saving replaces the whole contents of a file, which is created if need be. An existing file keeps its old
        bytes until the new ones have blocks of their own. */
    method SaveFile(p: Path, buffer: seq<u8>, overwrite: bool) returns (r: int)
      requires Valid() && ValidPath(p)
      modifies `owner, files, bitmap, data
      ensures Valid()
      ensures r != 0 ==> Untouched()
      ensures r == 0 ==>
                var parts := Normalized(cwd, p);
                var i := Lookup(files[..], parts);
                && 0 <= i < MAX_FILES && IsFile(files[i]) && files[i].size == |buffer|
                && files[i].name == parts[|parts| - 1]
                && Content(files[i], data[..]) == buffer
                && OthersKept(old(files[..]), old(data[..]), files[..], data[..], i)
                && (old(files[i]).used ==> overwrite && old(Lookup(files[..], Normalized(cwd, p))) == i)
      ensures var fs, parts := old(files[..]), Normalized(cwd, p);
              var i := Lookup(fs, parts);
              var up := if parts == [] then -1 else Lookup(fs, parts[..|parts| - 1]);
              r == if |buffer| > DATA_SIZE || p.tokens == [] then -1
                   else if i < 0 && !(0 <= up < MAX_FILES && fs[up].isDir) then -1
                   else if 0 <= i < MAX_FILES && (!overwrite || fs[i].isDir) then -1
                   else if forall s :: !FreeRun(old(bitmap[..]), s, BlocksOf(|buffer|)) then -2
                   else if i < 0 && forall j :: 0 <= j < MAX_FILES ==> fs[j].used then -3
                   else 0
    {
      hide Alloc, Tree, Nested, Lookup, BlocksOf, SetRun, CountBlocks, FreeRun, FirstFit, Normalized, Content,
           OthersKept, Spliced;
      if |buffer| > DATA_SIZE || p.tokens == [] {
        return -1;
      }
      var parts := NormalizePath(cwd, p);
      NormalizedClean(cwd, p);
      NormalizedTwice(cwd, p, cwd);
      ParentFound(files[..], parts);
      var i := FindByPath(Path(true, parts));
      if i < 0 {
        r := SaveNew(parts, buffer);
        return;
      }
      if !overwrite || files[i].isDir {
        return -1;
      }
      RootUsed(files[..]);
      r := SaveOver(parts, i, buffer);
    }

    method SaveNew(parts: seq<string>, buffer: seq<u8>) returns (r: int)
      requires Valid() && Clean(parts) && |buffer| <= DATA_SIZE && Lookup(files[..], parts) < 0
      requires Normalized(cwd, Path(true, parts)) == parts
      modifies `owner, files, bitmap, data
      ensures Valid()
      ensures r != 0 ==> Untouched()
      ensures r == 0 ==>
                var i := Lookup(files[..], parts);
                && 0 <= i < MAX_FILES && IsFile(files[i]) && files[i].size == |buffer|
                && parts != [] && files[i].name == parts[|parts| - 1]
                && Content(files[i], data[..]) == buffer
                && OthersKept(old(files[..]), old(data[..]), files[..], data[..], i)
                && !old(files[i]).used
      ensures var fs := old(files[..]);
              var up := if parts == [] then -1 else Lookup(fs, parts[..|parts| - 1]);
              r == if !(0 <= up < MAX_FILES && fs[up].isDir) then -1
                   else if forall s :: !FreeRun(old(bitmap[..]), s, BlocksOf(|buffer|)) then -2
                   else if forall j :: 0 <= j < MAX_FILES ==> fs[j].used then -3
                   else 0
    {
      hide Alloc, Tree, Nested, Lookup, BlocksOf, FreeRun, FirstFit, Normalized, Content, OthersKept, Spliced;
      ghost var fs, d := files[..], data[..];
      RootFound(fs, parts);
      ParentParts(cwd, parts);
      ParentFound(fs, parts);
      ParentFound(fs, parts[..|parts| - 1]);
      var parent := FindByPath(Path(true, parts[..|parts| - 1]));
      if parent < 0 || !files[parent].isDir {
        return -1;
      }
      CleanPath(parts);
      CountIsRight(|buffer|);
      r := CreateFile(Path(true, parts), |buffer|);
      if r != 0 {
        return;
      }
      ghost var fs', i := files[..], Lookup(files[..], parts);
      OthersSame(fs, d, i, files[i]);
      ExtentFits(fs', bitmap[..], owner, i);
      ContentSize(fs'[i], d);
      r := WriteFile(Path(true, parts), buffer, 0);
      SpliceAll(Content(fs'[i], d), buffer);
      OthersTrans(fs, d, fs', d, fs', data[..], i);
    }

    method SaveOver(ghost parts: seq<string>, i: nat, buffer: seq<u8>) returns (r: int)
      requires Valid() && i < MAX_FILES && IsFile(files[i]) && |buffer| <= DATA_SIZE
      requires Lookup(files[..], parts) == i && parts != []
      modifies `owner, files, bitmap, data
      ensures Valid()
      ensures r != 0 ==> Untouched()
      ensures r == if forall s :: !FreeRun(old(bitmap[..]), s, BlocksOf(|buffer|)) then -2 else 0
      ensures r == 0 ==>
                && Lookup(files[..], parts) == i
                && files[i] == old(files[i]).(start := files[i].start, size := |buffer|)
                && files[i].name == parts[|parts| - 1]
                && Content(files[i], data[..]) == buffer
                && OthersKept(old(files[..]), old(data[..]), files[..], data[..], i)
    {
      hide Alloc, Tree, Nested, Lookup, BlocksOf, SetRun, CountBlocks, FreeRun, FirstFit, Content, OthersKept, Spliced,
           Unmarked, Released;
      ghost var fs, bm, d := files[..], bitmap[..], data[..];
      ExtentFits(fs, bm, owner, i);
      CountIsRight(|buffer|);
      CountIsRight(files[i].size);
      var blocks := CountBlocks(|buffer|);
      var start := FindFreeBlocks(blocks);
      if start < 0 {
        return -2;
      }
      FirstIsFree(bm, blocks, start);
      TakenBeforeDrop(fs, bm, owner, i, start, blocks);
      AllocSizes(fs, bm, owner);
      BlocksHold(|buffer|);
      SpliceNone(d, start * BLOCK_SIZE);
      ghost var e' := files[i].(start := start, size := |buffer|);
      PlacedContent(fs, bm, owner, d, i, start, 0, buffer, e');
      assert Content(fs[i], d)[..0] + buffer == buffer;
      assert d[fs[i].start * BLOCK_SIZE..fs[i].start * BLOCK_SIZE + 0] == [];
      CopyIn(start * BLOCK_SIZE, buffer);
      MarkRun(start, blocks, true);
      MarkRun(files[i].start, CountBlocks(files[i].size), false);
      files[i] := files[i].(start := start, size := |buffer|);
      assert files[..] == fs[i := e'];
      AllocMove(fs, bm, owner, i, e');
      owner := SetRun(Released(fs, owner, i), start, blocks, i);
      TreeSame(fs, i, e');
      NestedSame(fs, i, e');
      LookupResized(fs, i, e', parts);
      return 0;
    }

    // Operations on directories.

    /** A new, empty directory. The error codes are tried in this order: it exists, no parent, the parent is not a
        directory, no free entry. */
    method CreateDir(p: Path) returns (r: int)
      requires Valid() && ValidPath(p)
      modifies files
      ensures Valid()
      ensures r != 0 ==> files[..] == old(files[..])
      ensures var fs, parts := old(files[..]), Normalized(cwd, p);
              r == if Lookup(fs, parts) != -1 then -1
                   else var up := Lookup(fs, parts[..|parts| - 1]);
                     if up == -1 then -2
                     else if up < 0 || up >= MAX_FILES || !fs[up].isDir then -3
                     else if forall i :: 0 <= i < MAX_FILES ==> fs[i].used then -4
                     else 0
      ensures r == 0 ==>
                var fs, parts := old(files[..]), Normalized(cwd, p);
                var i := Lookup(files[..], parts);
                && 0 < i < MAX_FILES && !fs[i].used && files[..] == fs[i := files[i]]
                && files[i] == Entry(parts[|parts| - 1], 0, 0, true, true, Lookup(fs, parts[..|parts| - 1]))
    {
      hide Alloc, Tree, Nested, DirAt, Rooted, Lookup, Child, Normalized;
      ghost var fs, bm := files[..], bitmap[..];
      var parts := NormalizePath(cwd, p);
      NormalizedClean(cwd, p);
      NormalizedTwice(cwd, p, cwd);
      ParentFound(fs, parts);
      var existing := FindByPath(Path(true, parts));
      if existing != -1 {
        return -1;
      }
      RootFound(fs, parts);
      var up := parts[..|parts| - 1];
      ParentParts(cwd, parts);
      ParentFound(fs, up);
      var parent := FindByPath(Path(true, up));
      if parent == -1 {
        return -2;
      }
      if !files[parent].isDir {
        return -3;
      }
      var slot := FindSlot();
      if slot == -1 {
        return -4;
      }
      var e := Entry(parts[|parts| - 1], 0, 0, true, true, parent);
      NewChild(fs, parts);
      RootUsed(fs);
      TreeWith(fs, slot, e);
      LookupRooted(fs, up);
      DirDepth(fs, parent, |up|);
      NestedWith(fs, slot, e, |up|);
      AllocDrop(fs, bm, owner, slot, e);
      LookupAdded(fs, slot, e, parts);
      files[slot] := e;
      assert files[..] == fs[slot := e];
      return 0;
    }

    /** The current directory only ever becomes a directory that exists. */
    method ChangeDir(p: Path) returns (r: int)
      requires Valid() && ValidPath(p)
      modifies `cwd
      ensures Valid()
      ensures var i := Lookup(files[..], Normalized(old(cwd), p));
              && r == (if i < 0 then -1 else if i >= MAX_FILES || !files[i].isDir then -2 else 0)
              && cwd == if r == 0 then Normalized(old(cwd), p) else old(cwd)
    {
      var parts := NormalizePath(cwd, p);
      NormalizedClean(cwd, p);
      NormalizedTwice(cwd, p, cwd);
      ParentFound(files[..], parts);
      var i := FindByPath(Path(true, parts));
      if i == -1 {
        return -1;
      }
      if !files[i].isDir {
        return -2;
      }
      cwd := parts;
      return 0;
    }

    /** Changing to `..` goes to the parent of the entry the current directory is, unless the path of that directory
        has 64 components: then `..` is not read any more, and the directory stays. */
    method ChangeUp() returns (r: int)
      requires Valid() && cwd != [] && Lookup(files[..], cwd) >= 0
      modifies `cwd
      ensures Valid()
      ensures var at, up := old(cwd), old(cwd)[..|old(cwd)| - 1];
              var i := Lookup(files[..], at);
              && 0 <= i < MAX_FILES && Lookup(files[..], up) == files[i].parent
              && (|at| < 64 ==> && 0 <= files[i].parent < MAX_FILES
                                && r == (if files[files[i].parent].isDir then 0 else -2)
                                && cwd == if r == 0 then up else at)
              && (|at| == 64 ==> cwd == at)
    {
      LookupParent(files[..], cwd);
      LookupRooted(files[..], cwd);
      UpAndStay(cwd, [], "x");
      r := ChangeDir(Path(false, [".."]));
    }

    /** Removing a directory with what is below it: the entries that a path can reach through directories go, with the
        blocks of the files among them, and nothing else changes. The root is not refused, and the file system is gone
        with it. */
    method RemoveDirRecursive(p: Path) returns (r: int)
      requires Valid() && ValidPath(p)
      modifies `owner, files, bitmap
      ensures Valid() <==> r != 0 || Normalized(cwd, p) != []
      ensures r != 0 ==> Untouched()
      ensures var fs, parts := old(files[..]), Normalized(cwd, p);
              var d := Lookup(fs, parts);
              && r == (if d < 0 then -1 else if d >= MAX_FILES || !fs[d].isDir then -2 else 0)
              && (r == 0 ==> DirAt(fs, d, |parts|) && files[..] == Pruned(fs, d, Reach(parts)))
      decreases Reach(Normalized(cwd, p)), 1
    {
      hide Alloc, Tree, Nested, DirAt, Lookup, Normalized, Under, Gone, Rooted, Pruned, PrunedTo, BlocksOf;
      ghost var fs := files[..];
      var parts := NormalizePath(cwd, p);
      NormalizedClean(cwd, p);
      NormalizedTwice(cwd, p, cwd);
      ParentFound(fs, parts);
      var d := FindByPath(Path(true, parts));
      if d == -1 {
        return -1;
      }
      if !files[d].isDir {
        return -2;
      }
      LookupRooted(fs, parts);
      DirDepth(fs, d, |parts|);
      RootOnly(fs, d, |parts|);
      NothingGone(fs, d, Reach(parts));
      for i := 0 to MAX_FILES
        invariant Valid() && PrunedTo(fs, d, i, Reach(parts), files[..])
      {
        if files[i].used && files[i].parent == d {
          RemoveChild(fs, d, i, parts);
        } else {
          NotChild(files[..], d, i);
          PruneSkip(fs, files[..], d, i, |parts|, Reach(parts));
        }
      }
      PruneAll(fs, files[..], d, Reach(parts));
      DirKept(fs, files[..], d, |parts|, Reach(parts));
      NoDirLeft(fs, files[..], d, |parts|);
      ghost var now, bm := files[..], bitmap[..];
      AllocDrop(now, bm, owner, d, BLANK);
      TreeWithout(now, d);
      if d > 0 {
        NestedWithout(now, d);
      }
      files[d] := BLANK;
      assert files[..] == now[d := BLANK];
      return 0;
    }

    /** One child of a directory that is being removed. At 64 levels the path of a child is cut to that of its
        directory, so a file there stays; a directory cannot be there. */
    method RemoveChild(ghost fs: seq<Entry>, d: int, i: nat, parts: seq<string>)
      requires Valid() && i < MAX_FILES && files[i].used && files[i].parent == d
      requires Tree(fs) && Nested(fs) && Lookup(fs, parts) == d >= 0 && Clean(parts)
      requires d < MAX_FILES && fs[d].isDir && PrunedTo(fs, d, i, Reach(parts), files[..])
      modifies `owner, files, bitmap
      ensures Valid() && PrunedTo(fs, d, i + 1, Reach(parts), files[..])
      decreases Reach(parts), 0
    {
      hide Alloc, Tree, Nested, DirAt, Lookup, Normalized, Under, Gone, Rooted, Pruned, PrunedTo, BlocksOf;
      ghost var now := files[..];
      var child := parts + [files[i].name];
      var path := Path(true, child);
      LookupRooted(fs, parts);
      ChildStays(fs, now, d, i, parts);
      if |parts| < MAX_PARTS {
        ChildPath(now, d, i, parts, cwd);
        PruneNext(fs, now, d, i, |parts|, Reach(parts));
      } else {
        CutPath(parts, files[i].name, cwd);
        PruneSkip(fs, now, d, i, |parts|, Reach(parts));
      }
      if files[i].isDir {
        var r := RemoveDirRecursive(path);
      } else {
        var r := RemoveFile(path);
        if |parts| < MAX_PARTS {
          PruneFile(now, i, Reach(parts) - 1);
        }
      }
    }
  }

  /** How many levels below a directory a path can still name. */
  function Reach(parts: seq<string>): nat {
    if |parts| <= MAX_PARTS then MAX_PARTS - |parts| else 0
  }

  /** No file of the invariant is larger than the disk. */
  lemma AllocBounds(fs: seq<Entry>, bitmap: seq<bool>, owner: seq<int>, i: nat)
    requires i < |fs| && IsFile(fs[i]) && fs[i].size > 0xFFFFFE00
    ensures !Alloc(fs, bitmap, owner)
  {
  }

  lemma BlocksHold(size: nat)
    ensures BlocksOf(size) >= 1 && size <= BlocksOf(size) * BLOCK_SIZE
  {
  }

  lemma CleanPath(parts: seq<string>)
    requires Clean(parts)
    ensures ValidPath(Path(true, parts))
  {
  }

  lemma RootFound(fs: seq<Entry>, parts: seq<string>)
    requires Lookup(fs, parts) < 0
    ensures parts != []
  {
  }

  lemma RootUsed(fs: seq<Entry>)
    requires Tree(fs)
    ensures fs[0].used && fs[0].isDir && Lookup(fs, []) == 0
  {
  }

  lemma FirstIsFree(bitmap: seq<bool>, n: int, r: int)
    requires FirstFit(bitmap, n, r)
    ensures FreeRun(bitmap, r, n) && 0 <= r && r + n <= |bitmap|
  {
  }

  /** The parent of normalized components is normalized too. */
  lemma ParentParts(cwd: seq<string>, parts: seq<string>)
    requires Clean(parts) && parts != []
    ensures Normalized(cwd, Path(true, parts[..|parts| - 1])) == parts[..|parts| - 1]
    ensures CleanName(parts[|parts| - 1])
  {
    WalkAppends([], parts[..|parts| - 1]);
    assert [] + parts[..|parts| - 1] == parts[..|parts| - 1];
  }

  /** When a path leads nowhere but its parent's does, the parent has no child of the last name. */
  lemma NewChild(fs: seq<Entry>, parts: seq<string>)
    requires parts != [] && Lookup(fs, parts) < 0 && Lookup(fs, parts[..|parts| - 1]) >= 0
    ensures Child(fs, Lookup(fs, parts[..|parts| - 1]), parts[|parts| - 1], 0) < 0
  {
  }

  lemma BlocksShrink(a: nat, b: nat)
    requires BlocksOf(a) < BlocksOf(b)
    ensures a < b
  {
  }

  lemma RunFits(bitmap: seq<bool>, a: int, n: int)
    requires FreeRun(bitmap, a, n)
    ensures 0 <= a && a + n <= |bitmap|
  {
  }

  lemma BlocksGrow(a: nat, b: nat)
    requires a <= b
    ensures BlocksOf(a) <= BlocksOf(b)
  {
  }

  /** An entry whose extent stays the same. */
  lemma AllocStay(fs: seq<Entry>, bitmap: seq<bool>, owner: seq<int>, i: nat, e: Entry)
    requires Alloc(fs, bitmap, owner) && i < |fs| && IsFile(fs[i]) && IsFile(e)
    requires e.start == fs[i].start && BlocksOf(e.size) == BlocksOf(fs[i].size)
    ensures Alloc(fs[i := e], bitmap, owner)
  {
    hide BlocksOf;
    var fs' := fs[i := e];
    forall j | 0 <= j < |fs'| && IsFile(fs'[j])
      ensures Owns(fs'[j], owner, j)
    {
      assert Owns(fs[j], owner, j);
    }
  }

  lemma Unresized(fs: seq<Entry>, d: seq<u8>, i: nat)
    requires i < |fs| && fs[i].start * BLOCK_SIZE + fs[i].size <= |d|
    ensures Content(fs[i], d) == FileSystem.Resized(fs[i], d, fs[i].size)
    ensures OthersKept(fs, d, fs, d, i)
  {
  }

  /** A path leads to the same entry after sizes and places changed. */
  lemma {:induction false} LookupResized(fs: seq<Entry>, i: nat, e: Entry, parts: seq<string>)
    requires Tree(fs) && i < |fs| && Lookup(fs, parts) >= 0
    requires e.used == fs[i].used && e.isDir == fs[i].isDir && e.parent == fs[i].parent && e.name == fs[i].name
    ensures Lookup(fs[i := e], parts) == Lookup(fs, parts)
    ensures parts != [] ==> Lookup(fs, parts) < |fs| && fs[Lookup(fs, parts)].name == parts[|parts| - 1]
  {
    if parts != [] {
      var k := |parts| - 1;
      var p := Lookup(fs, parts[..k]);
      LookupResized(fs, i, e, parts[..k]);
      ChildIs(fs, p, parts[k], 0);
      TreeSame(fs, i, e);
      ChildFound(fs[i := e], Lookup(fs, parts));
    }
  }

  lemma RootOnly(fs: seq<Entry>, d: int, k: nat)
    requires Rooted(fs, d, k)
    ensures d == 0 <==> k == 0
  {
  }

  lemma NothingGone(fs: seq<Entry>, d: int, n: nat)
    ensures PrunedTo(fs, d, 0, n, fs)
  {
  }

  lemma NotChild(fs: seq<Entry>, d: int, i: nat)
    requires i < |fs| && !(fs[i].used && fs[i].parent == d)
    ensures !ChildOf(fs, d, i)
  {
  }

  /** The directory itself is still there when its children are gone. */
  lemma DirKept(fs: seq<Entry>, now: seq<Entry>, d: int, k: nat, n: nat)
    requires PrunedTo(fs, d, MAX_FILES, n, now) && Rooted(fs, d, k) && 0 <= d < |fs|
    ensures now[d] == fs[d]
  {
    hide Gone, Rooted;
    WayStays(fs, d, MAX_FILES, k, d, k, n);
  }

  /** While a directory is being emptied, its own path still leads to it, and a child still there is a child it had. */
  lemma ChildStays(fs: seq<Entry>, now: seq<Entry>, d: int, i: nat, parts: seq<string>)
    requires Tree(fs) && Tree(now) && Nested(fs) && Lookup(fs, parts) == d >= 0 && Clean(parts)
    requires PrunedTo(fs, d, i, Reach(parts), now) && i < MAX_FILES && now[i].used && now[i].parent == d
    ensures ChildOf(fs, d, i) && i > 0 && CleanName(now[i].name) && Lookup(now, parts) == d
    ensures d < MAX_FILES && now[d] == fs[d] && (now[i].isDir ==> |parts| < MAX_PARTS)
  {
    hide Lookup, Under, Gone, Rooted, Nested, Child;
    LookupRooted(fs, parts);
    assert now[i] == fs[i];
    RootIsNoChild(now, d, i);
    forall x: int, n: nat | 0 <= x < |fs| && n <= |parts| && Rooted(fs, x, n)
      ensures now[x] == fs[x]
    {
      WayStays(fs, d, i, |parts|, x, n, Reach(parts));
    }
    LookupKept(fs, now, parts);
    ChildRooted(fs, d, i, |parts|);
    if now[i].isDir {
      DirDepth(fs, i, |parts| + 1);
    }
  }

  /** The path of a child leads to it. */
  lemma ChildPath(now: seq<Entry>, d: int, i: nat, parts: seq<string>, cwd: seq<string>)
    requires Tree(now) && Clean(parts) && |parts| < MAX_PARTS && Lookup(now, parts) == d >= 0
    requires i < MAX_FILES && now[i].used && now[i].parent == d && CleanName(now[i].name)
    ensures var child := parts + [now[i].name];
            && ValidPath(Path(true, child)) && Normalized(cwd, Path(true, child)) == child && Lookup(now, child) == i
  {
    hide Lookup, Child;
    var child := parts + [now[i].name];
    WalkAppends([], child);
    assert [] + child == child;
    ChildFound(now, i);
    LookupLast(now, child);
    assert child[..|child| - 1] == parts;
  }

  /** At 64 levels the path of a child is that of its directory. */
  lemma CutPath(parts: seq<string>, name: string, cwd: seq<string>)
    requires Clean(parts) && |parts| == MAX_PARTS && CleanName(name)
    ensures Normalized(cwd, Path(true, parts + [name])) == parts
  {
    WalkThrough([], parts, [name]);
    assert [] + parts == parts;
  }

  lemma RootIsNoChild(fs: seq<Entry>, d: int, i: nat)
    requires Tree(fs) && d >= 0 && i < MAX_FILES && fs[i].parent == d
    ensures i > 0
  {
  }

  /** Growing a file adds zeros, whatever the disk holds, exactly when it gets more blocks. */
  lemma GrowthIsZeroFilled(e: Entry, n: nat)
    requires e.size < n && e.start * BLOCK_SIZE + n <= DATA_SIZE
    ensures (forall d: seq<u8> :: |d| == DATA_SIZE ==>
               FileSystem.Resized(e, d, n) == Content(e, d) + Zeros(n - e.size)) <==> BlocksOf(n) > BlocksOf(e.size)
  {
    hide BlocksOf;
    var d: seq<u8> := seq(DATA_SIZE, _ => 7);
    if BlocksOf(n) <= BlocksOf(e.size) {
      assert FileSystem.Resized(e, d, n)[n - 1] == 7;
      assert (Content(e, d) + Zeros(n - e.size))[n - 1] == 0;
    }
  }

  /** Resizing an entry leaves every path where it was. */
  lemma ResizedFound(fs: seq<Entry>, d: seq<u8>, fs': seq<Entry>, d': seq<u8>, i: nat, parts: seq<string>)
    requires Tree(fs) && i < |fs| && Lookup(fs, parts) >= 0 && OthersKept(fs, d, fs', d', i)
    requires fs'[i] == fs[i].(start := fs'[i].start, size := fs'[i].size)
    ensures Lookup(fs', parts) == Lookup(fs, parts)
  {
    hide Tree, Lookup;
    LookupResized(fs, i, fs'[i], parts);
    assert fs' == fs[i := fs'[i]];
  }

  /** A file that shrinks and grows back without giving up a block has its old bytes again, not zeros. */
  method ShrinkAndRegrow(fs: FileSystem, p: Path, m: nat, n: nat)
    requires fs.Valid() && fs.Refusal(p) == 0 && fs.files[fs.Target(p)].size == n < 0x8000_0000
    requires m <= n && BlocksOf(m) == BlocksOf(n)
    modifies fs`owner, fs.files, fs.bitmap, fs.data
    ensures fs.Valid() && fs.files[..] == old(fs.files[..]) && fs.data[..] == old(fs.data[..])
  {
    hide Tree, Nested, Alloc, BlocksOf, Content, Zeros;
    ghost var i, before, d := fs.Target(p), fs.files[..], fs.data[..];
    var r := fs.Truncate(p, m);
    ghost var shrunk := fs.files[..];
    ResizedFound(before, d, shrunk, d, i, fs.FileParts(p));
    r := fs.Truncate(p, n);
    assert fs.files[..] == before;
  }

  /** The bytes of a file that was shortened and lengthened again, on a new file system. */
  method StaleByteShown() returns (r: int, bytes: seq<u8>)
    ensures r == 0 && bytes == [1, 7]
  {
    hide Tree, Nested, Alloc;
    var fs := new FileSystem();
    var p := Path(false, ["f"]);
    NewFileFits(fs, p);
    ghost var before, bm := fs.files[..], fs.bitmap[..];
    r := fs.SaveFile(p, [1, 7], false);
    assert FreeRun(bm, 0, BlocksOf(2));
    assert ["f"][..0] == [];
    assert !before[1].used;
    fs.FilePartsAgree(p);
    ShrinkAndRegrow(fs, p, 1, 2);
    r, bytes := fs.ReadFile(p, 2, 0);
  }

  /** On an empty file system there is room for a file of one block, and no file yet. */
  lemma NewFileFits(fs: FileSystem, p: Path)
    requires fs.Valid() && fs.cwd == [] && p == Path(false, ["f"])
    requires fs.files[0] == Entry("/", 0, 0, true, true, -1) && forall i :: 0 < i < MAX_FILES ==> fs.files[i] == BLANK
    requires forall b :: 0 <= b < NUM_BLOCKS ==> !fs.bitmap[b]
    ensures Normalized(fs.cwd, p) == ["f"] && Lookup(fs.files[..], ["f"]) == -1 && Lookup(fs.files[..], []) == 0
    ensures FreeRun(fs.bitmap[..], 0, 1)
  {
    assert Walk([], ["f"]) == ["f"] by {
      WalkAppends([], ["f"]);
    }
    assert ["f"][..0] == [];
    ChildIs(fs.files[..], 0, "f", 0);
  }
}
