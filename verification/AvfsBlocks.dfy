/** Block allocation in the RAM filesystem: who owns which block, and what a change of one entry does to that. */
module AvfsBlocks {
  import opened Bits
  import opened AvfsPath

  const NUM_BLOCKS := 32768
  const BLOCK_SIZE := 512
  const DATA_SIZE := 16777216

  /** The blocks a file of some size occupies: at least one. */
  function BlocksOf(size: nat): (r: nat)
    ensures r >= 1 && size <= r * BLOCK_SIZE
  {
    if size == 0 then 1 else (size + BLOCK_SIZE - 1) / BLOCK_SIZE
  }

  /** It is the least number of blocks of 512 bytes, and at least one; the disk has 32768 of them, 16 MB. */
  lemma BlocksOfLeast(size: nat)
    ensures size <= 512 * BlocksOf(size)
    ensures BlocksOf(size) == 1 || 512 * (BlocksOf(size) - 1) < size
    ensures NUM_BLOCKS == 32768 && NUM_BLOCKS * 512 == DATA_SIZE == 16 * 1024 * 1024
  {
  }

  /** The block count as the code computes it, in unsigned 32-bit arithmetic. */
  function CountBlocks(size: u32): (r: nat)
    ensures r >= 1
  {
    var n := (size + BLOCK_SIZE - 1) % 0x1_0000_0000 / BLOCK_SIZE;
    if n == 0 then 1 else n
  }

  /** The 32-bit count is the right one exactly when rounding up does not overflow. */
  lemma CountIsRight(size: u32)
    ensures CountBlocks(size) == BlocksOf(size) <==> size <= 0xFFFFFE00
  {
  }

  /** A size for which it is wrong: almost 4 GB get one block. */
  lemma CountOverflows()
    ensures CountBlocks(0xFFFFFFFF) == 1 && BlocksOf(0xFFFFFFFF) == 0x80_0000
  {
  }

  predicate IsFile(e: Entry) {
    e.used && !e.isDir
  }

  predicate InExtent(e: Entry, b: int) {
    e.start <= b < e.start + BlocksOf(e.size)
  }

  /** Every block is marked exactly when it has an owner, and the owner is the one file whose extent holds it. */
  predicate Alloc(fs: seq<Entry>, bitmap: seq<bool>, owner: seq<int>) {
    && |bitmap| == |owner| == NUM_BLOCKS
    && (forall b :: 0 <= b < NUM_BLOCKS ==> (bitmap[b] <==> owner[b] >= 0))
    && (forall b :: 0 <= b < NUM_BLOCKS && owner[b] >= 0 ==>
          owner[b] < |fs| && IsFile(fs[owner[b]]) && InExtent(fs[owner[b]], b))
    && (forall i :: 0 <= i < |fs| && IsFile(fs[i]) ==> Owns(fs[i], owner, i))
  }

  predicate Owns(e: Entry, owner: seq<int>, i: int)
    requires |owner| == NUM_BLOCKS
  {
    && e.start + BlocksOf(e.size) <= NUM_BLOCKS
    && forall b :: e.start <= b < e.start + BlocksOf(e.size) ==> owner[b] == i
  }

  /** The allocation invariant without owners: files lie inside the blocks, their extents are pairwise disjoint,
      and a block is marked exactly when some file occupies it. */
  lemma AllocMeans(fs: seq<Entry>, bitmap: seq<bool>, owner: seq<int>)
    requires Alloc(fs, bitmap, owner)
    ensures forall i :: 0 <= i < |fs| && IsFile(fs[i]) ==> fs[i].start + BlocksOf(fs[i].size) <= NUM_BLOCKS
    ensures forall i, j :: 0 <= i < j < |fs| && IsFile(fs[i]) && IsFile(fs[j]) ==>
              fs[i].start + BlocksOf(fs[i].size) <= fs[j].start || fs[j].start + BlocksOf(fs[j].size) <= fs[i].start
    ensures forall b :: 0 <= b < NUM_BLOCKS ==>
              (bitmap[b] <==> exists i :: 0 <= i < |fs| && IsFile(fs[i]) && InExtent(fs[i], b))
  {
    forall i, j | 0 <= i < j < |fs| && IsFile(fs[i]) && IsFile(fs[j])
      ensures fs[i].start + BlocksOf(fs[i].size) <= fs[j].start || fs[j].start + BlocksOf(fs[j].size) <= fs[i].start
    {
      var b := if fs[i].start < fs[j].start then fs[j].start else fs[i].start;
      assert Owns(fs[i], owner, i) && Owns(fs[j], owner, j);
      assert InExtent(fs[i], b) ==> owner[b] == i;
      assert InExtent(fs[j], b) ==> owner[b] == j;
    }
    forall b | 0 <= b < NUM_BLOCKS
      ensures bitmap[b] <==> exists i :: 0 <= i < |fs| && IsFile(fs[i]) && InExtent(fs[i], b)
    {
      if i :| 0 <= i < |fs| && IsFile(fs[i]) && InExtent(fs[i], b) {
        assert Owns(fs[i], owner, i);
      }
    }
  }

  function SetRun<T>(s: seq<T>, a: nat, n: nat, v: T): (r: seq<T>)
    requires a + n <= |s|
    ensures |r| == |s|
    ensures forall k :: 0 <= k < |s| ==> r[k] == if a <= k < a + n then v else s[k]
  {
    s[..a] + seq(n, _ => v) + s[a + n..]
  }

  /** The blocks of a run that an entry could take: free ones, and those of entry i itself. */
  predicate Takeable(owner: seq<int>, a: nat, n: nat, i: int) {
    a + n <= |owner| && forall b :: a <= b < a + n ==> owner[b] < 0 || owner[b] == i
  }

  function Released(fs: seq<Entry>, owner: seq<int>, i: nat): (r: seq<int>)
    requires i < |fs| && |owner| == NUM_BLOCKS
    requires IsFile(fs[i]) ==> fs[i].start + BlocksOf(fs[i].size) <= NUM_BLOCKS
    ensures |r| == NUM_BLOCKS
  {
    if IsFile(fs[i]) then SetRun(owner, fs[i].start, BlocksOf(fs[i].size), -1) else owner
  }

  function Unmarked(fs: seq<Entry>, bitmap: seq<bool>, i: nat): (r: seq<bool>)
    requires i < |fs| && |bitmap| == NUM_BLOCKS
    requires IsFile(fs[i]) ==> fs[i].start + BlocksOf(fs[i].size) <= NUM_BLOCKS
    ensures |r| == NUM_BLOCKS
  {
    if IsFile(fs[i]) then SetRun(bitmap, fs[i].start, BlocksOf(fs[i].size), false) else bitmap
  }

  /** Entry i becomes something that is not a file: its blocks are given back. */
  lemma AllocDrop(fs: seq<Entry>, bitmap: seq<bool>, owner: seq<int>, i: nat, e: Entry)
    requires Alloc(fs, bitmap, owner) && i < |fs| && !IsFile(e)
    ensures IsFile(fs[i]) ==> fs[i].start + BlocksOf(fs[i].size) <= NUM_BLOCKS
    ensures Alloc(fs[i := e], Unmarked(fs, bitmap, i), Released(fs, owner, i))
  {
    hide BlocksOf;
    assert IsFile(fs[i]) ==> Owns(fs[i], owner, i);
    var fs', o' := fs[i := e], Released(fs, owner, i);
    forall j | 0 <= j < |fs'| && IsFile(fs'[j])
      ensures Owns(fs'[j], o', j)
    {
      assert Owns(fs[j], owner, j);
      forall b | fs[j].start <= b < fs[j].start + BlocksOf(fs[j].size)
        ensures o'[b] == j
      {
        assert owner[b] == j;
      }
    }
  }

  /** Entry i becomes a file on blocks that were free. */
  lemma AllocTake(fs: seq<Entry>, bitmap: seq<bool>, owner: seq<int>, i: nat, e: Entry)
    requires Alloc(fs, bitmap, owner) && i < |fs| && !IsFile(fs[i]) && IsFile(e)
    requires FreeRun(bitmap, e.start, BlocksOf(e.size))
    ensures Alloc(fs[i := e], SetRun(bitmap, e.start, BlocksOf(e.size), true),
                  SetRun(owner, e.start, BlocksOf(e.size), i))
  {
    hide BlocksOf;
    var fs', o' := fs[i := e], SetRun(owner, e.start, BlocksOf(e.size), i);
    forall j | 0 <= j < |fs'| && IsFile(fs'[j])
      ensures Owns(fs'[j], o', j)
    {
      if j != i {
        assert Owns(fs[j], owner, j);
        forall b | fs[j].start <= b < fs[j].start + BlocksOf(fs[j].size)
          ensures o'[b] == j
        {
          assert owner[b] == j && bitmap[b];
        }
      }
    }
  }

  predicate FreeRun(bitmap: seq<bool>, a: int, n: int) {
    0 <= a && a + n <= |bitmap| && forall b :: a <= b < a + n ==> !bitmap[b]
  }

  /** Entry i, a file, moves to blocks that are free once its own are given back. */
  lemma AllocMove(fs: seq<Entry>, bitmap: seq<bool>, owner: seq<int>, i: nat, e: Entry)
    requires Alloc(fs, bitmap, owner) && i < |fs| && IsFile(fs[i]) && IsFile(e)
    ensures fs[i].start + BlocksOf(fs[i].size) <= NUM_BLOCKS
    ensures FreeRun(Unmarked(fs, bitmap, i), e.start, BlocksOf(e.size)) ==>
              Alloc(fs[i := e], SetRun(Unmarked(fs, bitmap, i), e.start, BlocksOf(e.size), true),
                    SetRun(Released(fs, owner, i), e.start, BlocksOf(e.size), i))
  {
    hide Owns, BlocksOf, Unmarked, Released, SetRun;
    AllocDrop(fs, bitmap, owner, i, BLANK);
    if FreeRun(Unmarked(fs, bitmap, i), e.start, BlocksOf(e.size)) {
      AllocTake(fs[i := BLANK], Unmarked(fs, bitmap, i), Released(fs, owner, i), i, e);
      assert fs[i := BLANK][i := e] == fs[i := e];
    }
  }

  // Contents.

  /** The bytes of a file. */
  function Content(e: Entry, data: seq<u8>): seq<u8> {
    if e.start * BLOCK_SIZE + e.size <= |data| then data[e.start * BLOCK_SIZE..e.start * BLOCK_SIZE + e.size] else []
  }

  /** The data with some bytes replaced from a position on. */
  function Spliced(data: seq<u8>, at: nat, piece: seq<u8>): (r: seq<u8>)
    requires at + |piece| <= |data|
    ensures |r| == |data|
    ensures forall k :: 0 <= k < |data| ==> r[k] == if at <= k < at + |piece| then piece[k - at] else data[k]
  {
    data[..at] + piece + data[at + |piece|..]
  }

  /** The data changed only inside n blocks from block a on. */
  predicate OnlyBlocks(before: seq<u8>, after: seq<u8>, a: nat, n: nat) {
    && |before| == |after|
    && forall k :: 0 <= k < |before| && !(a * BLOCK_SIZE <= k < (a + n) * BLOCK_SIZE) ==> after[k] == before[k]
  }

  lemma OnlyTrans(d0: seq<u8>, d1: seq<u8>, d2: seq<u8>, a: nat, n: nat)
    requires OnlyBlocks(d0, d1, a, n) && OnlyBlocks(d1, d2, a, n)
    ensures OnlyBlocks(d0, d2, a, n)
  {
  }

  /** Changing blocks that a file does not own does not change the file. */
  lemma ContentKept(fs: seq<Entry>, bitmap: seq<bool>, owner: seq<int>, before: seq<u8>, after: seq<u8>,
                    a: nat, n: nat, j: nat)
    requires Alloc(fs, bitmap, owner) && j < |fs| && IsFile(fs[j]) && |before| == DATA_SIZE && n > 0
    requires OnlyBlocks(before, after, a, n) && a + n <= NUM_BLOCKS && forall b :: a <= b < a + n ==> owner[b] != j
    ensures Content(fs[j], after) == Content(fs[j], before)
  {
    var e := fs[j];
    assert Owns(e, owner, j);
    var b := if e.start < a then a else e.start;
    assert InExtent(e, b) ==> owner[b] == j;
    assert a <= b < a + n ==> owner[b] != j;
  }

  /** All entries but i keep their entry and their bytes. */
  predicate OthersKept(fs: seq<Entry>, before: seq<u8>, fs': seq<Entry>, after: seq<u8>, i: int) {
    && |fs'| == |fs|
    && forall j :: 0 <= j < |fs| && j != i ==>
         fs'[j] == fs[j] && (IsFile(fs[j]) ==> Content(fs[j], after) == Content(fs[j], before))
  }

  lemma AllocSizes(fs: seq<Entry>, bitmap: seq<bool>, owner: seq<int>)
    requires Alloc(fs, bitmap, owner)
    ensures |bitmap| == |owner| == NUM_BLOCKS
  {
  }

  lemma OthersUnharmed(fs: seq<Entry>, bitmap: seq<bool>, owner: seq<int>, before: seq<u8>, after: seq<u8>,
                       a: nat, n: nat, i: nat, e: Entry)
    requires Alloc(fs, bitmap, owner) && i < |fs| && |before| == DATA_SIZE && n > 0
    requires OnlyBlocks(before, after, a, n) && Takeable(owner, a, n, i)
    ensures OthersKept(fs, before, fs[i := e], after, i)
  {
    hide Content, Alloc;
    AllocSizes(fs, bitmap, owner);
    forall j | 0 <= j < |fs| && j != i && IsFile(fs[j])
      ensures Content(fs[j], after) == Content(fs[j], before)
    {
      ContentKept(fs, bitmap, owner, before, after, a, n, j);
    }
  }

  // First fit.

  /** The first run of n free blocks. */
  predicate FirstFit(bitmap: seq<bool>, n: int, r: int) {
    FreeRun(bitmap, r, n) && forall s :: 0 <= s < r ==> !FreeRun(bitmap, s, n)
  }

  /** When a file gives back its run of old blocks and first fit finds a longer run that overlaps it, the new run
      does not start after the old one. */
  lemma OverlapMovesDown(bitmap: seq<bool>, start: nat, len: nat, n: nat, r: nat)
    requires len <= n && FirstFit(bitmap, n, r) && FreeRun(bitmap, start, len)
    ensures r <= start || start + len <= r
  {
    if start < r < start + len {
      assert FreeRun(bitmap, start, n);
    }
  }

  /** The blocks of a file are all marked, so unmarking and marking them again restores the bitmap. */
  lemma MarkedAgain(fs: seq<Entry>, bitmap: seq<bool>, owner: seq<int>, i: nat)
    requires Alloc(fs, bitmap, owner) && i < |fs| && IsFile(fs[i])
    ensures fs[i].start + BlocksOf(fs[i].size) <= NUM_BLOCKS
    ensures SetRun(Unmarked(fs, bitmap, i), fs[i].start, BlocksOf(fs[i].size), true) == bitmap
    ensures FreeRun(Unmarked(fs, bitmap, i), fs[i].start, BlocksOf(fs[i].size))
  {
    hide BlocksOf;
    var e := fs[i];
    assert Owns(e, owner, i);
    forall b | 0 <= b < NUM_BLOCKS
      ensures SetRun(Unmarked(fs, bitmap, i), e.start, BlocksOf(e.size), true)[b] == bitmap[b]
    {
      assert InExtent(e, b) ==> owner[b] == i;
    }
  }

  lemma FreeIsTakeable(fs: seq<Entry>, bitmap: seq<bool>, owner: seq<int>, i: nat, a: nat, n: nat)
    requires Alloc(fs, bitmap, owner) && i < |fs| && IsFile(fs[i])
    requires fs[i].start + BlocksOf(fs[i].size) <= NUM_BLOCKS && FreeRun(Unmarked(fs, bitmap, i), a, n)
    ensures Takeable(owner, a, n, i)
  {
    hide BlocksOf;
    assert Owns(fs[i], owner, i);
    forall b | a <= b < a + n
      ensures owner[b] < 0 || owner[b] == i
    {
      assert !Unmarked(fs, bitmap, i)[b];
    }
  }

  /** The extent of a file lies inside the data. */
  lemma ExtentFits(fs: seq<Entry>, bitmap: seq<bool>, owner: seq<int>, i: nat)
    requires Alloc(fs, bitmap, owner) && i < |fs| && IsFile(fs[i])
    ensures fs[i].start + BlocksOf(fs[i].size) <= NUM_BLOCKS
    ensures fs[i].start * BLOCK_SIZE + fs[i].size <= DATA_SIZE
    ensures Takeable(owner, fs[i].start, BlocksOf(fs[i].size), i)
  {
    assert Owns(fs[i], owner, i);
  }

  /** Splicing bytes into a run of blocks changes only these blocks. */
  lemma SpliceOnly(data: seq<u8>, at: nat, piece: seq<u8>, a: nat, n: nat)
    requires at + |piece| <= |data| && a * BLOCK_SIZE <= at && at + |piece| <= (a + n) * BLOCK_SIZE
    ensures OnlyBlocks(data, Spliced(data, at, piece), a, n)
  {
  }

  lemma SpliceContent(e: Entry, data: seq<u8>, offset: nat, buffer: seq<u8>)
    requires e.start * BLOCK_SIZE + e.size <= |data| && offset + |buffer| <= e.size
    ensures Content(e, Spliced(data, e.start * BLOCK_SIZE + offset, buffer))
         == Spliced(Content(e, data), offset, buffer)
  {
    var base := e.start * BLOCK_SIZE;
    var d', c := Spliced(data, base + offset, buffer), Content(e, data);
    forall k | 0 <= k < e.size
      ensures d'[base..base + e.size][k] == Spliced(c, offset, buffer)[k]
    {
      assert d'[base..base + e.size][k] == d'[base + k];
    }
  }

  /** The bytes of a file that was copied to a new place and extended there. */
  lemma MovedContent(data: seq<u8>, src: nat, dst: nat, len: nat, tail: seq<u8>)
    requires src + len <= |data| && dst + len + |tail| <= |data|
    ensures Spliced(Spliced(data, dst, data[src..src + len]), dst + len, tail)[dst..dst + (len + |tail|)]
         == data[src..src + len] + tail
  {
    var d1 := Spliced(data, dst, data[src..src + len]);
    var d2 := Spliced(d1, dst + len, tail);
    var moved, wanted := d2[dst..dst + (len + |tail|)], data[src..src + len] + tail;
    forall k | 0 <= k < |moved|
      ensures moved[k] == wanted[k]
    {
      assert moved[k] == d2[dst + k];
    }
  }

  lemma ContentSize(e: Entry, data: seq<u8>)
    requires e.start * BLOCK_SIZE + e.size <= |data|
    ensures |Content(e, data)| == e.size
    ensures Content(e, data)[..e.size] == Content(e, data)
  {
  }

  lemma SpliceSelf(data: seq<u8>, at: nat, n: nat)
    requires at + n <= |data|
    ensures Spliced(data, at, data[at..at + n]) == data
  {
  }

  /** A file's bytes are copied to blocks it may take, and bytes are added behind them: the file is the old bytes
      and the new ones, and every other file is as before. */
  lemma PlacedContent(fs: seq<Entry>, bitmap: seq<bool>, owner: seq<int>, data: seq<u8>, i: nat, s: nat, len: nat,
                      tail: seq<u8>, e: Entry)
    requires Alloc(fs, bitmap, owner) && |data| == DATA_SIZE && i < |fs| && IsFile(fs[i]) && len <= fs[i].size
    requires e.start == s && e.size == len + |tail| && Takeable(owner, s, BlocksOf(e.size), i)
    ensures fs[i].start * BLOCK_SIZE + fs[i].size <= DATA_SIZE
    ensures s * BLOCK_SIZE + len + |tail| <= |data|
    ensures var src, dst := fs[i].start * BLOCK_SIZE, s * BLOCK_SIZE;
            var final := Spliced(Spliced(data, dst, data[src..src + len]), dst + len, tail);
            Content(e, final) == Content(fs[i], data)[..len] + tail && OthersKept(fs, data, fs[i := e], final, i)
  {
    hide Alloc, BlocksOf, Spliced, OthersKept;
    ExtentFits(fs, bitmap, owner, i);
    AllocSizes(fs, bitmap, owner);
    var src, dst, n := fs[i].start * BLOCK_SIZE, s * BLOCK_SIZE, BlocksOf(e.size);
    var moved := Spliced(data, dst, data[src..src + len]);
    MovedContent(data, src, dst, len, tail);
    assert Content(fs[i], data)[..len] == data[src..src + len];
    SpliceOnly(data, dst, data[src..src + len], s, n);
    SpliceOnly(moved, dst + len, tail, s, n);
    OnlyTrans(data, moved, Spliced(moved, dst + len, tail), s, n);
    OthersUnharmed(fs, bitmap, owner, data, Spliced(moved, dst + len, tail), s, n, i, e);
  }

  /** Unmarking the blocks a shrinking file no longer needs, or marking those a growing one adds, leaves marked what
      giving all its blocks back and taking the new extent would. */
  lemma ResizedInPlace(fs: seq<Entry>, bitmap: seq<bool>, owner: seq<int>, i: nat, n1: nat)
    requires Alloc(fs, bitmap, owner) && i < |fs| && IsFile(fs[i]) && fs[i].start + n1 <= NUM_BLOCKS
    ensures var a, n0 := fs[i].start, BlocksOf(fs[i].size);
            && a + n0 <= NUM_BLOCKS
            && (n1 <= n0 ==>
                  FreeRun(Unmarked(fs, bitmap, i), a, n1)
                  && SetRun(Unmarked(fs, bitmap, i), a, n1, true) == SetRun(bitmap, a + n1, n0 - n1, false))
            && (n1 >= n0 && FreeRun(bitmap, a + n0, n1 - n0) ==>
                  FreeRun(Unmarked(fs, bitmap, i), a, n1)
                  && SetRun(Unmarked(fs, bitmap, i), a, n1, true) == SetRun(bitmap, a + n0, n1 - n0, true))
  {
    hide BlocksOf;
    assert Owns(fs[i], owner, i);
    assert forall b :: InExtent(fs[i], b) ==> owner[b] == i;
  }

  /** A file may take the blocks it has, and those behind them that are free. */
  lemma InPlaceTakeable(fs: seq<Entry>, bitmap: seq<bool>, owner: seq<int>, i: nat, n1: nat)
    requires Alloc(fs, bitmap, owner) && i < |fs| && IsFile(fs[i]) && fs[i].start + n1 <= NUM_BLOCKS
    requires n1 > BlocksOf(fs[i].size) ==>
               FreeRun(bitmap, fs[i].start + BlocksOf(fs[i].size), n1 - BlocksOf(fs[i].size))
    ensures Takeable(owner, fs[i].start, n1, i)
  {
    hide BlocksOf;
    assert Owns(fs[i], owner, i);
    forall b | fs[i].start <= b < fs[i].start + n1
      ensures owner[b] < 0 || owner[b] == i
    {
      assert InExtent(fs[i], b) ==> owner[b] == i;
      assert owner[b] >= 0 ==> bitmap[b];
    }
  }

  function Zeros(n: nat): (r: seq<u8>)
    ensures |r| == n
  {
    seq(n, _ => 0)
  }

  lemma EmptyRun(bitmap: seq<bool>, a: nat, v: bool)
    requires a <= |bitmap|
    ensures SetRun(bitmap, a, 0, v) == bitmap
  {
  }

  lemma OthersSame(fs: seq<Entry>, data: seq<u8>, i: nat, e: Entry)
    requires i < |fs|
    ensures OthersKept(fs, data, fs[i := e], data, i)
  {
  }

  /** Marking new blocks before giving back the old ones ends like the other order, since the two runs are disjoint. */
  lemma TakenBeforeDrop(fs: seq<Entry>, bitmap: seq<bool>, owner: seq<int>, i: nat, a: nat, n: nat)
    requires Alloc(fs, bitmap, owner) && i < |fs| && IsFile(fs[i]) && FreeRun(bitmap, a, n)
    ensures fs[i].start + BlocksOf(fs[i].size) <= NUM_BLOCKS
    ensures SetRun(SetRun(bitmap, a, n, true), fs[i].start, BlocksOf(fs[i].size), false)
         == SetRun(Unmarked(fs, bitmap, i), a, n, true)
    ensures FreeRun(Unmarked(fs, bitmap, i), a, n) && Takeable(owner, a, n, i)
  {
    hide BlocksOf;
    assert Owns(fs[i], owner, i);
    var l, r := SetRun(SetRun(bitmap, a, n, true), fs[i].start, BlocksOf(fs[i].size), false),
                SetRun(Unmarked(fs, bitmap, i), a, n, true);
    forall b | 0 <= b < |l|
      ensures l[b] == r[b]
    {
      assert InExtent(fs[i], b) ==> owner[b] == i;
      assert a <= b < a + n ==> !bitmap[b];
    }
    forall b | a <= b < a + n
      ensures owner[b] < 0
    {
      assert !bitmap[b];
    }
  }

  lemma SpliceNext(data: seq<u8>, at: nat, piece: seq<u8>, x: u8)
    requires at + |piece| < |data|
    ensures Spliced(data, at, piece + [x]) == Spliced(data, at, piece)[at + |piece| := x]
  {
  }

  lemma SpliceNone(data: seq<u8>, at: nat)
    requires at <= |data|
    ensures Spliced(data, at, []) == data
  {
  }

  lemma OthersTrans(fs: seq<Entry>, d: seq<u8>, fs': seq<Entry>, d': seq<u8>, fs'': seq<Entry>, d'': seq<u8>, i: int)
    requires OthersKept(fs, d, fs', d', i) && OthersKept(fs', d', fs'', d'', i)
    ensures OthersKept(fs, d, fs'', d'', i)
  {
  }

  lemma SpliceAll(data: seq<u8>, piece: seq<u8>)
    requires |piece| == |data|
    ensures Spliced(data, 0, piece) == piece
  {
  }
}
