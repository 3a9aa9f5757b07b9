/** Reading a clip back out: `soundrec_get_pcm`, which describes a byte
    range of a clip as pointers into its blocks, and `soundrec_save_clip`,
    which hands the recorded bytes to the sound file writer block by block. */
module ClipAccess {
  import opened Types
  import opened ClipBuffer

  /** One (pointer, size) pair of get_pcm: `size` bytes of block `block`
      starting at `offset`. */
  datatype Fragment = Fragment(block: nat, offset: nat, size: nat)

  /** What get_pcm hands back: the byte count it returns, the fragments it
      fills in and the fragment count it allocated the arrays for. */
  datatype Pcm = Pcm(count: nat, frags: seq<Fragment>, nfrag: nat)

  /** Every fragment names an existing block and stays inside it. */
  predicate InBlocks(bs: seq<Block>, B: pos, fs: seq<Fragment>)
  {
    forall i :: 0 <= i < |fs| ==> fs[i].block < |bs| && fs[i].offset + fs[i].size <= B
  }

  /** The bytes the fragments point at, in order. */
  function Gather(bs: seq<Block>, B: pos, fs: seq<Fragment>): seq<byte>
    requires Uniform(bs, B) && InBlocks(bs, B, fs)
  {
    if |fs| == 0 then []
    else bs[fs[0].block][fs[0].offset..fs[0].offset + fs[0].size] + Gather(bs, B, fs[1..])
  }

  function SizeSum(fs: seq<Fragment>): nat
  {
    if |fs| == 0 then 0 else fs[0].size + SizeSum(fs[1..])
  }

  /** How many blocks the byte range [pos, end) touches. */
  function Touched(pos: nat, end: nat, B: pos): nat
  {
    if pos >= end then 0
    else
      BlockStartOrder(BlockOf(end - 1, B), BlockOf(pos, B), B);
      BlockOf(end - 1, B) - BlockOf(pos, B) + 1
  }

  lemma TouchedIs(pos: nat, end: nat, B: pos, a: nat, b: nat)
    requires pos < end && BlockOf(pos, B) == a && BlockOf(end - 1, B) == b
    ensures a <= b && Touched(pos, end, B) == b - a + 1
  {
    BlockStartOrder(b, a, B);
  }

  lemma BlockOfStart(k: nat, B: pos)
    ensures BlockOf(BlockStart(k, B), B) == k
  {
    var q := BlockOf(BlockStart(k, B), B);
    BlockStartOrder(q, k, B);
    BlockStartOrder(k, q, B);
  }

  /** A range that runs to the end of its first block or beyond touches
      that block and then the blocks of the rest. */
  lemma TouchedStep(pos: nat, end: nat, B: pos)
    requires pos < end && BlockStart(BlockOf(pos, B) + 1, B) <= end
    ensures Touched(pos, end, B) == 1 + Touched(BlockStart(BlockOf(pos, B) + 1, B), end, B)
  {
    var q := BlockOf(pos, B);
    BlockOfStart(q + 1, B);
    if BlockStart(q + 1, B) == end { BlockOfUnique(end - 1, B, q); }
  }

  /** The fragment loop of get_pcm from position pos up to end, with the
      block iterator on block blk: one fragment up to the end of pos's
      block (`eob`) or up to end, whichever comes first, then on from the
      start of the next block with the iterator moved on. */
  function Fragments(B: pos, pos: nat, end: nat, blk: nat): (fs: seq<Fragment>)
    ensures |fs| > 0 <==> pos < end
    ensures forall i :: 0 <= i < |fs| ==> fs[i].block == blk + i
    decreases end - pos
  {
    if pos >= end then []
    else
      var eob := BlockStart(BlockOf(pos, B) + 1, B);
      if eob > end then [Fragment(blk, InBlock(pos, B), end - pos)]
      else [Fragment(blk, InBlock(pos, B), eob - pos)] + Fragments(B, eob, end, blk + 1)
  }

  /** A range that runs past the end of pos's block: its first fragment,
      then the fragments from the next block on. */
  lemma FragmentsCons(B: pos, pos: nat, end: nat, blk: nat, eob: nat, o: nat)
    requires pos < end && eob == BlockStart(BlockOf(pos, B) + 1, B) && eob <= end && o == InBlock(pos, B)
    ensures Fragments(B, pos, end, blk) == [Fragment(blk, o, eob - pos)] + Fragments(B, eob, end, blk + 1)
  {
  }

  /** The fragments cover the range: one per block touched, each non-empty and inside its block, sizes summing to
      the length of the range. */
  lemma {:induction false} FragmentsShape(B: pos, pos: nat, end: nat, blk: nat)
    ensures var fs := Fragments(B, pos, end, blk);
      && |fs| == Touched(pos, end, B)
      && (forall i :: 0 <= i < |fs| ==> 0 < fs[i].size && fs[i].offset + fs[i].size <= B)
      && (pos <= end ==> SizeSum(fs) == end - pos)
    decreases end - pos
  {
    if pos < end {
      var q := BlockOf(pos, B);
      var eob := BlockStart(q + 1, B);
      if eob > end {
        BlockOfUnique(end - 1, B, q);
      } else {
        FragmentsShape(B, eob, end, blk + 1);
        TouchedStep(pos, end, B);
        var rest := Fragments(B, eob, end, blk + 1);
        var fs := Fragments(B, pos, end, blk);
        FragmentsCons(B, pos, end, blk, eob, InBlock(pos, B));
        assert fs[1..] == rest;
      }
    }
  }

  /** With the iterator on the block that holds pos, every fragment lies
      in a block of the clip. */
  lemma FragmentsInBlocks(bs: seq<Block>, B: pos, pos: nat, end: nat)
    requires Uniform(bs, B) && pos <= end <= |Concat(bs)|
    ensures InBlocks(bs, B, Fragments(B, pos, end, BlockOf(pos, B)))
  {
    FragmentsShape(B, pos, end, BlockOf(pos, B));
    if pos < end {
      ConcatLength(bs, B);
      BlockStartOrder(BlockOf(end - 1, B), |bs|, B);
    }
  }

  /** A range inside one block is one fragment. */
  lemma GatherLast(bs: seq<Block>, B: pos, pos: nat, end: nat)
    requires Uniform(bs, B) && pos < end <= |Concat(bs)|
    requires BlockStart(BlockOf(pos, B) + 1, B) > end
    ensures InBlocks(bs, B, Fragments(B, pos, end, BlockOf(pos, B)))
    ensures Gather(bs, B, Fragments(B, pos, end, BlockOf(pos, B))) == Concat(bs)[pos..end]
  {
    FragmentsInBlocks(bs, B, pos, end);
    var q := BlockOf(pos, B);
    var o := InBlock(pos, B);
    var fs := Fragments(B, pos, end, q);
    ConcatLength(bs, B);
    BlockStartOrder(q, |bs|, B);
    ConcatSlice(bs, B, q, o, o + (end - pos));
    assert fs == [Fragment(q, o, end - pos)];
    assert Gather(bs, B, fs) == bs[q][o..o + (end - pos)] + Gather(bs, B, []);
  }

  /** A range past the end of its first block is the rest of that block,
      then the fragments from the start of the next one. */
  lemma GatherStep(bs: seq<Block>, B: pos, pos: nat, end: nat)
    requires Uniform(bs, B) && pos < end <= |Concat(bs)|
    requires BlockStart(BlockOf(pos, B) + 1, B) <= end
    ensures BlockOf(BlockStart(BlockOf(pos, B) + 1, B), B) == BlockOf(pos, B) + 1
    ensures InBlocks(bs, B, Fragments(B, pos, end, BlockOf(pos, B)))
    ensures InBlocks(bs, B, Fragments(B, BlockStart(BlockOf(pos, B) + 1, B), end, BlockOf(pos, B) + 1))
    ensures Gather(bs, B, Fragments(B, pos, end, BlockOf(pos, B)))
         == Concat(bs)[pos..BlockStart(BlockOf(pos, B) + 1, B)]
          + Gather(bs, B, Fragments(B, BlockStart(BlockOf(pos, B) + 1, B), end, BlockOf(pos, B) + 1))
  {
    var q := BlockOf(pos, B);
    var eob := BlockStart(q + 1, B);
    BlockOfStart(q + 1, B);
    FragmentsInBlocks(bs, B, pos, end);
    FragmentsInBlocks(bs, B, eob, end);
    GatherStepAt(bs, B, pos, end, q, eob, InBlock(pos, B));
  }

  /** GatherStep with the block, the end of the block and the offset
      named. */
  lemma GatherStepAt(bs: seq<Block>, B: pos, pos: nat, end: nat, q: nat, eob: nat, o: nat)
    requires Uniform(bs, B) && pos < end <= |Concat(bs)|
    requires q == BlockOf(pos, B) && eob == BlockStart(q + 1, B) && o == InBlock(pos, B) && eob <= end
    requires InBlocks(bs, B, Fragments(B, pos, end, q)) && InBlocks(bs, B, Fragments(B, eob, end, q + 1))
    ensures Gather(bs, B, Fragments(B, pos, end, q)) == Concat(bs)[pos..eob] + Gather(bs, B, Fragments(B, eob, end, q + 1))
  {
    var fs := Fragments(B, pos, end, q);
    var rest := Fragments(B, eob, end, q + 1);
    FragmentsCons(B, pos, end, q, eob, o);
    assert fs[0] == Fragment(q, o, eob - pos) && fs[1..] == rest;
    GatherCons(bs, B, fs);
    RestOfBlock(bs, B, pos, q, eob, o);
  }

  /** Gather takes the first fragment's bytes, then the rest's. */
  lemma GatherCons(bs: seq<Block>, B: pos, fs: seq<Fragment>)
    requires Uniform(bs, B) && InBlocks(bs, B, fs) && |fs| > 0
    ensures InBlocks(bs, B, fs[1..])
    ensures Gather(bs, B, fs) == bs[fs[0].block][fs[0].offset..fs[0].offset + fs[0].size] + Gather(bs, B, fs[1..])
  {
  }

  /** The bytes from pos to the end of its block, as a slice of the block
      and of the logical string. */
  lemma RestOfBlock(bs: seq<Block>, B: pos, pos: nat, q: nat, eob: nat, o: nat)
    requires Uniform(bs, B) && pos < eob <= |Concat(bs)|
    requires q == BlockOf(pos, B) && eob == BlockStart(q + 1, B) && o == InBlock(pos, B)
    ensures q < |bs| && bs[q][o..o + (eob - pos)] == Concat(bs)[pos..eob]
  {
    ConcatLength(bs, B);
    BlockStartOrder(q, |bs|, B);
    ConcatSlice(bs, B, q, o, B);
  }

  /** ... and the fragments point exactly at the bytes pos up to end of
      the logical string. */
  lemma {:induction false} GatherFragments(bs: seq<Block>, B: pos, pos: nat, end: nat)
    requires Uniform(bs, B) && pos <= end <= |Concat(bs)|
    ensures InBlocks(bs, B, Fragments(B, pos, end, BlockOf(pos, B)))
    ensures Gather(bs, B, Fragments(B, pos, end, BlockOf(pos, B))) == Concat(bs)[pos..end]
    decreases end - pos
  {
    FragmentsInBlocks(bs, B, pos, end);
    if pos < end {
      var eob := BlockStart(BlockOf(pos, B) + 1, B);
      if eob > end {
        GatherLast(bs, B, pos, end);
      } else {
        GatherStep(bs, B, pos, end);
        GatherFragments(bs, B, eob, end);
        SliceJoin(Concat(bs), pos, eob, end);
      }
    }
  }

  // ---------------------------------------------------------------------
  // get_pcm

  /** The number of fragments a range of n bytes from start needs: the
      number of blocks it touches. */
  function NfragCorrected(start: nat, n: nat, B: pos): nat
  {
    Touched(start, start + n, B)
  }

  /** The fragments for the recorded bytes start up to end: one per block
      touched, each non-empty and inside an existing block, together
      exactly those bytes. */
  lemma RangeFragments(c: Clip, B: pos, start: nat, end: nat)
    requires Valid(c, B) && start <= end <= c.recSize
    ensures var fs := Fragments(B, start, end, BlockOf(start, B));
      && |fs| == Touched(start, end, B)
      && SizeSum(fs) == end - start
      && (forall i :: 0 <= i < |fs| ==> 0 < fs[i].size)
      && InBlocks(c.blocks, B, fs)
      && Gather(c.blocks, B, fs) == Content(c, B)[start..end]
  {
    ConcatLength(c.blocks, B);
    FragmentsShape(B, start, end, BlockOf(start, B));
    GatherFragments(c.blocks, B, start, end);
    PrefixSlice(Concat(c.blocks), c.recSize, start, end);
  }

  /** `soundrec_get_pcm` on a clip, with the block skip landing on the block
      that holds start and the fragment count being the blocks touched. */
  function GetPcm(c: Clip, B: pos, start: nat, nbytes: nat): (p: Pcm)
    requires Valid(c, B)
    ensures p.count == if start >= c.recSize then 0 else Min(nbytes, c.recSize - start)
    ensures start >= c.recSize ==> p.frags == []
    ensures |p.frags| == p.nfrag && SizeSum(p.frags) == p.count
    ensures forall i :: 0 <= i < |p.frags| ==> 0 < p.frags[i].size
    ensures InBlocks(c.blocks, B, p.frags)
    ensures start < c.recSize ==> Gather(c.blocks, B, p.frags) == Content(c, B)[start..start + p.count]
  {
    if start >= c.recSize then Pcm(0, [], 0)
    else
      var n := if start + nbytes > c.recSize then c.recSize - start else nbytes;
      RangeFragments(c, B, start, start + n);
      Pcm(n, Fragments(B, start, start + n, BlockOf(start, B)), NfragCorrected(start, n, B))
  }

  /** The skip loop of get_pcm as written: move on while `pos + B < start`. */
  function SkipFrom(start: nat, B: pos, pos: nat, j: nat): (r: nat)
    ensures r >= j
    decreases start - pos
  {
    if pos + B < start then SkipFrom(start, B, pos + B, j + 1) else j
  }

  function SkipAsWritten(start: nat, B: pos): (j: nat)
    ensures start <= B ==> j == 0
    ensures start > B ==> j > 0
  {
    SkipFrom(start, B, 0, 0)
  }

  lemma {:induction false} SkipFromValue(start: nat, B: pos, j: nat)
    requires start > 0 && j <= BlockOf(start - 1, B)
    ensures SkipFrom(start, B, BlockStart(j, B), j) == BlockOf(start - 1, B)
    decreases BlockOf(start - 1, B) - j
  {
    var m := BlockOf(start - 1, B);
    if j < m {
      BlockStartMono(j + 1, m, B);
      SkipFromValue(start, B, j + 1);
    }
  }

  /** The skip as written stops on the block holding start, except when
      start is a positive multiple of B: then it stops one block early. */
  lemma SkipAsWrittenValue(start: nat, B: pos)
    ensures start > 0 && InBlock(start, B) == 0 ==> SkipAsWritten(start, B) == BlockOf(start, B) - 1
    ensures !(start > 0 && InBlock(start, B) == 0) ==> SkipAsWritten(start, B) == BlockOf(start, B)
  {
    if start > 0 {
      SkipFromValue(start, B, 0);
      var q := BlockOf(start, B);
      if InBlock(start, B) == 0 {
        BlockOfUnique(start - 1, B, q - 1);
      } else {
        BlockOfUnique(start - 1, B, q);
      }
    }
  }

  /** ceil(n / B) on exact numbers, as the double division computes it for
      every count a clip can hold. */
  function CeilDiv(n: nat, B: pos): nat
  {
    BlockOf(n + B - 1, B)
  }

  /** The fragment count as written: ceil(n / B), plus one when the room
      left in start's block (`rem1`) is less than n mod B (`rem2`). */
  function NfragAsWritten(start: nat, n: nat, B: pos): (k: nat)
    ensures CeilDiv(n, B) <= k <= CeilDiv(n, B) + 1
    ensures k == CeilDiv(n, B) + 1 ==> InBlock(start, B) > 0 && InBlock(n, B) > 0
  {
    var rem1 := B - InBlock(start, B);
    var rem2 := InBlock(n, B);
    CeilDiv(n, B) + if rem1 < rem2 then 1 else 0
  }

  /** ceil(n / B) is the full blocks in n, plus one for a partial block. */
  lemma CeilDivValue(n: nat, B: pos)
    ensures CeilDiv(n, B) == BlockOf(n, B) + if InBlock(n, B) == 0 then 0 else 1
  {
    var q := BlockOf(n, B);
    if InBlock(n, B) == 0 {
      BlockOfUnique(n + B - 1, B, q);
    } else {
      BlockOfUnique(n + B - 1, B, q + 1);
    }
  }

  /** The position o + r - 1 bytes past the start of block k lies in
      block k + d - 1, when o + r + B - 1 lies in block d. */
  lemma BlockPast(k: nat, o: nat, r: nat, B: pos, d: nat)
    requires d <= 2 && BlockStart(k, B) + o + r >= 1
    requires BlockStart(d, B) <= o + r + B - 1 < BlockStart(d, B) + B
    ensures BlockOf(BlockStart(k, B) + o + r - 1, B) + 1 == k + d
  {
    var x := BlockStart(k, B) + o + r - 1;
    if d == 0 {
      assert o + r == 0;
      assert BlockStart(k - 1, B) + B == BlockStart(k, B);
      BlockOfUnique(x, B, k - 1);
    } else {
      BlockStartAdd(k, d - 1, B);
      assert BlockStart(d - 1, B) + B == BlockStart(d, B);
      BlockOfUnique(x, B, k + d - 1);
    }
  }

  /** With start at offset o of block s0 and n being q blocks and r
      bytes, the last byte of the range lies in block s0 + q + d - 1,
      where d counts how far o + r reaches into the blocks after. */
  lemma LastBlockAt(start: nat, n: nat, B: pos, s0: nat, o: nat, q: nat, r: nat, d: nat)
    requires n > 0 && d <= 2
    requires start == BlockStart(s0, B) + o && n == BlockStart(q, B) + r
    requires BlockStart(d, B) <= o + r + B - 1 < BlockStart(d, B) + B
    ensures BlockOf(start + n - 1, B) + 1 == s0 + q + d
  {
    BlockStartAdd(s0, q, B);
    BlockPast(s0 + q, o, r, B, d);
  }

  /** The block of the last byte of a non-empty range: start's block plus
      the blocks its length fills, plus one when the offset of start and
      the remainder of the length overflow a block, minus one when both
      are zero. */
  lemma LastBlock(start: nat, n: nat, B: pos)
    requires n > 0
    ensures var o := InBlock(start, B);
      var r := InBlock(n, B);
      BlockOf(start + n - 1, B) + 1
      == BlockOf(start, B) + BlockOf(n, B) + (if o + r == 0 then 0 else if o + r <= B then 1 else 2)
  {
    var o := InBlock(start, B);
    var r := InBlock(n, B);
    assert BlockStart(1, B) == B;
    assert BlockStart(2, B) == B + B;
    var s0 := BlockOf(start, B);
    var q := BlockOf(n, B);
    if o + r == 0 {
      LastBlockAt(start, n, B, s0, o, q, r, 0);
    } else if o + r <= B {
      LastBlockAt(start, n, B, s0, o, q, r, 1);
    } else {
      LastBlockAt(start, n, B, s0, o, q, r, 2);
    }
  }

  /** A non-empty range touches the blocks its length fills, plus one
      when its start offset and its length's remainder overflow a block,
      minus one when both are zero. */
  lemma TouchedValue(start: nat, n: nat, B: pos)
    requires n > 0
    ensures var o := InBlock(start, B);
      var r := InBlock(n, B);
      Touched(start, start + n, B)
      == BlockOf(n, B) + (if o + r == 0 then 0 else if o + r <= B then 1 else 2)
  {
    LastBlock(start, n, B);
    TouchedIs(start, start + n, B, BlockOf(start, B), BlockOf(start + n - 1, B));
  }

  /** The count as written is the number of blocks touched, except that it
      is one short when n is a positive multiple of B and start is not
      block-aligned. */
  lemma NfragAsWrittenCount(start: nat, n: nat, B: pos)
    ensures NfragAsWritten(start, n, B)
          + (if n > 0 && InBlock(n, B) == 0 && InBlock(start, B) != 0 then 1 else 0)
         == NfragCorrected(start, n, B)
  {
    CeilDivValue(n, B);
    if n > 0 {
      TouchedValue(start, n, B);
    } else {
      BlockOfUnique(0, B, 0);
    }
  }

  /** `soundrec_get_pcm` as written: the skip loop and the fragment count
      above, the fragment loop unchanged. */
  function GetPcmAsWritten(c: Clip, B: pos, start: nat, nbytes: nat): (p: Pcm)
    requires Valid(c, B)
    ensures p.count == if start >= c.recSize then 0 else Min(nbytes, c.recSize - start)
  {
    if start >= c.recSize then Pcm(0, [], 0)
    else
      var n := if start + nbytes > c.recSize then c.recSize - start else nbytes;
      Pcm(n, Fragments(B, start, start + n, SkipAsWritten(start, B)), NfragAsWritten(start, n, B))
  }

  /** Away from the two defects the code as written is the corrected one. */
  lemma GetPcmAsWrittenAgrees(c: Clip, B: pos, start: nat, nbytes: nat)
    requires Valid(c, B) && start < c.recSize
    requires !(start > 0 && InBlock(start, B) == 0)
    requires !(Min(nbytes, c.recSize - start) > 0 && InBlock(Min(nbytes, c.recSize - start), B) == 0 && InBlock(start, B) != 0)
    ensures GetPcmAsWritten(c, B, start, nbytes) == GetPcm(c, B, start, nbytes)
  {
    SkipAsWrittenValue(start, B);
    NfragAsWrittenCount(start, Min(nbytes, c.recSize - start), B);
  }

  /** When start is a positive multiple of B, the code as written points
      its first fragment at the block before the one holding start: the
      bytes it hands back start B bytes too early. */
  lemma GetPcmAsWrittenReadsEarlier(c: Clip, B: pos, start: nat, nbytes: nat)
    requires Valid(c, B) && start < c.recSize && 0 < nbytes
    requires start > 0 && InBlock(start, B) == 0
    ensures var p := GetPcmAsWritten(c, B, start, nbytes);
      && |p.frags| > 0
      && p.frags[0].block + 1 == BlockOf(start, B)
      && p.frags[0].offset == 0
      && p.frags[0].block < |c.blocks|
      && p.frags[0].size <= B
      && start - B + p.frags[0].size <= |Concat(c.blocks)|
      && c.blocks[p.frags[0].block][..p.frags[0].size]
         == Concat(c.blocks)[start - B .. start - B + p.frags[0].size]
  {
    SkipAsWrittenValue(start, B);
    var q := BlockOf(start, B);
    var n := Min(nbytes, c.recSize - start);
    var p := GetPcmAsWritten(c, B, start, nbytes);
    assert p.frags == Fragments(B, start, start + n, q - 1);
    FirstFragment(B, start, start + n, q - 1);
    ConcatLength(c.blocks, B);
    BlockStartOrder(q, |c.blocks|, B);
    BlockBefore(c.blocks, B, start, q, p.frags[0].size);
  }

  /** The first fragment of a non-empty range: on block blk, at pos's
      offset, and no longer than the rest of pos's block. */
  lemma FirstFragment(B: pos, pos: nat, end: nat, blk: nat)
    requires pos < end
    ensures var fs := Fragments(B, pos, end, blk);
      && |fs| > 0 && fs[0].block == blk && fs[0].offset == InBlock(pos, B)
      && fs[0].size <= BlockStart(BlockOf(pos, B) + 1, B) - pos
  {
  }

  /** The bytes of the block before the one starting at start are the B
      bytes before start. */
  lemma BlockBefore(bs: seq<Block>, B: pos, start: nat, q: nat, size: nat)
    requires Uniform(bs, B) && 0 < q <= |bs| && start == BlockStart(q, B) && size <= B
    ensures start - B + size <= |Concat(bs)|
    ensures bs[q - 1][..size] == Concat(bs)[start - B .. start - B + size]
  {
    ConcatSlice(bs, B, q - 1, 0, size);
    assert bs[q - 1][..size] == bs[q - 1][0..size];
  }

  /** When n is a positive multiple of B and start is not aligned, the code
      as written allocates one fragment too few and its loop fills one more
      than it allocated. */
  lemma GetPcmAsWrittenUndercounts(c: Clip, B: pos, start: nat, nbytes: nat)
    requires Valid(c, B) && start < c.recSize
    requires Min(nbytes, c.recSize - start) > 0 && InBlock(Min(nbytes, c.recSize - start), B) == 0
    requires InBlock(start, B) != 0
    ensures var p := GetPcmAsWritten(c, B, start, nbytes);
      |p.frags| == p.nfrag + 1
  {
    var n := Min(nbytes, c.recSize - start);
    FragmentsShape(B, start, start + n, SkipAsWritten(start, B));
    NfragAsWrittenCount(start, Min(nbytes, c.recSize - start), B);
  }

  /** Two full blocks [a, b] [d, e] of size 2. Asking for 2 bytes from
      byte 2 gets [d, e] from the corrected code but a pointer to [a, b]
      from the code as written. */
  lemma GetPcmAsWrittenExample(c: Clip, a: byte, b: byte, d: byte, e: byte)
    requires c == Clip([[a, b], [d, e]], 0, 4, 4, 0, 0)
    ensures Valid(c, 2)
    ensures GetPcmAsWritten(c, 2, 2, 2).frags == [Fragment(0, 0, 2)]
    ensures GetPcm(c, 2, 2, 2).frags == [Fragment(1, 0, 2)]
    ensures Gather(c.blocks, 2, GetPcm(c, 2, 2, 2).frags) == [d, e]
  {
    TwoFullBlocks(c, a, b, d, e);
    BlockOfUnique(2, 2, 1);
    BlockOfUnique(3, 2, 1);
    SkipAsWrittenValue(2, 2);
    BlockOfStart(2, 2);
    var p := GetPcm(c, 2, 2, 2);
    assert p.frags[0].block == 1;
    assert Content(c, 2)[2..4] == [d, e];
  }

  /** On the same clip, asking for 2 bytes from byte 1 needs two
      fragments, where the code as written allocates one. */
  lemma GetPcmUndercountExample(c: Clip, a: byte, b: byte, d: byte, e: byte)
    requires c == Clip([[a, b], [d, e]], 0, 4, 4, 0, 0)
    ensures Valid(c, 2)
    ensures GetPcmAsWritten(c, 2, 1, 2).nfrag == 1 && |GetPcmAsWritten(c, 2, 1, 2).frags| == 2
  {
    TwoFullBlocks(c, a, b, d, e);
    BlockOfUnique(1, 2, 0);
    BlockOfUnique(2, 2, 1);
    BlockOfUnique(3, 2, 1);
    GetPcmAsWrittenUndercounts(c, 2, 1, 2);
  }

  // ---------------------------------------------------------------------
  // save_clip

  /** The bytes `soundrec_save_clip` hands to the sound file: the
      rec_size / B full blocks, then the first rec_size mod B bytes of the
      next one. When the clip is exactly full there is no next block; the
      source then writes zero bytes from the end iterator, which the model
      reads as writing nothing. */
  method SaveClip(c: Clip, B: pos) returns (out: seq<byte>)
    requires Valid(c, B)
    ensures out == Content(c, B)
  {
    var nblocks := BlockOf(c.recSize, B);
    BlockStartOrder(|c.blocks|, nblocks, B);
    out := [];
    var i := 0;
    while i < nblocks
      invariant 0 <= i <= nblocks <= |c.blocks|
      invariant out == Concat(c.blocks[..i])
    {
      ConcatLast(c.blocks, i);
      out := out + c.blocks[i];
      i := i + 1;
    }
    var last := c.recSize - BlockStart(nblocks, B);
    ConcatLength(c.blocks, B);
    ConcatLength(c.blocks[..nblocks], B);
    if nblocks < |c.blocks| {
      ConcatSplit(c.blocks, nblocks);
      PrefixOfAppendBlock(Concat(c.blocks[..nblocks]), c.blocks[nblocks], Concat(c.blocks[nblocks + 1..]), last);
      out := out + c.blocks[nblocks][..last];
    } else {
      assert c.blocks[..nblocks] == c.blocks;
    }
  }

  lemma PrefixOfAppendBlock(x: seq<byte>, y: seq<byte>, z: seq<byte>, j: nat)
    requires j <= |y|
    ensures (x + y + z)[..|x| + j] == x + y[..j]
  {
    assert (x + y + z)[..|x| + j] == (x + y)[..|x| + j];
  }
}
