/** The chunked clip buffer of soundrec.cpp: a list of fixed-size blocks,
    the recorded and played byte counts, and a cursor on the current block.
    The block size B is a parameter (1 MiB in the source). The record
    callback appends a chunk and the playback callback consumes a request;
    each is given once as written and once with the block-boundary defect
    corrected. */
module ClipBuffer {
  import opened Types

  type Block = seq<byte>

  // ---------------------------------------------------------------------
  // Blocks as one logical byte string

  /** The bytes of all blocks, oldest block first. */
  function Concat(bs: seq<Block>): seq<byte>
  {
    if |bs| == 0 then [] else Concat(bs[..|bs| - 1]) + bs[|bs| - 1]
  }

  /** Every block is exactly one block size long (malloc(BLOCK_SIZE)). */
  predicate Uniform(bs: seq<Block>, B: pos)
  {
    forall i :: 0 <= i < |bs| ==> |bs[i]| == B
  }

  /** Where block k starts in the logical byte string: k*B, written as a
      repeated sum so that the solver does not reason about products. */
  function BlockStart(k: nat, B: pos): nat
  {
    if k == 0 then 0 else BlockStart(k - 1, B) + B
  }

  lemma {:induction false} BlockStartIsProduct(k: nat, B: pos)
    ensures BlockStart(k, B) == k * B
  {
    if k > 0 { BlockStartIsProduct(k - 1, B); }
  }

  lemma {:induction false} BlockStartMono(a: nat, b: nat, B: pos)
    requires a <= b
    ensures BlockStart(a, B) <= BlockStart(b, B)
    ensures a < b ==> BlockStart(a, B) + B <= BlockStart(b, B)
    decreases b
  {
    if a < b { BlockStartMono(a, b - 1, B); }
  }

  /** Block positions are ordered as the blocks are. */
  lemma BlockStartOrder(a: nat, b: nat, B: pos)
    ensures BlockStart(a, B) < BlockStart(b, B) <==> a < b
    ensures BlockStart(a, B) + B <= BlockStart(b, B) <==> a < b
  {
    if a < b { BlockStartMono(a, b, B); }
    if b <= a { BlockStartMono(b, a, B); }
  }

  /** Block starts add up: (a + b) * B = a * B + b * B. */
  lemma {:induction false} BlockStartAdd(a: nat, b: nat, B: pos)
    ensures BlockStart(a + b, B) == BlockStart(a, B) + BlockStart(b, B)
    decreases b
  {
    if b > 0 { BlockStartAdd(a, b - 1, B); }
  }

  /** The block a position lies in, `pos / B`, by repeated subtraction. */
  function BlockOf(pos: nat, B: pos): (q: nat)
    ensures BlockStart(q, B) <= pos < BlockStart(q, B) + B
    decreases pos
  {
    if pos < B then 0 else BlockOf(pos - B, B) + 1
  }

  /** The offset of a position within its block, `pos % B`. */
  function InBlock(pos: nat, B: pos): (o: nat)
    ensures o < B
  {
    pos - BlockStart(BlockOf(pos, B), B)
  }

  /** A position lies in exactly one block. */
  lemma BlockOfUnique(x: nat, B: pos, q: nat)
    requires BlockStart(q, B) <= x < BlockStart(q, B) + B
    ensures BlockOf(x, B) == q && InBlock(x, B) == x - BlockStart(q, B)
  {
    BlockStartOrder(BlockOf(x, B), q, B);
    BlockStartOrder(q, BlockOf(x, B), B);
  }

  /** Two multiples of B that differ are at least B apart. */
  lemma MulGap(a: nat, b: nat, B: pos)
    ensures a < b ==> a * B + B <= b * B
  {
    BlockStartIsProduct(a, B);
    BlockStartIsProduct(b, B);
    if a < b { BlockStartMono(a, b, B); }
  }

  /** BlockOf and InBlock are C's `/` and `%` on unsigned operands. */
  lemma BlockOfIsDiv(x: nat, B: pos)
    ensures BlockOf(x, B) == x / B && InBlock(x, B) == x % B
  {
    var q := BlockOf(x, B);
    BlockStartIsProduct(q, B);
    var d := x / B;
    assert x == d * B + x % B;
    MulGap(d, q, B);
    MulGap(q, d, B);
  }

  lemma {:induction false} ConcatLength(bs: seq<Block>, B: pos)
    requires Uniform(bs, B)
    ensures |Concat(bs)| == BlockStart(|bs|, B)
    decreases |bs|
  {
    if |bs| > 0 {
      ConcatLength(bs[..|bs| - 1], B);
    }
  }

  lemma {:induction false} ConcatAppend(a: seq<Block>, b: seq<Block>)
    ensures Concat(a + b) == Concat(a) + Concat(b)
    decreases |b|
  {
    if |b| == 0 {
      assert a + b == a;
    } else {
      var init := b[..|b| - 1];
      var last := b[|b| - 1];
      assert (a + b)[..|a + b| - 1] == a + init && (a + b)[|a + b| - 1] == last;
      ConcatAppend(a, init);
      assert Concat(a + b) == Concat(a + init) + last;
      assert Concat(b) == Concat(init) + last;
    }
  }

  lemma ConcatCut(bs: seq<Block>, k: nat)
    requires k <= |bs|
    ensures Concat(bs) == Concat(bs[..k]) + Concat(bs[k..])
  {
    assert bs == bs[..k] + bs[k..];
    ConcatAppend(bs[..k], bs[k..]);
  }

  lemma ConcatLast(bs: seq<Block>, k: nat)
    requires k < |bs|
    ensures Concat(bs[..k + 1]) == Concat(bs[..k]) + bs[k]
  {
    assert bs[..k + 1][..k] == bs[..k];
  }

  lemma ConcatPush(bs: seq<Block>, b: Block)
    ensures Concat(bs + [b]) == Concat(bs) + b
  {
    assert (bs + [b])[..|bs|] == bs;
  }

  lemma ConcatSplit(bs: seq<Block>, k: nat)
    requires k < |bs|
    ensures Concat(bs) == Concat(bs[..k]) + bs[k] + Concat(bs[k + 1..])
  {
    ConcatCut(bs, k + 1);
    ConcatLast(bs, k);
  }

  lemma SliceMiddle(s: seq<byte>, p: seq<byte>, m: seq<byte>, q: seq<byte>, a: nat, b: nat)
    requires s == p + m + q && a <= b <= |m|
    ensures |p| + b <= |s| && s[|p| + a .. |p| + b] == m[a..b]
  {
  }

  /** Bytes a up to b of block k sit at BlockStart(k) + a up to BlockStart(k) + b
      of the logical string. */
  lemma ConcatSlice(bs: seq<Block>, B: pos, k: nat, a: nat, b: nat)
    requires Uniform(bs, B) && k < |bs| && a <= b <= B
    ensures BlockStart(k, B) + b <= |Concat(bs)|
    ensures Concat(bs)[BlockStart(k, B) + a .. BlockStart(k, B) + b] == bs[k][a..b]
  {
    ConcatSplit(bs, k);
    ConcatLength(bs[..k], B);
    SliceMiddle(Concat(bs), Concat(bs[..k]), bs[k], Concat(bs[k + 1..]), a, b);
  }

  /** memcpy of d to position p. */
  function WriteAt(s: seq<byte>, p: nat, d: seq<byte>): (r: seq<byte>)
    requires p + |d| <= |s|
    ensures |r| == |s|
  {
    s[..p] + d + s[p + |d|..]
  }

  lemma WriteAtPrefix(s: seq<byte>, p: nat, d: seq<byte>)
    requires p + |d| <= |s|
    ensures WriteAt(s, p, d)[..p + |d|] == s[..p] + d
  {
    assert WriteAt(s, p, d)[..p + |d|] == (s[..p] + d + s[p + |d|..])[..p + |d|];
  }

  /** Copying into the middle part of a string only changes that part. */
  lemma WriteAtMiddle(p: seq<byte>, m: seq<byte>, q: seq<byte>, off: nat, d: seq<byte>)
    requires off + |d| <= |m|
    ensures WriteAt(p + m + q, |p| + off, d) == p + WriteAt(m, off, d) + q
  {
    var s := p + m + q;
    assert s[..|p| + off] == p + m[..off];
    assert s[|p| + off + |d|..] == m[off + |d|..] + q;
  }

  /** Copying into block k at offset off is copying into the logical string
      at BlockStart(k) + off. */
  lemma WriteBlock(bs: seq<Block>, B: pos, k: nat, off: nat, d: seq<byte>)
    requires Uniform(bs, B) && k < |bs| && off + |d| <= B
    ensures Uniform(bs[k := WriteAt(bs[k], off, d)], B)
    ensures BlockStart(k, B) + off + |d| <= |Concat(bs)|
    ensures Concat(bs[k := WriteAt(bs[k], off, d)]) == WriteAt(Concat(bs), BlockStart(k, B) + off, d)
  {
    var bs' := bs[k := WriteAt(bs[k], off, d)];
    ConcatSplit(bs, k);
    ConcatSplit(bs', k);
    assert bs'[..k] == bs[..k];
    assert bs'[k + 1..] == bs[k + 1..];
    ConcatLength(bs[..k], B);
    ConcatSlice(bs, B, k, 0, B);
    WriteAtMiddle(Concat(bs[..k]), bs[k], Concat(bs[k + 1..]), off, d);
  }

  // ---------------------------------------------------------------------
  // The clip

  /** A recorded clip: its blocks, the block the cursor (`buf`/`it`) is on,
      the capacity, the recorded and played byte counts and its id. */
  datatype Clip = Clip(blocks: seq<Block>, cursor: nat, capacity: nat,
                       recSize: nat, playedSize: nat, id: nat)

  /** The invariant of the class: whole blocks, capacity their total, the
      cursor on a block, played <= recorded <= capacity. */
  predicate Valid(c: Clip, B: pos)
  {
    && |c.blocks| >= 1
    && Uniform(c.blocks, B)
    && c.capacity == BlockStart(|c.blocks|, B)
    && c.cursor < |c.blocks|
    && c.playedSize <= c.recSize <= c.capacity
  }

  /** The shape kept while recording: the cursor on the last block, and the
      recording reaches into that block unless it is the first. */
  predicate RecordingShape(c: Clip, B: pos)
  {
    && Valid(c, B)
    && c.cursor == |c.blocks| - 1
    && (c.cursor == 0 || BlockStart(c.cursor, B) < c.recSize)
  }

  /** The shape kept while playing back: the play position lies in the
      cursor's block or at its very end. */
  predicate PlaybackShape(c: Clip, B: pos)
  {
    && Valid(c, B)
    && BlockStart(c.cursor, B) <= c.playedSize <= BlockStart(c.cursor, B) + B
  }

  /** The recorded bytes, in order. */
  function Content(c: Clip, B: pos): (s: seq<byte>)
    requires Valid(c, B)
    ensures |s| == c.recSize
  {
    ConcatLength(c.blocks, B);
    Concat(c.blocks)[..c.recSize]
  }

  /** A freshly allocated block. Its contents are never read below rec_size. */
  function FreshBlock(B: pos): Block
  {
    seq(B, _ => 0)
  }

  /** `new Clip()`: one block, nothing recorded. */
  function NewClip(id: nat, B: pos): (c: Clip)
    ensures RecordingShape(c, B) && PlaybackShape(c, B)
    ensures |c.blocks| == 1 && c.capacity == B
    ensures c.recSize == 0 && c.playedSize == 0 && c.id == id
    ensures Content(c, B) == []
  {
    Clip([FreshBlock(B)], 0, B, 0, 0, id)
  }

  /** `rewind()` plus `played_size = 0`, done when playback starts. */
  function Rewind(c: Clip, B: pos): (r: Clip)
    requires Valid(c, B)
    ensures PlaybackShape(r, B) && r.cursor == 0 && r.playedSize == 0
    ensures Content(r, B) == Content(c, B)
    ensures r.blocks == c.blocks && r.recSize == c.recSize && r.id == c.id
  {
    c.(cursor := 0, playedSize := 0)
  }

  // ---------------------------------------------------------------------
  // read_cb: append one captured chunk

  /** Where recording continues within the last block: the bytes already
      recorded in it. */
  function RecordOffset(c: Clip, B: pos): (off: nat)
    requires RecordingShape(c, B)
    ensures off <= B
  {
    c.recSize - BlockStart(c.cursor, B)
  }

  /** Copy a chunk to offset off of the last block. */
  function FillAt(c: Clip, B: pos, off: nat, chunk: seq<byte>): Clip
    requires Valid(c, B) && c.cursor == |c.blocks| - 1 && off + |chunk| <= B
  {
    var k := c.cursor;
    c.(blocks := c.blocks[k := WriteAt(c.blocks[k], off, chunk)], recSize := c.recSize + |chunk|)
  }

  /** Copy the head of a chunk to offset off of the last block, up to its
      end, and the rest into a freshly allocated block that becomes the
      last one. The rest must fit in that one block. */
  function SpillAt(c: Clip, B: pos, off: nat, chunk: seq<byte>): Clip
    requires Valid(c, B) && c.cursor == |c.blocks| - 1
    requires off <= B < off + |chunk| <= B + B
  {
    var k := c.cursor;
    var top := B - off;
    var filled := c.blocks[k := WriteAt(c.blocks[k], off, chunk[..top])];
    var grown := filled + [WriteAt(FreshBlock(B), 0, chunk[top..])];
    Clip(grown, |grown| - 1, c.capacity + B, c.recSize + |chunk|, c.playedSize, c.id)
  }

  lemma WriteAtEnd(s: seq<byte>, p: nat, d: seq<byte>)
    requires p + |d| == |s|
    ensures WriteAt(s, p, d) == s[..p] + d
  {
  }

  lemma PrefixOfAppend(x: seq<byte>, y: seq<byte>, j: nat)
    requires j <= |y|
    ensures (x + y)[..|x| + j] == x + y[..j]
  {
  }

  /** A chunk that fits in the room left in the last block is appended there. */
  lemma FillAtRecordOffset(c: Clip, B: pos, chunk: seq<byte>)
    requires RecordingShape(c, B)
    requires RecordOffset(c, B) + |chunk| <= B
    ensures RecordingShape(FillAt(c, B, RecordOffset(c, B), chunk), B)
    ensures Content(FillAt(c, B, RecordOffset(c, B), chunk), B) == Content(c, B) + chunk
  {
    var k := c.cursor;
    var off := RecordOffset(c, B);
    var written := c.blocks[k := WriteAt(c.blocks[k], off, chunk)];
    WriteBlock(c.blocks, B, k, off, chunk);
    WriteAtPrefix(Concat(c.blocks), c.recSize, chunk);
    ConcatLength(written, B);
  }

  lemma SpillAtRecordOffsetShape(c: Clip, B: pos, chunk: seq<byte>)
    requires RecordingShape(c, B)
    requires B < RecordOffset(c, B) + |chunk| <= B + B
    ensures RecordingShape(SpillAt(c, B, RecordOffset(c, B), chunk), B)
  {
    var k := c.cursor;
    var off := RecordOffset(c, B);
    WriteBlock(c.blocks, B, k, off, chunk[..B - off]);
  }

  /** A chunk that overflows the last block fills it and starts a fresh one;
      either way the recording is extended by exactly the chunk. */
  lemma SpillAtRecordOffset(c: Clip, B: pos, chunk: seq<byte>)
    requires RecordingShape(c, B)
    requires B < RecordOffset(c, B) + |chunk| <= B + B
    ensures RecordingShape(SpillAt(c, B, RecordOffset(c, B), chunk), B)
    ensures Content(SpillAt(c, B, RecordOffset(c, B), chunk), B) == Content(c, B) + chunk
  {
    SpillAtRecordOffsetShape(c, B, chunk);
    var k := c.cursor;
    var off := RecordOffset(c, B);
    var top := B - off;
    var head := chunk[..top];
    var tail := chunk[top..];
    var filled := c.blocks[k := WriteAt(c.blocks[k], off, head)];
    var added := WriteAt(FreshBlock(B), 0, tail);
    var r := SpillAt(c, B, off, chunk);
    assert r.blocks == filled + [added] && r.recSize == c.recSize + |chunk|;
    var whole := Concat(c.blocks);
    WriteBlock(c.blocks, B, k, off, head);
    ConcatLength(c.blocks, B);
    WriteAtEnd(whole, c.recSize, head);
    assert Concat(filled) == Content(c, B) + head;
    ConcatPush(filled, added);
    WriteAtPrefix(FreshBlock(B), 0, tail);
    PrefixOfAppend(Concat(filled), added, |tail|);
    assert Content(r, B) == Concat(filled) + tail;
    AppendAssoc(Content(c, B), head, tail);
    assert head + tail == chunk;
  }


  /** read_cb with the offset in the current block measured from the
      cursor, so that a full current block (recSize a positive multiple of
      B) is treated as having no room left. A chunk is copied into the room
      left in the last block and one fresh block at most: a longer chunk
      runs past the end of the fresh block. */
  function ReadChunk(c: Clip, B: pos, chunk: seq<byte>): (r: Result<Clip>)
    requires RecordingShape(c, B)
    ensures r.Fail? <==> RecordOffset(c, B) + |chunk| > B + B
    ensures r.Fail? ==> r.fault == BlockOverrun
    ensures r.Ok? ==>
      var d := r.value;
      && RecordingShape(d, B)
      && d.recSize == c.recSize + |chunk|
      && Content(d, B) == Content(c, B) + chunk
      && |d.blocks| == (if c.recSize + |chunk| > c.capacity then |c.blocks| + 1 else |c.blocks|)
      && d.blocks[..|c.blocks| - 1] == c.blocks[..|c.blocks| - 1]
      && d.id == c.id && d.playedSize == c.playedSize
  {
    var off := RecordOffset(c, B);
    if off + |chunk| > B + B then Fail(BlockOverrun)
    else if |chunk| > B - off then
      SpillAtRecordOffset(c, B, chunk);
      Ok(SpillAt(c, B, off, chunk))
    else
      FillAtRecordOffset(c, B, chunk);
      Ok(FillAt(c, B, off, chunk))
  }

  /** read_cb as written: the offset in the current block is
      `rec_size - BLOCK * (rec_size / BLOCK)`, that is rec_size mod B, which
      is 0 both at the start of a block and when the current block is
      exactly full. */
  function ReadChunkAsWritten(c: Clip, B: pos, chunk: seq<byte>): (r: Result<Clip>)
    requires RecordingShape(c, B)
    ensures r.Fail? <==> InBlock(c.recSize, B) + |chunk| > B + B
    ensures r.Ok? ==> r.value.recSize == c.recSize + |chunk|
    ensures r.Ok? ==> r.value.id == c.id && |r.value.blocks| >= |c.blocks|
  {
    var off := InBlock(c.recSize, B);
    if off + |chunk| > B + B then Fail(BlockOverrun)
    else if |chunk| > B - off then Ok(SpillAt(c, B, off, chunk))
    else Ok(FillAt(c, B, off, chunk))
  }

  /** Away from the exact block boundary the code as written is the corrected one. */
  lemma ReadAsWrittenAgrees(c: Clip, B: pos, chunk: seq<byte>)
    requires RecordingShape(c, B)
    requires c.recSize < c.capacity
    ensures ReadChunkAsWritten(c, B, chunk) == ReadChunk(c, B, chunk)
  {
    BlockOfUnique(c.recSize, B, c.cursor);
  }

  /** At the exact block boundary the code as written copies the chunk over
      the start of the full current block and leaves recSize above the
      capacity. */
  lemma ReadAsWrittenOverruns(c: Clip, B: pos, chunk: seq<byte>)
    requires RecordingShape(c, B) && 0 < |chunk| <= B
    requires c.recSize == c.capacity
    ensures var r := ReadChunkAsWritten(c, B, chunk);
      && r.Ok?
      && r.value.recSize > r.value.capacity
      && r.value.blocks == c.blocks[c.cursor := chunk + c.blocks[c.cursor][|chunk|..]]
  {
    BlockOfUnique(c.recSize, B, c.cursor + 1);
    assert WriteAt(c.blocks[c.cursor], 0, chunk) == chunk + c.blocks[c.cursor][|chunk|..];
  }

  /** A clip holding one full block [x, y] of size 2. */
  lemma OneFullBlock(c: Clip, x: byte, y: byte)
    requires c == Clip([[x, y]], 0, 2, 2, 0, 0)
    ensures RecordingShape(c, 2) && c.recSize == c.capacity
    ensures Content(c, 2) == [x, y]
  {
    assert BlockStart(1, 2) == 2;
    ConcatLast(c.blocks, 0);
    assert c.blocks[..1] == c.blocks;
    assert Concat(c.blocks[..0]) == [];
  }

  /** One full block [x, y] of size 2 and a chunk [z]: the code as written
      turns the block into [z, y], losing byte x, where the corrected
      callback opens a second block and records [x, y, z]. */
  lemma ReadAsWrittenExample(c: Clip, x: byte, y: byte, z: byte)
    requires c == Clip([[x, y]], 0, 2, 2, 0, 0)
    ensures RecordingShape(c, 2)
    ensures ReadChunkAsWritten(c, 2, [z]).Ok? && ReadChunk(c, 2, [z]).Ok?
    ensures ReadChunkAsWritten(c, 2, [z]).value.blocks == [[z, y]]
    ensures ReadChunkAsWritten(c, 2, [z]).value.recSize > ReadChunkAsWritten(c, 2, [z]).value.capacity
    ensures Content(ReadChunk(c, 2, [z]).value, 2) == [x, y, z]
  {
    OneFullBlock(c, x, y);
    ReadAsWrittenOverruns(c, 2, [z]);
    assert [z] + c.blocks[0][1..] == [z, y];
  }

  // ---------------------------------------------------------------------
  // write_cb: serve one playback request

  /** The outcome of one playback callback: the clip after it, the bytes
      handed to the playback stream, and whether playback was stopped. */
  datatype PlayStep = PlayStep(clip: Clip, emitted: seq<byte>, stop: bool)

  /** How many bytes a request of n bytes gets: all of them, or what is left. */
  function Served(c: Clip, n: nat): nat
    requires c.playedSize <= c.recSize
  {
    Min(n, c.recSize - c.playedSize)
  }

  /** The play position within the cursor's block. */
  function PlayOffset(c: Clip, B: pos): (off: nat)
    requires PlaybackShape(c, B)
    ensures off <= B
  {
    c.playedSize - BlockStart(c.cursor, B)
  }

  /** Serve a request from offset off of the cursor's block, staying in it. */
  function StepWithin(c: Clip, B: pos, off: nat, n: nat): PlayStep
    requires Valid(c, B) && off + Served(c, n) <= B
  {
    var m := Served(c, n);
    PlayStep(c.(playedSize := c.playedSize + m), c.blocks[c.cursor][off..off + m],
             n > c.recSize - c.playedSize || c.recSize == c.playedSize)
  }

  /** Serve a request from offset off of the cursor's block to its end, and
      the rest from the start of the next block, which the cursor moves to. */
  function StepAcross(c: Clip, B: pos, off: nat, n: nat): PlayStep
    requires Valid(c, B) && c.cursor + 1 < |c.blocks|
    requires off <= B < off + Served(c, n) <= B + B
  {
    var m := Served(c, n);
    PlayStep(c.(cursor := c.cursor + 1, playedSize := c.playedSize + m),
             c.blocks[c.cursor][off..] + c.blocks[c.cursor + 1][..off + m - B],
             n > c.recSize - c.playedSize || c.recSize == c.playedSize)
  }

  /** The request stays within the cursor's block. */
  lemma PlayWithin(c: Clip, B: pos, n: nat)
    requires PlaybackShape(c, B)
    requires PlayOffset(c, B) + Served(c, n) <= B
    ensures PlaybackShape(StepWithin(c, B, PlayOffset(c, B), n).clip, B)
    ensures StepWithin(c, B, PlayOffset(c, B), n).emitted
         == Content(c, B)[c.playedSize..c.playedSize + Served(c, n)]
  {
    var off := PlayOffset(c, B);
    ConcatSlice(c.blocks, B, c.cursor, off, off + Served(c, n));
    ConcatLength(c.blocks, B);
    PrefixSlice(Concat(c.blocks), c.recSize, c.playedSize, c.playedSize + Served(c, n));
  }

  lemma SliceJoin(s: seq<byte>, a: nat, mid: nat, b: nat)
    requires a <= mid <= b <= |s|
    ensures s[a..b] == s[a..mid] + s[mid..b]
  {
  }

  lemma PrefixSlice(s: seq<byte>, n: nat, a: nat, b: nat)
    requires a <= b <= n <= |s|
    ensures s[..n][a..b] == s[a..b]
  {
  }

  /** A request that runs past the end of the cursor's block, but not past
      the end of the next, has a next block to run into, and leaves the play
      position in that block. */
  lemma PlayCrossesShape(c: Clip, B: pos, n: nat)
    requires PlaybackShape(c, B)
    requires B < PlayOffset(c, B) + Served(c, n) <= B + B
    ensures c.cursor + 1 < |c.blocks|
    ensures PlaybackShape(StepAcross(c, B, PlayOffset(c, B), n).clip, B)
  {
    BlockStartOrder(c.cursor + 1, |c.blocks|, B);
  }

  /** The bytes of such a request: the rest of the cursor's block, then the
      head of the next one. */
  lemma PlayCrosses(c: Clip, B: pos, n: nat)
    requires PlaybackShape(c, B)
    requires B < PlayOffset(c, B) + Served(c, n) <= B + B
    ensures c.cursor + 1 < |c.blocks|
    ensures StepAcross(c, B, PlayOffset(c, B), n).emitted
         == Content(c, B)[c.playedSize..c.playedSize + Served(c, n)]
  {
    PlayCrossesShape(c, B, n);
    var off := PlayOffset(c, B);
    var m := Served(c, n);
    var p := c.playedSize;
    assert Concat(c.blocks)[p..p + m] == c.blocks[c.cursor][off..] + c.blocks[c.cursor + 1][..off + m - B] by {
      CrossSlices(c.blocks, B, c.cursor, off, m, p);
    }
    assert Content(c, B)[p..p + m] == Concat(c.blocks)[p..p + m] by {
      ConcatLength(c.blocks, B);
      PrefixSlice(Concat(c.blocks), c.recSize, p, p + m);
    }
  }

  /** m bytes from offset off of block k, running into block k + 1. */
  lemma CrossSlices(bs: seq<Block>, B: pos, k: nat, off: nat, m: nat, p: nat)
    requires Uniform(bs, B) && k + 1 < |bs|
    requires off <= B < off + m <= B + B && p == BlockStart(k, B) + off
    ensures p + m <= |Concat(bs)|
    ensures Concat(bs)[p..p + m] == bs[k][off..] + bs[k + 1][..off + m - B]
  {
    var mid := BlockStart(k + 1, B);
    assert mid == BlockStart(k, B) + B;
    var s := Concat(bs);
    ConcatSlice(bs, B, k, off, B);
    assert |bs[k]| == B && bs[k][off..B] == bs[k][off..];
    assert s[p..mid] == bs[k][off..];
    ConcatSlice(bs, B, k + 1, 0, off + m - B);
    assert s[mid..p + m] == bs[k + 1][..off + m - B];
    SliceJoin(s, p, mid, p + m);
  }

  /** write_cb (once the state is known to be PLAYING_BACK) with the offset
      measured from the cursor: at the exact end of a block the request
      continues in the next block. The request is first cut to the bytes
      left; what remains is read from the rest of the cursor's block and at
      most one more block, and a longer read runs past that block's end. */
  function PlayChunk(c: Clip, B: pos, n: nat): (r: Result<PlayStep>)
    requires PlaybackShape(c, B)
    ensures r.Fail? <==> PlayOffset(c, B) + Served(c, n) > B + B
    ensures r.Fail? ==> r.fault == BlockOverrun
    ensures r.Ok? ==>
      var t := r.value;
      && t.clip.blocks == c.blocks && t.clip.recSize == c.recSize
      && t.clip.capacity == c.capacity && t.clip.id == c.id
      && PlaybackShape(t.clip, B)
      && t.clip.playedSize == c.playedSize + Min(n, c.recSize - c.playedSize)
      && t.emitted == Content(c, B)[c.playedSize..t.clip.playedSize]
      && (t.stop <==> n > c.recSize - c.playedSize || c.recSize == c.playedSize)
  {
    var off := PlayOffset(c, B);
    if off + Served(c, n) > B + B then Fail(BlockOverrun)
    else if off + Served(c, n) > B then
      PlayCrossesShape(c, B, n);
      PlayCrosses(c, B, n);
      Ok(StepAcross(c, B, off, n))
    else
      PlayWithin(c, B, n);
      Ok(StepWithin(c, B, off, n))
  }

  /** A play position at the exact end of the cursor's block, with more
      than one block still recorded, has two more blocks after the cursor. */
  lemma TwoBlocksAhead(c: Clip, B: pos, m: nat)
    requires PlaybackShape(c, B) && c.playedSize == BlockStart(c.cursor, B) + B
    requires B < m && c.playedSize + m <= c.recSize
    ensures c.cursor + 2 < |c.blocks|
  {
    assert BlockStart(c.cursor + 2, B) == BlockStart(c.cursor, B) + B + B;
    BlockStartOrder(c.cursor + 2, |c.blocks|, B);
  }

  /** write_cb as written: the offset in the current block is
      `played_size - BLOCK * (played_size / BLOCK)`, that is played_size mod
      B, which is 0 when the previous request ended exactly at the end of
      the current block. */
  function PlayChunkAsWritten(c: Clip, B: pos, n: nat): (r: Result<PlayStep>)
    requires PlaybackShape(c, B)
    ensures r.Fail? <==> InBlock(c.playedSize, B) + Served(c, n) > B + B
    ensures r.Ok? ==> r.value.clip.playedSize == c.playedSize + Min(n, c.recSize - c.playedSize)
    ensures r.Ok? ==> r.value.clip.blocks == c.blocks && r.value.clip.recSize == c.recSize
  {
    var off := InBlock(c.playedSize, B);
    if off + Served(c, n) > B + B then Fail(BlockOverrun)
    else if off + Served(c, n) > B then
      if c.playedSize == BlockStart(c.cursor, B) + B then
        BlockOfUnique(c.playedSize, B, c.cursor + 1);
        TwoBlocksAhead(c, B, Served(c, n));
        Ok(StepAcross(c, B, off, n))
      else
        BlockOfUnique(c.playedSize, B, c.cursor);
        PlayCrossesShape(c, B, n);
        Ok(StepAcross(c, B, off, n))
    else
      Ok(StepWithin(c, B, off, n))
  }

  /** Away from the exact end of the cursor's block the code as written is the corrected one. */
  lemma PlayAsWrittenAgrees(c: Clip, B: pos, n: nat)
    requires PlaybackShape(c, B)
    requires c.playedSize < BlockStart(c.cursor, B) + B
    ensures PlayChunkAsWritten(c, B, n) == PlayChunk(c, B, n)
  {
    BlockOfUnique(c.playedSize, B, c.cursor);
  }

  /** The first m bytes of the cursor's block, read from a play position at
      its very end, are the m bytes recorded B before that position. */
  lemma ReplayBytesWithin(c: Clip, B: pos, m: nat)
    requires PlaybackShape(c, B) && c.playedSize == BlockStart(c.cursor, B) + B
    requires m <= B && c.playedSize + m <= c.recSize
    ensures c.blocks[c.cursor][0..m] == Content(c, B)[c.playedSize - B .. c.playedSize - B + m]
  {
    var p := BlockStart(c.cursor, B);
    ConcatLength(c.blocks, B);
    ConcatSlice(c.blocks, B, c.cursor, 0, m);
    PrefixSlice(Concat(c.blocks), c.recSize, p, p + m);
  }

  /** The same for m bytes that run on into the next block. */
  lemma ReplayBytesAcross(c: Clip, B: pos, m: nat)
    requires PlaybackShape(c, B) && c.playedSize == BlockStart(c.cursor, B) + B
    requires B < m <= B + B && c.playedSize + m <= c.recSize
    ensures c.cursor + 1 < |c.blocks|
    ensures c.blocks[c.cursor][0..] + c.blocks[c.cursor + 1][..m - B]
         == Content(c, B)[c.playedSize - B .. c.playedSize - B + m]
  {
    var p := BlockStart(c.cursor, B);
    TwoBlocksAhead(c, B, m);
    ConcatLength(c.blocks, B);
    CrossSlices(c.blocks, B, c.cursor, 0, m, p);
    PrefixSlice(Concat(c.blocks), c.recSize, p, p + m);
  }

  /** At the exact end of the cursor's block the code as written replays the
      bytes of that block instead of continuing with the next one: whatever
      the request, it hands over the bytes from B before the play position. */
  lemma PlayAsWrittenReplays(c: Clip, B: pos, n: nat)
    requires PlaybackShape(c, B)
    requires c.playedSize == BlockStart(c.cursor, B) + B
    ensures var r := PlayChunkAsWritten(c, B, n);
      var m := Served(c, n);
      && (r.Ok? <==> m <= B + B)
      && (r.Ok? ==> r.value.emitted == Content(c, B)[c.playedSize - B .. c.playedSize - B + m])
      && (m <= B ==> r.value.clip.cursor == c.cursor)
  {
    BlockOfUnique(c.playedSize, B, c.cursor + 1);
    var m := Served(c, n);
    if m <= B {
      ReplayBytesWithin(c, B, m);
    } else if m <= B + B {
      ReplayBytesAcross(c, B, m);
    }
  }

  /** A clip holding two full blocks [a, b] [d, e] of size 2, rewound. */
  lemma TwoFullBlocks(c: Clip, a: byte, b: byte, d: byte, e: byte)
    requires c == Clip([[a, b], [d, e]], 0, 4, 4, 0, 0)
    ensures PlaybackShape(c, 2)
    ensures Content(c, 2) == [a, b, d, e]
  {
    assert BlockStart(2, 2) == 4;
    ConcatLast(c.blocks, 0);
    ConcatLast(c.blocks, 1);
    assert c.blocks[..2] == c.blocks;
    assert Concat(c.blocks[..0]) == [];
  }

  /** Two blocks [a, b] [d, e] of size 2, played from the start with
      requests of 2 bytes: the code as written plays [a, b] twice where the
      corrected callback plays [a, b] and then [d, e]. */
  lemma PlayAsWrittenExample(c: Clip, a: byte, b: byte, d: byte, e: byte)
    requires c == Clip([[a, b], [d, e]], 0, 4, 4, 0, 0)
    ensures PlaybackShape(c, 2)
    ensures PlayChunkAsWritten(c, 2, 2).Ok? && PlayChunk(c, 2, 2).Ok?
    ensures var s1 := PlayChunkAsWritten(c, 2, 2).value;
      && s1.emitted == [a, b]
      && PlaybackShape(s1.clip, 2)
      && PlayChunkAsWritten(s1.clip, 2, 2).Ok?
      && PlayChunkAsWritten(s1.clip, 2, 2).value.emitted == [a, b]
    ensures var t1 := PlayChunk(c, 2, 2).value;
      && t1.emitted == [a, b]
      && PlayChunk(t1.clip, 2, 2).Ok?
      && PlayChunk(t1.clip, 2, 2).value.emitted == [d, e]
  {
    TwoFullBlocks(c, a, b, d, e);
    PlayAsWrittenAgrees(c, 2, 2);
    var s1 := PlayChunkAsWritten(c, 2, 2).value;
    assert s1.clip == c.(playedSize := 2);
    PlayAsWrittenReplays(s1.clip, 2, 2);
    assert Content(s1.clip, 2) == Content(c, 2);
  }

  // ---------------------------------------------------------------------
  // Sequences of callbacks

  function Flatten(chunks: seq<seq<byte>>): seq<byte>
  {
    if |chunks| == 0 then [] else chunks[0] + Flatten(chunks[1..])
  }

  /** Chunks of at most one block each, which never run past a block. */
  predicate ChunksFit(chunks: seq<seq<byte>>, B: pos)
  {
    forall i :: 0 <= i < |chunks| ==> |chunks[i]| <= B
  }

  /** A run of record callbacks up to the first that overruns a block: the
      recording is the chunks in arrival order, whatever the block
      boundaries, and chunks of at most one block never overrun. */
  function RecordChunks(c: Clip, B: pos, chunks: seq<seq<byte>>): (r: Result<Clip>)
    requires RecordingShape(c, B)
    ensures ChunksFit(chunks, B) ==> r.Ok?
    ensures r.Ok? ==>
      && RecordingShape(r.value, B)
      && Content(r.value, B) == Content(c, B) + Flatten(chunks)
      && r.value.recSize == c.recSize + |Flatten(chunks)|
      && r.value.id == c.id
    decreases |chunks|
  {
    if |chunks| == 0 then Ok(c)
    else
      match ReadChunk(c, B, chunks[0])
      case Fail(f) => Fail(f)
      case Ok(next) =>
        assert ChunksFit(chunks, B) ==> ChunksFit(chunks[1..], B);
        var r := RecordChunks(next, B, chunks[1..]);
        AppendAssoc(Content(c, B), chunks[0], Flatten(chunks[1..]));
        r
  }

  /** The total size of a run of playback requests. */
  function Sum(reqs: seq<nat>): nat
  {
    if |reqs| == 0 then 0 else reqs[0] + Sum(reqs[1..])
  }

  /** Requests of at most one block each, which never run past a block. */
  predicate RequestsFit(reqs: seq<nat>, B: pos)
  {
    forall i :: 0 <= i < |reqs| ==> reqs[i] <= B
  }

  /** A run of playback callbacks up to the one that stops playback, or up
      to the first that overruns a block: the clip, all bytes handed over,
      and whether playback was stopped. Playback has handed over the whole
      recording when it stops, and requests asking for more than was left
      in total always stop it. */
  function PlayRequests(c: Clip, B: pos, reqs: seq<nat>): (r: Result<PlayStep>)
    requires PlaybackShape(c, B)
    ensures RequestsFit(reqs, B) ==> r.Ok?
    ensures r.Ok? ==>
      var t := r.value;
      && t.clip.blocks == c.blocks && t.clip.recSize == c.recSize
      && PlaybackShape(t.clip, B)
      && c.playedSize <= t.clip.playedSize
      && t.emitted == Content(c, B)[c.playedSize..t.clip.playedSize]
      && (t.stop ==> t.clip.playedSize == c.recSize)
      && (Sum(reqs) > c.recSize - c.playedSize ==> t.stop)
    decreases |reqs|
  {
    if |reqs| == 0 then Ok(PlayStep(c, [], false))
    else
      match PlayChunk(c, B, reqs[0])
      case Fail(f) => Fail(f)
      case Ok(s) =>
        if s.stop then Ok(s)
        else
          assert RequestsFit(reqs, B) ==> RequestsFit(reqs[1..], B);
          match PlayRequests(s.clip, B, reqs[1..])
          case Fail(f) => Fail(f)
          case Ok(r) =>
            assert Content(s.clip, B) == Content(c, B);
            SliceJoin(Content(c, B), c.playedSize, s.clip.playedSize, r.clip.playedSize);
            Ok(PlayStep(r.clip, s.emitted + r.emitted, r.stop))
  }

  /** Recording chunks into a new clip and playing it back until playback
      stops hands back exactly the recorded bytes; with chunks and requests
      of at most one block, requests that ask for more than was recorded
      do stop playback. */
  lemma RecordThenPlay(id: nat, B: pos, chunks: seq<seq<byte>>, reqs: seq<nat>)
    ensures var rec := RecordChunks(NewClip(id, B), B, chunks);
      rec.Ok? ==>
      var play := PlayRequests(Rewind(rec.value, B), B, reqs);
      play.Ok? && play.value.stop ==> play.value.emitted == Flatten(chunks)
    ensures ChunksFit(chunks, B) && RequestsFit(reqs, B) && Sum(reqs) > |Flatten(chunks)| ==>
      var rec := RecordChunks(NewClip(id, B), B, chunks);
      && rec.Ok?
      && var play := PlayRequests(Rewind(rec.value, B), B, reqs);
      && play.Ok? && play.value.stop && play.value.emitted == Flatten(chunks)
  {
    var rec := RecordChunks(NewClip(id, B), B, chunks);
    if rec.Ok? {
      assert Content(rec.value, B) == Flatten(chunks);
      var start := Rewind(rec.value, B);
      var play := PlayRequests(start, B, reqs);
      if play.Ok? && play.value.stop {
        assert play.value.emitted == Content(rec.value, B)[0..rec.value.recSize];
      }
    }
  }
}
