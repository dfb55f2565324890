/** The other image formats: IIC images are blocks with a length and an address,
  * BIX images are the memory contents from address 0. */
module EzusbImages {
  import opened Bytes
  import opened EzusbRam
  import opened EzusbHex
  import opened EzusbMerge

  const CHUNK := 4096
  const TRAILER := 5

  // ----- IIC ----------------------------------------------------------------------

  /** The blocks from pos on, up to the last five bytes of the file. */
  function IicBlocks(bytes: seq<U8>, pos: nat): Merged
    decreases |bytes| - pos
  {
    if pos >= |bytes| - TRAILER then Merged([], 0)
    else if pos + 4 > |bytes| then Merged([], -1)
    else
      var len, addr := Pair(bytes[pos], bytes[pos + 1]), Pair(bytes[pos + 2], bytes[pos + 3]);
      if len > CHUNK || pos + 4 + len > |bytes| then Merged([], -1)
      else Front([Segment(addr, bytes[pos + 4..pos + 4 + len])], IicBlocks(bytes, pos + 4 + len))
  }

  /** The transfers that an image of segments and a final code has caused. */
  twostate predicate Loaded(ctx: RamPokeContext, m: Merged, chip: Chip, rc: int)
    reads ctx, ctx.device
  {
    var ok := Pokes(m.segments, ctx.mode, chip, ctx.device.answer, |old(ctx.device.log)|).ok;
    Poked(ctx, m.segments, chip, ok) && rc == if ok then m.code else -1
  }

  method ParseIic(bytes: seq<U8>, initialPos: nat, chip: Chip, ctx: RamPokeContext) returns (rc: int)
    modifies ctx`total, ctx`count, ctx.device`log
    ensures Loaded(ctx, IicBlocks(bytes, initialPos), chip, rc)
  {
    hide Pokes; hide BytesWritten; hide PokedSince; hide IicBlocks;
    var pos := initialPos;
    ghost var done: seq<Segment> := [];
    ghost var log0, total0, count0 := ctx.device.log, ctx.total, ctx.count;
    NothingPoked(ctx, chip);
    FrontFront([], [], IicBlocks(bytes, initialPos));
    while true
      invariant IicBlocks(bytes, initialPos) == Front(done, IicBlocks(bytes, pos))
      invariant PokedSince(ctx, log0, total0, count0, done, chip, true)
      decreases |bytes| - pos
    {
      IicStep(bytes, pos);
      if pos >= |bytes| - TRAILER {
        Finished(ctx, log0, total0, count0, done, chip, true, IicBlocks(bytes, initialPos), Merged([], 0));
        return 0;
      }
      if pos + 4 > |bytes| {
        Finished(ctx, log0, total0, count0, done, chip, true, IicBlocks(bytes, initialPos), Merged([], -1));
        return -1;
      }
      var dataLen, dataAddr := Pair(bytes[pos], bytes[pos + 1]), Pair(bytes[pos + 2], bytes[pos + 3]);
      if dataLen > CHUNK || pos + 4 + dataLen > |bytes| {
        Finished(ctx, log0, total0, count0, done, chip, true, IicBlocks(bytes, initialPos), Merged([], -1));
        return -1;
      }
      var s := Segment(dataAddr, bytes[pos + 4..pos + 4 + dataLen]);
      pos := pos + 4 + dataLen;
      FrontFront(done, [s], IicBlocks(bytes, pos));
      rc := Flush(ctx, chip, s, done, log0, total0, count0);
      done := done + [s];
      if rc < 0 {
        Finished(ctx, log0, total0, count0, done, chip, false, IicBlocks(bytes, initialPos), IicBlocks(bytes, pos));
        return -1;
      }
    }
  }

  lemma IicStep(bytes: seq<U8>, pos: nat)
    ensures IicBlocks(bytes, pos) ==
              if pos >= |bytes| - TRAILER then Merged([], 0)
              else if pos + 4 > |bytes| then Merged([], -1)
              else
                var len, addr := Pair(bytes[pos], bytes[pos + 1]), Pair(bytes[pos + 2], bytes[pos + 3]);
                if len > CHUNK || pos + 4 + len > |bytes| then Merged([], -1)
                else Front([Segment(addr, bytes[pos + 4..pos + 4 + len])], IicBlocks(bytes, pos + 4 + len))
  {
  }

  function EncodeBlock(s: Segment): seq<U8>
    requires s.addr < 0x1_0000 && |s.data| <= CHUNK
  {
    [|s.data| / 0x100, |s.data| % 0x100, s.addr / 0x100, s.addr % 0x100] + s.data
  }

  predicate Encodable(blocks: seq<Segment>)
  {
    forall s :: s in blocks ==> s.addr < 0x1_0000 && |s.data| <= CHUNK
  }

  function EncodeBlocks(blocks: seq<Segment>): seq<U8>
    requires Encodable(blocks)
  {
    if blocks == [] then [] else EncodeBlock(blocks[0]) + EncodeBlocks(blocks[1..])
  }

  lemma BlockAt(bytes: seq<U8>, pos: nat, s: Segment)
    requires s.addr < 0x1_0000 && |s.data| <= CHUNK
    requires pos + 4 + |s.data| + TRAILER <= |bytes|
    requires bytes[pos..pos + 4 + |s.data|] == EncodeBlock(s)
    ensures IicBlocks(bytes, pos) == Front([s], IicBlocks(bytes, pos + 4 + |s.data|))
  {
    var b := bytes[pos..pos + 4 + |s.data|];
    assert bytes[pos] == b[0] && bytes[pos + 1] == b[1] && bytes[pos + 2] == b[2] && bytes[pos + 3] == b[3];
    assert bytes[pos + 4..pos + 4 + |s.data|] == b[4..] == s.data;
  }

  lemma Middle<T>(a: seq<T>, b: seq<T>, c: seq<T>, d: seq<T>)
    ensures a + (b + c) + d == (a + b) + c + d
    ensures (a + (b + c) + d)[|a|..|a| + |b|] == b
  {
  }

  lemma NoBlocks(bytes: seq<U8>, pos: nat)
    requires pos + TRAILER == |bytes|
    ensures IicBlocks(bytes, pos) == Merged([], 0)
  {
  }

  /** Framing: whatever precedes the first block, the reader recovers exactly the
    * list of blocks in front of a five-byte trailer. */
  lemma {:induction false} IicRoundTrip(before: seq<U8>, blocks: seq<Segment>, trailer: seq<U8>)
    requires Encodable(blocks) && |trailer| == 5
    ensures IicBlocks(before + EncodeBlocks(blocks) + trailer, |before|) == Merged(blocks, 0)
    decreases |blocks|
  {
    hide IicBlocks; hide EncodeBlock;
    var bytes := before + EncodeBlocks(blocks) + trailer;
    if blocks == [] {
      NoBlocks(bytes, |before|);
    } else {
      var s, rest := blocks[0], blocks[1..];
      var code := EncodeBlock(s);
      CodeLength(s);
      Middle(before, code, EncodeBlocks(rest), trailer);
      BlockAt(bytes, |before|, s);
      IicRoundTrip(before + code, rest, trailer);
      assert [s] + rest == blocks;
    }
  }

  lemma CodeLength(s: Segment)
    requires s.addr < 0x1_0000 && |s.data| <= CHUNK
    ensures |EncodeBlock(s)| == 4 + |s.data|
  {
  }

  lemma HeaderOf(before: seq<U8>, header: seq<U8>, rest: seq<U8>)
    requires |header| == 4
    ensures var bytes, pos := before + header + rest, |before|;
            && bytes[pos..pos + 4] == header && bytes[pos + 4..] == rest
            && bytes[pos] == header[0] && bytes[pos + 1] == header[1]
            && bytes[pos + 2] == header[2] && bytes[pos + 3] == header[3]
  {
  }

  /** A block header in front of at least two more bytes: a block of up to 4096 bytes
    * that are there is taken, a longer or a shorter one is an error. */
  lemma BlockRead(before: seq<U8>, header: seq<U8>, rest: seq<U8>)
    requires |header| == 4 && |rest| >= 2
    ensures var bytes := before + header + rest;
            var len, addr := header[0] as int * 0x100 + header[1], header[2] as int * 0x100 + header[3];
            if len <= 4096 && len <= |rest| then
              var behind := IicBlocks(bytes, |before| + 4 + len);
              IicBlocks(bytes, |before|) == Merged([Segment(addr, rest[..len])] + behind.segments, behind.code)
            else IicBlocks(bytes, |before|) == Merged([], -1)
  {
    hide IicBlocks;
    var bytes, pos := before + header + rest, |before|;
    var len := header[0] as int * 0x100 + header[1];
    HeaderOf(before, header, rest);
    IicStep(bytes, pos);
    if len <= |rest| {
      assert bytes[pos + 4..pos + 4 + len] == bytes[pos + 4..][..len];
    }
  }

  /** The last five bytes are no block, whatever they are. */
  lemma TrailerIgnored(before: seq<U8>, trailer: seq<U8>)
    requires |trailer| <= 5
    ensures IicBlocks(before + trailer, |before|) == Merged([], 0)
  {
  }

  /** The largest block, and one that is too large. */
  lemma LargestBlock(before: seq<U8>, data: seq<U8>, trailer: seq<U8>)
    requires |trailer| == 5 && |data| in {4096, 4097}
    ensures var bytes := before + [0x10, |data| - 4096, 0, 0] + (data + trailer);
            IicBlocks(bytes, |before|) == if |data| == 4096 then Merged([Segment(0, data)], 0) else Merged([], -1)
  {
    hide IicBlocks;
    var header := [0x10, |data| - 4096, 0, 0];
    BlockRead(before, header, data + trailer);
    assert before + header + (data + trailer) == (before + header + data) + trailer;
    TrailerIgnored(before + header + data, trailer);
    assert (data + trailer)[..|data|] == data && [Segment(0, data)] + [] == [Segment(0, data)];
  }

  // ----- BIX ----------------------------------------------------------------------

  function Chunk(bytes: seq<U8>, pos: nat): seq<U8>
    requires pos <= |bytes|
  {
    if pos + CHUNK <= |bytes| then bytes[pos..pos + CHUNK] else bytes[pos..]
  }

  /** Blocks of 4096 bytes from pos on, the last one shorter; 32-bit addresses. */
  function BinBlocks(bytes: seq<U8>, pos: nat, addr: nat): Merged
    requires pos <= |bytes|
    decreases |bytes| - pos
  {
    var chunk := Chunk(bytes, pos);
    if chunk == [] then Merged([], 0)
    else Front([Segment(addr, chunk)], BinBlocks(bytes, pos + |chunk|, (addr + |chunk|) % 0x1_0000_0000))
  }

  method ParseBin(bytes: seq<U8>, chip: Chip, ctx: RamPokeContext) returns (rc: int)
    modifies ctx`total, ctx`count, ctx.device`log
    ensures Loaded(ctx, BinBlocks(bytes, 0, 0), chip, rc)
  {
    hide Pokes; hide BytesWritten; hide Chunk; hide PokedSince; hide BinBlocks;
    var pos, dataAddr: nat := 0, 0;
    ghost var done: seq<Segment> := [];
    ghost var log0, total0, count0 := ctx.device.log, ctx.total, ctx.count;
    NothingPoked(ctx, chip);
    FrontFront([], [], BinBlocks(bytes, 0, 0));
    while true
      invariant pos <= |bytes|
      invariant BinBlocks(bytes, 0, 0) == Front(done, BinBlocks(bytes, pos, dataAddr))
      invariant PokedSince(ctx, log0, total0, count0, done, chip, true)
      decreases |bytes| - pos
    {
      BinStep(bytes, pos, dataAddr);
      var data := Chunk(bytes, pos);
      if |data| == 0 {
        Finished(ctx, log0, total0, count0, done, chip, true, BinBlocks(bytes, 0, 0), Merged([], 0));
        return 0;
      }
      var s := Segment(dataAddr, data);
      pos := pos + |data|;
      dataAddr := (dataAddr + |data|) % 0x1_0000_0000;
      FrontFront(done, [s], BinBlocks(bytes, pos, dataAddr));
      rc := Flush(ctx, chip, s, done, log0, total0, count0);
      done := done + [s];
      if rc < 0 {
        Finished(ctx, log0, total0, count0, done, chip, false, BinBlocks(bytes, 0, 0), BinBlocks(bytes, pos, dataAddr));
        return -1;
      }
    }
  }

  lemma BinStep(bytes: seq<U8>, pos: nat, addr: nat)
    requires pos <= |bytes|
    ensures var chunk := Chunk(bytes, pos);
            && pos + |chunk| <= |bytes|
            && BinBlocks(bytes, pos, addr) ==
                 if chunk == [] then Merged([], 0)
                 else Front([Segment(addr, chunk)], BinBlocks(bytes, pos + |chunk|, (addr + |chunk|) % 0x1_0000_0000))
  {
  }

  lemma ChunkOf(bytes: seq<U8>, pos: nat)
    requires pos <= |bytes|
    ensures var chunk := Chunk(bytes, pos);
            && pos + |chunk| <= |bytes| && |chunk| <= CHUNK && bytes[pos..] == chunk + bytes[pos + |chunk|..]
            && (chunk == [] ==> bytes[pos..] == [])
            && (|chunk| < CHUNK ==> Chunk(bytes, pos + |chunk|) == [])
  {
  }

  /** The chunks tile the file: from address 0 on they hold every byte at its own
    * offset, and all but the last are full. */
  lemma {:induction false} BinTiles(bytes: seq<U8>, pos: nat)
    requires pos <= |bytes| < 0x1_0000_0000
    ensures var m := BinBlocks(bytes, pos, pos);
            && m.code == 0
            && TagsOf(m.segments) == Tags(pos, bytes[pos..])
            && (forall i :: 0 <= i < |m.segments| ==> 0 < |m.segments[i].data| <= 4096)
            && (forall i :: 0 <= i < |m.segments| - 1 ==> |m.segments[i].data| == 4096)
    decreases |bytes| - pos
  {
    hide Tags; hide Chunk; hide BinBlocks; hide TagsOf;
    var chunk := Chunk(bytes, pos);
    BinStep(bytes, pos, pos);
    ChunkOf(bytes, pos);
    if chunk == [] {
      EmptyTags(pos, pos);
      NoSegments();
    } else {
      var next := pos + |chunk|;
      SmallSum(next, |bytes|);
      BinTiles(bytes, next);
      TagsSplit(pos, chunk, bytes[next..]);
      TagsCons(Segment(pos, chunk), BinBlocks(bytes, next, next).segments);
      if |chunk| < CHUNK {
        BinStep(bytes, next, next);
      }
    }
  }

  lemma SmallSum(n: nat, bound: nat)
    requires n <= bound < 0x1_0000_0000
    ensures n % 0x1_0000_0000 == n
  {
  }

  lemma NoSegments()
    ensures TagsOf([]) == []
  {
  }

  /** How many chunks there are, and that none reaches beyond the file. */
  lemma {:induction false} BinPieces(bytes: seq<U8>, pos: nat)
    requires pos <= |bytes| < 0x1_0000_0000
    ensures var m := BinBlocks(bytes, pos, pos);
            && |m.segments| == (|bytes| - pos + 4095) / 4096
            && forall s :: s in m.segments ==> s.data != [] && s.addr + |s.data| <= |bytes|
    decreases |bytes| - pos
  {
    hide Chunk; hide BinBlocks;
    var chunk := Chunk(bytes, pos);
    BinStep(bytes, pos, pos);
    ChunkOf(bytes, pos);
    if chunk != [] {
      var next := pos + |chunk|;
      SmallSum(next, |bytes|);
      BinPieces(bytes, next);
      if |chunk| < CHUNK {
        BinStep(bytes, next, next);
      }
    }
  }
}
