/** Intel HEX images: the merge buffer that joins neighbouring records into
  * segments of at most 1023 bytes. */
module EzusbHex {
  import opened Bytes
  import opened EzusbRam
  import opened EzusbText

  const BUFFER_SIZE := 1023

  // ----- the merge, as a function of the lines ----------------------------------

  /** The state between two lines: no record seen yet, and what is buffered. */
  datatype Pending = Pending(first: bool, addr: nat, buf: seq<U8>)

  const START := Pending(true, 0, [])

  /** Segments handed out, in order, and the return code if none of them fails. */
  datatype Merged = Merged(segments: seq<Segment>, code: int)

  function Cut(p: Pending): seq<Segment>
  {
    if p.buf == [] then [] else [Segment(p.addr, p.buf)]
  }

  /** The first record fixes the address of the buffer. */
  function Seen(p: Pending, off: nat): Pending
  {
    if p.first then Pending(false, off, p.buf) else p
  }

  predicate MustFlush(p: Pending, off: nat, len: nat)
  {
    p.buf != [] && (off != p.addr + |p.buf| || |p.buf| + len > BUFFER_SIZE)
  }

  function Emitted(p: Pending, off: nat, len: nat): seq<Segment>
  {
    if MustFlush(p, off, len) then Cut(p) else []
  }

  function Take(p: Pending, off: nat, data: seq<U8>): Pending
  {
    if MustFlush(p, off, |data|) then Pending(false, off, data) else p.(buf := p.buf + data)
  }

  function Front(segs: seq<Segment>, m: Merged): Merged
  {
    Merged(segs + m.segments, m.code)
  }

  /** The result of a record line, given that of the lines behind it. */
  function RecordResult(q: Pending, l: Line, rest: Merged): Merged
    requires l.Record?
  {
    if l.kind == 1 then Merged(Cut(q), 0)
    else if l.kind != 0 then Merged([], -3)
    else if !l.complete then Merged([], -4)
    else Front(Emitted(q, l.off, |l.data|), rest)
  }

  function Merge(lines: seq<Line>, p: Pending): Merged
  {
    if lines == [] then Merged(Cut(p), 0)
    else match lines[0]
      case Comment => Merge(lines[1..], p)
      case Garbage => Merged([], -2)
      case Record(_, off, data, _) =>
        var q := Seen(p, off);
        RecordResult(q, lines[0], Merge(lines[1..], Take(q, off, data)))
  }

  // ----- the loop ------------------------------------------------------------------

  /** Pokes one segment of the image. */
  method PokeSegment(ctx: RamPokeContext, chip: Chip, s: Segment) returns (rc: int)
    modifies ctx`total, ctx`count, ctx.device`log
    ensures rc == 0 || rc == -1
    ensures Poked(ctx, [s], chip, rc == 0)
  {
    var external := IsExternal(chip, s.addr, |s.data|);
    rc := ctx.RamPoke(s.addr, external, s.data);
    assert [s][1..] == [];
    assert ctx.device.log == old(ctx.device.log) +
        Pokes([s], ctx.mode, chip, ctx.device.answer, |old(ctx.device.log)|).events;
  }

  lemma FrontFront(a: seq<Segment>, b: seq<Segment>, m: Merged)
    ensures Front(a, Front(b, m)) == Front(a + b, m)
    ensures Front([], m) == m
  {
    assert a + b + m.segments == a + (b + m.segments);
    assert [] + m.segments == m.segments;
  }

  /** Once a segment has failed, the later ones make no difference. */
  lemma PokesStop(a: seq<Segment>, b: seq<Segment>, mode: Mode, chip: Chip, answer: nat -> Status, k: nat)
    requires !Pokes(a, mode, chip, answer, k).ok
    ensures Pokes(a + b, mode, chip, answer, k) == Pokes(a, mode, chip, answer, k)
  {
    PokesConcat(a, b, mode, chip, answer, k);
  }

  /** One more segment. */
  lemma PokesSnoc(a: seq<Segment>, s: Segment, mode: Mode, chip: Chip, answer: nat -> Status, k: nat)
    requires Pokes(a, mode, chip, answer, k).ok
    ensures var ra := Pokes(a, mode, chip, answer, k);
            var rs := Pokes([s], mode, chip, answer, k + |ra.events|);
            var r := Pokes(a + [s], mode, chip, answer, k);
            && r == PokeRun(ra.events + rs.events, rs.ok)
            && BytesWritten(r.events) == BytesWritten(ra.events) + BytesWritten(rs.events)
  {
    PokesConcat(a, [s], mode, chip, answer, k);
    BytesWrittenConcat(Pokes(a, mode, chip, answer, k).events,
                       Pokes([s], mode, chip, answer, k + |Pokes(a, mode, chip, answer, k).events|).events);
  }

  lemma MergeLine(lines: seq<Line>, p: Pending)
    requires lines != []
    ensures lines[0].Comment? ==> Merge(lines, p) == Merge(lines[1..], p)
    ensures lines[0].Garbage? ==> Merge(lines, p) == Merged([], -2)
    ensures lines[0].Record? ==>
              var l := lines[0];
              var q := Seen(p, l.off);
              Merge(lines, p) == RecordResult(q, l, Merge(lines[1..], Take(q, l.off, l.data)))
  {
    hide Emitted; hide Take; hide Seen; hide Cut;
  }

  /** Copies a record into the buffer. */
  method Append(data: array<U8>, dataLen: nat, payload: seq<U8>)
    requires dataLen + |payload| <= data.Length
    modifies data
    ensures data[..dataLen + |payload|] == old(data[..dataLen]) + payload
  {
    for idx := 0 to |payload|
      invariant data[..dataLen + idx] == old(data[..dataLen]) + payload[..idx]
    {
      data[dataLen + idx] := payload[idx];
    }
    assert payload[..|payload|] == payload;
  }

  /** What has happened since the log was log0 and the counters were total0 and
    * count0: the segments in done have been poked. */
  ghost predicate PokedSince(ctx: RamPokeContext, log0: seq<Event>, total0: nat, count0: nat,
                             done: seq<Segment>, chip: Chip, ok: bool)
    reads ctx, ctx.device
  {
    var r := Pokes(done, ctx.mode, chip, ctx.device.answer, |log0|);
    && r.ok == ok && ctx.device.log == log0 + r.events
    && ctx.total == total0 + BytesWritten(r.events) && ctx.count == count0 + |r.events|
  }

  /** Pokes one more segment after those in done. */
  method Flush(ctx: RamPokeContext, chip: Chip, s: Segment, ghost done: seq<Segment>, ghost log0: seq<Event>,
               ghost total0: nat, ghost count0: nat) returns (rc: int)
    requires PokedSince(ctx, log0, total0, count0, done, chip, true)
    modifies ctx`total, ctx`count, ctx.device`log
    ensures rc == 0 || rc == -1
    ensures PokedSince(ctx, log0, total0, count0, done + [s], chip, rc == 0)
  {
    hide Pokes; hide BytesWritten;
    PokesSnoc(done, s, ctx.mode, chip, ctx.device.answer, |log0|);
    rc := PokeSegment(ctx, chip, s);
  }

  /** Takes one data record into the buffer, which is flushed before if need be. */
  method TakeRecord(ctx: RamPokeContext, chip: Chip, data: array<U8>, dataAddr: nat, dataLen: nat,
                    off: nat, payload: Payload,
                    ghost done: seq<Segment>, ghost log0: seq<Event>, ghost total0: nat, ghost count0: nat)
    returns (rc: int, dataAddr': nat, dataLen': nat)
    requires data.Length == BUFFER_SIZE && dataLen <= BUFFER_SIZE
    requires PokedSince(ctx, log0, total0, count0, done, chip, true)
    modifies data, ctx`total, ctx`count, ctx.device`log
    ensures rc == 0 || rc == -1
    ensures var q := Pending(false, dataAddr, old(data[..dataLen]));
            && PokedSince(ctx, log0, total0, count0, done + Emitted(q, off, |payload|), chip, rc == 0)
            && (rc == 0 ==>
                  && dataLen' <= BUFFER_SIZE
                  && Pending(false, dataAddr', data[..dataLen']) == Take(q, off, payload))
  {
    hide PokedSince;
    rc, dataAddr', dataLen' := 0, dataAddr, dataLen;
    if dataLen != 0 && (off != dataAddr + dataLen || dataLen + |payload| > BUFFER_SIZE) {
      rc := Flush(ctx, chip, Segment(dataAddr, data[..dataLen]), done, log0, total0, count0);
      if rc < 0 {
        return;
      }
      dataAddr', dataLen' := off, 0;
    } else {
      assert done + [] == done;
    }
    Append(data, dataLen', payload);
    dataLen' := dataLen' + |payload|;
  }

  /** Reads the file line by line and pokes the merged segments. */
  method ParseIhex(text: string, others: nat -> Line, chip: Chip, ctx: RamPokeContext) returns (rc: int)
    modifies ctx`total, ctx`count, ctx.device`log
    ensures var m := Merge(LinesFrom(text, 0, others), START);
            var ok := Pokes(m.segments, ctx.mode, chip, ctx.device.answer, |old(ctx.device.log)|).ok;
            Poked(ctx, m.segments, chip, ok) && rc == if ok then m.code else -1
  {
    hide Merge; hide Pokes; hide BytesWritten; hide Take; hide Emitted; hide PokedSince; hide LinesFrom; hide LineOf;
    hide PieceLength; hide Front; hide MustFlush;
    var data := new U8[BUFFER_SIZE];
    var dataAddr: nat, dataLen: nat := 0, 0;
    var firstLine := true;
    ghost var done: seq<Segment>, p := [], START;
    ghost var log0, total0, count0 := ctx.device.log, ctx.total, ctx.count;
    ghost var whole := Merge(LinesFrom(text, 0, others), START);
    NothingPoked(ctx, chip);
    FrontFront([], [], whole);
    var rest, i := text, 0;
    while rest != ""
      invariant dataLen <= BUFFER_SIZE && fresh(data) && data.Length == BUFFER_SIZE
      invariant p == Pending(firstLine, dataAddr, data[..dataLen])
      invariant whole == Front(done, Merge(LinesFrom(rest, i, others), p))
      invariant PokedSince(ctx, log0, total0, count0, done, chip, true)
      decreases |rest|
    {
      NextLine(rest, i, others, p);
      var k := ReadPiece(rest);
      var l := ReadLine(rest[..k], others(i));
      rest, i := rest[k..], i + 1;
      if l.Garbage? {
        Finished(ctx, log0, total0, count0, done, chip, true, whole, Merged([], -2));
        return -2;
      }
      if l.Record? {
        var off, payload := l.off, l.data;
        if firstLine {
          dataAddr, firstLine := off, false;
        }
        p := Seen(p, off);
        if l.kind == 1 {
          break;
        }
        if l.kind != 0 {
          Finished(ctx, log0, total0, count0, done, chip, true, whole, Merged([], -3));
          return -3;
        }
        if !l.complete {
          Finished(ctx, log0, total0, count0, done, chip, true, whole, Merged([], -4));
          return -4;
        }
        ghost var emitted, behind := Emitted(p, off, |payload|),
            Merge(LinesFrom(rest, i, others), Take(p, off, payload));
        FrontFront(done, emitted, behind);
        rc, dataAddr, dataLen := TakeRecord(ctx, chip, data, dataAddr, dataLen, off, payload, done, log0, total0,
            count0);
        done, p := done + emitted, Take(p, off, payload);
        if rc < 0 {
          Finished(ctx, log0, total0, count0, done, chip, false, whole, behind);
          return -1;
        }
      }
    }
    NoLines(i, others, p);
    LastSegment(done, Cut(p));
    if dataLen != 0 {
      rc := Flush(ctx, chip, Segment(dataAddr, data[..dataLen]), done, log0, total0, count0);
      Finished(ctx, log0, total0, count0, done + Cut(p), chip, rc == 0, whole, Merged([], 0));
      return rc;
    }
    Finished(ctx, log0, total0, count0, done, chip, true, whole, Merged([], 0));
    return 0;
  }

  lemma LastSegment(done: seq<Segment>, last: seq<Segment>)
    ensures Front(done, Merged(last, 0)) == Front(done + last, Merged([], 0))
  {
    assert done + last + [] == done + last;
  }

  /** The end of a reading: the segments in done have been poked, and of those that
    * were to follow none is left, or one of done has failed. */
  lemma Finished(ctx: RamPokeContext, log0: seq<Event>, total0: nat, count0: nat,
                 done: seq<Segment>, chip: Chip, ok: bool,
                 whole: Merged, rest: Merged)
    requires PokedSince(ctx, log0, total0, count0, done, chip, ok)
    requires whole == Front(done, rest) && (ok ==> rest.segments == [])
    ensures PokedSince(ctx, log0, total0, count0, whole.segments, chip, ok) && whole.code == rest.code
    ensures var r := Pokes(whole.segments, ctx.mode, chip, ctx.device.answer, |log0|);
            && r.ok == ok && ctx.device.log == log0 + r.events
            && ctx.total == total0 + BytesWritten(r.events) && ctx.count == count0 + |r.events|
  {
    hide Pokes; hide BytesWritten;
    if ok {
      assert done + [] == done;
    } else {
      PokesStop(done, rest.segments, ctx.mode, chip, ctx.device.answer, |log0|);
    }
  }

  /** One more line. */
  lemma NextLine(text: string, n: nat, others: nat -> Line, p: Pending)
    requires text != ""
    ensures var k := PieceLength(text);
            var l, m := LineOf(text[..k], others(n)), Merge(LinesFrom(text, n, others), p);
            && (l.Comment? ==> m == Merge(LinesFrom(text[k..], n + 1, others), p))
            && (l.Garbage? ==> m == Merged([], -2))
            && (l.Record? ==>
                  var q := Seen(p, l.off);
                  if l.kind == 1 then m == Merged(Cut(q), 0)
                  else if l.kind != 0 then m == Merged([], -3)
                  else if !l.complete then m == Merged([], -4)
                  else m == Front(Emitted(q, l.off, |l.data|),
                                  Merge(LinesFrom(text[k..], n + 1, others), Take(q, l.off, l.data))))
  {
    hide LineOf; hide PieceLength; hide Merge; hide Take; hide Seen; hide Emitted; hide Cut;
    var lines := LinesFrom(text, n, others);
    assert lines[1..] == LinesFrom(text[PieceLength(text)..], n + 1, others);
    MergeLine(lines, p);
  }

  lemma NoLines(n: nat, others: nat -> Line, p: Pending)
    ensures Merge(LinesFrom("", n, others), p) == Merged(Cut(p), 0)
  {
    MergeEnd(p);
  }

  lemma NothingPoked(ctx: RamPokeContext, chip: Chip)
    ensures PokedSince(ctx, ctx.device.log, ctx.total, ctx.count, [], chip, true)
  {
  }

  lemma MergeEnd(p: Pending)
    ensures Merge([], p) == Merged(Cut(p), 0)
  {
  }
}
