/** Loading a firmware file into RAM in one or two stages. */
module EzusbLoad {
  import opened Bytes
  import opened EzusbRam
  import opened EzusbText
  import opened EzusbHex
  import opened EzusbMerge
  import opened EzusbImages

  datatype ImageType = Hex | Iic | Bix

  /** A file, and what its lines without proper digits are taken for. */
  datatype File = File(bytes: seq<U8>, others: nat -> Line)

  function Text(bytes: seq<U8>): string
  {
    seq(|bytes|, i requires 0 <= i < |bytes| => bytes[i] as char)
  }

  /** The lines of a file that is read as text. */
  function LinesOf(file: File): seq<Line>
  {
    LinesFrom(Text(file.bytes), 0, file.others)
  }

  const IIC_HEADER := 8

  /** The first byte of an IIC image names the chip family. */
  predicate IicHeaderFits(chip: Chip, bytes: seq<U8>)
  {
    && |bytes| >= IIC_HEADER
    && match chip
       case Fx2lp => bytes[0] == 0xC2
       case Fx2 => bytes[0] == 0xC2
       case An21 => bytes[0] == 0xB2
       case Fx1 => bytes[0] == 0xB6
  }

  function CpucsAddress(chip: Chip): nat
  {
    if chip in {Fx2, Fx2lp} then 0xe600 else 0x7f92
  }

  /** The segments of a file of the given type. */
  function ImageOf(file: File, img: ImageType): Merged
  {
    match img
    case Hex => Merge(LinesOf(file), START)
    case Iic => IicBlocks(file.bytes, IIC_HEADER)
    case Bix => BinBlocks(file.bytes, 0, 0)
  }

  // ----- the run, as a function of the device's answers -----------------------------

  /** The transfers made so far; ret is 0 as long as nothing has failed. */
  datatype Run = Run(events: seq<Event>, ret: int)

  function CpuStep(r: Run, chip: Chip, doRun: bool, answer: nat -> Status, k: nat): Run
  {
    if r.ret != 0 then r
    else
      var s := answer(k + |r.events|);
      Run(r.events + [Event(Cpucs(CpucsAddress(chip), doRun), s)], if CpucsAccepted(doRun, s) then 0 else -1)
  }

  function PassStep(r: Run, m: Merged, mode: Mode, chip: Chip, answer: nat -> Status, k: nat): Run
  {
    if r.ret != 0 then r
    else
      var p := Pokes(m.segments, mode, chip, answer, k + |r.events|);
      Run(r.events + p.events, if p.ok then m.code else -1)
  }

  function LoadRun(file: File, chip: Chip, img: ImageType, staged: bool, answer: nat -> Status, k: nat): Run
  {
    if img == Iic && !IicHeaderFits(chip, file.bytes) then Run([], -1)
    else if !staged then
      var r1 := CpuStep(Run([], 0), chip, false, answer, k);
      var r2 := PassStep(r1, ImageOf(file, img), InternalOnly, chip, answer, k);
      CpuStep(r2, chip, true, answer, k)
    else
      var r1 := PassStep(Run([], 0), ImageOf(file, img), SkipInternal, chip, answer, k);
      var r2 := CpuStep(r1, chip, false, answer, k);
      var r3 := PassStep(r2, Merge(LinesOf(file), START), SkipExternal, chip, answer, k);
      CpuStep(r3, chip, true, answer, k)
  }

  /** Parses the image with the parser for its type. */
  method Parse(file: File, img: ImageType, chip: Chip, ctx: RamPokeContext) returns (status: int)
    modifies ctx`total, ctx`count, ctx.device`log
    ensures Loaded(ctx, ImageOf(file, img), chip, status)
  {
    hide Pokes; hide Merge; hide IicBlocks; hide BinBlocks; hide BytesWritten;
    match img {
      case Hex => status := ParseIhex(Text(file.bytes), file.others, chip, ctx);
      case Iic => status := ParseIic(file.bytes, IIC_HEADER, chip, ctx);
      case Bix => status := ParseBin(file.bytes, chip, ctx);
    }
  }

  /** Number of write transfers. */
  function WriteCount(events: seq<Event>): nat
  {
    if events == [] then 0 else (if events[0].transfer.Write? then 1 else 0) + WriteCount(events[1..])
  }

  lemma {:induction false} WriteCountConcat(a: seq<Event>, b: seq<Event>)
    ensures WriteCount(a + b) == WriteCount(a) + WriteCount(b)
  {
    if a == [] {
      assert a + b == b;
    } else {
      assert (a + b)[1..] == a[1..] + b;
      WriteCountConcat(a[1..], b);
    }
  }

  lemma {:induction false} PokesAreWrites(segs: seq<Segment>, mode: Mode, chip: Chip, answer: nat -> Status, k: nat)
    ensures var p := Pokes(segs, mode, chip, answer, k).events; WriteCount(p) == |p|
    decreases |segs|
  {
    if segs == [] {
    } else {
      PokesAreWrites(segs[1..], mode, chip, answer, k);
      PokesAreWrites(segs[1..], mode, chip, answer, k + 1);
      var e := Event(WriteOf(chip, segs[0]), answer(k));
      var rest := Pokes(segs[1..], mode, chip, answer, k + 1).events;
      assert [e][1..] == [] && WriteCount([e]) == 1;
      assert ([e] + rest)[1..] == rest;
    }
  }

  lemma NothingCounted()
    ensures BytesWritten([]) == 0 && WriteCount([]) == 0
  {
  }

  lemma CpuCounted(r: Run, chip: Chip, doRun: bool, answer: nat -> Status, k: nat)
    ensures var r' := CpuStep(r, chip, doRun, answer, k).events;
            BytesWritten(r') == BytesWritten(r.events) && WriteCount(r') == WriteCount(r.events)
  {
    var e := Event(Cpucs(CpucsAddress(chip), doRun), answer(k + |r.events|));
    BytesWrittenConcat(r.events, [e]);
    WriteCountConcat(r.events, [e]);
    assert [e][1..] == [];
    NothingCounted();
  }

  lemma PassCounted(r: Run, m: Merged, mode: Mode, chip: Chip, answer: nat -> Status, k: nat)
    ensures var p := Pokes(m.segments, mode, chip, answer, k + |r.events|).events;
            r.ret == 0 ==>
              var r' := PassStep(r, m, mode, chip, answer, k).events;
              && BytesWritten(r') == BytesWritten(r.events) + BytesWritten(p)
              && WriteCount(r') == WriteCount(r.events) + |p|
  {
    var p := Pokes(m.segments, mode, chip, answer, k + |r.events|).events;
    BytesWrittenConcat(r.events, p);
    WriteCountConcat(r.events, p);
    PokesAreWrites(m.segments, mode, chip, answer, k + |r.events|);
  }

  lemma {:induction false} MergeCode(lines: seq<Line>, p: Pending)
    ensures Merge(lines, p).code <= 0
  {
    hide Take; hide Emitted; hide Cut; hide Seen;
    if lines == [] {
    } else {
      match lines[0] {
        case Comment => MergeCode(lines[1..], p);
        case Garbage =>
        case Record(_, off, data, _) => MergeCode(lines[1..], Take(Seen(p, off), off, data));
      }
    }
  }

  lemma {:induction false} IicCode(bytes: seq<U8>, pos: nat)
    ensures IicBlocks(bytes, pos).code in {0, -1}
    decreases |bytes| - pos
  {
    if pos + 4 <= |bytes| {
      var len := Pair(bytes[pos], bytes[pos + 1]);
      if pos + 4 + len <= |bytes| {
        IicCode(bytes, pos + 4 + len);
      }
    }
  }

  lemma {:induction false} BinCode(bytes: seq<U8>, pos: nat, addr: nat)
    requires pos <= |bytes|
    ensures BinBlocks(bytes, pos, addr).code == 0
    decreases |bytes| - pos
  {
    var chunk := Chunk(bytes, pos);
    if chunk == [] {
    } else {
      BinCode(bytes, pos + |chunk|, (addr + |chunk|) % 0x1_0000_0000);
    }
  }

  lemma ImageCode(file: File, img: ImageType)
    ensures ImageOf(file, img).code <= 0
  {
    MergeCode(LinesOf(file), START);
    IicCode(file.bytes, IIC_HEADER);
    BinCode(file.bytes, 0, 0);
  }

  /** The log and the counters, for a run r that began when the log was log0. */
  ghost predicate Accounted(device: Device, ctx: RamPokeContext, log0: seq<Event>, r: Run)
    reads device, ctx
  {
    && ctx.device == device && device.log == log0 + r.events
    && ctx.total == BytesWritten(r.events) && ctx.count == WriteCount(r.events)
  }

  /** Stops or resets the CPU, as the next step of the run r. */
  method Cpu(device: Device, ctx: RamPokeContext, chip: Chip, doRun: bool, ghost log0: seq<Event>, ghost r: Run)
    returns (ok: bool)
    requires Accounted(device, ctx, log0, r) && r.ret == 0
    modifies device`log
    ensures ok == (CpuStep(r, chip, doRun, device.answer, |log0|).ret == 0)
    ensures Accounted(device, ctx, log0, CpuStep(r, chip, doRun, device.answer, |log0|))
  {
    hide BytesWritten; hide WriteCount;
    CpuCounted(r, chip, doRun, device.answer, |log0|);
    ok := device.EzusbCpucs(CpucsAddress(chip), doRun);
  }

  /** Scans the image, as the next step of the run r. */
  method Scan(device: Device, ctx: RamPokeContext, file: File, img: ImageType, chip: Chip, ghost log0: seq<Event>,
              ghost r: Run)
    returns (status: int)
    requires Accounted(device, ctx, log0, r) && r.ret == 0
    modifies ctx`total, ctx`count, device`log
    ensures ctx.mode == old(ctx.mode) && status <= 0
    ensures status == PassStep(r, ImageOf(file, img), ctx.mode, chip, device.answer, |log0|).ret
    ensures Accounted(device, ctx, log0, PassStep(r, ImageOf(file, img), ctx.mode, chip, device.answer, |log0|))
  {
    hide BytesWritten; hide WriteCount; hide Pokes; hide ImageOf;
    ImageCode(file, img);
    PassCounted(r, ImageOf(file, img), ctx.mode, chip, device.answer, |log0|);
    status := Parse(file, img, chip, ctx);
  }

  /** Loads the file. Stage 0 writes everything while the CPU is stopped; the
    * second stage writes external memory first, with the CPU running, then stops
    * it and scans the file again, as Intel HEX, for the on-chip part. */
  method LoadRam(device: Device, file: File, chip: Chip, img: ImageType, stage: int)
    returns (ret: int, total: nat, count: nat)
    modifies device`log
    ensures var run := LoadRun(file, chip, img, stage != 0, device.answer, |old(device.log)|);
            && device.log == old(device.log) + run.events && ret == run.ret
            && total == BytesWritten(run.events) && count == WriteCount(run.events)
  {
    hide BytesWritten; hide WriteCount; hide ImageOf; hide IicHeaderFits; hide CpuStep; hide PassStep; hide Merge;
    ghost var k, log0 := |device.log|, device.log;
    ghost var r := Run([], 0);
    NothingCounted();
    if img == Iic && !IicHeaderFits(chip, file.bytes) {
      return -1, 0, 0;
    }
    var ctx := new RamPokeContext(device, Undef);
    var ok, status;
    assert log0 + [] == log0;
    AfterFailure(chip, device.answer, k);
    if stage == 0 {
      ctx.mode := InternalOnly;
      ok := Cpu(device, ctx, chip, false, log0, r);
      r := CpuStep(r, chip, false, device.answer, k);
      if !ok {
        return -1, ctx.total, ctx.count;
      }
    } else {
      ctx.mode := SkipInternal;
    }
    status := Scan(device, ctx, file, img, chip, log0, r);
    r := PassStep(r, ImageOf(file, img), ctx.mode, chip, device.answer, k);
    if status < 0 {
      return status, ctx.total, ctx.count;
    }
    if stage != 0 {
      ctx.mode := SkipExternal;
      ok := Cpu(device, ctx, chip, false, log0, r);
      r := CpuStep(r, chip, false, device.answer, k);
      if !ok {
        return -1, ctx.total, ctx.count;
      }
      status := Scan(device, ctx, file, Hex, chip, log0, r);
      HexImage(file);
      r := PassStep(r, Merge(LinesOf(file), START), ctx.mode, chip, device.answer, k);
      if status < 0 {
        return status, ctx.total, ctx.count;
      }
    }
    ok := Cpu(device, ctx, chip, true, log0, r);
    r := CpuStep(r, chip, true, device.answer, k);
    return if ok then 0 else -1, ctx.total, ctx.count;
  }

  lemma HexImage(file: File)
    ensures ImageOf(file, Hex) == Merge(LinesOf(file), START)
  {
  }

  /** After a failure nothing more happens; a CPU step fails with -1. */
  lemma AfterFailure(chip: Chip, answer: nat -> Status, k: nat)
    ensures forall r: Run, m, mode :: r.ret != 0 ==> PassStep(r, m, mode, chip, answer, k) == r
    ensures forall r: Run, doRun :: r.ret != 0 ==> CpuStep(r, chip, doRun, answer, k) == r
    ensures forall r: Run, doRun :: r.ret == 0 ==> CpuStep(r, chip, doRun, answer, k).ret in {0, -1}
  {
  }

  // ----- safety of the trace -----------------------------------------------------------

  predicate IsWrite(e: Event, opcode: U8)
  {
    e.transfer.Write? && e.transfer.opcode == opcode
  }

  /** The CPU control register of the chip has been written, with a stop. */
  predicate IsStop(e: Event, chip: Chip)
  {
    e == Event(Cpucs(if chip == Fx2lp || chip == Fx2 then 0xe600 else 0x7f92, false), Done)
  }

  predicate IsReset(e: Event)
  {
    e.transfer.Cpucs? && e.transfer.run
  }

  /** On-chip memory is written only after the CPU has been stopped. */
  predicate StopsFirst(events: seq<Event>, chip: Chip)
  {
    forall i :: 0 <= i < |events| && IsWrite(events[i], 0xA0) ==>
      exists j :: 0 <= j < i && IsStop(events[j], chip)
  }

  /** In a two-stage load the external writes come before the stop. */
  predicate ExternalBeforeStop(events: seq<Event>, chip: Chip)
  {
    forall i, j :: 0 <= i < |events| && 0 <= j < |events| && IsStop(events[j], chip) && IsWrite(events[i], 0xA3) ==>
      i < j
  }

  /** A reset is the last transfer, and all before it were done. */
  predicate ResetLast(events: seq<Event>)
  {
    forall i :: 0 <= i < |events| && IsReset(events[i]) ==>
      i == |events| - 1 && forall j :: 0 <= j < i ==> events[j].status == Done
  }

  /** What one pass may contain, in which mode, and that all of it was done if
    * the pass succeeded. */
  lemma {:induction false} PassContents(segs: seq<Segment>, mode: Mode, chip: Chip, answer: nat -> Status, k: nat)
    ensures var r := Pokes(segs, mode, chip, answer, k);
            && (forall e :: e in r.events ==> IsWrite(e, if mode == SkipInternal then RW_MEMORY else RW_INTERNAL))
            && (r.ok ==> forall e :: e in r.events ==> e.status == Done)
    decreases |segs|
  {
    hide External;
    if segs == [] {
    } else if Decide(mode, External(chip, segs[0])).Send? {
      var e := Event(WriteOf(chip, segs[0]), answer(k));
      assert IsWrite(e, if mode == SkipInternal then RW_MEMORY else RW_INTERNAL);
      PassContents(segs[1..], mode, chip, answer, k + 1);
      var rest := Pokes(segs[1..], mode, chip, answer, k + 1);
      assert Pokes(segs, mode, chip, answer, k) ==
               if e.status == Done then PokeRun([e] + rest.events, rest.ok) else PokeRun([e], false);
    } else {
      PassContents(segs[1..], mode, chip, answer, k);
    }
  }

  /** First writes to external memory, at most one attempt to stop the CPU, then
    * on-chip writes, and at most one reset. */
  lemma ShapeIsSafe(ext: seq<Event>, stop: seq<Event>, onChip: seq<Event>, reset: seq<Event>, chip: Chip)
    requires (forall e :: e in ext ==> IsWrite(e, 0xA3)) && (forall e :: e in onChip ==> IsWrite(e, 0xA0))
    requires |stop| <= 1 && (forall e :: e in stop ==> e.transfer.Cpucs? && !e.transfer.run)
    requires |reset| <= 1 && (forall e :: e in reset ==> IsReset(e))
    requires onChip + reset != [] ==> stop != [] && IsStop(stop[0], chip)
    requires reset != [] ==> forall e :: e in ext || e in onChip ==> e.status == Done
    ensures var events := ext + stop + onChip + reset;
            StopsFirst(events, chip) && ResetLast(events) && ExternalBeforeStop(events, chip)
  {
    var events := ext + stop + onChip + reset;
    forall i | 0 <= i < |events| && IsWrite(events[i], 0xA0)
      ensures exists j :: 0 <= j < i && IsStop(events[j], chip)
    {
      PartOf(ext, stop, onChip, reset, i);
      assert events[|ext|] == stop[0];
    }
    forall i | 0 <= i < |events| && IsReset(events[i])
      ensures i == |events| - 1 && forall j :: 0 <= j < i ==> events[j].status == Done
    {
      PartOf(ext, stop, onChip, reset, i);
      forall j | 0 <= j < i ensures events[j].status == Done {
        PartOf(ext, stop, onChip, reset, j);
      }
    }
    forall i, j | 0 <= i < |events| && 0 <= j < |events| && IsStop(events[j], chip) && IsWrite(events[i], 0xA3)
      ensures i < j
    {
      PartOf(ext, stop, onChip, reset, i);
      PartOf(ext, stop, onChip, reset, j);
    }
  }

  lemma PartOf(a: seq<Event>, b: seq<Event>, c: seq<Event>, d: seq<Event>, i: nat)
    requires i < |a + b + c + d|
    ensures var e := (a + b + c + d)[i];
            if i < |a| then e in a
            else if i < |a| + |b| then e == b[i - |a|] && e in b
            else if i < |a| + |b| + |c| then e in c
            else e in d
  {
  }

  /** A pass over an image that succeeds from transfer k on: the image is accepted
    * and no segment is refused or fails. */
  predicate PassSucceeds(m: Merged, mode: Mode, chip: Chip, answer: nat -> Status, k: nat)
  {
    m.code == 0 && Pokes(m.segments, mode, chip, answer, k).ok
  }

  /** The CPU has been stopped and every pass has succeeded. */
  predicate AllPassesSucceed(file: File, chip: Chip, img: ImageType, staged: bool, answer: nat -> Status, k: nat)
  {
    if !staged then answer(k) == Done && PassSucceeds(ImageOf(file, img), InternalOnly, chip, answer, k + 1)
    else
      var n := |Pokes(ImageOf(file, img).segments, SkipInternal, chip, answer, k).events|;
      && PassSucceeds(ImageOf(file, img), SkipInternal, chip, answer, k)
      && answer(k + n) == Done
      && PassSucceeds(Merge(LinesOf(file), START), SkipExternal, chip, answer, k + n + 1)
  }

  predicate HeaderFits(file: File, chip: Chip, img: ImageType)
  {
    img == Iic ==> IicHeaderFits(chip, file.bytes)
  }

  /** The CPU is reset exactly when it has been stopped and every pass over the
    * image has succeeded: not after a syntax error and not after a refused
    * segment. */
  lemma ResetMeansLoaded(file: File, chip: Chip, img: ImageType, staged: bool, answer: nat -> Status, k: nat)
    ensures (exists e :: e in LoadRun(file, chip, img, staged, answer, k).events && IsReset(e))
       <==> HeaderFits(file, chip, img) && AllPassesSucceed(file, chip, img, staged, answer, k)
  {
    hide Pokes; hide ImageOf; hide Merge; hide IicHeaderFits; hide PassSucceeds; hide CpuStep; hide PassStep;
    hide IsReset;
    if !HeaderFits(file, chip, img) {
      assert LoadRun(file, chip, img, staged, answer, k).events == [];
    } else if !staged {
      SingleReset(ImageOf(file, img), chip, answer, k);
    } else {
      TwoStageReset(ImageOf(file, img), Merge(LinesOf(file), START), chip, answer, k);
    }
  }

  lemma PassReset(r: Run, m: Merged, mode: Mode, chip: Chip, answer: nat -> Status, k: nat)
    requires forall e :: e in r.events ==> !IsReset(e)
    ensures var r' := PassStep(r, m, mode, chip, answer, k);
            && (forall e :: e in r'.events ==> !IsReset(e))
            && (r'.ret == 0 <==> r.ret == 0 && PassSucceeds(m, mode, chip, answer, k + |r.events|))
  {
    hide Pokes;
    PassContents(m.segments, mode, chip, answer, k + |r.events|);
  }

  /** A step of the CPU behind a run without a reset. */
  lemma CpuReset(r: Run, chip: Chip, doRun: bool, answer: nat -> Status, k: nat)
    requires forall e :: e in r.events ==> !IsReset(e)
    ensures var r' := CpuStep(r, chip, doRun, answer, k);
            && ((exists e :: e in r'.events && IsReset(e)) <==> r.ret == 0 && doRun)
            && (!doRun ==> (r'.ret == 0 <==> r.ret == 0 && answer(k + |r.events|) == Done))
  {
    var last := Event(Cpucs(CpucsAddress(chip), doRun), answer(k + |r.events|));
    if r.ret == 0 {
      assert CpuStep(r, chip, doRun, answer, k).events == r.events + [last];
      assert last in r.events + [last];
    }
  }

  lemma SingleReset(m: Merged, chip: Chip, answer: nat -> Status, k: nat)
    ensures var r1 := CpuStep(Run([], 0), chip, false, answer, k);
            var events := CpuStep(PassStep(r1, m, InternalOnly, chip, answer, k), chip, true, answer, k).events;
            (exists e :: e in events && IsReset(e)) <==>
                answer(k) == Done && PassSucceeds(m, InternalOnly, chip, answer, k + 1)
  {
    hide CpuStep; hide PassStep; hide PassSucceeds;
    var r0 := Run([], 0);
    var r1 := CpuStep(r0, chip, false, answer, k);
    CpuReset(r0, chip, false, answer, k);
    PassReset(r1, m, InternalOnly, chip, answer, k);
    CpuReset(PassStep(r1, m, InternalOnly, chip, answer, k), chip, true, answer, k);
    CpuLength(r0, chip, false, answer, k);
  }

  lemma CpuLength(r: Run, chip: Chip, doRun: bool, answer: nat -> Status, k: nat)
    ensures r.ret == 0 ==> |CpuStep(r, chip, doRun, answer, k).events| == |r.events| + 1
  {
  }

  lemma PassLength(r: Run, m: Merged, mode: Mode, chip: Chip, answer: nat -> Status, k: nat)
    ensures r.ret == 0 ==>
              |PassStep(r, m, mode, chip, answer, k).events|
              == |r.events| + |Pokes(m.segments, mode, chip, answer, k + |r.events|).events|
  {
    hide Pokes;
  }

  lemma TwoStageReset(m1: Merged, m2: Merged, chip: Chip, answer: nat -> Status, k: nat)
    ensures var r1 := PassStep(Run([], 0), m1, SkipInternal, chip, answer, k);
            var r2 := CpuStep(r1, chip, false, answer, k);
            var events := CpuStep(PassStep(r2, m2, SkipExternal, chip, answer, k), chip, true, answer, k).events;
            var n := |Pokes(m1.segments, SkipInternal, chip, answer, k).events|;
            (exists e :: e in events && IsReset(e)) <==>
              && PassSucceeds(m1, SkipInternal, chip, answer, k) && answer(k + n) == Done
              && PassSucceeds(m2, SkipExternal, chip, answer, k + n + 1)
  {
    hide CpuStep; hide PassStep; hide PassSucceeds; hide Pokes;
    var r0 := Run([], 0);
    var r1 := PassStep(r0, m1, SkipInternal, chip, answer, k);
    var r2 := CpuStep(r1, chip, false, answer, k);
    PassReset(r0, m1, SkipInternal, chip, answer, k);
    PassLength(r0, m1, SkipInternal, chip, answer, k);
    CpuReset(r1, chip, false, answer, k);
    CpuLength(r1, chip, false, answer, k);
    PassReset(r2, m2, SkipExternal, chip, answer, k);
    CpuReset(PassStep(r2, m2, SkipExternal, chip, answer, k), chip, true, answer, k);
  }

  /** Whatever the device answers and whatever the file holds: no on-chip write
    * before a successful stop, no write to external memory after it, and a reset
    * only as the last transfer, after all others were done and every pass has
    * succeeded. */
  lemma LoadIsSafe(file: File, chip: Chip, img: ImageType, staged: bool, answer: nat -> Status, k: nat)
    ensures var events := LoadRun(file, chip, img, staged, answer, k).events;
            && StopsFirst(events, chip) && ResetLast(events) && ExternalBeforeStop(events, chip)
            && ((exists e :: e in events && IsReset(e)) ==> AllPassesSucceed(file, chip, img, staged, answer, k))
  {
    ResetMeansLoaded(file, chip, img, staged, answer, k);
    hide Pokes; hide ImageOf; hide Merge; hide IicHeaderFits; hide StopsFirst; hide ResetLast; hide ExternalBeforeStop;
    hide AllPassesSucceed;
    if img == Iic && !IicHeaderFits(chip, file.bytes) {
      ShapeIsSafe([], [], [], [], chip);
    } else if !staged {
      SingleIsSafe(ImageOf(file, img), chip, answer, k);
    } else {
      TwoStageIsSafe(ImageOf(file, img), Merge(LinesOf(file), START), chip, answer, k);
    }
  }

  lemma SingleIsSafe(m: Merged, chip: Chip, answer: nat -> Status, k: nat)
    ensures var r1 := CpuStep(Run([], 0), chip, false, answer, k);
            var events := CpuStep(PassStep(r1, m, InternalOnly, chip, answer, k), chip, true, answer, k).events;
            StopsFirst(events, chip) && ResetLast(events) && ExternalBeforeStop(events, chip)
  {
    hide Pokes; hide StopsFirst; hide ResetLast; hide ExternalBeforeStop;
    var r1 := CpuStep(Run([], 0), chip, false, answer, k);
    var r2 := PassStep(r1, m, InternalOnly, chip, answer, k);
    var r3 := CpuStep(r2, chip, true, answer, k);
    var p := if r1.ret == 0 then Pokes(m.segments, InternalOnly, chip, answer, k + 1).events else [];
    var reset := if r2.ret == 0 then [r3.events[|r3.events| - 1]] else [];
    PassContents(m.segments, InternalOnly, chip, answer, k + 1);
    ShapeIsSafe([], r1.events, p, reset, chip);
    assert r3.events == [] + r1.events + p + reset;
  }

  lemma TwoStageIsSafe(m1: Merged, m2: Merged, chip: Chip, answer: nat -> Status, k: nat)
    ensures var r1 := PassStep(Run([], 0), m1, SkipInternal, chip, answer, k);
            var r2 := CpuStep(r1, chip, false, answer, k);
            var events := CpuStep(PassStep(r2, m2, SkipExternal, chip, answer, k), chip, true, answer, k).events;
            StopsFirst(events, chip) && ResetLast(events) && ExternalBeforeStop(events, chip)
  {
    hide Pokes; hide StopsFirst; hide ResetLast; hide ExternalBeforeStop;
    var r1 := PassStep(Run([], 0), m1, SkipInternal, chip, answer, k);
    var r2 := CpuStep(r1, chip, false, answer, k);
    var r3 := PassStep(r2, m2, SkipExternal, chip, answer, k);
    var r4 := CpuStep(r3, chip, true, answer, k);
    PassContents(m1.segments, SkipInternal, chip, answer, k);
    PassContents(m2.segments, SkipExternal, chip, answer, k + |r2.events|);
    var stop := r2.events[|r1.events|..];
    var p := if r2.ret == 0 then Pokes(m2.segments, SkipExternal, chip, answer, k + |r2.events|).events else [];
    var reset := if r3.ret == 0 then [r4.events[|r4.events| - 1]] else [];
    ShapeIsSafe(r1.events, stop, p, reset, chip);
    assert r4.events == r1.events + stop + p + reset;
  }

  // ----- where the transfers go --------------------------------------------------------

  /** Stops and resets go to the CPU control register of the chip. Data goes out as a
    * request the hardware serves, 0xA0, exactly when it fits one on-chip range, and
    * otherwise as one for the second-stage loader, 0xA3. */
  predicate GoesWhere(e: Event, chip: Chip)
  {
    match e.transfer
    case Cpucs(addr, _) => addr == if chip == Fx2lp || chip == Fx2 then 0xe600 else 0x7f92
    case Write(opcode, addr, data) =>
      && (opcode == 0xA0 || opcode == 0xA3)
      && (data != [] ==>
            (opcode == 0xA0 <==>
               match chip
               case Fx2lp => addr + |data| <= 0x4000 || (0xe000 <= addr && addr + |data| <= 0xe200)
               case Fx2 => addr + |data| <= 0x2000 || (0xe000 <= addr && addr + |data| <= 0xe200)
               case An21 => addr + |data| <= 0x1b40
               case Fx1 => addr + |data| <= 0x1b40))
  }

  lemma {:induction false} PokesGoWhere(segs: seq<Segment>, mode: Mode, chip: Chip, answer: nat -> Status, k: nat)
    ensures forall e :: e in Pokes(segs, mode, chip, answer, k).events ==> GoesWhere(e, chip)
    decreases |segs|
  {
    hide GoesWhere; hide External;
    if segs == [] {
    } else {
      PokesGoWhere(segs[1..], mode, chip, answer, k);
      PokesGoWhere(segs[1..], mode, chip, answer, k + 1);
      assert GoesWhere(Event(WriteOf(chip, segs[0]), answer(k)), chip) by { WriteGoesWhere(segs[0], chip, answer(k)); }
    }
  }

  lemma WriteGoesWhere(s: Segment, chip: Chip, status: Status)
    ensures GoesWhere(Event(WriteOf(chip, s), status), chip)
  {
  }

  lemma PassGoesWhere(r: Run, m: Merged, mode: Mode, chip: Chip, answer: nat -> Status, k: nat)
    requires forall e :: e in r.events ==> GoesWhere(e, chip)
    ensures forall e :: e in PassStep(r, m, mode, chip, answer, k).events ==> GoesWhere(e, chip)
  {
    hide GoesWhere; hide Pokes;
    PokesGoWhere(m.segments, mode, chip, answer, k + |r.events|);
  }

  lemma CpuGoesWhere(r: Run, chip: Chip, doRun: bool, answer: nat -> Status, k: nat)
    requires forall e :: e in r.events ==> GoesWhere(e, chip)
    ensures forall e :: e in CpuStep(r, chip, doRun, answer, k).events ==> GoesWhere(e, chip)
  {
    assert GoesWhere(Event(Cpucs(CpucsAddress(chip), doRun), answer(k + |r.events|)), chip);
    hide GoesWhere;
  }

  /** Every transfer of every load. */
  lemma EveryTransfer(file: File, chip: Chip, img: ImageType, staged: bool, answer: nat -> Status, k: nat)
    ensures forall e :: e in LoadRun(file, chip, img, staged, answer, k).events ==> GoesWhere(e, chip)
  {
    hide GoesWhere; hide CpuStep; hide PassStep; hide ImageOf; hide Merge; hide IicHeaderFits;
    var r0 := Run([], 0);
    if staged {
      PassGoesWhere(r0, ImageOf(file, img), SkipInternal, chip, answer, k);
      var r1 := PassStep(r0, ImageOf(file, img), SkipInternal, chip, answer, k);
      CpuGoesWhere(r1, chip, false, answer, k);
      var r2 := CpuStep(r1, chip, false, answer, k);
      PassGoesWhere(r2, Merge(LinesOf(file), START), SkipExternal, chip, answer, k);
      CpuGoesWhere(PassStep(r2, Merge(LinesOf(file), START), SkipExternal, chip, answer, k), chip, true, answer, k);
    } else {
      CpuGoesWhere(r0, chip, false, answer, k);
      var r1 := CpuStep(r0, chip, false, answer, k);
      PassGoesWhere(r1, ImageOf(file, img), InternalOnly, chip, answer, k);
      CpuGoesWhere(PassStep(r1, ImageOf(file, img), InternalOnly, chip, answer, k), chip, true, answer, k);
    }
  }

  // ----- what a successful load has done -------------------------------------------------

  function CpuEvent(chip: Chip, doRun: bool, s: Status): Event
  {
    Event(Cpucs(CpucsAddress(chip), doRun), s)
  }

  /** Single stage: the CPU is stopped, every segment of the image is written
    * on-chip, in order, and the CPU is reset. */
  lemma SingleStageLoad(file: File, chip: Chip, img: ImageType, answer: nat -> Status, k: nat)
    requires LoadRun(file, chip, img, false, answer, k).ret == 0
    ensures var m := ImageOf(file, img);
            var events := LoadRun(file, chip, img, false, answer, k).events;
            && m.code == 0 && (forall s :: s in m.segments ==> !External(chip, s))
            && exists s :: CpucsAccepted(true, s)
                 && events == [CpuEvent(chip, false, Done)] + Written(m.segments, chip) + [CpuEvent(chip, true, s)]
    ensures BytesSent(LoadRun(file, chip, img, false, answer, k).events) == TagsOf(ImageOf(file, img).segments)
  {
    hide Pokes; hide ImageOf; hide External; hide BytesSent; hide Tags;
    var m := ImageOf(file, img);
    SingleStageSucceeds(m.segments, chip, answer, k + 1);
    forall s | s in m.segments ensures !External(chip, s) {
      var i :| 0 <= i < |m.segments| && m.segments[i] == s;
      assert Goes(m.segments, chip, answer, k + 1, i);
    }
    var events := LoadRun(file, chip, img, false, answer, k).events;
    var status := events[|events| - 1].status;
    assert events == [CpuEvent(chip, false, Done)] + Written(m.segments, chip) + [CpuEvent(chip, true, status)];
    SentBetween(m.segments, chip, status);
  }

  lemma SentBetween(segs: seq<Segment>, chip: Chip, s: Status)
    ensures BytesSent([CpuEvent(chip, false, Done)] + Written(segs, chip) + [CpuEvent(chip, true, s)]) == TagsOf(segs)
  {
    hide BytesSent; hide TagsOf; hide Written;
    SentOne(CpuEvent(chip, false, Done));
    SentOne(CpuEvent(chip, true, s));
    SentWritten(segs, chip);
    SentConcat([CpuEvent(chip, false, Done)], Written(segs, chip));
    SentConcat([CpuEvent(chip, false, Done)] + Written(segs, chip), [CpuEvent(chip, true, s)]);
    assert [] + TagsOf(segs) + [] == TagsOf(segs);
  }

  /** The first n segments go; the next one, if any, is refused or fails. */
  predicate StopsAt(segs: seq<Segment>, chip: Chip, answer: nat -> Status, k: nat, n: nat)
  {
    && n <= |segs| && (forall i :: 0 <= i < n ==> Goes(segs, chip, answer, k, i))
    && (n < |segs| ==> !Goes(segs, chip, answer, k, n))
  }

  /** The writes of a single-stage pass that stops at n, from transfer k on. */
  function PassTrace(segs: seq<Segment>, chip: Chip, answer: nat -> Status, k: nat, n: nat): seq<Event>
    requires n <= |segs|
  {
    Written(segs[..n], chip)
    + if n < |segs| && !External(chip, segs[n]) then [Event(WriteOf(chip, segs[n]), answer(k + n))] else []
  }

  lemma SingleStagePass(segs: seq<Segment>, chip: Chip, answer: nat -> Status, k: nat) returns (n: nat)
    ensures StopsAt(segs, chip, answer, k, n)
    ensures Pokes(segs, InternalOnly, chip, answer, k) == PokeRun(PassTrace(segs, chip, answer, k, n), n == |segs|)
    ensures n == |segs| ==> |PassTrace(segs, chip, answer, k, n)| == n
  {
    hide Pokes; hide External; hide Goes; hide WriteOf; hide Written;
    SingleStageSucceeds(segs, chip, answer, k);
    var p := Pokes(segs, InternalOnly, chip, answer, k);
    if p.ok {
      n := |segs|;
      assert segs[..n] == segs;
      WrittenLength(segs, chip);
      assert Written(segs, chip) + [] == Written(segs, chip);
    } else {
      n := SingleStageFails(segs, chip, answer, k);
    }
  }

  /** What the transfers say: the trace of a single-stage load whose pass stops at
    * segment n. */
  function SingleStageTrace(m: Merged, chip: Chip, answer: nat -> Status, k: nat, n: nat): seq<Event>
    requires n <= |m.segments|
  {
    if answer(k) != Done then [CpuEvent(chip, false, answer(k))]
    else
      [CpuEvent(chip, false, Done)] + PassTrace(m.segments, chip, answer, k + 1, n)
      + if n < |m.segments| || m.code != 0 then [] else [CpuEvent(chip, true, answer(k + 1 + n))]
  }

  function SingleStageResult(m: Merged, answer: nat -> Status, k: nat, n: nat): int
  {
    if answer(k) != Done || n < |m.segments| then -1
    else if m.code != 0 then m.code
    else if CpucsAccepted(true, answer(k + 1 + n)) then 0
    else -1
  }

  /** Every single-stage load, successful or not: the CPU is stopped, exactly the
    * segments before the first external one, or the first failed transfer, have
    * been written, and the CPU is reset only if that was all of an accepted image. */
  lemma SingleStageRun(file: File, chip: Chip, img: ImageType, answer: nat -> Status, k: nat) returns (n: nat)
    requires HeaderFits(file, chip, img)
    ensures var m := ImageOf(file, img);
            && StopsAt(m.segments, chip, answer, k + 1, n)
            && LoadRun(file, chip, img, false, answer, k)
               == Run(SingleStageTrace(m, chip, answer, k, n), SingleStageResult(m, answer, k, n))
  {
    hide Pokes; hide ImageOf; hide IicHeaderFits; hide PassTrace; hide CpucsAddress;
    var m := ImageOf(file, img);
    n := SingleStagePass(m.segments, chip, answer, k + 1);
    var stop := [CpuEvent(chip, false, answer(k))];
    assert [] + stop == stop;
    var pass := PassTrace(m.segments, chip, answer, k + 1, n);
    assert stop + pass + [] == stop + pass;
  }

  lemma {:induction false} WrittenLength(segs: seq<Segment>, chip: Chip)
    ensures |Written(segs, chip)| == |segs|
  {
    hide WriteOf;
    if segs == [] {
    } else {
      WrittenLength(segs[1..], chip);
    }
  }

  // ----- the bytes a run sends --------------------------------------------------------

  /** The bytes of all write transfers, in order, with their addresses. */
  function BytesSent(events: seq<Event>): seq<Tagged>
  {
    if events == [] then []
    else (match events[0].transfer case Write(_, a, d) => Tags(a, d) case _ => []) + BytesSent(events[1..])
  }

  lemma {:induction false} SentConcat(a: seq<Event>, b: seq<Event>)
    ensures BytesSent(a + b) == BytesSent(a) + BytesSent(b)
  {
    hide Tags;
    if a == [] {
      assert a + b == b;
    } else {
      assert (a + b)[1..] == a[1..] + b;
      SentConcat(a[1..], b);
      var first := BytesSent(a)[..|BytesSent(a)| - |BytesSent(a[1..])|];
      assert first + (BytesSent(a[1..]) + BytesSent(b)) == first + BytesSent(a[1..]) + BytesSent(b);
    }
  }

  lemma SentOne(e: Event)
    ensures BytesSent([e]) == match e.transfer case Write(_, a, d) => Tags(a, d) case _ => []
  {
    hide Tags;
    assert [e][1..] == [];
    assert BytesSent([]) == [];
  }

  lemma {:induction false} SentWritten(segs: seq<Segment>, chip: Chip)
    ensures BytesSent(Written(segs, chip)) == TagsOf(segs)
  {
    hide Tags; hide External;
    if segs == [] {
    } else {
      SentWritten(segs[1..], chip);
      assert Written(segs, chip)[1..] == Written(segs[1..], chip);
    }
  }

  lemma {:induction false} SentOnChip(segs: seq<Segment>, chip: Chip, answer: nat -> Status, k: nat)
    ensures forall t :: t in BytesSent(Pokes(segs, InternalOnly, chip, answer, k).events) ==> OnChip(chip, t.addr)
    decreases |segs|
  {
    hide OnChip; hide IsExternal; hide BytesSent;
    NothingSent();
    if segs == [] {
    } else {
      var s := segs[0];
      SentOnChip(segs[1..], chip, answer, k + 1);
      if !External(chip, s) {
        var e, rest := Event(WriteOf(chip, s), answer(k)), Pokes(segs[1..], InternalOnly, chip, answer, k + 1).events;
        SentConcat([e], rest);
        SentOne(e);
        InternalTags(s, chip);
      }
    }
  }

  lemma NothingSent()
    ensures BytesSent([]) == []
  {
  }

  lemma InternalTags(s: Segment, chip: Chip)
    requires !External(chip, s)
    ensures forall t :: t in Tags(s.addr, s.data) ==> OnChip(chip, t.addr)
  {
    hide OnChip; hide IsExternal;
    if s.data != [] {
      InternalRanges(chip, s.addr, |s.data|);
    }
  }

  /** No single-stage load, of any image and whether it succeeds or not, sends a
    * byte to an address outside on-chip RAM. */
  lemma SingleStageOnChip(file: File, chip: Chip, img: ImageType, answer: nat -> Status, k: nat)
    ensures forall t :: t in BytesSent(LoadRun(file, chip, img, false, answer, k).events) ==> OnChip(chip, t.addr)
  {
    hide Pokes; hide ImageOf; hide OnChip; hide BytesSent; hide IicHeaderFits; hide Tags;
    var run := LoadRun(file, chip, img, false, answer, k);
    NothingSent();
    if HeaderFits(file, chip, img) {
      var stop := CpuEvent(chip, false, answer(k));
      assert [] + [stop] == [stop];
      SentOne(stop);
      if answer(k) == Done {
        var p := Pokes(ImageOf(file, img).segments, InternalOnly, chip, answer, k + 1);
        SentOnChip(ImageOf(file, img).segments, chip, answer, k + 1);
        SentConcat([stop], p.events);
        if run.events != [stop] + p.events {
          var reset := run.events[|run.events| - 1];
          assert run.events == [stop] + p.events + [reset];
          SentOne(reset);
          SentConcat([stop] + p.events, [reset]);
        }
      }
    }
  }

  function ImageBytes(segs: seq<Segment>): nat
  {
    if segs == [] then 0 else |segs[0].data| + ImageBytes(segs[1..])
  }

  lemma {:induction false} WrittenCounts(segs: seq<Segment>, chip: Chip)
    ensures WriteCount(Written(segs, chip)) == |segs| && BytesWritten(Written(segs, chip)) == ImageBytes(segs)
  {
    hide External;
    if segs == [] {
    } else {
      WrittenCounts(segs[1..], chip);
      assert Written(segs, chip)[1..] == Written(segs[1..], chip);
    }
  }

  lemma {:induction false} SelectCounts(segs: seq<Segment>, chip: Chip)
    ensures var ext, onChip := Select(segs, chip, true), Select(segs, chip, false);
            |ext| + |onChip| == |segs| && ImageBytes(ext) + ImageBytes(onChip) == ImageBytes(segs)
  {
    hide External;
    if segs == [] {
    } else {
      hide Select;
      var external, onChip := Select(segs[1..], chip, true), Select(segs[1..], chip, false);
      SelectFirst(segs, chip, true);
      SelectFirst(segs, chip, false);
      SelectCounts(segs[1..], chip);
      assert ([segs[0]] + external)[1..] == external && ([segs[0]] + onChip)[1..] == onChip;
    }
  }

  /** The counters after a successful two-stage HEX load are those of the image. */
  lemma TwoStageTotals(file: File, chip: Chip, answer: nat -> Status, k: nat)
    requires LoadRun(file, chip, Hex, true, answer, k).ret == 0
    ensures var segs, events := Merge(LinesOf(file), START).segments, LoadRun(file, chip, Hex, true, answer, k).events;
            WriteCount(events) == |segs| && BytesWritten(events) == ImageBytes(segs)
  {
    hide LoadRun; hide Merge; hide Select; hide Written; hide WriteCount; hide BytesWritten; hide ImageBytes;
    var segs := Merge(LinesOf(file), START).segments;
    var ext, onChip := Select(segs, chip, true), Select(segs, chip, false);
    var s := TwoStageEvents(file, chip, answer, k);
    WrittenCounts(ext, chip);
    WrittenCounts(onChip, chip);
    SelectCounts(segs, chip);
    CpuCounts(chip, false, Done);
    CpuCounts(chip, true, s);
    SumOfParts(Written(ext, chip), [CpuEvent(chip, false, Done)]);
    SumOfParts(Written(ext, chip) + [CpuEvent(chip, false, Done)], Written(onChip, chip));
    SumOfParts(Written(ext, chip) + [CpuEvent(chip, false, Done)] + Written(onChip, chip), [CpuEvent(chip, true, s)]);
  }

  lemma CpuCounts(chip: Chip, doRun: bool, s: Status)
    ensures WriteCount([CpuEvent(chip, doRun, s)]) == 0 && BytesWritten([CpuEvent(chip, doRun, s)]) == 0
  {
    assert [CpuEvent(chip, doRun, s)][1..] == [];
  }

  lemma SumOfParts(a: seq<Event>, b: seq<Event>)
    ensures WriteCount(a + b) == WriteCount(a) + WriteCount(b)
    ensures BytesWritten(a + b) == BytesWritten(a) + BytesWritten(b)
  {
    WriteCountConcat(a, b);
    BytesWrittenConcat(a, b);
  }

  /** The trace of a successful two-stage HEX load. */
  function TwoStageTrace(segs: seq<Segment>, chip: Chip, s: Status): seq<Event>
  {
    Written(Select(segs, chip, true), chip) + [CpuEvent(chip, false, Done)]
    + Written(Select(segs, chip, false), chip) + [CpuEvent(chip, true, s)]
  }

  lemma TwoStageSent(segs: seq<Segment>, chip: Chip, s: Status)
    ensures BytesSent(TwoStageTrace(segs, chip, s)) == TagsOf(Select(segs, chip, true) + Select(segs, chip, false))
  {
    hide BytesSent; hide TagsOf; hide Written; hide Select;
    var ext, onChip := Select(segs, chip, true), Select(segs, chip, false);
    var stop, reset := [CpuEvent(chip, false, Done)], [CpuEvent(chip, true, s)];
    SentOne(stop[0]);
    SentOne(reset[0]);
    SentWritten(ext, chip);
    SentWritten(onChip, chip);
    TagsOfConcat(ext, onChip);
    SentConcat(Written(ext, chip), stop);
    SentConcat(Written(ext, chip) + stop, Written(onChip, chip));
    SentConcat(Written(ext, chip) + stop + Written(onChip, chip), reset);
    assert TagsOf(ext) + [] + TagsOf(onChip) + [] == TagsOf(ext) + TagsOf(onChip);
  }

  /** Two stages, Intel HEX: the external segments, a stop, the on-chip segments,
    * a reset. Together each segment of the image is written exactly once. The
    * memory after the run is that of the image exactly when at every address that
    * both kinds of segments write an on-chip byte has the last word. */
  lemma TwoStageLoad(file: File, chip: Chip, answer: nat -> Status, k: nat, mem: map<nat, U8>)
    requires LoadRun(file, chip, Hex, true, answer, k).ret == 0
    ensures var m := Merge(LinesOf(file), START);
            var events := LoadRun(file, chip, Hex, true, answer, k).events;
            && m.code == 0
            && (exists s :: CpucsAccepted(true, s) && events == TwoStageTrace(m.segments, chip, s))
            && multiset(Select(m.segments, chip, true)) + multiset(Select(m.segments, chip, false)) ==
                multiset(m.segments)
            && (Apply(mem, BytesSent(events)) == Apply(mem, TagsOf(m.segments))
                <==> forall a :: AgreesAt(m.segments, chip, a))
  {
    hide BytesSent; hide LoadRun; hide Merge; hide Apply; hide TagsOf; hide Select; hide TwoStageTrace; hide AgreesAt;
    var segs := Merge(LinesOf(file), START).segments;
    var s := TwoStageEvents(file, chip, answer, k);
    SelectPartitions(segs, chip);
    TwoStageSent(segs, chip, s);
    TwoPassesOneImage(segs, chip, mem);
  }

  lemma TwoStageEvents(file: File, chip: Chip, answer: nat -> Status, k: nat) returns (s: Status)
    requires LoadRun(file, chip, Hex, true, answer, k).ret == 0
    ensures var m := Merge(LinesOf(file), START);
            && m.code == 0 && CpucsAccepted(true, s)
            && LoadRun(file, chip, Hex, true, answer, k).events == TwoStageTrace(m.segments, chip, s)
  {
    hide Pokes; hide External; hide Merge; hide Select; hide Written;
    var m := Merge(LinesOf(file), START);
    PassWrites(m.segments, true, chip, answer, k);
    var r1 := PassStep(Run([], 0), m, SkipInternal, chip, answer, k);
    PassWrites(m.segments, false, chip, answer, k + |r1.events| + 1);
    var events := LoadRun(file, chip, Hex, true, answer, k).events;
    s := events[|events| - 1].status;
    assert events == TwoStageTrace(m.segments, chip, s);
  }

  /** From the records of a HEX file to the bus: a successful single-stage load sends
    * every byte to the address its record gives it, in file order, exactly when no
    * record with data meets a stale address. */
  lemma SingleStageRecords(file: File, chip: Chip, answer: nat -> Status, k: nat)
    requires LoadRun(file, chip, Hex, false, answer, k).ret == 0
    ensures BytesSent(LoadRun(file, chip, Hex, false, answer, k).events) == TagsOf(Records(LinesOf(file)))
       <==> NoStale(LinesOf(file), Fresh)
  {
    hide LoadRun; hide Merge; hide TagsOf; hide BytesSent; hide Records; hide NoStale; hide LinesOf; hide External;
    SingleStageLoad(file, chip, Hex, answer, k);
    HexImage(file);
    MergePreservesMeaning(LinesOf(file));
  }

  /** The same for two stages, where external and on-chip bytes change places: of a
    * file without stale addresses the memory is that of its records in file order,
    * exactly when at every address that both kinds of segments write an on-chip byte
    * has the last word. */
  lemma TwoStageRecords(file: File, chip: Chip, answer: nat -> Status, k: nat, mem: map<nat, U8>)
    requires LoadRun(file, chip, Hex, true, answer, k).ret == 0 && NoStale(LinesOf(file), Fresh)
    ensures Apply(mem, BytesSent(LoadRun(file, chip, Hex, true, answer, k).events)) ==
                  Apply(mem, TagsOf(Records(LinesOf(file))))
       <==> forall a :: AgreesAt(Merge(LinesOf(file), START).segments, chip, a)
  {
    hide LoadRun; hide Merge; hide TagsOf; hide BytesSent; hide Records; hide NoStale; hide LinesOf; hide Apply;
    hide AgreesAt;
    hide TwoStageTrace; hide Select;
    TwoStageLoad(file, chip, answer, k, mem);
    MergePreservesMeaning(LinesOf(file));
  }

  /** A file is rejected for its syntax in the first pass or not at all: a load
    * that ends with the code of a syntax error has not touched the CPU. */
  lemma SecondPassSyntax(file: File, chip: Chip, answer: nat -> Status, k: nat)
    ensures var r := LoadRun(file, chip, Hex, true, answer, k);
            r.ret < -1 ==> forall e :: e in r.events ==> !e.transfer.Cpucs?
  {
    hide Pokes; hide Merge;
    var m := Merge(LinesOf(file), START);
    PassContents(m.segments, SkipInternal, chip, answer, k);
    var r1 := PassStep(Run([], 0), m, SkipInternal, chip, answer, k);
    if r1.ret == 0 {
      assert m.code == 0;
    } else {
      AfterFailure(chip, answer, k);
      assert LoadRun(file, chip, Hex, true, answer, k) == r1;
      forall e | e in r1.events ensures !e.transfer.Cpucs? {
        assert IsWrite(e, RW_MEMORY);
      }
    }
  }

  // ----- two stages, other formats -----------------------------------------------------

  /** A file that does not begin as Intel HEX does, read as such. */
  lemma NoHexFile(file: File)
    requires file.bytes != [] && file.bytes[0] as char != ':' && file.bytes[0] as char != '#'
    ensures Merge(LinesOf(file), START) == Merged([], -2)
  {
    var text := Text(file.bytes);
    var k := PieceLength(text);
    OtherLines(text[..k], file.others(0));
  }

  /** No reset, nothing written on-chip, and -2 exactly for a run that ends with the
    * CPU stopped. */
  predicate LeftStopped(run: Run, chip: Chip)
  {
    && run.ret in {-1, -2}
    && (forall e :: e in run.events ==> !IsReset(e) && !IsWrite(e, 0xA0))
    && (run.ret == -2 <==> run.events != [] && IsStop(run.events[|run.events| - 1], chip))
  }

  lemma FirstPassOnly(m: Merged, chip: Chip, answer: nat -> Status, k: nat)
    requires m.code in {0, -1}
    ensures var r := PassStep(Run([], 0), m, SkipInternal, chip, answer, k);
            r.ret in {0, -1} && forall e :: e in r.events ==> IsWrite(e, 0xA3)
  {
    hide Pokes;
    PassContents(m.segments, SkipInternal, chip, answer, k);
  }

  lemma SyntaxErrorStep(r: Run, chip: Chip, answer: nat -> Status, k: nat)
    ensures PassStep(r, Merged([], -2), SkipExternal, chip, answer, k) == if r.ret == 0 then Run(r.events, -2) else r
  {
    hide Pokes;
    PokesNothing(SkipExternal, chip, answer, k + |r.events|);
    assert r.events + [] == r.events;
  }

  lemma StopBehindWrites(r: Run, chip: Chip, answer: nat -> Status, k: nat)
    requires r.ret in {0, -1} && forall e :: e in r.events ==> IsWrite(e, 0xA3)
    ensures var r2 := CpuStep(r, chip, false, answer, k);
            LeftStopped(if r2.ret == 0 then Run(r2.events, -2) else r2, chip)
  {
    assert r.events != [] ==> r.events[|r.events| - 1] in r.events;
  }

  lemma SecondPassRejects(m: Merged, chip: Chip, answer: nat -> Status, k: nat)
    requires m.code in {0, -1}
    ensures var r2 := CpuStep(PassStep(Run([], 0), m, SkipInternal, chip, answer, k), chip, false, answer, k);
            LeftStopped(CpuStep(PassStep(r2, Merged([], -2), SkipExternal, chip, answer, k), chip, true, answer, k),
                chip)
  {
    hide PassStep; hide CpuStep; hide LeftStopped;
    var r1 := PassStep(Run([], 0), m, SkipInternal, chip, answer, k);
    FirstPassOnly(m, chip, answer, k);
    StopBehindWrites(r1, chip, answer, k);
    SyntaxErrorStep(CpuStep(r1, chip, false, answer, k), chip, answer, k);
    AfterFailure(chip, answer, k);
  }

  /** Other images are read as Intel HEX in the second pass. Of one that does not begin
    * as Intel HEX no two-stage load succeeds or resets the CPU, and one whose first
    * pass does succeed leaves the CPU stopped, with nothing written on-chip. */
  lemma TwoStageOther(file: File, chip: Chip, img: ImageType, answer: nat -> Status, k: nat)
    requires img != Hex && file.bytes != [] && file.bytes[0] as char != ':' && file.bytes[0] as char != '#'
    ensures LeftStopped(LoadRun(file, chip, img, true, answer, k), chip)
  {
    hide CpuStep; hide PassStep; hide Merge; hide IicBlocks; hide BinBlocks; hide LinesOf;
    if HeaderFits(file, chip, img) {
      NoHexFile(file);
      IicCode(file.bytes, IIC_HEADER);
      BinCode(file.bytes, 0, 0);
      SecondPassRejects(ImageOf(file, img), chip, answer, k);
    }
  }

  /** And every IIC image is one that does not. */
  lemma TwoStageIic(file: File, chip: Chip, answer: nat -> Status, k: nat)
    ensures LeftStopped(LoadRun(file, chip, Iic, true, answer, k), chip)
  {
    hide CpuStep; hide PassStep; hide Merge; hide IicBlocks; hide LinesOf;
    if IicHeaderFits(chip, file.bytes) {
      TwoStageOther(file, chip, Iic, answer, k);
    }
  }

  // ----- whole IIC and BIX files -------------------------------------------------------

  /** An IIC file makes a transfer at all only with the header of the chip. */
  lemma IicForOtherChip(file: File, chip: Chip, staged: bool, answer: nat -> Status, k: nat)
    requires |file.bytes| < 8 || file.bytes[0] != if chip == An21 then 0xB2 else if chip == Fx1 then 0xB6 else 0xC2
    ensures LoadRun(file, chip, Iic, staged, answer, k) == Run([], -1)
  {
  }

  predicate AllGo(segs: seq<Segment>, chip: Chip, answer: nat -> Status, k: nat)
  {
    forall i :: 0 <= i < |segs| ==> Goes(segs, chip, answer, k, i)
  }

  /** An image without syntax errors is loaded in a single stage exactly when the stop,
    * every segment and the reset go through. */
  lemma SingleStageAccepts(file: File, chip: Chip, img: ImageType, answer: nat -> Status, k: nat)
    requires HeaderFits(file, chip, img) && ImageOf(file, img).code == 0
    ensures var segs, run := ImageOf(file, img).segments, LoadRun(file, chip, img, false, answer, k);
            && (run.ret == 0 <==>
                  && answer(k) == Done && answer(k + 1 + |segs|) in {Done, IoError}
                  && AllGo(segs, chip, answer, k + 1))
            && (run.ret == 0 ==> BytesSent(run.events) == TagsOf(segs))
  {
    hide ImageOf; hide Goes; hide TagsOf; hide BytesSent; hide LoadRun; hide SingleStageTrace;
    var n := SingleStageRun(file, chip, img, answer, k);
    if LoadRun(file, chip, img, false, answer, k).ret == 0 {
      SingleStageLoad(file, chip, img, answer, k);
    }
  }

  /** An IIC file with the header of the chip, any blocks and any trailer of five
    * bytes: a single-stage load succeeds exactly when the stop, every block and the
    * reset go through, all blocks being on-chip, and has then sent every byte of the
    * blocks to its address. */
  lemma IicFileReachesChip(header: seq<U8>, blocks: seq<Segment>, trailer: seq<U8>, others: nat -> Line, chip: Chip,
                           answer: nat -> Status, k: nat)
    requires |header| == 8 && header[0] == if chip == An21 then 0xB2 else if chip == Fx1 then 0xB6 else 0xC2
    requires Encodable(blocks) && |trailer| == 5
    ensures var run := LoadRun(File(header + EncodeBlocks(blocks) + trailer, others), chip, Iic, false, answer, k);
            && (run.ret == 0 <==>
                  && answer(k) == Done && answer(k + 1 + |blocks|) in {Done, IoError}
                  && AllGo(blocks, chip, answer, k + 1))
            && (run.ret == 0 ==> BytesSent(run.events) == TagsOf(blocks))
  {
    hide IicBlocks; hide EncodeBlocks; hide AllGo; hide TagsOf; hide BytesSent; hide LoadRun;
    var file := File(header + EncodeBlocks(blocks) + trailer, others);
    IicRoundTrip(header, blocks, trailer);
    assert file.bytes[0] == header[0] && HeaderFits(file, chip, Iic);
    SingleStageAccepts(file, chip, Iic, answer, k);
  }

  /** Bytes of on-chip RAM from address 0 on. */
  function RamSize(chip: Chip): nat
  {
    match chip
    case Fx2lp => 0x4000
    case Fx2 => 0x2000
    case An21 => 0x1b40
    case Fx1 => 0x1b40
  }

  lemma RamEnds(chip: Chip)
    ensures !OnChip(chip, RamSize(chip))
  {
    var a := RamSize(chip);
    assert forall w :: w in Windows(chip) ==> !(w.start <= a < w.end);
  }

  lemma ByteAtOffset(bytes: seq<U8>, n: nat)
    requires n < |bytes|
    ensures exists t :: t in Tags(0, bytes) && t.addr == n
  {
    assert Tags(0, bytes)[n].addr == n;
  }

  lemma AllOnChip(bytes: seq<U8>, chip: Chip)
    requires forall t :: t in Tags(0, bytes) ==> OnChip(chip, t.addr)
    ensures |bytes| <= RamSize(chip)
  {
    hide OnChip; hide RamSize; hide Tags;
    RamEnds(chip);
    if RamSize(chip) < |bytes| {
      ByteAtOffset(bytes, RamSize(chip));
      assert false;
    }
  }

  /** A BIX file that fits the RAM has no external part. */
  lemma BinOnChip(bytes: seq<U8>, chip: Chip)
    requires |bytes| <= RamSize(chip)
    ensures forall s :: s in BinBlocks(bytes, 0, 0).segments ==> !External(chip, s)
  {
    hide BinBlocks;
    BinPieces(bytes, 0);
  }

  /** A BIX file, of less than 4 GB: a single-stage load succeeds exactly when the file
    * fits the RAM at address 0 and the stop, every piece of 4096 bytes and the reset
    * go through, and has then sent every byte to its own offset. */
  lemma BixFileReachesChip(file: File, chip: Chip, answer: nat -> Status, k: nat)
    requires |file.bytes| < 0x1_0000_0000
    ensures var run, n := LoadRun(file, chip, Bix, false, answer, k), (|file.bytes| + 4095) / 4096;
            && (run.ret == 0 <==>
                  && |file.bytes| <= RamSize(chip)
                  && (forall i :: k <= i <= k + n ==> answer(i) == Done) && answer(k + 1 + n) in {Done, IoError})
            && (run.ret == 0 ==> BytesSent(run.events) == Tags(0, file.bytes))
  {
    hide BinBlocks; hide TagsOf; hide BytesSent; hide LoadRun; hide OnChip; hide External; hide Tags; hide RamSize;
    var segs := ImageOf(file, Bix).segments;
    BinTiles(file.bytes, 0);
    BinPieces(file.bytes, 0);
    assert file.bytes[0..] == file.bytes;
    SingleStageAccepts(file, chip, Bix, answer, k);
    if LoadRun(file, chip, Bix, false, answer, k).ret == 0 {
      SingleStageOnChip(file, chip, Bix, answer, k);
      AllOnChip(file.bytes, chip);
      forall i | k <= i <= k + |segs| ensures answer(i) == Done {
        assert i > k ==> Goes(segs, chip, answer, k + 1, i - k - 1);
      }
    } else if |file.bytes| <= RamSize(chip) && !AllGo(segs, chip, answer, k + 1) {
      BinOnChip(file.bytes, chip);
      var i :| 0 <= i < |segs| && !Goes(segs, chip, answer, k + 1, i);
      assert answer(k + 1 + i) != Done;
    }
  }
}
