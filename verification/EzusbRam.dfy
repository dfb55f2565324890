/** The device as the host sees it, its memory map, and the policy that decides
  * which segments of an image are written in which pass. */
module EzusbRam {
  import opened Bytes

  // ----- on-chip memory -------------------------------------------------------

  datatype Chip = An21 | Fx1 | Fx2 | Fx2lp

  predicate FxIsExternal(addr: nat, len: nat)
  {
    if addr <= 0x1b3f then addr + len > 0x1b40 else true
  }

  predicate Fx2IsExternal(addr: nat, len: nat)
  {
    if addr <= 0x1fff then addr + len > 0x2000
    else if 0xe000 <= addr <= 0xe1ff then addr + len > 0xe200
    else true
  }

  predicate Fx2lpIsExternal(addr: nat, len: nat)
  {
    if addr <= 0x3fff then addr + len > 0x4000
    else if 0xe000 <= addr <= 0xe1ff then addr + len > 0xe200
    else true
  }

  predicate IsExternal(chip: Chip, addr: nat, len: nat)
  {
    match chip
    case Fx2lp => Fx2lpIsExternal(addr, len)
    case Fx2 => Fx2IsExternal(addr, len)
    case _ => FxIsExternal(addr, len)
  }

  /** A range of on-chip RAM, the end excluded. */
  datatype Window = Window(start: nat, end: nat)

  function Windows(chip: Chip): seq<Window>
  {
    match chip
    case Fx2lp => [Window(0, 0x4000), Window(0xe000, 0xe200)]
    case Fx2 => [Window(0, 0x2000), Window(0xe000, 0xe200)]
    case _ => [Window(0, 0x1b40)]
  }

  predicate OnChip(chip: Chip, a: nat)
  {
    exists w :: w in Windows(chip) && w.start <= a < w.end
  }

  predicate InsideOneWindow(chip: Chip, addr: nat, len: nat)
  {
    exists w :: w in Windows(chip) && w.start <= addr && addr + len <= w.end
  }

  /** A non-empty range is internal exactly when one window holds all of it. A
    * range that crosses from one window into the next address is external. */
  lemma InternalRanges(chip: Chip, addr: nat, len: nat)
    requires len > 0
    ensures !IsExternal(chip, addr, len) <==> InsideOneWindow(chip, addr, len)
    ensures !IsExternal(chip, addr, len) ==> forall a :: addr <= a < addr + len ==> OnChip(chip, a)
  {
    var low := Windows(chip)[0];
    if chip in {Fx2, Fx2lp} {
      var high := Windows(chip)[1];
      assert Windows(chip) == [low, high];
    } else {
      assert Windows(chip) == [low];
    }
  }

  // ----- control transfers ------------------------------------------------------

  const RW_INTERNAL: U8 := 0xA0
  const RW_MEMORY: U8 := 0xA3

  datatype Transfer =
    | Write(opcode: U8, addr: nat, data: seq<U8>)
    | Cpucs(addr: nat, run: bool)

  /** What the bus reports: all bytes transferred, an I/O error, another error. */
  datatype Status = Done | IoError | Failed

  datatype Event = Event(transfer: Transfer, status: Status)

  /** A device answers its transfers in any way whatever; it remembers them. */
  class Device {
    const answer: nat -> Status
    var log: seq<Event>

    constructor (answer: nat -> Status)
      ensures this.answer == answer && log == []
    {
      this.answer := answer;
      log := [];
    }

    method Control(t: Transfer) returns (s: Status)
      modifies this`log
      ensures s == answer(|old(log)|) && log == old(log) + [Event(t, s)]
    {
      s := answer(|log|);
      log := log + [Event(t, s)];
    }

    /** A vendor write; a negative status is an error. */
    method EzusbWrite(opcode: U8, addr: nat, data: seq<U8>) returns (rc: int)
      modifies this`log
      ensures log == old(log) + [Event(Write(opcode, addr, data), answer(|old(log)|))]
      ensures rc == if answer(|old(log)|) == Done then 0 else -1
    {
      var status := Control(Write(opcode, addr, data));
      return if status == Done then 0 else -1;
    }

    /** Stops or resets the CPU. An I/O error is no failure of a reset: the device
      * may disappear from the bus. */
    method EzusbCpucs(addr: nat, doRun: bool) returns (ok: bool)
      modifies this`log
      ensures log == old(log) + [Event(Cpucs(addr, doRun), answer(|old(log)|))]
      ensures ok == CpucsAccepted(doRun, answer(|old(log)|))
    {
      var status := Control(Cpucs(addr, doRun));
      return !(status != Done && (!doRun || status != IoError));
    }
  }

  predicate CpucsAccepted(doRun: bool, s: Status)
  {
    s == Done || (doRun && s == IoError)
  }

  // ----- the poke policy ----------------------------------------------------------

  datatype Segment = Segment(addr: nat, data: seq<U8>)

  datatype Mode = Undef | InternalOnly | SkipInternal | SkipExternal

  datatype Decision = Refuse | Skip | Send

  function Decide(mode: Mode, external: bool): Decision
  {
    match mode
    case InternalOnly => if external then Refuse else Send
    case SkipInternal => if external then Send else Skip
    case SkipExternal => if external then Skip else Send
    case Undef => Refuse
  }

  predicate External(chip: Chip, s: Segment)
  {
    IsExternal(chip, s.addr, |s.data|)
  }

  function WriteOf(chip: Chip, s: Segment): Transfer
  {
    Write(if External(chip, s) then RW_MEMORY else RW_INTERNAL, s.addr, s.data)
  }

  datatype PokeRun = PokeRun(events: seq<Event>, ok: bool)

  /** The transfers that poking the segments in turn causes, when transfer i of
    * the device is answered by answer(i) and k have been made before. */
  function Pokes(segs: seq<Segment>, mode: Mode, chip: Chip, answer: nat -> Status, k: nat): (r: PokeRun)
  {
    if segs == [] then PokeRun([], true)
    else match Decide(mode, External(chip, segs[0]))
      case Refuse => PokeRun([], false)
      case Skip => Pokes(segs[1..], mode, chip, answer, k)
      case Send =>
        var e := Event(WriteOf(chip, segs[0]), answer(k));
        if e.status != Done then PokeRun([e], false)
        else
          var rest := Pokes(segs[1..], mode, chip, answer, k + 1);
          PokeRun([e] + rest.events, rest.ok)
  }

  function Then(a: PokeRun, b: PokeRun): PokeRun
  {
    if a.ok then PokeRun(a.events + b.events, b.ok) else a
  }

  lemma ThenAssoc(a: PokeRun, b: PokeRun, c: PokeRun)
    ensures Then(Then(a, b), c) == Then(a, Then(b, c))
    ensures Then(PokeRun([], true), c) == c
  {
    assert a.events + b.events + c.events == a.events + (b.events + c.events);
    assert [] + c.events == c.events;
  }

  lemma PokesOne(s: Segment, mode: Mode, chip: Chip, answer: nat -> Status, k: nat)
    ensures Pokes([s], mode, chip, answer, k) ==
              match Decide(mode, External(chip, s))
              case Refuse => PokeRun([], false)
              case Skip => PokeRun([], true)
              case Send => PokeRun([Event(WriteOf(chip, s), answer(k))], answer(k) == Done)
  {
    hide External; hide WriteOf; hide Decide;
    assert [s][1..] == [];
  }

  /** The first segment alone, then the others. */
  lemma PokesFirst(segs: seq<Segment>, mode: Mode, chip: Chip, answer: nat -> Status, k: nat)
    requires segs != []
    ensures var first := Pokes(segs[..1], mode, chip, answer, k);
            Pokes(segs, mode, chip, answer, k) == Then(first, Pokes(segs[1..], mode, chip, answer, k + |first.events|))
  {
    hide External; hide WriteOf; hide Decide;
    PokesOne(segs[0], mode, chip, answer, k);
    assert segs[..1] == [segs[0]];
    var rest := Pokes(segs[1..], mode, chip, answer, k);
    assert [] + rest.events == rest.events;
  }

  lemma {:induction false} PokesConcat(a: seq<Segment>, b: seq<Segment>, mode: Mode, chip: Chip,
                                       answer: nat -> Status, k: nat)
    ensures var ra := Pokes(a, mode, chip, answer, k);
            Pokes(a + b, mode, chip, answer, k) == Then(ra, Pokes(b, mode, chip, answer, k + |ra.events|))
    decreases |a|
  {
    hide Pokes; hide Then;
    if a == [] {
      assert a + b == b;
      PokesNothing(mode, chip, answer, k);
      ThenAssoc(PokeRun([], true), PokeRun([], true), Pokes(b, mode, chip, answer, k));
    } else {
      var first := Pokes(a[..1], mode, chip, answer, k);
      assert (a + b)[1..] == a[1..] + b && (a + b)[..1] == a[..1];
      PokesFirst(a, mode, chip, answer, k);
      PokesFirst(a + b, mode, chip, answer, k);
      var k' := k + |first.events|;
      PokesConcat(a[1..], b, mode, chip, answer, k');
      var ra := Pokes(a[1..], mode, chip, answer, k');
      ThenAssoc(first, ra, Pokes(b, mode, chip, answer, k' + |ra.events|));
      ThenEvents(first, ra);
    }
  }

  lemma PokesNothing(mode: Mode, chip: Chip, answer: nat -> Status, k: nat)
    ensures Pokes([], mode, chip, answer, k) == PokeRun([], true)
  {
  }

  lemma ThenEvents(a: PokeRun, b: PokeRun)
    ensures if a.ok then |Then(a, b).events| == |a.events| + |b.events|
            else forall c :: Then(Then(a, b), c) == Then(a, c) == a
  {
  }

  /** Bytes carried by write transfers. */
  function BytesWritten(events: seq<Event>): nat
  {
    if events == [] then 0
    else (match events[0].transfer case Write(_, _, d) => |d| case _ => 0) + BytesWritten(events[1..])
  }

  lemma {:induction false} BytesWrittenConcat(a: seq<Event>, b: seq<Event>)
    ensures BytesWritten(a + b) == BytesWritten(a) + BytesWritten(b)
  {
    if a == [] {
      assert a + b == b;
    } else {
      assert (a + b)[1..] == a[1..] + b;
      BytesWrittenConcat(a[1..], b);
    }
  }

  /** The context handed to the parser's callback. */
  class RamPokeContext {
    const device: Device
    var mode: Mode
    var total: nat
    var count: nat

    constructor (device: Device, mode: Mode)
      ensures this.device == device && this.mode == mode && total == 0 && count == 0
    {
      this.device := device;
      this.mode := mode;
      total, count := 0, 0;
    }

    /** Writes, skips or refuses one segment; attempts are counted, sent or not. */
    method RamPoke(addr: nat, external: bool, data: seq<U8>) returns (rc: int)
      modifies this`total, this`count, device`log
      ensures match Decide(mode, external)
              case Refuse => rc == -1 && device.log == old(device.log) && total == old(total) && count == old(count)
              case Skip => rc == 0 && device.log == old(device.log) && total == old(total) && count == old(count)
              case Send =>
                && device.log == old(device.log)
                     + [Event(Write(if external then RW_MEMORY else RW_INTERNAL, addr, data),
                         device.answer(|old(device.log)|))]
                && rc == (if device.answer(|old(device.log)|) == Done then 0 else -1)
                && total == old(total) + |data| && count == old(count) + 1
    {
      match mode {
        case InternalOnly =>
          if external {
            return -1;
          }
        case SkipInternal =>
          if !external {
            return 0;
          }
        case SkipExternal =>
          if external {
            return 0;
          }
        case Undef =>
          return -1;
      }
      total := total + |data|;
      count := count + 1;
      rc := device.EzusbWrite(if external then RW_MEMORY else RW_INTERNAL, addr, data);
    }
  }

  /** What the context and the device have done since the log had k entries and
    * the counters were total and count: the run of segs, in full. */
  twostate predicate Poked(ctx: RamPokeContext, segs: seq<Segment>, chip: Chip, ok: bool)
    reads ctx, ctx.device
  {
    var k := |old(ctx.device.log)|;
    var run := Pokes(segs, ctx.mode, chip, ctx.device.answer, k);
    && ctx.mode == old(ctx.mode)
    && ctx.device.log == old(ctx.device.log) + run.events && ok == run.ok
    && ctx.total == old(ctx.total) + BytesWritten(run.events)
    && ctx.count == old(ctx.count) + |run.events|
  }

  // ----- what the modes write -----------------------------------------------------

  function Select(segs: seq<Segment>, chip: Chip, external: bool): seq<Segment>
  {
    if segs == [] then []
    else (if External(chip, segs[0]) == external then [segs[0]] else []) + Select(segs[1..], chip, external)
  }

  /** Successful write transfers of the segments. */
  function Written(segs: seq<Segment>, chip: Chip): seq<Event>
  {
    if segs == [] then [] else [Event(WriteOf(chip, segs[0]), Done)] + Written(segs[1..], chip)
  }

  /** The external segments of an image are what a successful first pass writes,
    * the internal ones what a successful second pass writes, all in order. */
  lemma {:induction false} PassWrites(segs: seq<Segment>, external: bool, chip: Chip, answer: nat -> Status, k: nat)
    requires Pokes(segs, if external then SkipInternal else SkipExternal, chip, answer, k).ok
    ensures Pokes(segs, if external then SkipInternal else SkipExternal, chip, answer, k).events
         == Written(Select(segs, chip, external), chip)
    decreases |segs|
  {
    if segs == [] {
    } else {
      var rest := Select(segs[1..], chip, external);
      if External(chip, segs[0]) == external {
        PassWrites(segs[1..], external, chip, answer, k + 1);
        assert ([segs[0]] + rest)[1..] == rest;
      } else {
        PassWrites(segs[1..], external, chip, answer, k);
        assert [] + rest == rest;
      }
    }
  }

  lemma SelectFirst(segs: seq<Segment>, chip: Chip, external: bool)
    requires segs != []
    ensures Select(segs, chip, external) ==
              if External(chip, segs[0]) == external then [segs[0]] + Select(segs[1..], chip, external)
              else Select(segs[1..], chip, external)
  {
    hide External;
    assert [] + Select(segs[1..], chip, external) == Select(segs[1..], chip, external);
  }

  lemma InFront(s: Segment, segs: seq<Segment>)
    ensures multiset([s] + segs) == multiset{s} + multiset(segs)
  {
  }

  /** One more segment for one of two shares. */
  lemma ShareOne(s: Segment, a: seq<Segment>, b: seq<Segment>, rest: seq<Segment>)
    requires multiset(a) + multiset(b) == multiset(rest)
    ensures multiset([s] + a) + multiset(b) == multiset(a) + multiset([s] + b) == multiset([s] + rest)
  {
    InFront(s, a);
    InFront(s, b);
    InFront(s, rest);
    Reorder(multiset{s}, multiset(a), multiset(b));
  }

  lemma Reorder(x: multiset<Segment>, a: multiset<Segment>, b: multiset<Segment>)
    ensures x + a + b == x + (a + b) == a + (x + b)
  {
  }

  /** The two passes share out the segments: each is written exactly once. */
  lemma {:induction false} SelectPartitions(segs: seq<Segment>, chip: Chip)
    ensures multiset(Select(segs, chip, true)) + multiset(Select(segs, chip, false)) == multiset(segs)
  {
    hide External;
    if segs == [] {
    } else {
      hide Select;
      SelectPartitions(segs[1..], chip);
      SelectFirst(segs, chip, true);
      SelectFirst(segs, chip, false);
      ShareOne(segs[0], Select(segs[1..], chip, true), Select(segs[1..], chip, false), segs[1..]);
      assert segs == [segs[0]] + segs[1..];
    }
  }

  /** Segment i is on-chip, and its transfer, the i-th after k, is done. */
  predicate Goes(segs: seq<Segment>, chip: Chip, answer: nat -> Status, k: nat, i: nat)
    requires i < |segs|
  {
    !External(chip, segs[i]) && answer(k + i) == Done
  }

  lemma GoesOn(segs: seq<Segment>, rest: seq<Segment>, chip: Chip, answer: nat -> Status, k: nat, k': nat, n: nat)
    requires 0 < n <= |segs| && rest == segs[1..] && k' == k + 1 && Goes(segs, chip, answer, k, 0)
    ensures (forall i :: 0 <= i < n ==> Goes(segs, chip, answer, k, i))
       <==> (forall i :: 0 <= i < n - 1 ==> Goes(rest, chip, answer, k', i))
  {
    assert forall i :: 0 < i < n ==> (Goes(segs, chip, answer, k, i) <==> Goes(rest, chip, answer, k', i - 1));
    assert forall i :: 0 <= i < n - 1 ==> (Goes(rest, chip, answer, k', i) <==> Goes(segs, chip, answer, k, i + 1));
  }

  /** A single-stage pass succeeds exactly when no segment is external and no
    * transfer fails, and then every segment has been written, in order. */
  lemma {:induction false} SingleStageSucceeds(segs: seq<Segment>, chip: Chip, answer: nat -> Status, k: nat)
    ensures var r := Pokes(segs, InternalOnly, chip, answer, k);
            && (r.ok <==> forall i :: 0 <= i < |segs| ==> Goes(segs, chip, answer, k, i))
            && (r.ok ==> r.events == Written(segs, chip))
    decreases |segs|
  {
    hide External;
    if segs == [] {
    } else {
      assert Goes(segs, chip, answer, k, 0) <==> !External(chip, segs[0]) && answer(k) == Done;
      if Goes(segs, chip, answer, k, 0) {
        SingleStageSucceeds(segs[1..], chip, answer, k + 1);
        GoesOn(segs, segs[1..], chip, answer, k, k + 1, |segs|);
      }
    }
  }

  lemma FirstGoes(segs: seq<Segment>, chip: Chip, answer: nat -> Status, k: nat)
    requires segs != []
    ensures var r, rest := Pokes(segs, InternalOnly, chip, answer, k),
                  Pokes(segs[1..], InternalOnly, chip, answer, k + 1);
            if Goes(segs, chip, answer, k, 0) then
              r == PokeRun([Event(WriteOf(chip, segs[0]), Done)] + rest.events, rest.ok)
            else r == PokeRun(if External(chip, segs[0]) then [] else [Event(WriteOf(chip, segs[0]), answer(k))], false)
  {
    hide External; hide WriteOf;
  }

  lemma WrittenFirst(segs: seq<Segment>, chip: Chip, n: nat)
    requires 0 < n <= |segs|
    ensures Written(segs[..n], chip) == [Event(WriteOf(chip, segs[0]), Done)] + Written(segs[1..][..n - 1], chip)
    ensures Written(segs[..0], chip) == []
  {
    hide WriteOf;
    assert segs[..n][1..] == segs[1..][..n - 1];
  }

  /** A single-stage pass that fails has written exactly the segments before the
    * first external one, or before the first transfer that failed. */
  lemma {:induction false} SingleStageFails(segs: seq<Segment>, chip: Chip, answer: nat -> Status, k: nat)
    returns (n: nat)
    requires !Pokes(segs, InternalOnly, chip, answer, k).ok
    ensures n < |segs| && (forall i :: 0 <= i < n ==> Goes(segs, chip, answer, k, i)) && !Goes(segs, chip, answer, k, n)
    ensures Pokes(segs, InternalOnly, chip, answer, k).events
         == Written(segs[..n], chip)
            + if External(chip, segs[n]) then [] else [Event(WriteOf(chip, segs[n]), answer(k + n))]
    decreases |segs|
  {
    hide External; hide WriteOf; hide Pokes; hide Written; hide Goes;
    if segs == [] {
      PokesNothing(InternalOnly, chip, answer, k);
    } else {
      FirstGoes(segs, chip, answer, k);
      WrittenFirst(segs, chip, 1);
      if !Goes(segs, chip, answer, k, 0) {
        n := 0;
      } else {
        var m := SingleStageFails(segs[1..], chip, answer, k + 1);
        n := m + 1;
        GoesOn(segs, segs[1..], chip, answer, k, k + 1, n);
        GoesAt(segs, chip, answer, k, m);
        WrittenFirst(segs, chip, n);
        var e, w := [Event(WriteOf(chip, segs[0]), Done)], Written(segs[1..][..m], chip);
        var last := if External(chip, segs[n]) then [] else [Event(WriteOf(chip, segs[n]), answer(k + n))];
        assert e + (w + last) == e + w + last;
      }
    }
  }

  lemma GoesAt(segs: seq<Segment>, chip: Chip, answer: nat -> Status, k: nat, m: nat)
    requires m + 1 < |segs|
    ensures Goes(segs[1..], chip, answer, k + 1, m) <==> Goes(segs, chip, answer, k, m + 1)
  {
    hide External;
  }
}
