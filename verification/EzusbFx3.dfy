/** The FX3 loader: sections of words, written and read back in chunks, a
  * checksum over all words, and a jump to the program entry. */
module EzusbFx3 {
  import opened Bytes
  import opened EzusbRam
  import opened EzusbMerge
  import opened Options

  const CHUNK := 4096
  const VERSION_ADDRESS: nat := 0xFFFF0020

  datatype Request =
    | WriteRam(addr: nat, data: seq<U8>)
    | ReadRam(addr: nat, len: nat)
    | Jump(addr: nat)

  /** A request, what the bus reported, and the bytes read, if any. */
  datatype Reply = Reply(request: Request, status: Status, read: seq<U8>)

  /** How an arbitrary device answers: the status of transfer i and byte j of
    * what it returns. */
  datatype Behaviour = Behaviour(status: nat -> Status, byteRead: (nat, nat) -> U8)
  {
    function Answer(k: nat, r: Request): Reply
    {
      Reply(r, status(k), if r.ReadRam? then seq(r.len, j requires 0 <= j < r.len => byteRead(k, j)) else [])
    }
  }

  class Fx3Device {
    const behaviour: Behaviour
    var log: seq<Reply>

    constructor (behaviour: Behaviour)
      ensures this.behaviour == behaviour && log == []
    {
      this.behaviour := behaviour;
      log := [];
    }

    method Control(r: Request) returns (reply: Reply)
      modifies this`log
      ensures reply == behaviour.Answer(|old(log)|, r) && log == old(log) + [reply]
    {
      reply := behaviour.Answer(|log|, r);
      log := log + [reply];
    }
  }

  // ----- the file ---------------------------------------------------------------------

  /** The bytes of one section, and where it goes. */
  datatype Section = Section(addr: U32, data: seq<U8>)

  datatype Ending = Entry(addr: U32, next: nat) | Truncated | NoMemory

  datatype Image = Image(sections: seq<Section>, ending: Ending)

  function Word(bytes: seq<U8>, pos: nat): U32
    requires pos + 4 <= |bytes|
  {
    FromLittleEndian(bytes[pos..pos + 4]) % 0x1_0000_0000
  }

  /** The sections that can be read in full from pos on, and how they end: with
    * a section of no words, which holds the entry address, in mid-air, or with one
    * for which there is no memory; memory(p) is what allocation says at p. */
  function Sections(bytes: seq<U8>, pos: nat, memory: nat -> bool): Image
    decreases |bytes| - pos
  {
    if pos + 8 > |bytes| then Image([], Truncated)
    else
      var words, addr := Word(bytes, pos), Word(bytes, pos + 4);
      if words == 0 then Image([], Entry(addr, pos + 8))
      else if !memory(pos) then Image([], NoMemory)
      else if pos + 8 + 4 * words > |bytes| then Image([], Truncated)
      else
        var rest := Sections(bytes, pos + 8 + 4 * words, memory);
        Image([Section(addr, bytes[pos + 8..pos + 8 + 4 * words])] + rest.sections, rest.ending)
  }

  /** The sum of the words of a section, in 32 bits. */
  function WordSum(data: seq<U8>): U32
  {
    if |data| < 4 then 0 else (WordSum(data[..|data| - 4]) + Word(data, |data| - 4)) % 0x1_0000_0000
  }

  function Checksum(sections: seq<Section>): U32
  {
    if sections == [] then 0
    else (Checksum(sections[..|sections| - 1]) + WordSum(sections[|sections| - 1].data)) % 0x1_0000_0000
  }

  // ----- writing and verifying ----------------------------------------------------------

  /** The pieces in which a section goes out. The byte count is a 32-bit number. */
  function Chunks(addr: nat, data: seq<U8>): seq<Segment>
    decreases |data|
  {
    if data == [] then []
    else
      var n := if |data| < CHUNK then |data| else CHUNK;
      [Segment(addr, data[..n])] + Chunks((addr + n) % 0x1_0000_0000, data[n..])
  }

  function Outgoing(s: Section): seq<Segment>
  {
    Chunks(s.addr, s.data[..|s.data| % 0x1_0000_0000])
  }

  function OutgoingAll(sections: seq<Section>): seq<Segment>
  {
    if sections == [] then [] else Outgoing(sections[0]) + OutgoingAll(sections[1..])
  }

  datatype Fx3Run = Fx3Run(log: seq<Reply>, ret: int)

  /** A chunk is written and read back; a failed transfer ends the run with -5, a
    * difference with -6. */
  function ChunkRun(c: Segment, b: Behaviour, k: nat): (r: Fx3Run)
    ensures r.ret in {0, -5, -6}
  {
    var w := b.Answer(k, WriteRam(c.addr, c.data));
    if w.status != Done then Fx3Run([w], -5)
    else
      var v := b.Answer(k + 1, ReadRam(c.addr, |c.data|));
      Fx3Run([w, v], if v.status != Done then -5 else if v.read != c.data then -6 else 0)
  }

  function Then(a: Fx3Run, b: Fx3Run): Fx3Run
  {
    if a.ret == 0 then Fx3Run(a.log + b.log, b.ret) else a
  }

  function WriteVerify(chunks: seq<Segment>, b: Behaviour, k: nat): (r: Fx3Run)
    ensures r.ret in {0, -5, -6}
    decreases |chunks|
  {
    if chunks == [] then Fx3Run([], 0)
    else
      var first := ChunkRun(chunks[0], b, k);
      Then(first, WriteVerify(chunks[1..], b, k + |first.log|))
  }

  lemma ThenAssoc(a: Fx3Run, b: Fx3Run, c: Fx3Run)
    ensures Then(Then(a, b), c) == Then(a, Then(b, c))
    ensures Then(Fx3Run([], 0), c) == c
    ensures a.ret == 0 ==> |Then(a, b).log| == |a.log| + |b.log|
  {
    assert a.log + b.log + c.log == a.log + (b.log + c.log);
    assert [] + c.log == c.log;
  }

  /** Behind a run that has not failed. */
  lemma ThenDone(a: Fx3Run, b: Fx3Run, c: Fx3Run)
    requires a.ret == 0
    ensures Then(a, b) == Fx3Run(a.log + b.log, b.ret)
    ensures Then(a, Fx3Run([], 0)) == a
    ensures b.ret != 0 ==> Then(Then(a, b), c) == Then(a, b)
  {
    assert a.log + [] == a.log;
  }

  lemma {:induction false} WriteVerifyConcat(x: seq<Segment>, y: seq<Segment>, b: Behaviour, k: nat)
    ensures var rx := WriteVerify(x, b, k);
            WriteVerify(x + y, b, k) == Then(rx, WriteVerify(y, b, k + |rx.log|))
    decreases |x|
  {
    hide ChunkRun;
    if x == [] {
      assert x + y == y;
      ThenAssoc(Fx3Run([], 0), Fx3Run([], 0), WriteVerify(y, b, k));
    } else {
      var first := ChunkRun(x[0], b, k);
      var k' := k + |first.log|;
      assert (x + y)[1..] == x[1..] + y;
      WriteVerifyConcat(x[1..], y, b, k');
      var rx := WriteVerify(x[1..], b, k');
      ThenAssoc(first, rx, WriteVerify(y, b, k' + |rx.log|));
    }
  }

  predicate HeaderFits(bytes: seq<U8>)
  {
    |bytes| >= 4 && bytes[0] == 0x43 && bytes[1] == 0x59 && bytes[3] == 0xB0
  }

  predicate ChecksumFits(bytes: seq<U8>, image: Image)
    requires image.ending.Entry?
  {
    image.ending.next + 4 <= |bytes| && Word(bytes, image.ending.next) == Checksum(image.sections)
  }

  /** What comes after the last section. */
  function Finish(bytes: seq<U8>, image: Image, b: Behaviour, k: nat): Fx3Run
  {
    match image.ending
    case Truncated => Fx3Run([], -3)
    case NoMemory => Fx3Run([], -4)
    case Entry(addr, next) =>
      if !ChecksumFits(bytes, image) then Fx3Run([], -7)
      else
        var j := b.Answer(k, Jump(addr));
        Fx3Run([j], if j.status == Done || j.status == IoError then 0 else -6)
  }

  /** The run after the header, from transfer k on. */
  function Transfer(bytes: seq<U8>, memory: nat -> bool, b: Behaviour, k: nat): Fx3Run
  {
    var image := Sections(bytes, 4, memory);
    var sent := WriteVerify(OutgoingAll(image.sections), b, k);
    Then(sent, Finish(bytes, image, b, k + |sent.log|))
  }

  /** The whole run from transfer k on. */
  function Load(bytes: seq<U8>, memory: nat -> bool, verbose: bool, b: Behaviour, k: nat): Fx3Run
  {
    if !HeaderFits(bytes) then Fx3Run([], -3)
    else if !verbose then Transfer(bytes, memory, b, k)
    else
      var version := b.Answer(k, ReadRam(VERSION_ADDRESS, 4));
      Then(Fx3Run([version], if version.status == Done then 0 else -8), Transfer(bytes, memory, b, k + 1))
  }

  // ----- the loader -----------------------------------------------------------------------

  /** Writes and verifies one section, in chunks of at most 4096 bytes. */
  method WriteSection(device: Fx3Device, addr: nat, data: seq<U8>) returns (ret: int)
    modifies device`log
    ensures var run := WriteVerify(Chunks(addr, data), device.behaviour, |old(device.log)|);
            device.log == old(device.log) + run.log && ret == run.ret
  {
    hide Chunks; hide WriteVerify; hide ChunkRun; hide Then;
    var address: nat, rest := addr, data;
    ghost var k, done := |device.log|, Fx3Run([], 0);
    ThenAssoc(done, done, WriteVerify(Chunks(addr, data), device.behaviour, k));
    while |rest| > 0
      invariant done.ret == 0 && device.log == old(device.log) + done.log
      invariant WriteVerify(Chunks(addr, data), device.behaviour, k)
             == Then(done, WriteVerify(Chunks(address, rest), device.behaviour, k + |done.log|))
      decreases |rest|
    {
      var len := CHUNK;
      if len > |rest| {
        len := |rest|;
      }
      var c := Segment(address, rest[..len]);
      ghost var run, k' := ChunkRun(c, device.behaviour, k + |done.log|), k + |done.log|;
      NextChunk(address, rest, len, device.behaviour, k');
      ret := WriteChunk(device, c);
      address := (address + len) % 0x1_0000_0000;
      rest := rest[len..];
      ThenAssoc(done, run, WriteVerify(Chunks(address, rest), device.behaviour, k' + |run.log|));
      ThenDone(done, run, WriteVerify(Chunks(address, rest), device.behaviour, k' + |run.log|));
      assert old(device.log) + (done.log + run.log) == old(device.log) + done.log + run.log;
      done := Then(done, run);
      if ret != 0 {
        return;
      }
    }
    NoChunks(address, device.behaviour, k + |done.log|);
    ThenDone(done, Fx3Run([], 0), Fx3Run([], 0));
    return 0;
  }

  /** One chunk: written, read back and compared. */
  method WriteChunk(device: Fx3Device, c: Segment) returns (ret: int)
    modifies device`log
    ensures var run := ChunkRun(c, device.behaviour, |old(device.log)|);
            device.log == old(device.log) + run.log && ret == run.ret
  {
    var w := device.Control(WriteRam(c.addr, c.data));
    if w.status != Done {
      return -5;
    }
    var v := device.Control(ReadRam(c.addr, |c.data|));
    if v.status != Done {
      return -5;
    }
    for i := 0 to |c.data|
      invariant forall j :: 0 <= j < i ==> v.read[j] == c.data[j]
    {
      if v.read[i] != c.data[i] {
        return -6;
      }
    }
    assert v.read == c.data;
    return 0;
  }

  lemma NextChunk(addr: nat, data: seq<U8>, n: nat, b: Behaviour, k: nat)
    requires data != [] && n == if |data| < CHUNK then |data| else CHUNK
    ensures var first := ChunkRun(Segment(addr, data[..n]), b, k);
            WriteVerify(Chunks(addr, data), b, k)
            == Then(first, WriteVerify(Chunks((addr + n) % 0x1_0000_0000, data[n..]), b, k + |first.log|))
  {
    hide ChunkRun;
    var rest := Chunks((addr + n) % 0x1_0000_0000, data[n..]);
    assert ([Segment(addr, data[..n])] + rest)[1..] == rest;
  }

  lemma NoChunks(addr: nat, b: Behaviour, k: nat)
    ensures WriteVerify(Chunks(addr, []), b, k) == Fx3Run([], 0)
  {
  }

  /** Adds the words of a section to a running sum. */
  method AddWords(sum: U32, data: seq<U8>) returns (r: U32)
    requires |data| % 4 == 0
    ensures r == (sum + WordSum(data)) % 0x1_0000_0000
  {
    hide Word; hide WordSum;
    r := sum;
    var i := 0;
    NoWords(sum);
    assert data[..0] == [];
    while i < |data|
      invariant i <= |data| && i % 4 == 0
      invariant r == (sum as int + WordSum(data[..i])) % 0x1_0000_0000
    {
      OneMoreWord(data, i);
      var w := Word(data, i);
      AddInside(sum, WordSum(data[..i]), w);
      r := (r as int + w) % 0x1_0000_0000;
      i := i + 4;
    }
    assert data[..i] == data;
  }

  lemma NoWords(sum: U32)
    ensures WordSum([]) == 0 && sum == sum % 0x1_0000_0000
  {
  }

  lemma OneMoreWord(data: seq<U8>, i: nat)
    requires i + 4 <= |data|
    ensures WordSum(data[..i + 4]) == (WordSum(data[..i]) + Word(data, i)) % 0x1_0000_0000
  {
    hide FromLittleEndian;
    assert data[..i + 4][..i] == data[..i];
    assert data[..i + 4][i..i + 4] == data[i..i + 4];
  }

  lemma AddInside(a: nat, b: nat, c: nat)
    ensures ((a + b) % 0x1_0000_0000 + c) % 0x1_0000_0000 == (a + (b + c) % 0x1_0000_0000) % 0x1_0000_0000
  {
    var m := 0x1_0000_0000;
    Wrap((a + b) / m, (a + b) % m + c);
    Wrap((b + c) / m, a + (b + c) % m);
  }

  lemma Wrap(q: nat, x: nat)
    ensures (q * 0x1_0000_0000 + x) % 0x1_0000_0000 == x % 0x1_0000_0000
  {
  }

  function InFront(done: seq<Section>, image: Image): Image
  {
    Image(done + image.sections, image.ending)
  }

  lemma {:induction false} OutgoingConcat(a: seq<Section>, b: seq<Section>)
    ensures OutgoingAll(a + b) == OutgoingAll(a) + OutgoingAll(b)
  {
    if a == [] {
      assert a + b == b;
    } else {
      assert (a + b)[1..] == a[1..] + b;
      OutgoingConcat(a[1..], b);
      assert Outgoing(a[0]) + (OutgoingAll(a[1..]) + OutgoingAll(b)) ==
          Outgoing(a[0]) + OutgoingAll(a[1..]) + OutgoingAll(b);
    }
  }

  lemma InFrontSnoc(done: seq<Section>, s: Section, rest: Image)
    ensures InFront(done, InFront([s], rest)) == InFront(done + [s], rest)
    ensures Checksum(done + [s]) == (Checksum(done) + WordSum(s.data)) % 0x1_0000_0000
  {
    assert done + ([s] + rest.sections) == done + [s] + rest.sections;
    assert (done + [s])[..|done|] == done;
  }

  /** Reads the file section by section, writes each one as it is read, and jumps
    * to the entry once the checksum has been found right. */
  method LoadRam(device: Fx3Device, bytes: seq<U8>, memory: nat -> bool, verbose: bool) returns (ret: int)
    modifies device`log
    ensures var run := Load(bytes, memory, verbose, device.behaviour, |old(device.log)|);
            device.log == old(device.log) + run.log && ret == run.ret
  {
    hide Transfer; hide HeaderFits;
    if !HeaderFits(bytes) {
      return -3;
    }
    if verbose {
      var version := device.Control(ReadRam(VERSION_ADDRESS, 4));
      if version.status != Done {
        return -8;
      }
    }
    ret := LoadSections(device, bytes, memory);
  }

  lemma SectionsStep(bytes: seq<U8>, pos: nat, memory: nat -> bool)
    ensures Sections(bytes, pos, memory) ==
              if pos + 8 > |bytes| then Image([], Truncated)
              else
                var words, addr := Word(bytes, pos), Word(bytes, pos + 4);
                if words == 0 then Image([], Entry(addr, pos + 8))
                else if !memory(pos) then Image([], NoMemory)
                else if pos + 8 + 4 * words > |bytes| then Image([], Truncated)
                else InFront([Section(addr, bytes[pos + 8..pos + 8 + 4 * words])],
                    Sections(bytes, pos + 8 + 4 * words, memory))
  {
  }

  /** The sections and what follows them. */
  method LoadSections(device: Fx3Device, bytes: seq<U8>, memory: nat -> bool) returns (ret: int)
    modifies device`log
    ensures var run := Transfer(bytes, memory, device.behaviour, |old(device.log)|);
            device.log == old(device.log) + run.log && ret == run.ret
  {
    hide Sections; hide WriteVerify; hide OutgoingAll; hide Checksum; hide WordSum; hide Chunks; hide Word;
    var checksum: U32, pos := 0, 4;
    ghost var b, k := device.behaviour, |device.log|;
    ghost var done: seq<Section>, run := [], Fx3Run([], 0);
    NothingSent(b, k);
    InFrontNothing(Sections(bytes, 4, memory));
    while true
      invariant Sections(bytes, 4, memory) == InFront(done, Sections(bytes, pos, memory))
      invariant run == WriteVerify(OutgoingAll(done), b, k) && run.ret == 0
      invariant device.log == old(device.log) + run.log
      invariant checksum == Checksum(done)
      decreases |bytes| - pos
    {
      SectionsStep(bytes, pos, memory);
      if pos + 8 > |bytes| {
        InFrontEnd(done, Truncated);
        return -3;
      }
      var words: nat, addr := Word(bytes, pos), Word(bytes, pos + 4);
      pos := pos + 8;
      if words == 0 {
        InFrontEnd(done, Entry(addr, pos));
        if !(pos + 4 <= |bytes| && checksum == Word(bytes, pos)) {
          return -7;
        }
        var j := device.Control(Jump(addr));
        return if j.status == Done || j.status == IoError then 0 else -6;
      }
      if !memory(pos - 8) {
        InFrontEnd(done, NoMemory);
        return -4;
      }
      if pos + 4 * words > |bytes| {
        InFrontEnd(done, Truncated);
        return -3;
      }
      var s := Section(addr, bytes[pos..pos + 4 * words]);
      pos := pos + 4 * words;
      InFrontSnoc(done, s, Sections(bytes, pos, memory));
      SentSnoc(done, s, b, k);
      checksum := AddWords(checksum, s.data);
      ret := WriteSection(device, addr, s.data[..|s.data| % 0x1_0000_0000]);
      done := done + [s];
      if ret != 0 {
        SentStop(done, Sections(bytes, pos, memory).sections, b, k);
        return;
      }
      run := WriteVerify(OutgoingAll(done), b, k);
    }
  }

  lemma NothingSent(b: Behaviour, k: nat)
    ensures WriteVerify(OutgoingAll([]), b, k) == Fx3Run([], 0) && Checksum([]) == 0
  {
  }

  lemma InFrontNothing(image: Image)
    ensures InFront([], image) == image
  {
    assert [] + image.sections == image.sections;
  }

  lemma InFrontEnd(done: seq<Section>, e: Ending)
    ensures InFront(done, Image([], e)) == Image(done, e)
  {
    assert done + [] == done;
  }

  lemma SentSnoc(done: seq<Section>, s: Section, b: Behaviour, k: nat)
    ensures var run := WriteVerify(OutgoingAll(done), b, k);
            WriteVerify(OutgoingAll(done + [s]), b, k) == Then(run, WriteVerify(Outgoing(s), b, k + |run.log|))
  {
    hide WriteVerify;
    hide Outgoing;
    hide Chunks;
    hide Then;
    OutgoingConcat(done, [s]);
    assert [s][1..] == [] && OutgoingAll([s]) == Outgoing(s) + [] == Outgoing(s);
    WriteVerifyConcat(OutgoingAll(done), Outgoing(s), b, k);
  }

  /** Once a section has failed, the later ones make no difference. */
  lemma SentStop(done: seq<Section>, rest: seq<Section>, b: Behaviour, k: nat)
    requires WriteVerify(OutgoingAll(done), b, k).ret != 0
    ensures WriteVerify(OutgoingAll(done + rest), b, k) == WriteVerify(OutgoingAll(done), b, k)
  {
    hide WriteVerify;
    hide Outgoing;
    hide Chunks;
    OutgoingConcat(done, rest);
    WriteVerifyConcat(OutgoingAll(done), OutgoingAll(rest), b, k);
  }

  // ----- the words and their sum -------------------------------------------------------------

  /** Every section consists of words, and its end lies in the file. */
  lemma {:induction false} SectionsOfWords(bytes: seq<U8>, pos: nat, memory: nat -> bool)
    ensures var image := Sections(bytes, pos, memory);
            && (forall s :: s in image.sections ==> |s.data| % 4 == 0)
            && (image.ending.Entry? ==> image.ending.next <= |bytes|)
    decreases |bytes| - pos
  {
    hide Word; hide Sections;
    SectionsStep(bytes, pos, memory);
    if pos + 8 <= |bytes| {
      var words: nat := Word(bytes, pos);
      if words > 0 && memory(pos) && pos + 8 + 4 * words <= |bytes| {
        SectionsOfWords(bytes, pos + 8 + 4 * words, memory);
      }
    }
  }

  /** The check at the end of any file: its last word is the sum of all words. */
  lemma ChecksumMeans(bytes: seq<U8>, pos: nat, memory: nat -> bool)
    ensures var image := Sections(bytes, pos, memory);
            image.ending.Entry? ==>
              && image.ending.next <= |bytes|
              && (ChecksumFits(bytes, image) <==> SumsUp(image.sections, bytes[image.ending.next..]))
  {
    hide Word; hide Sections; hide SumOfWords; hide SumOfAll; hide Checksum;
    var image := Sections(bytes, pos, memory);
    SectionsOfWords(bytes, pos, memory);
    if image.ending.Entry? {
      var next := image.ending.next;
      ChecksumIs(image.sections);
      if next + 4 <= |bytes| {
        WordValue(bytes, next);
        assert bytes[next..next + 4] == bytes[next..][..4];
      }
    }
  }

  /** The sum of the words, low byte first, not cut to any width. */
  function SumOfWords(data: seq<U8>): nat
  {
    if |data| < 4 then 0
    else
      data[0] as nat + 0x100 * data[1] as nat + 0x1_0000 * data[2] as nat + 0x100_0000 * data[3] as nat +
        SumOfWords(data[4..])
  }

  function SumOfAll(sections: seq<Section>): nat
  {
    if sections == [] then 0 else SumOfWords(sections[0].data) + SumOfAll(sections[1..])
  }

  /** The word that follows the sections and their entry is the sum of their words. */
  predicate SumsUp(sections: seq<Section>, trailer: seq<U8>)
  {
    |trailer| >= 4 && SumOfWords(trailer[..4]) == SumOfAll(sections) % 0x1_0000_0000
  }

  lemma WordValue(bytes: seq<U8>, pos: nat)
    requires pos + 4 <= |bytes|
    ensures Word(bytes, pos) == SumOfWords(bytes[pos..pos + 4])
  {
    var b := bytes[pos..pos + 4];
    assert SumOfWords(b[4..]) == 0;
    assert b[1..][1..] == b[2..] && b[2..][1..] == b[3..] && b[3..][1..] == [];
    assert FromLittleEndian(b[3..]) == b[3];
    assert FromLittleEndian(b[2..]) == b[2] as nat + 256 * b[3] as nat;
    assert FromLittleEndian(b[1..]) == b[1] as nat + 256 * (b[2] as nat + 256 * b[3] as nat);
  }

  lemma {:induction false} SumSnoc(data: seq<U8>)
    requires |data| >= 4 && |data| % 4 == 0
    ensures SumOfWords(data) == SumOfWords(data[..|data| - 4]) + SumOfWords(data[|data| - 4..])
  {
    if |data| == 4 {
      assert data[0..] == data;
    } else {
      SumSnoc(data[4..]);
      var init := data[..|data| - 4];
      assert data[4..][..|data| - 8] == init[4..];
      assert init[0] == data[0] && init[1] == data[1] && init[2] == data[2] && init[3] == data[3];
      assert data[4..][|data| - 8..] == data[|data| - 4..];
    }
  }

  lemma {:induction false} WordSumIs(data: seq<U8>)
    requires |data| % 4 == 0
    ensures WordSum(data) == SumOfWords(data) % 0x1_0000_0000
  {
    hide Word; hide SumOfWords;
    if data == [] {
      assert SumOfWords(data) == 0 by { NoSum(); }
    } else {
      var init := data[..|data| - 4];
      WordSumIs(init);
      SumSnoc(data);
      WordValue(data, |data| - 4);
      assert data[|data| - 4..] == data[|data| - 4..|data| - 4 + 4];
      AddModulo(SumOfWords(init), Word(data, |data| - 4));
    }
  }

  lemma NoSum()
    ensures SumOfWords([]) == 0
  {
  }

  lemma AddModulo(a: nat, b: nat)
    ensures (a % 0x1_0000_0000 + b) % 0x1_0000_0000 == (a + b) % 0x1_0000_0000
    ensures (a + b % 0x1_0000_0000) % 0x1_0000_0000 == (a + b) % 0x1_0000_0000
  {
    Wrap(a / 0x1_0000_0000, a % 0x1_0000_0000 + b);
    Wrap(b / 0x1_0000_0000, a + b % 0x1_0000_0000);
  }

  lemma {:induction false} SumOfAllSnoc(sections: seq<Section>)
    requires sections != []
    ensures SumOfAll(sections) == SumOfAll(sections[..|sections| - 1]) + SumOfWords(sections[|sections| - 1].data)
  {
    hide SumOfWords;
    if |sections| > 1 {
      SumOfAllSnoc(sections[1..]);
      assert sections[1..][..|sections| - 2] == sections[..|sections| - 1][1..];
    }
  }

  lemma {:induction false} ChecksumIs(sections: seq<Section>)
    requires forall s :: s in sections ==> |s.data| % 4 == 0
    ensures Checksum(sections) == SumOfAll(sections) % 0x1_0000_0000
  {
    hide WordSum; hide SumOfWords;
    if sections == [] {
    } else {
      var init, last := sections[..|sections| - 1], sections[|sections| - 1];
      ChecksumIs(init);
      WordSumIs(last.data);
      SumOfAllSnoc(sections);
      AddModulo(SumOfAll(init), SumOfWords(last.data));
      AddModulo(SumOfAll(init) % 0x1_0000_0000, SumOfWords(last.data));
    }
  }

  // ----- what a run means -------------------------------------------------------------------

  predicate IsJump(r: Reply)
  {
    r.request.Jump?
  }

  /** The requests that write and read back the chunks, all done and all equal. */
  function Verified(chunks: seq<Segment>): seq<Reply>
  {
    if chunks == [] then []
    else
      var c := chunks[0];
      [Reply(WriteRam(c.addr, c.data), Done, []), Reply(ReadRam(c.addr, |c.data|), Done, c.data)] +
          Verified(chunks[1..])
  }

  /** Chunks that were sent without failure were read back equal; in no case does
    * sending chunks cause a jump. */
  lemma {:induction false} SentMeansVerified(chunks: seq<Segment>, b: Behaviour, k: nat)
    ensures var r := WriteVerify(chunks, b, k);
            && (r.ret == 0 ==> r.log == Verified(chunks))
            && forall e :: e in r.log ==> !IsJump(e)
    decreases |chunks|
  {
    if chunks == [] {
    } else {
      SentMeansVerified(chunks[1..], b, k + 2);
    }
  }

  lemma ChunksStep(addr: nat, data: seq<U8>)
    requires data != []
    ensures var n := if |data| < CHUNK then |data| else CHUNK;
            Chunks(addr, data) == [Segment(addr, data[..n])] + Chunks((addr + n) % 0x1_0000_0000, data[n..])
  {
  }

  /** The chunks of a section tile it: from its address on they hold its bytes in
    * order, at most 4096 each. */
  lemma {:induction false} ChunksTile(addr: nat, data: seq<U8>)
    requires addr + |data| <= 0x1_0000_0000
    ensures TagsOf(Chunks(addr, data)) == Tags(addr, data)
    ensures forall c :: c in Chunks(addr, data) ==> 0 < |c.data| <= 4096
    decreases |data|
  {
    hide Tags; hide TagsOf; hide Chunks;
    if data == [] {
      ChunksTileNothing(addr, addr);
    } else {
      var n := if |data| < CHUNK then |data| else CHUNK;
      var first, rest := Segment(addr, data[..n]), Chunks((addr + n) % 0x1_0000_0000, data[n..]);
      ChunksStep(addr, data);
      TagsCons(first, rest);
      assert data == data[..n] + data[n..];
      TagsSplit(addr, data[..n], data[n..]);
      if n < |data| {
        ChunksTile(addr + n, data[n..]);
      } else {
        assert data[n..] == [];
        ChunksTileNothing((addr + n) % 0x1_0000_0000, addr + n);
      }
    }
  }

  lemma ChunksTileNothing(addr: nat, addr': nat)
    ensures Chunks(addr, []) == [] && TagsOf([]) == [] && Tags(addr', []) == []
  {
    EmptyTags(addr', addr');
  }

  lemma {:induction false} ChunksCarry(addr: nat, data: seq<U8>)
    ensures Carried(Chunks(addr, data)) == data
    decreases |data|
  {
    if data == [] {
    } else {
      var n := if |data| < CHUNK then |data| else CHUNK;
      ChunksCarry((addr + n) % 0x1_0000_0000, data[n..]);
      assert data == data[..n] + data[n..];
    }
  }

  /** Wherever a section goes, all of its bytes are sent exactly when their number
    * fits 32 bits, that is, for fewer than 2^30 words. */
  lemma SectionSentWhole(s: Section)
    ensures Carried(Outgoing(s)) == s.data <==> |s.data| < 0x1_0000_0000
  {
    ChunksCarry(s.addr, s.data[..|s.data| % 0x1_0000_0000]);
  }

  /** A jump is the last request of a run, is made only when every section has
    * been written and read back equal and the checksum was right, and goes to
    * the address in the empty section. The result is 0 exactly when the jump was
    * made and accepted. */
  lemma JumpOnlyAfterVerifying(bytes: seq<U8>, memory: nat -> bool, verbose: bool, b: Behaviour, k: nat)
    ensures var run := Load(bytes, memory, verbose, b, k);
            var image := Sections(bytes, 4, memory);
            var version := if verbose then [b.Answer(k, ReadRam(VERSION_ADDRESS, 4))] else [];
            ((exists e :: e in run.log && IsJump(e)) || run.ret == 0) ==>
              && HeaderFits(bytes) && image.ending.Entry? && image.ending.next <= |bytes|
              && SumsUp(image.sections, bytes[image.ending.next..])
              && var sent := version + Verified(OutgoingAll(image.sections));
              && run.log == sent + [b.Answer(k + |sent|, Jump(image.ending.addr))]
              && (run.ret == 0 <==> b.status(k + |sent|) in {Done, IoError})
  {
    hide Sections; hide OutgoingAll; hide WriteVerify; hide ChecksumFits; hide Verified; hide SumsUp;
    ChecksumMeans(bytes, 4, memory);
    if HeaderFits(bytes) {
      var image := Sections(bytes, 4, memory);
      var k' := if verbose then k + 1 else k;
      var r := WriteVerify(OutgoingAll(image.sections), b, k');
      SentMeansVerified(OutgoingAll(image.sections), b, k');
      var run := Load(bytes, memory, verbose, b, k);
      if verbose {
        var version := b.Answer(k, ReadRam(VERSION_ADDRESS, 4));
        if version.status == Done && r.ret == 0 && image.ending.Entry? && ChecksumFits(bytes, image) {
          var j := b.Answer(k' + |r.log|, Jump(image.ending.addr));
          assert run.log == [version] + (r.log + [j]) == [version] + r.log + [j];
        } else {
          assert run.ret != 0;
        }
      } else if r.ret == 0 && image.ending.Entry? && ChecksumFits(bytes, image) {
        var j := b.Answer(k' + |r.log|, Jump(image.ending.addr));
        assert run.log == r.log + [j] == [] + r.log + [j];
      } else {
        assert run.ret != 0;
      }
    }
  }

  // ----- the file format ------------------------------------------------------------------------

  predicate WellFormed(sections: seq<Section>)
  {
    forall s :: s in sections ==> 0 < |s.data| < 0x1_0000_0000 && |s.data| % 4 == 0
  }

  function EncodeSections(sections: seq<Section>): seq<U8>
    requires WellFormed(sections)
  {
    if sections == [] then []
    else
      var s := sections[0];
      LittleEndian(|s.data| / 4, 4) + LittleEndian(s.addr, 4) + s.data + EncodeSections(sections[1..])
  }

  lemma WordAt(bytes: seq<U8>, pos: nat, v: U32)
    requires pos + 4 <= |bytes| && bytes[pos..pos + 4] == LittleEndian(v, 4)
    ensures Word(bytes, pos) == v
  {
    assert Pow256(4) == 0x1_0000_0000 by {
      assert Pow256(2) == 256 * Pow256(1) && Pow256(3) == 256 * Pow256(2) && Pow256(4) == 256 * Pow256(3);
    }
    DecodeLittleEndian(v, 4);
  }

  lemma Split4<T>(a: seq<T>, b: seq<T>, c: seq<T>, d: seq<T>, e: seq<T>, f: seq<T>)
    ensures a + (b + c + d + e) + f == (a + b + c + d) + e + f
    ensures var all := a + (b + c + d + e) + f;
            && all[|a|..|a| + |b|] == b
            && all[|a| + |b|..|a| + |b| + |c|] == c
            && all[|a| + |b| + |c|..|a| + |b| + |c| + |d|] == d
  {
  }

  lemma SectionAt(bytes: seq<U8>, pos: nat, memory: nat -> bool, s: Section)
    requires memory(pos)
    requires 0 < |s.data| < 0x1_0000_0000 && |s.data| % 4 == 0 && pos + 8 + |s.data| <= |bytes|
    requires bytes[pos..pos + 4] == LittleEndian(|s.data| / 4, 4) && bytes[pos + 4..pos + 8] == LittleEndian(s.addr, 4)
    requires bytes[pos + 8..pos + 8 + |s.data|] == s.data
    ensures Sections(bytes, pos, memory) == InFront([s], Sections(bytes, pos + 8 + |s.data|, memory))
  {
    hide Word; hide LittleEndian; hide Sections;
    WordAt(bytes, pos, |s.data| / 4);
    WordAt(bytes, pos + 4, s.addr);
    SectionsStep(bytes, pos, memory);
  }

  lemma EntryAt(bytes: seq<U8>, pos: nat, memory: nat -> bool, entry: U32, tail: seq<U8>)
    requires pos <= |bytes| && bytes[pos..] == LittleEndian(0, 4) + LittleEndian(entry, 4) + tail
    ensures Sections(bytes, pos, memory) == Image([], Entry(entry, pos + 8))
  {
    hide Word; hide LittleEndian;
    assert bytes[pos..pos + 4] == bytes[pos..][..4] == LittleEndian(0, 4);
    assert bytes[pos + 4..pos + 8] == bytes[pos..][4..8] == LittleEndian(entry, 4);
    WordAt(bytes, pos, 0);
    WordAt(bytes, pos + 4, entry);
  }

  lemma EncodeFirst(sections: seq<Section>)
    requires sections != [] && WellFormed(sections)
    ensures var s := sections[0];
            EncodeSections(sections) ==
              LittleEndian(|s.data| / 4, 4) + LittleEndian(s.addr, 4) + s.data + EncodeSections(sections[1..])
  {
  }

  /** The bytes of a section: its number of words, its address, its data. */
  lemma SectionBytes(s: Section, rest: seq<Section>)
    requires WellFormed([s] + rest)
    ensures WellFormed(rest)
    ensures var n, a := |s.data| / 4, s.addr as nat;
            EncodeSections([s] + rest)
            == [n % 0x100, n / 0x100 % 0x100, n / 0x1_0000 % 0x100, n / 0x100_0000 % 0x100]
               + [a % 0x100, a / 0x100 % 0x100, a / 0x1_0000 % 0x100, a / 0x100_0000 % 0x100]
               + s.data + EncodeSections(rest)
  {
    hide LittleEndian;
    LittleEndianBytes(|s.data| / 4);
    LittleEndianBytes(s.addr);
    assert ([s] + rest)[1..] == rest;
    assert forall t :: t in rest ==> t in [s] + rest;
  }

  /** Encoded sections are read back, whatever follows them, if there is memory for
    * each of them. */
  lemma {:induction false} SectionsAhead(before: seq<U8>, sections: seq<Section>, end: seq<U8>, memory: nat -> bool)
    requires WellFormed(sections)
    requires forall p :: 0 <= p < |before| + |EncodeSections(sections)| ==> memory(p)
    ensures var bytes := before + EncodeSections(sections) + end;
            Sections(bytes, |before|, memory) ==
                InFront(sections, Sections(bytes, |before| + |EncodeSections(sections)|, memory))
    decreases |sections|
  {
    hide LittleEndian; hide Sections; hide EncodeSections;
    var bytes := before + EncodeSections(sections) + end;
    if sections == [] {
      NoSections();
      InFrontNothing(Sections(bytes, |before|, memory));
    } else {
      var s, rest := sections[0], sections[1..];
      var len, addr := LittleEndian(|s.data| / 4, 4), LittleEndian(s.addr, 4);
      EncodeFirst(sections);
      Split4(before, len, addr, s.data, EncodeSections(rest), end);
      SectionAt(bytes, |before|, memory, s);
      SectionsAhead(before + len + addr + s.data, rest, end, memory);
      InFrontCons(s, rest, Sections(bytes, |before| + |EncodeSections(sections)|, memory));
      assert [s] + rest == sections;
    }
  }

  lemma InFrontCons(s: Section, rest: seq<Section>, image: Image)
    ensures InFront([s], InFront(rest, image)) == InFront([s] + rest, image)
  {
    assert [s] + (rest + image.sections) == [s] + rest + image.sections;
  }

  lemma NoSections()
    ensures EncodeSections([]) == []
  {
  }

  /** Reading back an encoded image gives its sections and its entry. */
  lemma SectionsRoundTrip(before: seq<U8>, sections: seq<Section>, entry: U32, tail: seq<U8>, memory: nat -> bool)
    requires WellFormed(sections)
    requires forall p :: 0 <= p < |before| + |EncodeSections(sections)| ==> memory(p)
    ensures var bytes := before + EncodeSections(sections) + (LittleEndian(0, 4) + LittleEndian(entry, 4) + tail);
            Sections(bytes, |before|, memory) ==
                Image(sections, Entry(entry, |before| + |EncodeSections(sections)| + 8))
  {
    hide LittleEndian; hide Sections; hide EncodeSections;
    var end, pos := LittleEndian(0, 4) + LittleEndian(entry, 4) + tail, |before| + |EncodeSections(sections)|;
    SectionsAhead(before, sections, end, memory);
    assert (before + EncodeSections(sections) + end)[pos..] == end;
    EntryAt(before + EncodeSections(sections) + end, pos, memory, entry, tail);
    InFrontEnd(sections, Entry(entry, pos + 8));
  }

  // ----- chunks, one by one ---------------------------------------------------------------------

  lemma PartOfRest<T>(data: seq<T>, n: nat, from: nat, to: nat)
    requires n <= |data| && from <= to <= |data| - n
    ensures data[n..][from..to] == data[n + from..n + to]
  {
  }

  /** Chunk i: all have 4096 bytes but the last, and addresses have 32 bits. */
  lemma {:induction false} ChunkAt(addr: U32, data: seq<U8>, i: nat)
    ensures |Chunks(addr, data)| == (|data| + 4095) / 4096
    ensures 4096 * i < |data| ==>
              var end := if 4096 * (i + 1) < |data| then 4096 * (i + 1) else |data|;
              && i < |Chunks(addr, data)|
              && Chunks(addr, data)[i] == Segment((addr as nat + 4096 * i) % 0x1_0000_0000, data[4096 * i..end])
    decreases |data|
  {
    hide Chunks;
    if data == [] {
      ChunksTileNothing(addr, addr);
    } else {
      var n := if |data| < CHUNK then |data| else CHUNK;
      var next: U32 := (addr as nat + n) % 0x1_0000_0000;
      ChunksStep(addr, data);
      ChunkAt(next, data[n..], if i > 0 then i - 1 else 0);
      if i > 0 && 4096 * i < |data| {
        AddModulo(addr as nat + n, 4096 * (i - 1));
        var end := if 4096 * (i + 1) < |data| then 4096 * (i + 1) else |data|;
        PartOfRest(data, n, 4096 * (i - 1), end - n);
      }
    }
  }

  /** Chunk i has been written by transfer k + 2 * i, and the next transfer has read
    * it back equal. */
  predicate GoesThrough(chunks: seq<Segment>, b: Behaviour, k: nat, i: nat)
    requires i < |chunks|
  {
    && b.status(k + 2 * i) == Done && b.status(k + 2 * i + 1) == Done
    && b.Answer(k + 2 * i + 1, ReadRam(chunks[i].addr, |chunks[i].data|)).read == chunks[i].data
  }

  predicate AllGoThrough(chunks: seq<Segment>, b: Behaviour, k: nat, n: nat)
    requires n <= |chunks|
  {
    forall i :: 0 <= i < n ==> GoesThrough(chunks, b, k, i)
  }

  lemma FirstChunk(c: Segment, b: Behaviour, k: nat)
    ensures var r := ChunkRun(c, b, k);
            && (r.ret == 0 <==> GoesThrough([c], b, k, 0))
            && (r.ret == 0 ==> |r.log| == 2)
            && (r.ret != 0 ==> r.ret == if b.status(k) == Done && b.status(k + 1) == Done then -6 else -5)
  {
    assert [c][0] == c;
  }

  lemma ThroughFirst(chunks: seq<Segment>, b: Behaviour, k: nat, i: nat)
    requires i < |chunks|
    ensures GoesThrough(chunks, b, k, i) <==>
              if i == 0 then GoesThrough([chunks[0]], b, k, 0) else GoesThrough(chunks[1..], b, k + 2, i - 1)
  {
  }

  lemma AllThroughFirst(chunks: seq<Segment>, b: Behaviour, k: nat, n: nat)
    requires 0 < n <= |chunks|
    ensures AllGoThrough(chunks, b, k, n)
       <==> GoesThrough([chunks[0]], b, k, 0) && AllGoThrough(chunks[1..], b, k + 2, n - 1)
  {
    hide GoesThrough;
    var rest, k' := chunks[1..], k + 2;
    ThroughFirst(chunks, b, k, 0);
    if AllGoThrough(chunks, b, k, n) {
      forall i | 0 <= i < n - 1 ensures GoesThrough(rest, b, k', i) {
        ThroughFirst(chunks, b, k, i + 1);
      }
    } else if GoesThrough([chunks[0]], b, k, 0) {
      var i :| 0 <= i < n && !GoesThrough(chunks, b, k, i);
      ThroughFirst(chunks, b, k, i);
      assert !GoesThrough(rest, b, k', i - 1);
    }
  }

  /** Sending succeeds exactly when every chunk goes through. */
  lemma {:induction false} SendingSucceeds(chunks: seq<Segment>, b: Behaviour, k: nat)
    ensures var r := WriteVerify(chunks, b, k);
            && (r.ret == 0 <==> AllGoThrough(chunks, b, k, |chunks|))
            && (r.ret == 0 ==> |r.log| == 2 * |chunks|)
    decreases |chunks|
  {
    hide GoesThrough; hide ChunkRun;
    if chunks == [] {
    } else {
      FirstChunk(chunks[0], b, k);
      SendingSucceeds(chunks[1..], b, k + 2);
      AllThroughFirst(chunks, b, k, |chunks|);
    }
  }

  /** The first chunk that does not go through decides what sending fails with: -5 if
    * a transfer has failed, -6 if other bytes were read back. */
  lemma {:induction false} SendingFails(chunks: seq<Segment>, b: Behaviour, k: nat, n: nat)
    requires n < |chunks| && AllGoThrough(chunks, b, k, n) && !GoesThrough(chunks, b, k, n)
    ensures WriteVerify(chunks, b, k).ret ==
            if b.status(k + 2 * n) == Done && b.status(k + 2 * n + 1) == Done then -6 else -5
    decreases |chunks|
  {
    hide GoesThrough; hide ChunkRun;
    FirstChunk(chunks[0], b, k);
    ThroughFirst(chunks, b, k, n);
    if n > 0 {
      AllThroughFirst(chunks, b, k, n);
      SendingFails(chunks[1..], b, k + 2, n - 1);
    }
  }

  // ----- whole files --------------------------------------------------------------------------------

  /** A file of sections in any order, with an entry, any four bytes as its trailer, and
    * whatever may follow. */
  function FileOf(flags: U8, sections: seq<Section>, entry: U32, trailer: seq<U8>): seq<U8>
    requires WellFormed(sections)
  {
    [0x43, 0x59, flags, 0xB0] + EncodeSections(sections) + (LittleEndian(0, 4) + LittleEndian(entry, 4) + trailer)
  }

  lemma FileHeader(flags: U8, sections: seq<Section>, entry: U32, trailer: seq<U8>)
    requires WellFormed(sections)
    ensures HeaderFits(FileOf(flags, sections, entry, trailer))
  {
    hide EncodeSections; hide LittleEndian;
    var bytes := FileOf(flags, sections, entry, trailer);
    assert bytes[..4] == [0x43, 0x59, flags, 0xB0];
    assert bytes[0] == bytes[..4][0] && bytes[1] == bytes[..4][1] && bytes[3] == bytes[..4][3];
  }

  lemma FileTrailer(flags: U8, sections: seq<Section>, entry: U32, trailer: seq<U8>)
    requires WellFormed(sections)
    ensures var bytes, next := FileOf(flags, sections, entry, trailer), 4 + |EncodeSections(sections)| + 8;
            |bytes| == next + |trailer| && bytes[next..] == trailer
  {
    hide EncodeSections; hide LittleEndian;
  }

  /** The three pieces of a run on a file behind its header. */
  lemma FileRun(flags: U8, sections: seq<Section>, entry: U32, trailer: seq<U8>, memory: nat -> bool, b: Behaviour,
                k: nat)
    requires WellFormed(sections) && forall p :: memory(p)
    ensures var run := Transfer(FileOf(flags, sections, entry, trailer), memory, b, k);
            var chunks := OutgoingAll(sections);
            var sent, at := WriteVerify(chunks, b, k), k + 2 * |chunks|;
            && (forall e :: e in sent.log ==> !IsJump(e))
            && (sent.ret == 0 <==> AllGoThrough(chunks, b, k, |chunks|))
            && if sent.ret != 0 then run == sent
               else if SumsUp(sections, trailer) then
                 run == Fx3Run(sent.log + [Reply(Jump(entry), b.status(at), [])],
                               if b.status(at) in {Done, IoError} then 0 else -6)
               else run == Fx3Run(sent.log, -7)
  {
    hide Sections; hide EncodeSections; hide LittleEndian; hide WriteVerify; hide OutgoingAll; hide AllGoThrough;
    hide SumsUp; hide FileOf; hide ChecksumFits; hide IsJump;
    var bytes := FileOf(flags, sections, entry, trailer);
    FileSections(flags, sections, entry, trailer, memory);
    FileTrailer(flags, sections, entry, trailer);
    ChecksumMeans(bytes, 4, memory);
    SendingSucceeds(OutgoingAll(sections), b, k);
    SentMeansVerified(OutgoingAll(sections), b, k);
    var sent := WriteVerify(OutgoingAll(sections), b, k);
    assert sent.log + [] == sent.log;
  }

  lemma FileSections(flags: U8, sections: seq<Section>, entry: U32, trailer: seq<U8>, memory: nat -> bool)
    requires WellFormed(sections) && forall p :: memory(p)
    ensures Sections(FileOf(flags, sections, entry, trailer), 4, memory)
         == Image(sections, Entry(entry, 4 + |EncodeSections(sections)| + 8))
  {
    hide Sections; hide EncodeSections; hide LittleEndian;
    SectionsRoundTrip([0x43, 0x59, flags, 0xB0], sections, entry, trailer, memory);
  }

  /** A whole file, on any device: loading succeeds exactly when every chunk goes
    * through, the trailer is the sum of all words modulo 2^32 and the jump is taken;
    * the jump is made exactly when the first two hold. A wrong trailer gives -7. */
  lemma FileLoads(flags: U8, sections: seq<Section>, entry: U32, trailer: seq<U8>, memory: nat -> bool, b: Behaviour,
                  k: nat)
    requires WellFormed(sections) && forall p :: memory(p)
    ensures var run := Load(FileOf(flags, sections, entry, trailer), memory, false, b, k);
            var chunks := OutgoingAll(sections);
            var sent := AllGoThrough(chunks, b, k, |chunks|);
            && (run.ret == 0 <==>
                  sent && SumsUp(sections, trailer) && b.status(k + 2 * |chunks|) in {Done, IoError})
            && ((exists e :: e in run.log && IsJump(e)) <==> sent && SumsUp(sections, trailer))
            && (forall e :: e in run.log && IsJump(e) ==> e.request == Jump(entry))
            && (sent && !SumsUp(sections, trailer) ==> run.ret == -7)
  {
    hide WriteVerify; hide OutgoingAll; hide AllGoThrough; hide SumsUp; hide FileOf; hide Transfer; hide WellFormed;
    FileHeader(flags, sections, entry, trailer);
    FileRun(flags, sections, entry, trailer, memory, b, k);
    var sent := WriteVerify(OutgoingAll(sections), b, k);
    var j := Reply(Jump(entry), b.status(k + 2 * |OutgoingAll(sections)|), []);
    assert j in sent.log + [j];
  }

  /** Asked for its version before, the boot loader is read at its own address. */
  lemma VersionFirst(bytes: seq<U8>, memory: nat -> bool, b: Behaviour, k: nat)
    requires |bytes| >= 4 && bytes[0] == 0x43 && bytes[1] == 0x59 && bytes[3] == 0xB0
    ensures var version := b.Answer(k, ReadRam(0xFFFF0020, 4));
            var quiet := Load(bytes, memory, false, b, k + 1);
            Load(bytes, memory, true, b, k) ==
              if version.status == Done then Fx3Run([version] + quiet.log, quiet.ret) else Fx3Run([version], -8)
  {
    hide Transfer;
  }

  /** Only normal images with a checksum reach the device. */
  lemma OtherHeader(bytes: seq<U8>, memory: nat -> bool, verbose: bool, b: Behaviour, k: nat)
    requires |bytes| < 4 || bytes[0] != 0x43 || bytes[1] != 0x59 || bytes[3] != 0xB0
    ensures Load(bytes, memory, verbose, b, k) == Fx3Run([], -3)
  {
  }

  /** What is wrong with a file that ends with neither a section nor an entry. */
  function Defect(end: seq<U8>, memory: bool): Option<int>
  {
    if |end| < 8 then Some(-3)
    else
      var words := SumOfWords(end[..4]);
      if words == 0 then None
      else if !memory then Some(-4)
      else if |end| < 8 + 4 * words then Some(-3)
      else None
  }

  /** A file that breaks off, or is followed by a section for which there is no
    * memory: all sections before are sent, and then loading fails without a jump. */
  lemma FileBreaksOff(flags: U8, sections: seq<Section>, end: seq<U8>, memory: nat -> bool, b: Behaviour, k: nat)
    requires WellFormed(sections)
    requires forall p :: 0 <= p < 4 + |EncodeSections(sections)| ==> memory(p)
    requires Defect(end, memory(4 + |EncodeSections(sections)|)).Some?
    ensures var run := Load([0x43, 0x59, flags, 0xB0] + EncodeSections(sections) + end, memory, false, b, k);
            var sent, code := WriteVerify(OutgoingAll(sections), b, k),
                  Defect(end, memory(4 + |EncodeSections(sections)|)).value;
            run == (if sent.ret == 0 then Fx3Run(sent.log, code) else sent) && forall e :: e in run.log ==> !IsJump(e)
  {
    hide Sections; hide EncodeSections; hide WriteVerify; hide OutgoingAll; hide SumOfWords; hide Word; hide IsJump;
    var header, pos := [0x43, 0x59, flags, 0xB0], 4 + |EncodeSections(sections)|;
    var bytes := header + EncodeSections(sections) + end;
    assert bytes[..4] == header && bytes[pos..] == end;
    assert HeaderFits(bytes) by {
      assert bytes[0] == header[0] && bytes[1] == header[1] && bytes[3] == header[3];
    }
    SectionsAhead(header, sections, end, memory);
    SectionsStep(bytes, pos, memory);
    if |end| >= 8 {
      WordValue(bytes, pos);
      assert bytes[pos..pos + 4] == end[..4];
    }
    assert sections + [] == sections;
    SentMeansVerified(OutgoingAll(sections), b, k);
    var sent := WriteVerify(OutgoingAll(sections), b, k);
    assert sent.log + [] == sent.log;
  }
}
