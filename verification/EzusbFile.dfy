/** Whole Intel HEX files, written as the Intel Hexadecimal Object File Format
  * Specification, Revision A, says: which of them the loader accepts, and what
  * reaches the chip. */
module EzusbFile {
  import opened Bytes
  import opened EzusbText
  import opened EzusbRam
  import opened EzusbHex
  import opened EzusbMerge
  import opened EzusbLoad

  /** Records with data, at most 255 bytes each, at 16-bit addresses. */
  predicate Writable(records: seq<Segment>)
  {
    forall i :: 0 <= i < |records| ==> records[i].addr < 0x1_0000 && 0 < |records[i].data| < 256
  }

  /** The text of a file: data records, an end record, any check sums. */
  function TextOf(records: seq<Segment>, sums: nat -> U8, eol: string): string
    requires Writable(records)
  {
    if records == [] then RecordText(1, 0, [], sums(0)) + eol
    else RecordText(0, records[0].addr, records[0].data, sums(|records|)) + eol + TextOf(records[1..], sums, eol)
  }

  /** The longest record of which a line fits the buffer of the reader. */
  const LONGEST := 249

  /** The first record that is longer, or the number of records. */
  function FirstLong(records: seq<Segment>): (f: nat)
    ensures f <= |records|
  {
    if records == [] || |records[0].data| > LONGEST then 0 else FirstLong(records[1..]) + 1
  }

  lemma {:induction false} FirstLongIs(records: seq<Segment>)
    ensures var f := FirstLong(records);
            && (forall i :: 0 <= i < f ==> |records[i].data| <= LONGEST)
            && (f < |records| ==> |records[f].data| > LONGEST)
  {
    if records != [] && |records[0].data| <= LONGEST {
      var rest := records[1..];
      FirstLongIs(rest);
      assert forall i :: 0 < i < |records| ==> records[i] == rest[i - 1];
    }
  }

  /** Record f is the first one that is too long. */
  predicate IsFirstLong(records: seq<Segment>, f: nat)
  {
    f < |records| && |records[f].data| > 249 && forall i :: 0 <= i < f ==> |records[i].data| <= 249
  }

  /** The return code of a written file. */
  function FileCode(records: seq<Segment>): int
  {
    var f := FirstLong(records);
    if f == |records| then 0 else if |records[f].data| == LONGEST + 1 then -2 else -4
  }

  // ----- what becomes of a file ---------------------------------------------------------

  /** A file that is written as the standard says is accepted exactly when every
    * record has at most 249 bytes, and then every byte is poked to its address, in
    * file order, whatever the check sums and the line breaks, and whichever case
    * each digit has. The first longer record is what it is rejected for. */
  lemma HexFileLoads(text: string, records: seq<Segment>, sums: nat -> U8, eol: string, others: nat -> Line)
    requires Writable(records) && IsBreak(eol) && SameText(text, TextOf(records, sums, eol))
    ensures var m := Merge(LinesFrom(text, 0, others), START);
            && (m.code == 0 <==> forall i :: 0 <= i < |records| ==> |records[i].data| <= 249)
            && (m.code == 0 ==> TagsOf(m.segments) == TagsOf(records))
            && forall f: nat :: IsFirstLong(records, f) ==> m.code == if |records[f].data| == 250 then -2 else -4
  {
    hide LinesFrom; hide TextOf; hide Merge; hide TagsOf; hide NoStale; hide Records; hide ReadUpTo; hide EndsAt;
    hide SameText;
    SameLines(text, TextOf(records, sums, eol), 0, others);
    var lines := LinesFrom(text, 0, others);
    FileLines(records, sums, eol, 0, others);
    CodeOfLines(lines, records);
    FirstLongIs(records);
    assert forall f: nat :: IsFirstLong(records, f) ==> f == FirstLong(records);
    if FirstLong(records) == |records| {
      LinesAreRecords(lines, records);
      DataNeverStale(lines, Fresh);
      MergePreservesMeaning(lines);
    }
  }

  /** One record of 250 bytes is one byte too long: the reader takes all of it and
    * stumbles over its line break. */
  lemma OneByteTooLong(addr: U16, data: Payload, sums: nat -> U8, eol: string, others: nat -> Line)
    requires |data| == 250 && IsBreak(eol)
    ensures Writable([Segment(addr, data)])
    ensures Merge(LinesFrom(TextOf([Segment(addr, data)], sums, eol), 0, others), START).code == -2
  {
    hide LinesFrom; hide TextOf; hide Merge; hide TagsOf;
    hide SameText;
    var records := [Segment(addr, data)];
    SameTextSelf(TextOf(records, sums, eol));
    assert IsFirstLong(records, 0);
    HexFileLoads(TextOf(records, sums, eol), records, sums, eol, others);
  }

  /** From the text of a written file to the bus: a successful single-stage load has
    * sent every byte to its address, in file order. */
  lemma HexFileReachesChip(file: File, records: seq<Segment>, sums: nat -> U8, eol: string,
                           chip: Chip, answer: nat -> Status, k: nat)
    requires Writable(records) && IsBreak(eol) && SameText(Text(file.bytes), TextOf(records, sums, eol))
    requires LoadRun(file, chip, Hex, false, answer, k).ret == 0
    ensures BytesSent(LoadRun(file, chip, Hex, false, answer, k).events) == TagsOf(records)
    ensures forall t :: t in TagsOf(records) ==> OnChip(chip, t.addr)
  {
    hide LoadRun; hide Merge; hide TagsOf; hide BytesSent; hide TextOf; hide LinesFrom; hide OnChip; hide Text;
    hide SameText;
    HexFileLoads(Text(file.bytes), records, sums, eol, file.others);
    SingleStageLoad(file, chip, Hex, answer, k);
    SingleStageOnChip(file, chip, Hex, answer, k);
    HexImage(file);
  }

  // ----- its records and its lines ------------------------------------------------------

  predicate ReadsAs(l: Line, r: Segment)
  {
    l.Record? && l == Record(0, l.off, l.data, true) && l.off == r.addr && l.data == r.data
  }

  /** The first f records as lines. */
  predicate ReadUpTo(lines: seq<Line>, records: seq<Segment>, f: nat)
  {
    f <= |lines| && f <= |records| && forall i :: 0 <= i < f ==> ReadsAs(lines[i], records[i])
  }

  /** What follows the records that fit: the end record, or what is made of the first
    * one that does not. */
  predicate EndsAt(lines: seq<Line>, records: seq<Segment>, f: nat)
    requires f <= |records|
  {
    if f == |records| then |lines| == f + 1 && lines[f] == Record(1, 0, [], true)
    else if |records[f].data| == LONGEST + 1 then
      |lines| > f + 1 && ReadsAs(lines[f], records[f]) && lines[f + 1] == Garbage
    else |lines| > f && lines[f].Record? && lines[f].kind == 0 && !lines[f].complete
  }

  lemma NoText(n: nat, others: nat -> Line)
    ensures LinesFrom("", n, others) == []
  {
  }

  lemma RecordReads(r: Segment)
    requires r.addr < 0x1_0000 && |r.data| < 256
    ensures ReadsAs(Record(0, r.addr, r.data, true), r)
  {
  }

  lemma OneRecordMore(l: Line, lines: seq<Line>, records: seq<Segment>, f: nat)
    requires records != [] && ReadsAs(l, records[0]) && f <= |records[1..]|
    requires ReadUpTo(lines, records[1..], f) && EndsAt(lines, records[1..], f)
    ensures ReadUpTo([l] + lines, records, f + 1) && EndsAt([l] + lines, records, f + 1)
  {
    hide ReadsAs;
    var all, rest := [l] + lines, records[1..];
    assert forall i :: 0 < i < |all| ==> all[i] == lines[i - 1];
    assert forall i :: 0 < i < |records| ==> records[i] == rest[i - 1];
  }

  /** The lines of a file whose records all fit are its records. */
  lemma {:induction false} LinesAreRecords(lines: seq<Line>, records: seq<Segment>)
    requires ReadUpTo(lines, records, |records|) && EndsAt(lines, records, |records|)
    requires forall i :: 0 <= i < |records| ==> records[i].data != []
    ensures Records(lines) == records && AllCarryData(lines)
  {
    if records == [] {
    } else {
      var rest, others := records[1..], lines[1..];
      assert ReadsAs(lines[0], records[0]);
      assert forall i :: 0 <= i < |others| ==> others[i] == lines[i + 1];
      assert forall i :: 0 <= i < |rest| ==> rest[i] == records[i + 1];
      forall i | 0 <= i < |rest| ensures ReadsAs(others[i], rest[i]) {
        assert ReadsAs(lines[i + 1], records[i + 1]);
      }
      LinesAreRecords(others, rest);
      assert forall i :: 0 < i < |lines| ==> lines[i] == others[i - 1];
      assert Records(lines) == [records[0]] + rest == records;
    }
  }

  lemma CodeOfLines(lines: seq<Line>, records: seq<Segment>)
    requires var f := FirstLong(records); ReadUpTo(lines, records, f) && EndsAt(lines, records, f)
    ensures Merge(lines, START).code == FileCode(records)
  {
    hide Merge;
    var f := FirstLong(records);
    FirstLongIs(records);
    assert forall i :: 0 <= i < f ==> ReadsAs(lines[i], records[i]);
    if f < |records| && |records[f].data| == LONGEST + 1 {
      FirstEndDecides(lines, START, f + 1);
    } else {
      FirstEndDecides(lines, START, f);
    }
  }

  // ----- the lines of a file ----------------------------------------------------------

  /** The text of a file, cut into lines: its records, then what ends the reading. */
  lemma {:induction false} FileLines(records: seq<Segment>, sums: nat -> U8, eol: string, n: nat, others: nat -> Line)
    requires Writable(records) && IsBreak(eol)
    ensures var lines, f := LinesFrom(TextOf(records, sums, eol), n, others), FirstLong(records);
            ReadUpTo(lines, records, f) && EndsAt(lines, records, f)
  {
    hide LinesFrom; hide RecordText; hide ReadsAs;
    if records == [] {
      assert TextOf(records, sums, eol) == RecordText(1, 0, [], sums(0)) + eol + "";
      ShortRecordLine(1, 0, [], sums(0), eol, "", n, others);
      NoText(n + 1, others);
    } else {
      var r, sum, rest := records[0], sums(|records|), TextOf(records[1..], sums, eol);
      if |r.data| > LONGEST + 1 {
        LongRecordLine(r.addr, r.data, sum, eol, rest, n, others);
      } else if |r.data| == LONGEST + 1 {
        FullRecordLine(r.addr, r.data, sum, eol, rest, n, others);
        RecordReads(r);
      } else {
        ShortRecordLine(0, r.addr, r.data, sum, eol, rest, n, others);
        RecordReads(r);
        FileLines(records[1..], sums, eol, n + 1, others);
        OneRecordMore(Record(0, r.addr, r.data, true), LinesFrom(rest, n + 1, others), records,
            FirstLong(records[1..]));
      }
    }
  }
}
