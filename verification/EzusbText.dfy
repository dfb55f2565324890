/** The text of an Intel HEX file: how it is cut into lines, and how a line is read
  * and written. */
module EzusbText {
  import opened Bytes
  import opened Sequences

  /** The data of a record: its length field has two hex digits. */
  type Payload = d: seq<U8> | |d| < 256 witness []

  /** A line of the file, with its fields read. A record is incomplete if the
    * line is shorter than its length field demands. */
  datatype Line =
    | Comment
    | Garbage
    | Record(kind: U8, off: U16, data: Payload, complete: bool)

  // ----- cutting the text into lines ----------------------------------------------

  /** The characters one read delivers at most. */
  const LINE_BUFFER := 511

  /** The length of text up to its first line break, included. */
  function BreakAt(text: string): (n: nat)
    ensures n <= |text| && (text != "" ==> n > 0)
  {
    if text == "" then 0 else if text[0] == '\n' then 1 else 1 + BreakAt(text[1..])
  }

  /** What one read delivers: a line with its break, or as much of it as fits. */
  function PieceLength(text: string): (n: nat)
    ensures n <= |text| && n <= LINE_BUFFER && (text != "" ==> n > 0)
  {
    if BreakAt(text) < LINE_BUFFER then BreakAt(text) else LINE_BUFFER
  }

  /** Reads a piece, character by character. */
  method ReadPiece(text: string) returns (n: nat)
    ensures n == PieceLength(text)
  {
    n := 0;
    assert text[0..] == text;
    while n < |text| && n < LINE_BUFFER
      invariant n <= |text| && n <= LINE_BUFFER
      invariant n + BreakAt(text[n..]) == BreakAt(text)
    {
      assert text[n..][1..] == text[n + 1..];
      n := n + 1;
      if text[n - 1] == '\n' {
        return;
      }
    }
  }

  predicate IsHex(c: char)
  {
    '0' <= c <= '9' || 'A' <= c <= 'F' || 'a' <= c <= 'f'
  }

  predicate AllHex(s: string)
  {
    forall i :: 0 <= i < |s| ==> IsHex(s[i])
  }

  predicate HexBetween(s: string, from: nat, to: nat)
  {
    from <= to <= |s| && forall i :: from <= i < to ==> IsHex(s[i])
  }

  function HexValue(c: char): (v: nat)
    requires IsHex(c)
    ensures v < 16
  {
    if c <= '9' then c as int - '0' as int
    else if c <= 'F' then c as int - 'A' as int + 10
    else c as int - 'a' as int + 10
  }

  /** The number two or four digits stand for. */
  function ByteOf(s: string): (v: U8)
    requires |s| == 2 && AllHex(s)
  {
    HexValue(s[0]) * 16 + HexValue(s[1])
  }

  function WordOf(s: string): (v: U16)
    requires |s| == 4 && AllHex(s)
  {
    ByteOf(s[..2]) as int * 0x100 + ByteOf(s[2..])
  }

  // ----- reading a line -----------------------------------------------------------

  /** A line without its line break. */
  function Cropped(buf: string): (s: string)
  {
    if buf == "" || buf[0] == '\n' || buf[0] == '\0' then "" else [buf[0]] + Cropped(buf[1..])
  }

  predicate IsComplete(s: string)
    requires HexBetween(s, 1, 9)
  {
    ByteOf(s[1..3]) as int * 2 + 11 <= |s|
  }

  predicate HoldsData(s: string)
    requires HexBetween(s, 1, 9)
  {
    ByteOf(s[7..9]) == 0 && IsComplete(s)
  }

  /** A line whose fields, as far as they are looked at, are hexadecimal digits. */
  predicate Readable(buf: string)
  {
    && buf != ""
    && (buf[0] == ':' ==>
          var s := Cropped(buf);
          && HexBetween(s, 1, 9)
          && (HoldsData(s) ==> HexBetween(s, 9, 9 + 2 * ByteOf(s[1..3]))))
  }

  function DataOf(digits: string): (d: seq<U8>)
    requires |digits| % 2 == 0 && AllHex(digits)
    ensures |d| == |digits| / 2
  {
    if digits == "" then [] else DataOf(digits[..|digits| - 2]) + [ByteOf(digits[|digits| - 2..])]
  }

  lemma OneMoreByte(digits: string, two: string)
    requires |digits| % 2 == 0 && AllHex(digits) && |two| == 2 && AllHex(two)
    ensures DataOf(digits + two) == DataOf(digits) + [ByteOf(two)]
  {
    hide ByteOf; hide IsHex;
    var all := digits + two;
    assert all[..|all| - 2] == digits && all[|all| - 2..] == two;
  }

  /** A line as it is read. What the code makes of one without proper digits depends
    * on what was in its buffer before, and is given by other. */
  function LineOf(buf: string, other: Line): Line
  {
    if !Readable(buf) then other
    else if buf[0] == '#' then Comment
    else if buf[0] != ':' then Garbage
    else
      var s := Cropped(buf);
      Record(ByteOf(s[7..9]), WordOf(s[3..7]), if HoldsData(s) then DataOf(s[9..9 + 2 * ByteOf(s[1..3])]) else [],
          IsComplete(s))
  }

  /** Reads the data bytes of a record. */
  method ReadData(s: string, len: nat) returns (data: seq<U8>)
    requires HexBetween(s, 9, 9 + 2 * len)
    ensures data == DataOf(s[9..9 + 2 * len])
  {
    hide IsHex; hide ByteOf; hide DataOf;
    data := [];
    assert DataOf(s[9..9]) == [] by { NoData(s[9..9]); }
    for idx := 0 to len
      invariant data == DataOf(s[9..9 + 2 * idx])
    {
      var cp := 9 + 2 * idx;
      OneMoreByte(s[9..cp], s[cp..cp + 2]);
      assert s[9..cp] + s[cp..cp + 2] == s[9..cp + 2];
      data := data + [ByteOf(s[cp..cp + 2])];
    }
  }

  lemma NoData(digits: string)
    requires digits == ""
    ensures DataOf(digits) == []
  {
  }

  /** Reads a line field by field. */
  method ReadLine(buf: string, other: Line) returns (l: Line)
    ensures l == LineOf(buf, other)
  {
    if !Readable(buf) {
      return other;
    }
    if buf[0] == '#' {
      return Comment;
    }
    if buf[0] != ':' {
      return Garbage;
    }
    var s := Cropped(buf);
    var len, off, kind := ByteOf(s[1..3]), WordOf(s[3..7]), ByteOf(s[7..9]);
    var complete := !(len * 2 + 11 > |s|);
    if kind != 0 || !complete {
      return Record(kind, off, [], complete);
    }
    var data := ReadData(s, len);
    return Record(kind, off, data, complete);
  }

  // ----- writing a line -------------------------------------------------------------

  function HexDigit(v: nat): (c: char)
    requires v < 16
    ensures IsHex(c) && HexValue(c) == v
  {
    if v < 10 then ('0' as int + v) as char else ('A' as int + v - 10) as char
  }

  function TwoDigits(v: U8): (s: string)
    ensures |s| == 2 && AllHex(s) && ByteOf(s) == v
  {
    [HexDigit(v / 16), HexDigit(v % 16)]
  }

  function FourDigits(v: U16): (s: string)
    ensures |s| == 4 && AllHex(s) && WordOf(s) == v
  {
    assert (TwoDigits(v / 0x100) + TwoDigits(v % 0x100))[..2] == TwoDigits(v / 0x100);
    assert (TwoDigits(v / 0x100) + TwoDigits(v % 0x100))[2..] == TwoDigits(v % 0x100);
    TwoDigits(v / 0x100) + TwoDigits(v % 0x100)
  }

  function DataDigits(data: seq<U8>): (s: string)
    ensures |s| == 2 * |data| && AllHex(s)
  {
    if data == [] then "" else DataDigits(data[..|data| - 1]) + TwoDigits(data[|data| - 1])
  }

  lemma {:induction false} DataDigitsRead(data: seq<U8>)
    ensures DataOf(DataDigits(data)) == data
  {
    hide AllHex; hide IsHex; hide HexValue; hide HexDigit; hide ByteOf; hide TwoDigits; hide DataOf;
    if data == [] {
      NoData(DataDigits([]));
    } else {
      var init, last := data[..|data| - 1], data[|data| - 1];
      DataDigitsRead(init);
      OneMoreByte(DataDigits(init), TwoDigits(last));
    }
  }

  /** The fields of a record line behind the record mark; the check sum is not
    * looked at by the reader. */
  function FieldDigits(kind: U8, off: U16, data: Payload, sum: U8): (s: string)
    ensures |s| == 10 + 2 * |data| && AllHex(s)
  {
    TwoDigits(|data|) + FourDigits(off) + TwoDigits(kind) + DataDigits(data) + TwoDigits(sum)
  }

  function RecordText(kind: U8, off: U16, data: Payload, sum: U8): (s: string)
    ensures |s| == 11 + 2 * |data|
  {
    ":" + FieldDigits(kind, off, data, sum)
  }

  lemma FieldsAt(kind: U8, off: U16, data: Payload, sum: U8)
    ensures var s := RecordText(kind, off, data, sum);
            && HexBetween(s, 1, |s|)
            && s[1..3] == TwoDigits(|data|) && s[3..7] == FourDigits(off) && s[7..9] == TwoDigits(kind)
            && s[9..9 + 2 * |data|] == DataDigits(data)
  {
    hide TwoDigits; hide FourDigits; hide DataDigits;
    var s := RecordText(kind, off, data, sum);
    assert s[1..] == FieldDigits(kind, off, data, sum);
    assert forall i :: 1 <= i < |s| ==> s[i] == s[1..][i - 1];
  }

  /** A line of plain characters. */
  predicate NoBreak(s: string)
  {
    '\n' !in s && '\0' !in s
  }

  lemma RecordHasNoBreak(kind: U8, off: U16, data: Payload, sum: U8)
    ensures NoBreak(RecordText(kind, off, data, sum))
  {
    hide FieldDigits;
  }

  lemma {:induction false} CropLine(s: string, t: string)
    requires NoBreak(s) && (t == "" || t[0] == '\n' || t[0] == '\0')
    ensures Cropped(s + t) == s
  {
    if s == "" {
      assert s + t == t;
    } else {
      assert (s + t)[0] == s[0] && (s + t)[1..] == s[1..] + t;
      CropLine(s[1..], t);
    }
  }

  lemma {:induction false} BreakBehind(s: string, rest: string)
    requires '\n' !in s
    ensures BreakAt(s + rest) == |s| + BreakAt(rest)
  {
    if s == "" {
      assert s + rest == rest;
    } else {
      assert (s + rest)[0] == s[0] && (s + rest)[1..] == s[1..] + rest;
      BreakBehind(s[1..], rest);
    }
  }

  /** The line breaks a file may have. */
  predicate IsBreak(eol: string)
  {
    eol == "\n" || eol == "\r\n"
  }

  lemma CroppedFirst(buf: string)
    ensures Cropped(buf) != "" ==> buf != "" && buf[0] == Cropped(buf)[0]
  {
  }

  lemma SamePart(s: string, c: string, from: nat, to: nat)
    requires from <= to <= |s| && to <= |c| && (s <= c || c <= s)
    ensures c[from..to] == s[from..to]
    ensures HexBetween(s, from, to) ==> HexBetween(c, from, to)
  {
    assert forall i :: from <= i < to ==> c[i] == s[i];
  }

  /** The fields of a line that begins with a record, or with nine characters of it. */
  lemma HeaderRead(kind: U8, off: U16, data: Payload, sum: U8, c: string)
    requires var s := RecordText(kind, off, data, sum); |c| >= 9 && (s <= c || c <= s)
    ensures c[0] == ':' && HexBetween(c, 1, 9)
    ensures c[1..3] == TwoDigits(|data|) && c[3..7] == FourDigits(off) && c[7..9] == TwoDigits(kind)
  {
    hide FieldDigits; hide TwoDigits; hide FourDigits; hide HexBetween;
    var s := RecordText(kind, off, data, sum);
    FieldsAt(kind, off, data, sum);
    assert HexBetween(s, 1, 9) by { Narrow(s, 1, |s|, 9); }
    SamePart(s, c, 1, 9);
    SamePart(s, c, 1, 3);
    SamePart(s, c, 3, 7);
    SamePart(s, c, 7, 9);
    assert s[0] == ':' && c[0] == s[0];
  }

  lemma Narrow(s: string, from: nat, to: nat, less: nat)
    requires HexBetween(s, from, to) && from <= less <= to
    ensures HexBetween(s, from, less)
  {
  }

  lemma DataRead(kind: U8, off: U16, data: Payload, sum: U8, c: string)
    requires RecordText(kind, off, data, sum) <= c
    ensures HexBetween(c, 9, 9 + 2 * |data|) && c[9..9 + 2 * |data|] == DataDigits(data)
  {
    hide FieldDigits; hide DataDigits;
    var s := RecordText(kind, off, data, sum);
    FieldsAt(kind, off, data, sum);
    assert HexBetween(s, 9, 9 + 2 * |data|);
    SamePart(s, c, 9, 9 + 2 * |data|);
  }

  /** A data record or an end record that lies in the buffer in full is read back,
    * whatever its check sum. */
  lemma ReadWhole(kind: U8, off: U16, data: Payload, sum: U8, buf: string, other: Line)
    requires kind == 0 || data == []
    requires RecordText(kind, off, data, sum) <= Cropped(buf)
    ensures LineOf(buf, other) == Record(kind, off, data, true)
  {
    hide AllHex; hide HexBetween; hide TwoDigits; hide FourDigits; hide DataDigits; hide ByteOf; hide WordOf;
    hide DataOf;
    hide Cropped; hide RecordText;
    CroppedFirst(buf);
    HeaderRead(kind, off, data, sum, Cropped(buf));
    DataRead(kind, off, data, sum, Cropped(buf));
    DataDigitsRead(data);
  }

  /** A data record of which the buffer holds only a part is too short. */
  lemma ReadPart(off: U16, data: Payload, sum: U8, buf: string, other: Line)
    requires Cropped(buf) < RecordText(0, off, data, sum) && |Cropped(buf)| >= 9
    ensures LineOf(buf, other) == Record(0, off, [], false)
  {
    hide AllHex; hide HexBetween; hide TwoDigits; hide FourDigits; hide ByteOf; hide WordOf; hide DataOf;
    hide Cropped; hide RecordText;
    CroppedFirst(buf);
    HeaderRead(0, off, data, sum, Cropped(buf));
  }

  // ----- the lines of a text ----------------------------------------------------------

  /** The lines of a text, piece by piece; others(i) is what piece i is taken for if
    * it has no proper digits. */
  function LinesFrom(text: string, n: nat, others: nat -> Line): seq<Line>
    decreases |text|
  {
    if text == "" then []
    else
      var k := PieceLength(text);
      [LineOf(text[..k], others(n))] + LinesFrom(text[k..], n + 1, others)
  }

  lemma LinesStep(text: string, rest: string, n: nat, others: nat -> Line)
    requires text != "" && PieceLength(text + rest) == |text|
    ensures LinesFrom(text + rest, n, others) == [LineOf(text, others(n))] + LinesFrom(rest, n + 1, others)
  {
    hide LineOf; hide PieceLength;
    assert (text + rest)[..|text|] == text && (text + rest)[|text|..] == rest;
  }

  lemma BreakLength(eol: string, rest: string)
    requires IsBreak(eol)
    ensures BreakAt(eol + rest) == |eol|
  {
    if eol == "\n" {
      assert (eol + rest)[0] == '\n';
    } else {
      assert (eol + rest)[0] == '\r' && (eol + rest)[1..][0] == '\n';
    }
  }

  lemma RecordBreak(kind: U8, off: U16, data: Payload, sum: U8, eol: string, rest: string)
    requires IsBreak(eol)
    ensures BreakAt(RecordText(kind, off, data, sum) + (eol + rest)) == 11 + 2 * |data| + |eol|
  {
    hide RecordText; hide BreakAt;
    RecordHasNoBreak(kind, off, data, sum);
    BreakBehind(RecordText(kind, off, data, sum), eol + rest);
    BreakLength(eol, rest);
  }

  /** A line with its break, cropped. */
  lemma CropBreak(s: string, eol: string)
    requires NoBreak(s) && IsBreak(eol)
    ensures s <= Cropped(s + eol)
  {
    hide Cropped;
    if eol == "\n" {
      CropLine(s, eol);
    } else {
      assert NoBreak(s + "\r");
      CropLine(s + "\r", "\n");
      assert s + eol == s + "\r" + "\n";
    }
  }

  /** A record of at most 249 bytes, written as the Intel HEX specification says,
    * with any check sum, is read back. */
  lemma ShortRecordLine(kind: U8, off: U16, data: Payload, sum: U8, eol: string, rest: string, n: nat,
                        others: nat -> Line)
    requires IsBreak(eol) && |data| <= 249 && (kind == 0 || data == [])
    ensures LinesFrom(RecordText(kind, off, data, sum) + eol + rest, n, others)
         == [Record(kind, off, data, true)] + LinesFrom(rest, n + 1, others)
  {
    hide RecordText; hide LineOf; hide LinesFrom; hide Cropped; hide BreakAt;
    var s := RecordText(kind, off, data, sum);
    RecordBreak(kind, off, data, sum, eol, rest);
    Assoc(s, eol, rest);
    LinesStep(s + eol, rest, n, others);
    RecordHasNoBreak(kind, off, data, sum);
    CropBreak(s, eol);
    ReadWhole(kind, off, data, sum, s + eol, others(n));
  }

  /** One of 250 bytes fills the buffer: it is read, and its line break is left over
    * as a line of its own that is no record. */
  lemma FullRecordLine(off: U16, data: Payload, sum: U8, eol: string, rest: string, n: nat, others: nat -> Line)
    requires IsBreak(eol) && |data| == 250
    ensures LinesFrom(RecordText(0, off, data, sum) + eol + rest, n, others)
         == [Record(0, off, data, true)] + ([Garbage] + LinesFrom(rest, n + 2, others))
  {
    hide RecordText; hide LineOf; hide LinesFrom; hide Cropped; hide BreakAt;
    var s := RecordText(0, off, data, sum);
    RecordBreak(0, off, data, sum, eol, rest);
    Assoc(s, eol, rest);
    LinesStep(s, eol + rest, n, others);
    RecordHasNoBreak(0, off, data, sum);
    CropLine(s, "");
    assert s + "" == s;
    ReadWhole(0, off, data, sum, s, others(n));
    BreakLength(eol, rest);
    LinesStep(eol, rest, n + 1, others);
    BreakIsGarbage(eol, others(n + 1));
  }

  lemma BreakIsGarbage(eol: string, other: Line)
    requires IsBreak(eol)
    ensures LineOf(eol, other) == Garbage
  {
  }

  /** A longer one does not fit, and its first piece is too short. */
  lemma LongRecordLine(off: U16, data: Payload, sum: U8, eol: string, rest: string, n: nat, others: nat -> Line)
    requires IsBreak(eol) && |data| > 250
    ensures var lines := LinesFrom(RecordText(0, off, data, sum) + eol + rest, n, others);
            lines != [] && lines[0] == Record(0, off, [], false)
  {
    hide RecordText; hide LineOf; hide Cropped; hide BreakAt;
    var s := RecordText(0, off, data, sum);
    RecordBreak(0, off, data, sum, eol, rest);
    Assoc(s, eol, rest);
    var piece := s[..LINE_BUFFER];
    assert (s + eol + rest)[..LINE_BUFFER] == piece;
    RecordHasNoBreak(0, off, data, sum);
    assert NoBreak(piece);
    CropLine(piece, "");
    assert piece + "" == piece;
    ReadPart(off, data, sum, piece, others(n));
  }

  // ----- the characters of a line -----------------------------------------------------

  /** The digits and their values, in both cases. */
  lemma DigitValues(v: nat)
    requires v < 16
    ensures HexValue("0123456789ABCDEF"[v]) == v && HexValue("0123456789abcdef"[v]) == v
    ensures HexDigit(v) == "0123456789ABCDEF"[v]
  {
  }

  lemma Digits(c: char)
    ensures IsHex(c) <==> c in "0123456789ABCDEFabcdef"
  {
    var digits := "0123456789ABCDEFabcdef";
    if '0' <= c <= '9' {
      assert digits[c as int - '0' as int] == c;
    } else if 'A' <= c <= 'F' {
      assert digits[c as int - 'A' as int + 10] == c;
    } else if 'a' <= c <= 'f' {
      assert digits[c as int - 'a' as int + 16] == c;
    }
  }

  /** One letter, perhaps of another case. */
  predicate SameLetter(c: char, d: char)
  {
    c == d || ('A' <= c <= 'F' && d as int == c as int + 32) || ('A' <= d <= 'F' && c as int == d as int + 32)
  }

  /** Texts that agree up to the case of the letters a to f. */
  predicate SameText(s: string, t: string)
  {
    |s| == |t| && forall i :: 0 <= i < |s| ==> SameLetter(s[i], t[i])
  }

  lemma SameTextSelf(s: string)
    ensures SameText(s, s)
  {
  }

  lemma SameLetterValue(c: char, d: char)
    requires SameLetter(c, d)
    ensures IsHex(c) <==> IsHex(d)
    ensures IsHex(c) ==> HexValue(c) == HexValue(d)
    ensures c in {'\n', '\0', ':', '#'} || d in {'\n', '\0', ':', '#'} ==> c == d
  {
  }

  lemma SamePiece(s: string, t: string, from: nat, to: nat)
    requires SameText(s, t) && from <= to <= |s|
    ensures SameText(s[from..to], t[from..to])
    ensures HexBetween(s, from, to) <==> HexBetween(t, from, to)
  {
    hide SameLetter; hide IsHex;
    forall i | from <= i < to ensures IsHex(s[i]) <==> IsHex(t[i]) {
      SameLetterValue(s[i], t[i]);
    }
  }

  lemma SameBytes(s: string, t: string)
    requires SameText(s, t) && AllHex(s) && AllHex(t)
    ensures |s| == 2 ==> ByteOf(s) == ByteOf(t)
    ensures |s| == 4 ==> WordOf(s) == WordOf(t)
  {
    hide SameLetter; hide IsHex; hide HexValue;
    forall i | 0 <= i < |s| ensures HexValue(s[i]) == HexValue(t[i]) {
      SameLetterValue(s[i], t[i]);
    }
  }

  lemma {:induction false} SameData(s: string, t: string)
    requires SameText(s, t) && |s| % 2 == 0 && AllHex(s) && AllHex(t)
    ensures DataOf(s) == DataOf(t)
  {
    hide SameLetter; hide IsHex; hide ByteOf;
    if s == "" {
    } else {
      SameData(s[..|s| - 2], t[..|t| - 2]);
      SameBytes(s[|s| - 2..], t[|t| - 2..]);
    }
  }

  lemma {:induction false} SameCropped(s: string, t: string)
    requires SameText(s, t)
    ensures SameText(Cropped(s), Cropped(t))
  {
    hide SameLetter;
    if s == "" {
    } else {
      SameLetterValue(s[0], t[0]);
      SameCropped(s[1..], t[1..]);
    }
  }

  lemma {:induction false} SameBreak(s: string, t: string)
    requires SameText(s, t)
    ensures BreakAt(s) == BreakAt(t)
  {
    hide SameLetter;
    if s == "" {
    } else {
      SameLetterValue(s[0], t[0]);
      SameBreak(s[1..], t[1..]);
    }
  }

  lemma SameHeader(s: string, t: string)
    requires SameText(s, t)
    ensures HexBetween(s, 1, 9) <==> HexBetween(t, 1, 9)
    ensures HexBetween(s, 1, 9) ==>
              && ByteOf(s[1..3]) == ByteOf(t[1..3]) && WordOf(s[3..7]) == WordOf(t[3..7])
              && ByteOf(s[7..9]) == ByteOf(t[7..9])
  {
    hide SameLetter; hide IsHex; hide ByteOf; hide WordOf;
    if |s| >= 9 {
      SamePiece(s, t, 1, 9);
      if HexBetween(s, 1, 9) {
        SamePiece(s, t, 1, 3);
        SamePiece(s, t, 3, 7);
        SamePiece(s, t, 7, 9);
        SameBytes(s[1..3], t[1..3]);
        SameBytes(s[3..7], t[3..7]);
        SameBytes(s[7..9], t[7..9]);
      }
    }
  }

  /** The case of the digits a to f makes no difference to a line. */
  lemma SameLine(s: string, t: string, other: Line)
    requires SameText(s, t)
    ensures LineOf(s, other) == LineOf(t, other)
  {
    hide SameLetter; hide IsHex; hide ByteOf; hide WordOf; hide DataOf; hide Cropped;
    if s != "" {
      SameLetterValue(s[0], t[0]);
      var a, b := Cropped(s), Cropped(t);
      SameCropped(s, t);
      SameHeader(a, b);
      if HexBetween(a, 1, 9) && HoldsData(a) {
        var end := 9 + 2 * ByteOf(a[1..3]);
        SamePiece(a, b, 9, end);
        if HexBetween(a, 9, end) {
          SameData(a[9..end], b[9..end]);
        }
      }
    }
  }

  /** Nor to the lines of a text. */
  lemma {:induction false} SameLines(s: string, t: string, n: nat, others: nat -> Line)
    requires SameText(s, t)
    ensures LinesFrom(s, n, others) == LinesFrom(t, n, others)
    decreases |s|
  {
    hide SameLetter; hide LineOf; hide BreakAt;
    if s == "" {
    } else {
      SameBreak(s, t);
      var k := PieceLength(s);
      SameLine(s[..k], t[..k], others(n));
      SameLines(s[k..], t[k..], n + 1, others);
    }
  }

  /** The value of the two digits at i. */
  function ByteAt(s: string, i: nat): (v: U8)
    requires HexBetween(s, i, i + 2)
  {
    16 * HexValue(s[i]) + HexValue(s[i + 1])
  }

  lemma {:induction false} DataAt(digits: string, i: nat)
    requires |digits| % 2 == 0 && AllHex(digits) && 2 * i + 1 < |digits|
    ensures DataOf(digits)[i] == 16 * HexValue(digits[2 * i]) + HexValue(digits[2 * i + 1])
  {
    hide IsHex; hide HexValue;
    if 2 * i + 2 < |digits| {
      DataAt(digits[..|digits| - 2], i);
    }
  }

  /** Where the fields of a line lie: the mark at 0, the length at 1, the address
    * at 3, the type at 7, byte i of the data at 9 + 2 * i, and behind it two digits
    * that must be there. A line break or a NUL ends the line. */
  lemma FieldsOfLine(s: string, t: string, other: Line)
    requires NoBreak(s) && (t == "" || t[0] == '\n' || t[0] == '\0')
    requires HexBetween(s, 1, |s|) && |s| >= 9 && s[0] == ':'
    ensures var l, len := LineOf(s + t, other), ByteAt(s, 1);
            && l.Record? && l.kind == ByteAt(s, 7) && l.off == 0x100 * ByteAt(s, 3) + ByteAt(s, 5)
            && (l.complete <==> |s| >= 1 + 2 + 4 + 2 + 2 * len + 2)
            && |l.data| == (if l.kind == 0 && l.complete then len else 0)
            && forall i :: 0 <= i < |l.data| ==> l.data[i] == ByteAt(s, 9 + 2 * i)
  {
    hide IsHex; hide HexValue; hide Cropped; hide DataOf;
    CropLine(s, t);
    var len: nat := ByteAt(s, 1);
    assert ByteOf(s[1..3]) == len && WordOf(s[3..7]) == 0x100 * ByteAt(s, 3) + ByteAt(s, 5);
    assert ByteOf(s[7..9]) == ByteAt(s, 7);
    if HoldsData(s) {
      var digits := s[9..9 + 2 * len];
      forall i | 0 <= i < len ensures DataOf(digits)[i] == ByteAt(s, 9 + 2 * i) {
        DataAt(digits, i);
        assert digits[2 * i] == s[9 + 2 * i] && digits[2 * i + 1] == s[9 + 2 * i + 1];
      }
    }
  }

  /** Lines that are no records: comments, and what the reader rejects. */
  lemma OtherLines(buf: string, other: Line)
    requires buf != "" && buf[0] != ':'
    ensures LineOf(buf, other) == if buf[0] == '#' then Comment else Garbage
  {
  }

  /** Two digits in either case. */
  lemma EitherCase()
    ensures DataOf("AB") == DataOf("Ab") == DataOf("aB") == DataOf("ab") == [0xAB]
  {
    assert "AB"[..0] == "Ab"[..0] == "aB"[..0] == "ab"[..0] == "";
    assert "AB"[0..] == "AB" && "Ab"[0..] == "Ab" && "aB"[0..] == "aB" && "ab"[0..] == "ab";
  }
}
