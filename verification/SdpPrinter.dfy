/** The serializer: writes into a 256-byte array in place and walks the tree
  * with a double-ended queue. */
module SdpPrinter {
  import opened Bytes
  import opened Sequences
  import opened SdpElement
  import opened SdpScan
  import opened SdpEncoding
  import opened SdpParser

  /** Writes the low bytes of value, the last one first. The access is checked, so
    * a value that does not fit fails at its last byte. */
  method WriteNumber(target: array<U8>, pos: nat, value: nat, max: nat) returns (ok: bool)
    requires pos <= target.Length
    modifies target
    ensures ok <==> pos + max <= target.Length
    ensures target[..] == if ok then Overlay(old(target[..]), pos, BigEndian(value, max)) else old(target[..])
  {
    ghost var b := BigEndian(value, max);
    var i := max;
    while i > 0
      invariant 0 <= i <= max && (i < max ==> pos + max <= target.Length)
      invariant forall k :: i <= k < max ==> target[pos + k] == b[k]
      invariant forall k :: 0 <= k < target.Length && !(pos + i <= k < pos + max) ==> target[k] == old(target[k])
    {
      if pos + i - 1 >= target.Length {
        assert target[..] == old(target[..]);
        return false;
      }
      BigEndianByte(value, max, max - i);
      target[pos + i - 1] := ShiftRight(value, max - i) % 0x100;
      i := i - 1;
    }
    assert target[pos..pos + max] == b;
    assert target[..pos] == old(target[..pos]) && target[pos + max..] == old(target[pos + max..]);
    assert target[..] == target[..pos] + target[pos..pos + max] + target[pos + max..];
    return true;
  }

  method CopyText(target: array<U8>, pos: nat, text: seq<U8>)
    requires pos + |text| <= target.Length
    modifies target
    ensures target[..] == Overlay(old(target[..]), pos, text)
  {
    for i := 0 to |text|
      invariant forall k :: 0 <= k < i ==> target[pos + k] == text[k]
      invariant forall k :: 0 <= k < target.Length && !(pos <= k < pos + i) ==> target[k] == old(target[k])
    {
      target[pos + i] := text[i];
    }
    assert target[pos..pos + |text|] == text;
    assert target[..pos] == old(target[..pos]) && target[pos + |text|..] == old(target[pos + |text|..]);
    assert target[..] == target[..pos] + target[pos..pos + |text|] + target[pos + |text|..];
  }

  datatype Description = Descriptors(kindCode: nat, sizeCode: nat, max: nat) | NotPrintable | WideShift

  /** What follows the descriptor byte; max is the number of value bytes. */
  function Body(f: Fields, max: nat): (b: seq<U8>)
    requires f.kind == TextString ==> max == |f.text|
    ensures |b| == max + if f.kind == TextString then 1 else 0
  {
    match f.kind
    case Uuid => BigEndian(f.uuidValue, max)
    case Sequence => BigEndian(f.size, max)
    case TextString => [|f.text| % 0x100] + f.text
    case _ => BigEndian(f.uintValue, max)
  }

  /** The descriptor byte; a dummy has none. */
  function Header(kind: ElementType, kindCode: nat, sizeCode: nat): (b: seq<U8>)
    ensures |b| == if kind == DummyUint then 0 else 1
  {
    if kind == DummyUint then [] else [kindCode % 0x20 * 8 + sizeCode % 8]
  }

  /** Type and size descriptor of e, and the number of value bytes to write. */
  method Describe(e: DataElement) returns (d: Description)
    ensures match EncodeFields(e.Own())
            case Rejected => d == NotPrintable
            case Unspecified => d == WideShift
            case Coded(b) =>
              && d.Descriptors? && (e.kind == TextString ==> d.max == |e.text|)
              && e.kind in {DummyUint, Uint, Uuid, TextString, Sequence}
              && b == Header(e.kind, d.kindCode, d.sizeCode) + Body(e.Own(), d.max)
  {
    hide EncodeFields; hide Header; hide Body;
    if e.kind in {Uint, Uuid} {
      NumberParts(e.Own());
    } else {
      OtherParts(e.Own());
    }
    match e.kind {
      case DummyUint =>
        return if e.size % 0x100 > 4 then WideShift else Descriptors(0xFF, 0, e.size % 0x100);
      case Uint =>
        if e.size == 1 || e.size == 2 || e.size == 4 {
          return Descriptors(1, if e.size == 4 then 2 else e.size - 1, e.size);
        }
        return NotPrintable;
      case Uuid =>
        if e.size == 1 || e.size == 2 || e.size == 4 {
          return Descriptors(3, if e.size == 4 then 2 else e.size - 1, e.size);
        }
        return NotPrintable;
      case TextString => return Descriptors(4, 5, |e.text|);
      case Sequence => return Descriptors(6, 6, 2);
      case _ => return NotPrintable;
    }
  }

  /** The descriptors and the body that make up the encoding of a number. */
  lemma NumberParts(f: Fields)
    requires f.kind in {Uint, Uuid}
    ensures f.size in {1, 2, 4} ==>
              EncodeFields(f) == Coded(Header(f.kind, if f.kind == Uint then 1 else 3,
                                              if f.size == 4 then 2 else f.size - 1)
                                       + Body(f, f.size))
    ensures f.size !in {1, 2, 4} ==> EncodeFields(f) == Rejected
  {
    hide BigEndian;
  }

  lemma OtherParts(f: Fields)
    ensures f.kind == TextString ==> EncodeFields(f) == Coded(Header(f.kind, 4, 5) + Body(f, |f.text|))
    ensures f.kind == Sequence ==> EncodeFields(f) == Coded(Header(f.kind, 6, 6) + Body(f, 2))
    ensures f.kind == DummyUint ==>
              EncodeFields(f) == if f.size % 0x100 > 4 then Encoding.Unspecified
                                 else Coded(Header(f.kind, 0xFF, 0) + Body(f, f.size % 0x100))
    ensures f.kind !in {DummyUint, Uint, Uuid, TextString, Sequence} ==> EncodeFields(f) == Rejected
  {
    hide BigEndian; hide Body; hide Header;
    if f.kind == TextString {
      TextParts(f);
    } else if f.kind == DummyUint {
      DummyParts(f);
    } else if f.kind == Sequence {
      SequenceParts(f);
    }
  }

  lemma TextParts(f: Fields)
    requires f.kind == TextString
    ensures EncodeFields(f) == Coded(Header(f.kind, 4, 5) + Body(f, |f.text|))
  {
    var n := |f.text| % 0x100;
    assert [37, n] == [37] + [n];
    Assoc([37], [n], f.text);
  }

  lemma DummyParts(f: Fields)
    requires f.kind == DummyUint
    ensures f.size % 0x100 <= 4 ==> EncodeFields(f) == Coded(Header(f.kind, 0xFF, 0) + Body(f, f.size % 0x100))
  {
    hide BigEndian;
    assert [] + Body(f, f.size % 0x100) == Body(f, f.size % 0x100);
  }

  lemma SequenceParts(f: Fields)
    requires f.kind == Sequence
    ensures EncodeFields(f) == Coded(Header(f.kind, 6, 6) + Body(f, 2))
  {
    hide BigEndian;
  }

  /** What is left of a body that does not fit: nothing, as far as the access is
    * checked. Of a text that starts inside the array, nothing is promised. */
  function BodyResult(f: Fields, pos: nat, body: seq<U8>): (r: PrintResult)
    ensures !r.Refused?
  {
    if pos + |body| <= BUFFER_SIZE then Returned(|body| % 0x100)
    else if f.kind == TextString && pos < BUFFER_SIZE then Undefined
    else OutOfBounds
  }

  method WriteBody(target: array<U8>, e: DataElement, pos: nat, max: nat) returns (r: PrintResult)
    requires target.Length == BUFFER_SIZE && pos <= BUFFER_SIZE
    requires e.kind in {DummyUint, Uint, Uuid, TextString, Sequence}
    requires e.kind == TextString ==> max == |e.text|
    modifies target
    ensures r == BodyResult(e.Own(), pos, Body(e.Own(), max))
    ensures r.Returned? ==> target[..] == Overlay(old(target[..]), pos, Body(e.Own(), max))
    ensures r.OutOfBounds? ==> target[..] == old(target[..])
  {
    hide Overlay; hide BigEndian;
    var ok;
    match e.kind {
      case Uuid => ok := WriteNumber(target, pos, e.uuidValue, max);
      case Sequence => ok := WriteNumber(target, pos, e.size, max);
      case TextString =>
        ok := WriteNumber(target, pos, |e.text| % 0x100, 1);
        if ok {
          if pos + 1 + |e.text| > target.Length {
            return Undefined;
          }
          OneByteBigEndian(|e.text| % 0x100);
          CopyText(target, pos + 1, e.text);
          OverlayTwice(old(target[..]), pos, [|e.text| % 0x100], e.text);
        }
      case Uint => ok := WriteNumber(target, pos, e.uintValue, max);
      case DummyUint => ok := WriteNumber(target, pos, e.uintValue, max);
    }
    return if ok then Returned((max + if e.kind == TextString then 1 else 0) % 0x100) else OutOfBounds;
  }

  lemma OneByteBigEndian(v: U8)
    ensures BigEndian(v, 1) == [v]
  {
    assert BigEndian(v / 256, 0) == [];
  }

  /** Writes one element without its children, and returns how many bytes, in
    * eight bits. */
  method SerializeSimple(target: array<U8>, e: DataElement, start: nat) returns (r: PrintResult)
    requires target.Length == BUFFER_SIZE && start <= 255
    modifies target
    ensures r == PrintOne(old(target[..]), e.Own(), start).result
    ensures r != Undefined ==> target[..] == PrintOne(old(target[..]), e.Own(), start).buffer
  {
    hide EncodeFields; hide Overlay; hide Body; hide PrintOne; hide BodyResult;
    var d := Describe(e);
    match d {
      case NotPrintable =>
        NotPrinted(target[..], e.Own(), start);
        return Refused;
      case WideShift =>
        NotPrinted(target[..], e.Own(), start);
        WideDummy(e.Own());
        return if start + e.size % 0x100 > target.Length then OutOfBounds else Undefined;
      case Descriptors(kindCode, sizeCode, max) =>
        ghost var header, body := Header(e.kind, kindCode, sizeCode), Body(e.Own(), max);
        PrintParts(target[..], e.Own(), header, body, start);
        var created := 0;
        if e.kind != DummyUint {
          target[start] := kindCode % 0x20 * 8 + sizeCode % 8;
          created := 1;
          OverlayByte(old(target[..]), start, header[0]);
          assert target[..] == old(target[..])[start := header[0]] && header == [header[0]];
        } else {
          assert header == [];
          OverlayNothing(target[..], start);
        }
        r := WriteBody(target, e, start + created, max);
        if r.Returned? {
          r := Returned((created + r.value) % 0x100);
        }
    }
  }

  lemma NotPrinted(buffer: seq<U8>, f: Fields, pos: nat)
    requires |buffer| == BUFFER_SIZE && pos <= 255
    ensures EncodeFields(f).Rejected? ==> PrintOne(buffer, f, pos) == Print(buffer, Refused)
    ensures EncodeFields(f).Unspecified? ==>
              PrintOne(buffer, f, pos)
              == Print(buffer, if pos + f.size % 0x100 > BUFFER_SIZE then OutOfBounds else Undefined)
  {
    hide EncodeFields;
  }

  /** An element is printed in two parts. */
  lemma PrintParts(buffer: seq<U8>, f: Fields, header: seq<U8>, body: seq<U8>, pos: nat)
    requires |buffer| == BUFFER_SIZE && pos <= 255
    requires EncodeFields(f) == Coded(header + body) && |header| == if f.kind == DummyUint then 0 else 1
    requires f.kind in {DummyUint, Uint, Uuid, TextString, Sequence}
    ensures var r, p := BodyResult(f, pos + |header|, body), PrintOne(buffer, f, pos);
            && (r.Returned? ==>
                  && p.result == Returned((|header| + r.value) % 0x100)
                  && pos + |header| + |body| <= BUFFER_SIZE
                  && p.buffer == Overlay(Overlay(buffer, pos, header), pos + |header|, body))
            && (!r.Returned? ==> p.result == r)
            && (r.OutOfBounds? ==> p.buffer == Overlay(buffer, pos, header))
  {
    hide EncodeFields; hide Overlay;
    EncodedParts(f, header, body, pos);
    if pos + |header| + |body| <= BUFFER_SIZE {
      OverlayTwice(buffer, pos, header, body);
    } else if f.kind == DummyUint {
      assert header == [];
      OverlayNothing(buffer, pos);
    } else {
      assert header == [header[0]];
      OverlayByte(buffer, pos, header[0]);
    }
  }

  lemma WideDummy(f: Fields)
    requires EncodeFields(f) == Encoding.Unspecified
    ensures f.kind == DummyUint
  {
  }

  lemma OverlayByte(s: seq<U8>, pos: nat, b: U8)
    requires pos < |s|
    ensures s[pos := b] == Overlay(s, pos, [b])
  {
  }

  /** A descriptor and a body that make up an encoding. */
  lemma EncodedParts(f: Fields, header: seq<U8>, body: seq<U8>, pos: nat)
    requires EncodeFields(f) == Coded(header + body) && pos <= 255
    requires |header| == if f.kind == DummyUint then 0 else 1
    ensures |header + body| % 0x100 == (|header| + |body| % 0x100) % 0x100
    ensures header != [] ==> (header + body)[0] == header[0]
    ensures header == [] ==> header + body == body
  {
    hide EncodeFields;
    LowByteOfSum(|header|, |body|);
  }

  lemma LowByteOfSum(a: nat, b: nat)
    ensures (a + b) % 0x100 == (a + b % 0x100) % 0x100
  {
    var q, r := b / 0x100, b % 0x100;
    assert a + b == 0x100 * q + (a + r);
  }

  // ----- the walk over the tree ---------------------------------------------

  /** Puts the children in front of the queue, the last one first. */
  method PushChildren(queue: seq<DataElement>, children: seq<DataElement>) returns (q: seq<DataElement>)
    ensures q == children + queue
  {
    q := queue;
    var i := |children|;
    while i > 0
      invariant 0 <= i <= |children| && q == children[i..] + queue
    {
      i := i - 1;
      q := [children[i]] + q;
    }
  }

  /** The elements of a queue whose front is t and whose rest is ts, when t has
    * been replaced by the children it shows. */
  function Expanded(t: Tree, ts: seq<Tree>): seq<Tree>
  {
    if t.fields.kind == Sequence then t.kids + ts else ts
  }

  lemma {:induction false} OrderConcat(a: seq<Tree>, b: seq<Tree>)
    ensures PrintOrderForest(a + b) == PrintOrderForest(a) + PrintOrderForest(b)
    ensures CodeForest(a + b) == CodeForest(a) + CodeForest(b)
  {
    if a == [] {
      assert a + b == b;
    } else {
      assert (a + b)[1..] == a[1..] + b;
      OrderConcat(a[1..], b);
      Assoc(PrintOrder(a[0]), PrintOrderForest(a[1..]), PrintOrderForest(b));
      Assoc(Code(a[0]), CodeForest(a[1..]), CodeForest(b));
    }
  }

  /** One element is printed, and the rest of its tree stays in front. */
  lemma ExpandOrder(ts: seq<Tree>)
    requires ts != []
    ensures PrintOrderForest(ts) == [ts[0].fields] + PrintOrderForest(Expanded(ts[0], ts[1..]))
    ensures CodeForest(ts) == Coding(ts[0].fields) + CodeForest(Expanded(ts[0], ts[1..]))
  {
    hide Coding;
    var t, rest := ts[0], ts[1..];
    if t.fields.kind == Sequence {
      OrderConcat(t.kids, rest);
      Assoc(Coding(t.fields), CodeForest(t.kids), CodeForest(rest));
      Assoc([t.fields], PrintOrderForest(t.kids), PrintOrderForest(rest));
    } else {
      assert Coding(t.fields) + [] == Coding(t.fields);
      assert [t.fields] + [] == [t.fields];
    }
  }

  lemma ModelsFront(n: DataElement, t: Tree, nodes: set<DataElement>)
    requires Models(n, t, nodes)
    ensures n.Own() == t.fields && ModelsAll(n.children, t.kids, nodes)
  {
  }

  lemma ModelsConcat(ms: seq<DataElement>, ns: seq<DataElement>, ss: seq<Tree>, ts: seq<Tree>, nodes: set<DataElement>)
    requires ModelsAll(ms, ss, nodes) && ModelsAll(ns, ts, nodes)
    ensures ModelsAll(ms + ns, ss + ts, nodes)
  {
    hide Models;
    forall i | 0 <= i < |ms + ns| ensures Models((ms + ns)[i], (ss + ts)[i], nodes) {
      if i < |ms| {
        assert Models(ms[i], ss[i], nodes);
      } else {
        assert Models(ns[i - |ms|], ts[i - |ms|], nodes);
      }
    }
  }

  lemma ModelsRest(ns: seq<DataElement>, ts: seq<Tree>, nodes: set<DataElement>)
    requires ns != [] && ModelsAll(ns, ts, nodes)
    ensures ts != [] && Models(ns[0], ts[0], nodes) && ModelsAll(ns[1..], ts[1..], nodes)
  {
    hide Models;
    forall i | 0 <= i < |ns[1..]| ensures Models(ns[1..][i], ts[1..][i], nodes) {
      assert Models(ns[i + 1], ts[i + 1], nodes);
    }
  }

  lemma ModelsExpanded(queue: seq<DataElement>, forest: seq<Tree>, nodes: set<DataElement>)
    requires queue != [] && ModelsAll(queue, forest, nodes)
    ensures forest != [] && queue[0].Own() == forest[0].fields
    ensures ModelsAll((if queue[0].kind == Sequence then queue[0].children else []) + queue[1..],
                      Expanded(forest[0], forest[1..]), nodes)
  {
    hide Models; hide ModelsAll;
    ModelsRest(queue, forest, nodes);
    ModelsFront(queue[0], forest[0], nodes);
    if queue[0].kind == Sequence {
      ModelsConcat(queue[0].children, queue[1..], forest[0].kids, forest[1..], nodes);
    } else {
      assert [] + queue[1..] == queue[1..];
    }
  }

  /** Writes root and everything below it from start on. The queue holds what is
    * still to be written; the returned value is the index behind the last byte. */
  method SerializeSequence(target: array<U8>, root: DataElement, start: nat, ghost t: Tree,
                           ghost nodes: set<DataElement>)
    returns (r: PrintResult)
    requires target.Length == BUFFER_SIZE && start <= 255 && Models(root, t, nodes)
    modifies target
    ensures r == PrintAll(old(target[..]), PrintOrder(t), start).result
    ensures r != Undefined ==> target[..] == PrintAll(old(target[..]), PrintOrder(t), start).buffer
    ensures Encodable(PrintOrder(t)) && start + |Code(t)| <= BUFFER_SIZE ==>
              && r == Returned((start + |Code(t)|) % 0x100)
              && target[..] == Overlay(old(target[..]), start, Code(t))
  {
    hide EncodeFields; hide Overlay; hide Code; hide PrintOrder; hide CodeForest; hide PrintOrderForest;
    hide ModelsAll; hide Expanded; hide PrintAll; hide PrintOne; hide Encodable;
    var queue := [root];
    var cursor: nat := start;
    ghost var forest := [t];
    ghost var whole := PrintAll(target[..], PrintOrder(t), start);
    if Encodable(PrintOrder(t)) && start + |Code(t)| <= BUFFER_SIZE {
      WholeTree(target[..], t, start);
    }
    ForestOfOneTree(t);
    ModelsOne(root, t, nodes);
    while queue != []
      invariant cursor <= 255 && ModelsAll(queue, forest, nodes)
      invariant PrintAll(target[..], PrintOrderForest(forest), cursor) == whole
      decreases |PrintOrderForest(forest)|
    {
      var current := queue[0];
      ModelsExpanded(queue, forest, nodes);
      ExpandOrder(forest);
      PrintAllStep(target[..], current.Own(), PrintOrderForest(Expanded(forest[0], forest[1..])), cursor);
      r := SerializeSimple(target, current, cursor);
      if !r.Returned? {
        return;
      }
      cursor := (cursor + r.value) % 0x100;
      queue := queue[1..];
      if current.kind == Sequence {
        queue := PushChildren(queue, current.children);
      } else {
        assert [] + queue == queue;
      }
      forest := Expanded(forest[0], forest[1..]);
    }
    NothingLeft(target[..], queue, forest, nodes, cursor);
    return Returned(cursor);
  }

  lemma WholeTree(buffer: seq<U8>, t: Tree, start: nat)
    requires |buffer| == BUFFER_SIZE && start <= 255
    requires Encodable(PrintOrder(t)) && start + |Code(t)| <= BUFFER_SIZE
    ensures PrintAll(buffer, PrintOrder(t), start) ==
                  Print(Overlay(buffer, start, Code(t)), Returned((start + |Code(t)|) % 0x100))
  {
    hide EncodeFields;
    TreeBytes(t);
    PrintAllFits(buffer, PrintOrder(t), start);
  }

  lemma ModelsOne(n: DataElement, t: Tree, nodes: set<DataElement>)
    requires Models(n, t, nodes)
    ensures ModelsAll([n], [t], nodes)
  {
  }

  lemma NothingLeft(buffer: seq<U8>, ns: seq<DataElement>, ts: seq<Tree>, nodes: set<DataElement>, pos: nat)
    requires ModelsAll(ns, ts, nodes) && ns == [] && |buffer| == BUFFER_SIZE && pos <= 255
    ensures PrintAll(buffer, PrintOrderForest(ts), pos) == Print(buffer, Returned(pos))
  {
    assert ts == [];
  }

  lemma PrintAllStep(buffer: seq<U8>, f: Fields, fs: seq<Fields>, pos: nat)
    requires |buffer| == BUFFER_SIZE && pos <= 255
    ensures var p := PrintOne(buffer, f, pos);
            PrintAll(buffer, [f] + fs, pos) ==
              if p.result.Returned? then PrintAll(p.buffer, fs, (pos + p.result.value) % 0x100) else p
  {
    hide PrintOne;
    assert ([f] + fs)[1..] == fs;
  }

  lemma ForestOfOneTree(t: Tree)
    ensures PrintOrderForest([t]) == PrintOrder(t) && CodeForest([t]) == Code(t)
    ensures PrintOrderForest([]) == [] && CodeForest([]) == []
  {
    hide EncodeFields;
    assert [t][1..] == [];
    assert PrintOrder(t) + [] == PrintOrder(t) && Code(t) + [] == Code(t);
  }

  /** Writes any element. The value returned for a sequence is the index behind
    * its last byte, that returned for a leaf the number of its bytes. */
  method Serialize(target: array<U8>, e: DataElement, start: nat, ghost t: Tree, ghost nodes: set<DataElement>)
    returns (r: PrintResult)
    requires target.Length == BUFFER_SIZE && start <= 255 && Models(e, t, nodes)
    modifies target
    ensures Encodable(PrintOrder(t)) && start + |Code(t)| <= BUFFER_SIZE ==>
              && r == Returned((|Code(t)| + if t.fields.kind == Sequence then start else 0) % 0x100)
              && target[..] == Overlay(old(target[..]), start, Code(t))
    ensures r.Returned? <==> NoneStraddles(PrintOrder(t), start)
    ensures var p := if t.fields.kind == Sequence then PrintAll(old(target[..]), PrintOrder(t), start)
                     else PrintOne(old(target[..]), t.fields, start);
            r == p.result && (r != Undefined ==> target[..] == p.buffer)
  {
    hide EncodeFields; hide Overlay; hide PrintAll; hide PrintOne; hide Encodable; hide Code; hide PrintOrder;
    if e.kind == Sequence {
      r := SerializeSequence(target, e, start, t, nodes);
      PrintAllReturns(old(target[..]), PrintOrder(t), start);
    } else {
      LeafOrder(t);
      PrintOneFits(old(target[..]), t.fields, start);
      r := SerializeSimple(target, e, start);
    }
  }

  lemma LeafOrder(t: Tree)
    requires t.fields.kind != Sequence
    ensures PrintOrder(t) == [t.fields] && Code(t) == Coding(t.fields)
    ensures Encodable(PrintOrder(t)) <==> EncodeFields(t.fields).Coded?
  {
    hide EncodeFields;
    assert PrintOrder(t)[0] == t.fields;
  }
}
