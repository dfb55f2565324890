/** What the parser reads: single elements, the left-to-right scan of an
  * element and the tree the moving "current" pointer makes of that scan. */
module SdpScan {
  import opened Bytes
  import opened Sequences
  import opened SdpElement

  /** One element header with the body of a leaf; length is in bytes. */
  datatype Token = Token(fields: Fields, length: nat)

  datatype TokenResult = Item(token: Token) | BadType | Beyond

  datatype ScanResult =
    | Scanned(tokens: seq<Token>, end: nat)
    | Threw        // an element type the parser throws on
    | OutOfRange   // a read past the data, or an 8-bit index or count that would wrap

  /** Headers and bodies start at 8-bit indices: what ends here is in reach. */
  function Limit(data: seq<U8>): nat
  {
    if |data| < 256 then |data| else 256
  }

  function KindOf(code: nat): ElementType
  {
    match code
    case 1 => Uint
    case 3 => Uuid
    case 4 => TextString
    case 6 => Sequence
    case _ => Unknown
  }

  /** Bytes of a header whose size descriptor is desc. */
  function HeaderLength(desc: nat): (n: nat)
    ensures 1 <= n <= 4
  {
    if desc <= 4 then 1 else if desc == 5 then 2 else if desc == 6 then 3 else 4
  }

  /** The size a header announces, as the 16-bit field keeps it. */
  function DeclaredSize(header: seq<U8>): U16
    requires |header| > 0 && |header| == HeaderLength(header[0] % 8)
  {
    match header[0] % 8
    case 0 => 1
    case 1 => 2
    case 2 => 4
    case 3 => 8
    case 4 => 16
    case _ => FromBigEndian(header[1..]) % 0x1_0000
  }

  /** The fields of an element with the given header and body. */
  function FieldsOf(start: nat, kind: ElementType, size: U16, body: seq<U8>): Fields
  {
    Fields(start, kind, size,
           if kind == Uint then FromBigEndian(body) % 0x1_0000_0000 else 0,
           if kind == Uuid then FromBigEndian(body) % 0x1_0000 else 0,
           if kind == TextString then body else [])
  }

  /** A header of n bytes at pos can be read. */
  predicate HeaderInReach(data: seq<U8>, pos: nat, n: nat)
  {
    pos <= 255 && pos + n <= |data|
  }

  /** A body of the given size can be read at pos. */
  predicate BodyInReach(data: seq<U8>, pos: nat, size: nat)
  {
    (size > 0 ==> pos <= 255) && pos + size <= |data|
  }

  /** Reads one element at pos: of a sequence only its header. */
  function ReadToken(data: seq<U8>, pos: nat): (r: TokenResult)
    ensures r.Item? ==> r.token.fields.start == pos && r.token.length >= 1
    ensures r.Item? ==> pos <= 255 && pos + r.token.length <= |data|
    ensures r.Item? ==> r.token.fields.kind != Unknown
    ensures r.Item? && r.token.fields.kind != Sequence ==> r.token.length > r.token.fields.size
  {
    if pos >= |data| then Beyond
    else
      var n := HeaderLength(data[pos] % 8);
      if !HeaderInReach(data, pos, n) then Beyond
      else
        var kind, size := KindOf(data[pos] / 8), DeclaredSize(data[pos..pos + n]);
        if kind == Unknown then BadType
        else if kind == Sequence then Item(Token(FieldsOf(pos, kind, size, []), n))
        else if !BodyInReach(data, pos + n, size) then Beyond
        else Item(Token(FieldsOf(pos, kind, size, data[pos + n..pos + n + size]), n + size))
  }

  /** What the first bytes of an element say: the type in five bits, in the other three
    * one of five sizes or the number of size bytes that follow. Of three of these the
    * first does not fit the 16-bit field. */
  lemma HeaderMeans(data: seq<U8>, pos: nat)
    requires ReadToken(data, pos).Item?
    ensures var t, code, desc := ReadToken(data, pos).token, data[pos] / 8, data[pos] % 8;
            && t.fields.kind == (match code case 1 => Uint case 3 => Uuid case 4 => TextString case _ => Sequence)
            && code in {1, 3, 4, 6}
            && t.length == (match desc case 5 => 2 case 6 => 3 case 7 => 4 case _ => 1)
                 + (if code == 6 then 0 else t.fields.size)
            && pos + t.length <= |data|
            && t.fields.size ==
               match desc
               case 0 => 1
               case 1 => 2
               case 2 => 4
               case 3 => 8
               case 4 => 16
               case 5 => data[pos + 1] as int
               case 6 => data[pos + 1] as int * 0x100 + data[pos + 2]
               case _ => data[pos + 2] as int * 0x100 + data[pos + 3]
  {
    hide DeclaredSize;
    SizeMeans(data[pos..pos + HeaderLength(data[pos] % 8)]);
  }

  lemma SizeMeans(header: seq<U8>)
    requires |header| > 0 && |header| == HeaderLength(header[0] % 8)
    ensures DeclaredSize(header) ==
              match header[0] % 8
              case 0 => 1
              case 1 => 2
              case 2 => 4
              case 3 => 8
              case 4 => 16
              case 5 => header[1] as int
              case 6 => header[1] as int * 0x100 + header[2]
              case _ => header[2] as int * 0x100 + header[3]
  {
    hide FromBigEndian;
    SmallNumbers(header[1..]);
  }

  lemma SmallNumbers(b: seq<U8>)
    ensures |b| == 1 ==> FromBigEndian(b) == b[0]
    ensures |b| == 2 ==> FromBigEndian(b) == b[0] as int * 0x100 + b[1] < 0x1_0000
    ensures |b| == 3 ==> FromBigEndian(b) == b[0] as int * 0x1_0000 + (b[1] as int * 0x100 + b[2])
  {
    if |b| >= 1 {
      assert b[..1][..0] == [];
      assert FromBigEndian(b[..1]) == b[0];
    }
    if |b| >= 2 {
      assert b[..2][..1] == b[..1];
      assert FromBigEndian(b[..2]) == b[0] as int * 0x100 + b[1];
    }
    if |b| >= 3 {
      assert b[..3][..2] == b[..2] && b == b[..|b|];
    }
    assert b[..|b|] == b;
  }

  /** Any other type ends the parsing with an exception, if its header can be read. */
  lemma OtherTypes(data: seq<U8>, pos: nat)
    requires pos <= 255 && pos + 4 <= |data|
    ensures ReadToken(data, pos) == BadType <==> data[pos] / 8 !in {1, 3, 4, 6}
  {
  }

  /** Reads elements from pos on for as long as the position is below stop. */
  function ScanFrom(data: seq<U8>, pos: nat, stop: nat): (r: ScanResult)
    ensures r.Scanned? ==> r.end >= pos
    ensures r.Scanned? && pos <= |data| ==> r.end <= |data|
    decreases |data| - pos
  {
    if pos >= stop then Scanned([], pos)
    else match ReadToken(data, pos)
      case Beyond => OutOfRange
      case BadType => Threw
      case Item(t) => Prepend([t], ScanFrom(data, pos + t.length, stop))
  }

  function Prepend(ts: seq<Token>, r: ScanResult): ScanResult
  {
    if r.Scanned? then Scanned(ts + r.tokens, r.end) else r
  }

  lemma PrependPrepend(a: seq<Token>, b: seq<Token>, r: ScanResult)
    ensures Prepend(a, Prepend(b, r)) == Prepend(a + b, r)
    ensures Prepend([], r) == r
  {
    if r.Scanned? {
      Assoc(a, b, r.tokens);
      assert [] + r.tokens == r.tokens;
    }
  }

  /** Where the loop of the parser stops: a sequence adds two bytes, not three. */
  function Stop(root: Fields): nat
  {
    root.start + root.size + if root.kind == Sequence then 2 else 0
  }

  /** The left-to-right reading of the element at start: its own header (and
    * body, for a leaf), then whatever follows up to the stopping position. */
  function ScanElement(data: seq<U8>, start: nat): (r: ScanResult)
    ensures r.Scanned? ==> |r.tokens| > 0 && r.tokens[0].fields.start == start <= 255
    ensures r.Scanned? ==> start < r.end <= |data|
  {
    match ReadToken(data, start)
    case Beyond => OutOfRange
    case BadType => Threw
    case Item(t) => Prepend([t], ScanFrom(data, start + t.length, Stop(t.fields)))
  }

  /** The same, with an 8-bit count of the bytes read. */
  function Counted(r: ScanResult, start: nat): ScanResult
  {
    if r.Scanned? && r.end > start + 255 then OutOfRange else r
  }

  function Scan(data: seq<U8>, start: nat): (r: ScanResult)
    ensures r.Scanned? ==> |r.tokens| > 0 && r.tokens[0].fields.start == start <= 255
    ensures r.Scanned? ==> start < r.end <= |data| && r.end <= start + 255
  {
    Counted(ScanElement(data, start), start)
  }

  /** Elements read one behind the other from pos to end. */
  predicate Consecutive(data: seq<U8>, ts: seq<Token>, pos: nat, end: nat)
    decreases |ts|
  {
    if ts == [] then pos == end
    else ReadToken(data, pos) == Item(ts[0]) && Consecutive(data, ts[1..], pos + ts[0].length, end)
  }

  lemma {:induction false} ConsecutiveBounds(data: seq<U8>, ts: seq<Token>, pos: nat, end: nat)
    requires Consecutive(data, ts, pos, end)
    ensures pos <= end
    ensures ts != [] ==> pos < end <= |data| && pos <= 255
    decreases |ts|
  {
    hide ReadToken;
    if ts == [] {
    } else {
      ConsecutiveBounds(data, ts[1..], pos + ts[0].length, end);
    }
  }

  /** A scan skips nothing and reads nothing twice. */
  lemma {:induction false} ScanFromConsecutive(data: seq<U8>, pos: nat, stop: nat)
    requires ScanFrom(data, pos, stop).Scanned?
    ensures var r := ScanFrom(data, pos, stop); Consecutive(data, r.tokens, pos, r.end)
    decreases |data| - pos
  {
    hide ReadToken;
    if pos < stop {
      var t := ReadToken(data, pos).token;
      ScanFromConsecutive(data, pos + t.length, stop);
      var rest := ScanFrom(data, pos + t.length, stop);
      assert ([t] + rest.tokens)[1..] == rest.tokens;
    }
  }

  lemma ScanConsecutive(data: seq<U8>, start: nat)
    requires Scan(data, start).Scanned?
    ensures var r := Scan(data, start); Consecutive(data, r.tokens, start, r.end)
  {
    hide ReadToken;
    var t := ReadToken(data, start).token;
    ScanFromConsecutive(data, start + t.length, Stop(t.fields));
    var rest := ScanFrom(data, start + t.length, Stop(t.fields));
    assert ([t] + rest.tokens)[1..] == rest.tokens;
  }

  lemma PrependOne(ts: seq<Token>, end: nat, r: ScanResult)
    requires ts != []
    ensures Prepend([ts[0]], r) == Scanned(ts, end) <==> r == Scanned(ts[1..], end)
  {
    assert r.Scanned? ==> ([ts[0]] + r.tokens)[1..] == r.tokens;
    assert [ts[0]] + ts[1..] == ts;
  }

  /** Where reading ends: of elements that lie one behind the other, exactly those
    * are read that start below stop, if the last of them reaches it. */
  lemma {:induction false} ScanFromEnds(data: seq<U8>, ts: seq<Token>, pos: nat, end: nat, stop: nat)
    requires Consecutive(data, ts, pos, end)
    ensures ScanFrom(data, pos, stop) == Scanned(ts, end)
       <==> stop <= end && (ts == [] || end - ts[|ts| - 1].length < stop)
    decreases |ts|
  {
    hide ReadToken;
    if ts == [] {
    } else {
      var next := pos + ts[0].length;
      ConsecutiveBounds(data, ts[1..], next, end);
      if pos < stop {
        ScanFromEnds(data, ts[1..], next, end, stop);
        PrependOne(ts, end, ScanFrom(data, next, stop));
      } else {
        LastLength(data, ts, pos, end);
      }
    }
  }

  lemma {:induction false} LastLength(data: seq<U8>, ts: seq<Token>, pos: nat, end: nat)
    requires Consecutive(data, ts, pos, end) && ts != []
    ensures pos + ts[|ts| - 1].length <= end
    decreases |ts|
  {
    hide ReadToken;
    if |ts| == 1 {
      assert Consecutive(data, ts[1..], pos + ts[0].length, end);
    } else {
      LastLength(data, ts[1..], pos + ts[0].length, end);
    }
  }

  /** Consumption: when elements of any declared sizes fill the body of a sequence
    * exactly, the parser reads all of them, and nothing else, if and only if they
    * are at most 255 bytes, the header of the sequence has at least two of these,
    * and the last element more than the header has beyond two. Of elements of two
    * bytes or more a header of two or three bytes loses none. */
  lemma ConsumesWholeElement(data: seq<U8>, start: nat, ts: seq<Token>, end: nat)
    requires Consecutive(data, ts, start, end) && ts != [] && ts[0].fields.kind == Sequence
    requires end == start + ts[0].length + ts[0].fields.size
    ensures Scan(data, start) == Scanned(ts, end)
       <==> end - start <= 255 && ts[0].length >= 2 && (|ts| == 1 || ts[|ts| - 1].length > ts[0].length - 2)
  {
    hide ReadToken; hide ScanFrom; hide Prepend;
    var t := ts[0];
    var next := start + t.length;
    assert Consecutive(data, ts[1..], next, end);
    ScanFromEnds(data, ts[1..], next, end, Stop(t.fields));
    PrependOne(ts, end, ScanFrom(data, next, Stop(t.fields)));
  }

  lemma ReadFourBytes()
    ensures var data := [0x36, 0, 1, 0x30];
            && ReadToken(data, 0) == Item(Token(Fields(0, Sequence, 1, 0, 0, []), 3))
            && ReadToken(data, 3) == Item(Token(Fields(3, Sequence, 1, 0, 0, []), 1))
  {
    var data := [0x36, 0, 1, 0x30];
    assert data[0..3][1..] == [0, 1] && [0, 1][..1] == [0] && [0][..0] == [];
    assert FromBigEndian([0]) == 0 && FromBigEndian([0, 1]) == 1;
    assert data[3..4] == [0x30];
  }

  /** A last element of one byte, a sequence header that announces one byte, stays
    * unread behind a header of three bytes. */
  lemma OneByteStaysUnread()
    ensures var data, root := [0x36, 0, 1, 0x30], Token(Fields(0, Sequence, 1, 0, 0, []), 3);
            && Consecutive(data, [root, Token(Fields(3, Sequence, 1, 0, 0, []), 1)], 0, 4)
            && Scan(data, 0) == Scanned([root], 3)
  {
    hide ReadToken;
    var data: seq<U8> := [0x36, 0, 1, 0x30];
    var root, last := Token(Fields(0, Sequence, 1, 0, 0, []), 3), Token(Fields(3, Sequence, 1, 0, 0, []), 1);
    ReadFourBytes();
    assert [root, last][1..] == [last] && [last][1..] == [];
    assert Consecutive(data, [], 4, 4) && Consecutive(data, [last], 3, 4);
    assert [root] + [] == [root];
  }

  // ----- the tree built by the current pointer ---------------------------

  /** An open element on the path from the root to the current element, with
    * the subtrees already complete below it. */
  datatype Frame = Frame(fields: Fields, kids: seq<Tree>)

  /** Adds a complete subtree below the innermost open element. */
  function Attach(stack: seq<Frame>, t: Tree): (r: seq<Frame>)
    requires stack != []
    ensures |r| == |stack|
  {
    var top := |stack| - 1;
    stack[top := stack[top].(kids := stack[top].kids + [t])]
  }

  /** Closes the innermost open element: current moves to its parent. */
  function Pop(stack: seq<Frame>): (r: seq<Frame>)
    requires |stack| > 1
    ensures |r| == |stack| - 1
  {
    var top := stack[|stack| - 1];
    Attach(stack[..|stack| - 1], Node(top.fields, top.kids))
  }

  /** The test that ends a sequence: a count relative to origin, the index at
    * which parsing began, against the absolute start index of the element. */
  predicate Ended(f: Fields, pos: nat, origin: nat)
  {
    pos - origin >= f.start + f.size
  }

  /** The stack once t has been read below its innermost element. */
  function Enter(stack: seq<Frame>, t: Token): (r: seq<Frame>)
    requires stack != []
    ensures r != []
  {
    if t.fields.kind == Sequence then stack + [Frame(t.fields, [])]
    else Attach(stack, Node(t.fields, []))
  }

  /** One iteration of the parser, for a token below the root. */
  function StepStack(stack: seq<Frame>, t: Token, origin: nat): (r: seq<Frame>)
    requires stack != []
    ensures r != []
  {
    var s := Enter(stack, t);
    if |s| > 1 && Ended(s[|s| - 1].fields, t.fields.start + t.length, origin) then Pop(s) else s
  }

  function RunStack(stack: seq<Frame>, ts: seq<Token>, origin: nat): (r: seq<Frame>)
    requires stack != []
    ensures r != []
    decreases |ts|
  {
    if ts == [] then stack else RunStack(StepStack(stack, ts[0], origin), ts[1..], origin)
  }

  /** The tree a stack stands for. */
  function Close(stack: seq<Frame>): Tree
    requires stack != []
    decreases |stack|
  {
    if |stack| == 1 then Node(stack[0].fields, stack[0].kids) else Close(Pop(stack))
  }

  /** The tree the parser builds from the scan of a root element. */
  function BuildTree(ts: seq<Token>, origin: nat): Tree
    requires ts != []
  {
    Close(RunStack([Frame(ts[0].fields, [])], ts[1..], origin))
  }

  lemma {:induction false} RunStackSnoc(stack: seq<Frame>, ts: seq<Token>, t: Token, origin: nat)
    requires stack != []
    ensures RunStack(stack, ts + [t], origin) == StepStack(RunStack(stack, ts, origin), t, origin)
    decreases |ts|
  {
    if ts == [] {
      assert RunStack(stack, [t], origin) == RunStack(StepStack(stack, t, origin), [t][1..], origin);
    } else {
      assert (ts + [t])[1..] == ts[1..] + [t];
      RunStackSnoc(StepStack(stack, ts[0], origin), ts[1..], t, origin);
    }
  }

  // ----- the depths of the tokens ----------------------------------------

  /** The open elements alone, root first. */
  type Path = p: seq<Fields> | p != [] witness [Fields(0, Nil, 0, 0, 0, [])]

  function PathOf(stack: seq<Frame>): (p: seq<Fields>)
    ensures |p| == |stack|
  {
    seq(|stack|, i requires 0 <= i < |stack| => stack[i].fields)
  }

  function StepPath(path: Path, t: Token, origin: nat): Path
  {
    var p := if t.fields.kind == Sequence then path + [t.fields] else path;
    if |p| > 1 && Ended(p[|p| - 1], t.fields.start + t.length, origin) then p[..|p| - 1] else p
  }

  function RunPath(path: Path, ts: seq<Token>, origin: nat): Path
    decreases |ts|
  {
    if ts == [] then path else RunPath(StepPath(path, ts[0], origin), ts[1..], origin)
  }

  /** Every token with the depth at which the parser attaches it. */
  function Place(path: Path, ts: seq<Token>, origin: nat): (items: seq<Placed>)
    ensures |items| == |ts|
    decreases |ts|
  {
    if ts == [] then []
    else [Placed(ts[0].fields, |path|)] + Place(StepPath(path, ts[0], origin), ts[1..], origin)
  }

  lemma {:induction false} PlaceConcat(path: Path, a: seq<Token>, b: seq<Token>, origin: nat)
    ensures Place(path, a + b, origin) == Place(path, a, origin) + Place(RunPath(path, a, origin), b, origin)
    ensures RunPath(path, a + b, origin) == RunPath(RunPath(path, a, origin), b, origin)
    decreases |a|
  {
    if a == [] {
      assert a + b == b;
    } else {
      assert (a + b)[1..] == a[1..] + b;
      PlaceConcat(StepPath(path, a[0], origin), a[1..], b, origin);
    }
  }

  /** Preorder listing of the tree a stack stands for. */
  function FlattenStack(stack: seq<Frame>): seq<Placed>
  {
    if stack == [] then []
    else
      var n := |stack| - 1;
      FlattenStack(stack[..n]) + [Placed(stack[n].fields, n)] + FlattenForest(stack[n].kids, n + 1)
  }

  lemma PushFlattens(stack: seq<Frame>, f: Frame)
    ensures FlattenStack(stack + [f])
         == FlattenStack(stack) + [Placed(f.fields, |stack|)] + FlattenForest(f.kids, |stack| + 1)
  {
    assert (stack + [f])[..|stack|] == stack;
  }

  lemma AttachFlattens(stack: seq<Frame>, t: Tree)
    requires stack != []
    ensures FlattenStack(Attach(stack, t)) == FlattenStack(stack) + Flatten(t, |stack|)
  {
    var n := |stack| - 1;
    assert Attach(stack, t)[..n] == stack[..n];
    FlattenForestConcat(stack[n].kids, [t], n + 1);
    ForestOfOne(t, n + 1);
  }

  lemma ForestOfOne(t: Tree, depth: nat)
    ensures FlattenForest([t], depth) == Flatten(t, depth)
  {
    assert FlattenForest([t][1..], depth) == [];
  }

  lemma PopFlattens(stack: seq<Frame>)
    requires |stack| > 1
    ensures FlattenStack(Pop(stack)) == FlattenStack(stack)
  {
    var n := |stack| - 1;
    AttachFlattens(stack[..n], Node(stack[n].fields, stack[n].kids));
  }

  lemma {:induction false} CloseFlattens(stack: seq<Frame>)
    requires stack != []
    ensures Flatten(Close(stack), 0) == FlattenStack(stack)
    decreases |stack|
  {
    if |stack| > 1 {
      PopFlattens(stack);
      CloseFlattens(Pop(stack));
    } else {
      assert stack[..0] == [];
    }
  }

  lemma EnterFlattens(stack: seq<Frame>, t: Token)
    requires stack != []
    ensures FlattenStack(Enter(stack, t)) == FlattenStack(stack) + [Placed(t.fields, |stack|)]
  {
    if t.fields.kind == Sequence {
      PushFlattens(stack, Frame(t.fields, []));
    } else {
      AttachFlattens(stack, Node(t.fields, []));
      assert Flatten(Node(t.fields, []), |stack|) == [Placed(t.fields, |stack|)];
    }
  }

  lemma StepPathOf(stack: seq<Frame>, t: Token, origin: nat)
    requires stack != []
    ensures PathOf(StepStack(stack, t, origin)) == StepPath(PathOf(stack), t, origin)
  {
    var s := Enter(stack, t);
    assert PathOf(s) == if t.fields.kind == Sequence then PathOf(stack) + [t.fields] else PathOf(stack);
    if |s| > 1 {
      assert PathOf(Pop(s)) == PathOf(s)[..|s| - 1];
    }
  }

  /** A token is always attached behind everything read before it, one level
    * below the innermost open element. */
  lemma StepFlattens(stack: seq<Frame>, t: Token, origin: nat)
    requires stack != []
    ensures FlattenStack(StepStack(stack, t, origin)) == FlattenStack(stack) + [Placed(t.fields, |stack|)]
  {
    EnterFlattens(stack, t);
    var s := Enter(stack, t);
    if |s| > 1 {
      PopFlattens(s);
    }
  }

  lemma {:induction false} RunFlattens(stack: seq<Frame>, ts: seq<Token>, origin: nat)
    requires stack != []
    ensures FlattenStack(RunStack(stack, ts, origin)) == FlattenStack(stack) + Place(PathOf(stack), ts, origin)
    decreases |ts|
  {
    if ts == [] {
    } else {
      var next := StepStack(stack, ts[0], origin);
      StepFlattens(stack, ts[0], origin);
      StepPathOf(stack, ts[0], origin);
      RunFlattens(next, ts[1..], origin);
      Assoc(FlattenStack(stack), [Placed(ts[0].fields, |stack|)], Place(PathOf(next), ts[1..], origin));
    }
  }

  /** The rightmost-path theorem: listed in preorder, the tree the parser
    * builds is the left-to-right scan, each token at the depth of the path
    * on which the parser stood when it read it. */
  lemma BuildTreeFlattens(ts: seq<Token>, origin: nat)
    requires ts != []
    ensures Flatten(BuildTree(ts, origin), 0)
         == [Placed(ts[0].fields, 0)] + Place([ts[0].fields], ts[1..], origin)
  {
    hide Flatten; hide FlattenStack; hide Place; hide RunStack; hide Close;
    var s := [Frame(ts[0].fields, [])];
    RunFlattens(s, ts[1..], origin);
    CloseFlattens(RunStack(s, ts[1..], origin));
    assert PathOf(s) == [ts[0].fields];
    RootFlattens(ts[0].fields);
  }

  lemma RootFlattens(f: Fields)
    ensures FlattenStack([Frame(f, [])]) == [Placed(f, 0)]
  {
    assert [Frame(f, [])][..0] == [];
    assert FlattenForest([], 1) == [];
  }

  function TokenFields(ts: seq<Token>): (fs: seq<Fields>)
    ensures |fs| == |ts|
  {
    seq(|ts|, i requires 0 <= i < |ts| => ts[i].fields)
  }

  lemma {:induction false} PlaceFields(path: Path, ts: seq<Token>, origin: nat)
    ensures AllFields(Place(path, ts, origin)) == TokenFields(ts)
    decreases |ts|
  {
    if ts == [] {
    } else {
      PlaceFields(StepPath(path, ts[0], origin), ts[1..], origin);
      assert TokenFields(ts) == [ts[0].fields] + TokenFields(ts[1..]);
    }
  }

  /** However the declared sizes nest, the preorder of the built tree is the
    * linear order of the elements in the data. */
  lemma PreorderIsScanOrder(ts: seq<Token>, origin: nat)
    requires ts != []
    ensures Preorder(BuildTree(ts, origin)) == TokenFields(ts)
  {
    hide BuildTree; hide AllFields;
    var items := Place([ts[0].fields], ts[1..], origin);
    BuildTreeFlattens(ts, origin);
    FlattenFields(BuildTree(ts, origin), 0);
    PlaceFields([ts[0].fields], ts[1..], origin);
    AllFieldsConcat([Placed(ts[0].fields, 0)], items);
    OneField(Placed(ts[0].fields, 0));
    assert TokenFields(ts) == [ts[0].fields] + TokenFields(ts[1..]);
  }

  lemma OneField(p: Placed)
    ensures AllFields([p]) == [p.fields]
  {
  }

  // ----- leaves have no children -------------------------------------------

  /** Only sequences have children. */
  predicate Bare(t: Tree)
  {
    && (t.fields.kind == Sequence || t.kids == [])
    && forall i :: 0 <= i < |t.kids| ==> Bare(t.kids[i])
  }

  predicate BareStack(stack: seq<Frame>)
  {
    forall k :: 0 <= k < |stack| ==>
      stack[k].fields.kind == Sequence && forall i :: 0 <= i < |stack[k].kids| ==> Bare(stack[k].kids[i])
  }

  lemma StepStackBare(stack: seq<Frame>, t: Token, origin: nat)
    requires stack != [] && BareStack(stack)
    ensures BareStack(StepStack(stack, t, origin))
  {
    hide Ended;
    assert BareStack(Enter(stack, t));
  }

  lemma {:induction false} RunStackBare(stack: seq<Frame>, ts: seq<Token>, origin: nat)
    requires stack != [] && BareStack(stack)
    ensures BareStack(RunStack(stack, ts, origin))
    decreases |ts|
  {
    hide StepStack; hide BareStack;
    if ts == [] {
    } else {
      StepStackBare(stack, ts[0], origin);
      RunStackBare(StepStack(stack, ts[0], origin), ts[1..], origin);
    }
  }

  lemma {:induction false} CloseBare(stack: seq<Frame>)
    requires stack != [] && BareStack(stack)
    ensures Bare(Close(stack))
    decreases |stack|
  {
    if |stack| > 1 {
      CloseBare(Pop(stack));
    }
  }

  lemma BuildTreeBare(ts: seq<Token>, origin: nat)
    requires ts != [] && (ts[0].fields.kind == Sequence || |ts| == 1)
    ensures Bare(BuildTree(ts, origin))
  {
    if ts[0].fields.kind == Sequence {
      RunStackBare([Frame(ts[0].fields, [])], ts[1..], origin);
      CloseBare(RunStack([Frame(ts[0].fields, [])], ts[1..], origin));
    } else {
      assert ts[1..] == [];
    }
  }
}
