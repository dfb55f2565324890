/** The parser: one flat loop that moves a current pointer through a tree of
  * heap objects. */
module SdpParser {
  import opened Bytes
  import opened SdpElement
  import opened SdpScan

  class DataElement {
    var startIndex: nat
    var kind: ElementType
    var size: U16
    var uintValue: U32
    var uuidValue: U16
    var text: seq<U8>
    var parent: DataElement?
    var children: seq<DataElement>

    constructor ()
      ensures IsReset() && parent == null
    {
      new;
      parent := null;
      Reset();
    }

    predicate IsReset()
      reads this
    {
      startIndex == 0 && kind == Unknown && size == 0 && IsEmpty() && children == []
    }

    /** No value has been read yet. */
    predicate IsEmpty()
      reads this
    {
      uintValue == 0 && uuidValue == 0 && text == []
    }

    function Own(): Fields
      reads this
    {
      Fields(startIndex, kind, size, uintValue, uuidValue, text)
    }

    method Reset()
      modifies this
      ensures IsReset() && parent == old(parent)
    {
      startIndex := 0;
      kind := Unknown;
      size := 0;
      uintValue := 0;
      uuidValue := 0;
      text := [];
      children := [];
    }
  }

  /** The object n and the objects below it, all in s, are the tree t. */
  ghost predicate Models(n: DataElement, t: Tree, s: set<DataElement>)
    reads s
    decreases t, 0
  {
    n in s && n.Own() == t.fields && ModelsAll(n.children, t.kids, s)
  }

  ghost predicate ModelsAll(ns: seq<DataElement>, ts: seq<Tree>, s: set<DataElement>)
    reads s
    decreases ts, 1
  {
    |ns| == |ts| && forall i :: 0 <= i < |ns| ==> Models(ns[i], ts[i], s)
  }

  lemma {:induction false} ModelsGrow(n: DataElement, t: Tree, s: set<DataElement>, s': set<DataElement>)
    requires Models(n, t, s) && s <= s'
    ensures Models(n, t, s')
    decreases t, 0
  {
    ModelsAllGrow(n.children, t.kids, s, s');
  }

  lemma {:induction false} ModelsAllGrow(ns: seq<DataElement>, ts: seq<Tree>, s: set<DataElement>, s': set<DataElement>)
    requires ModelsAll(ns, ts, s) && s <= s'
    ensures ModelsAll(ns, ts, s')
    decreases ts, 1
  {
    forall i | 0 <= i < |ns| ensures Models(ns[i], ts[i], s') {
      ModelsGrow(ns[i], ts[i], s, s');
    }
  }

  lemma MakeModels(n: DataElement, t: Tree, s: set<DataElement>)
    requires n in s && n.Own() == t.fields && ModelsAll(n.children, t.kids, s)
    ensures Models(n, t, s)
  {
  }

  lemma NoChildren(s: set<DataElement>)
    ensures ModelsAll([], [], s)
  {
  }

  // ----- the path to the current element ------------------------------------

  /** The node that follows node k on the path; behind the last one, extra. */
  function Following(path: seq<DataElement>, k: nat, extra: seq<DataElement>): seq<DataElement>
    requires k < |path|
  {
    if k + 1 < |path| then [path[k + 1]] else extra
  }

  ghost predicate NodeOk(path: seq<DataElement>, k: nat, f: Frame, done: set<DataElement>, extra: seq<DataElement>)
    requires k < |path|
    reads path, done
  {
    var n, kids := path[k], |f.kids|;
    && n.Own() == f.fields
    && n.parent == (if k == 0 then null else path[k - 1])
    && |n.children| >= kids && n.children[kids..] == Following(path, k, extra)
    && ModelsAll(n.children[..kids], f.kids, done)
  }

  /** The objects on path, root first, are the open frames of stack, and the
    * objects in done make up the subtrees that are complete: the path is the
    * rightmost one, with extra a child just added below its last node. */
  ghost predicate PathOk(path: seq<DataElement>, stack: seq<Frame>, done: set<DataElement>, extra: seq<DataElement>)
    reads path, done
  {
    && |path| == |stack| > 0
    && (forall i, j :: 0 <= i < j < |path| ==> path[i] != path[j])
    && (forall k :: 0 <= k < |path| ==> path[k] !in done)
    && (forall k :: 0 <= k < |path| ==> NodeOk(path, k, stack[k], done, extra))
  }

  lemma EnterLeaf(path: seq<DataElement>, stack: seq<Frame>, done: set<DataElement>, child: DataElement)
    requires PathOk(path, stack, done, [child])
    requires child !in path && child.children == []
    ensures PathOk(path, Attach(stack, Node(child.Own(), [])), done + {child}, [])
  {
    hide Models; hide ModelsAll;
    var t, done' := Node(child.Own(), []), done + {child};
    var stack', top := Attach(stack, t), |path| - 1;
    NoChildren(done');
    MakeModels(child, t, done');
    forall k | 0 <= k < |path| ensures NodeOk(path, k, stack'[k], done', []) {
      assert NodeOk(path, k, stack[k], done, [child]);
      ModelsAllGrow(path[k].children[..|stack[k].kids|], stack[k].kids, done, done');
      if k == top {
        ModelsOneMore(path[k].children, stack[k].kids, child, t, done');
      }
    }
  }

  lemma EnterSequence(path: seq<DataElement>, stack: seq<Frame>, done: set<DataElement>, child: DataElement)
    requires PathOk(path, stack, done, [child])
    requires child !in path && child !in done && child.children == [] && child.parent == path[|path| - 1]
    ensures PathOk(path + [child], stack + [Frame(child.Own(), [])], done, [])
  {
    var path', stack' := path + [child], stack + [Frame(child.Own(), [])];
    forall k | 0 <= k < |path'| ensures NodeOk(path', k, stack'[k], done, []) {
      if k < |path| {
        assert NodeOk(path, k, stack[k], done, [child]);
      }
    }
  }

  /** The last node of the path as a complete subtree. */
  lemma LastCompletes(path: seq<DataElement>, stack: seq<Frame>, done: set<DataElement>)
    requires PathOk(path, stack, done, [])
    ensures var top := |path| - 1;
            Models(path[top], Node(stack[top].fields, stack[top].kids), done + {path[top]})
  {
    hide Models; hide ModelsAll;
    var top := |path| - 1;
    var n, t, done' := path[top], Node(stack[top].fields, stack[top].kids), done + {path[top]};
    assert NodeOk(path, top, stack[top], done, []);
    assert n.children == n.children[..|t.kids|];
    ModelsAllGrow(n.children, t.kids, done, done');
    MakeModels(n, t, done');
  }

  /** Leaving the last node of the path completes its subtree. */
  lemma Leave(path: seq<DataElement>, stack: seq<Frame>, done: set<DataElement>)
    requires PathOk(path, stack, done, []) && |path| > 1
    ensures PathOk(path[..|path| - 1], Pop(stack), done + {path[|path| - 1]}, [])
  {
    hide Models; hide ModelsAll;
    var top := |path| - 1;
    var n, path', done' := path[top], path[..top], done + {path[top]};
    LastCompletes(path, stack, done);
    forall k | 0 <= k < top ensures NodeOk(path', k, Pop(stack)[k], done', []) {
      assert NodeOk(path, k, stack[k], done, []);
      ModelsAllGrow(path[k].children[..|stack[k].kids|], stack[k].kids, done, done');
      if k == top - 1 {
        ModelsOneMore(path[k].children, stack[k].kids, n, Node(stack[top].fields, stack[top].kids), done');
      }
    }
  }

  lemma ModelsOneMore(ns: seq<DataElement>, ts: seq<Tree>, n: DataElement, t: Tree, s: set<DataElement>)
    requires |ns| >= |ts| && ns[|ts|..] == [n]
    requires ModelsAll(ns[..|ts|], ts, s) && Models(n, t, s)
    ensures ns == ns[..|ts|] + [n] && ModelsAll(ns, ts + [t], s)
    ensures ns[..|ts + [t]|] == ns && ns[|ts + [t]|..] == []
  {
    hide Models;
    assert ns == ns[..|ts|] + ns[|ts|..];
    forall i | 0 <= i < |ns| ensures Models(ns[i], (ts + [t])[i], s) {
      if i < |ts| {
        assert ns[i] == ns[..|ts|][i];
      }
    }
  }

  lemma {:induction false} PathModels(path: seq<DataElement>, stack: seq<Frame>, done: set<DataElement>,
                                      nodes: set<DataElement>)
    requires PathOk(path, stack, done, [])
    requires done <= nodes && forall p :: p in path ==> p in nodes
    ensures Models(path[0], Close(stack), nodes)
    decreases |path|
  {
    hide Models;
    var top := |path| - 1;
    if top == 0 {
      assert NodeOk(path, 0, stack[0], done, []);
      assert path[0].children == path[0].children[..|stack[0].kids|];
      ModelsAllGrow(path[0].children, stack[0].kids, done, nodes);
      MakeModels(path[0], Close(stack), nodes);
    } else {
      Leave(path, stack, done);
      PathModels(path[..top], Pop(stack), done + {path[top]}, nodes);
    }
  }

  // ----- reading one element --------------------------------------------------

  method ReadHeader(data: seq<U8>, index: nat, e: DataElement) returns (inRange: bool, consumed: nat)
    modifies e`startIndex, e`kind, e`size
    ensures inRange <==> index < |data| && HeaderInReach(data, index, HeaderLength(data[index] % 8))
    ensures inRange ==>
              && consumed == HeaderLength(data[index] % 8)
              && e.startIndex == index
              && e.kind == (var k := KindOf(data[index] / 8); if k == Unknown then old(e.kind) else k)
              && e.size == DeclaredSize(data[index..index + consumed])
  {
    hide DeclaredSize;
    if index > 255 || index >= |data| {
      return false, 0;
    }
    consumed := 0;
    e.startIndex := index;
    match data[index] / 8 {
      case 1 => e.kind := Uint;
      case 3 => e.kind := Uuid;
      case 4 => e.kind := TextString;
      case 6 => e.kind := Sequence;
      case _ =>
    }
    var desc := data[index] % 8;
    consumed := consumed + 1;
    if index + HeaderLength(desc) > |data| {
      return false, consumed;
    }
    SizeByDescriptor(data, index);
    match desc {
      case 0 => e.size := 1;
      case 1 => e.size := 2;
      case 2 => e.size := 4;
      case 3 => e.size := 8;
      case 4 => e.size := 16;
      case 5 =>
        e.size := data[index + 1];
        consumed := consumed + 1;
      case 6 =>
        e.size := data[index + 1] as int * 0x100 + data[index + 2];
        consumed := consumed + 2;
      case _ =>
        e.size := (data[index + 1] as int * 0x1_0000 + data[index + 2] as int * 0x100 + data[index + 3]) % 0x1_0000;
        consumed := consumed + 3;
    }
    return true, consumed;
  }

  /** The declared size, spelled out. */
  lemma SizeByDescriptor(data: seq<U8>, index: nat)
    requires index < |data| && index + HeaderLength(data[index] % 8) <= |data|
    ensures DeclaredSize(data[index..index + HeaderLength(data[index] % 8)])
         == match data[index] % 8
            case 0 => 1
            case 1 => 2
            case 2 => 4
            case 3 => 8
            case 4 => 16
            case 5 => data[index + 1] as int
            case 6 => data[index + 1] as int * 0x100 + data[index + 2]
            case _ => (data[index + 1] as int * 0x1_0000 + data[index + 2] as int * 0x100 + data[index + 3]) % 0x1_0000
  {
    hide FromBigEndian;
    CountValue(data[index..index + HeaderLength(data[index] % 8)]);
  }

  /** The value of 1, 2 or 3 length bytes. */
  lemma CountValue(h: seq<U8>)
    requires 1 <= |h| <= 4
    ensures |h| == 2 ==> FromBigEndian(h[1..]) == h[1]
    ensures |h| == 3 ==> FromBigEndian(h[1..]) == h[1] as int * 0x100 + h[2]
    ensures |h| == 4 ==> FromBigEndian(h[1..]) == h[1] as int * 0x1_0000 + h[2] as int * 0x100 + h[3]
  {
    if |h| == 2 {
      OneByte(h[1..]);
    } else if |h| == 3 {
      OneByte(h[1..][..1]);
    } else if |h| == 4 {
      assert h[1..][..2][..1] == h[1..][..1];
      OneByte(h[1..][..1]);
      assert FromBigEndian(h[1..][..2]) == h[1] as int * 0x100 + h[2];
    }
  }

  datatype BodyResult = Read(consumed: nat) | BadKind | Past

  lemma Drop32(k: nat, b: nat)
    ensures (k * 0x1_0000_0000 + b) % 0x1_0000_0000 == b % 0x1_0000_0000
  {
  }

  lemma Drop16(k: nat, b: nat)
    ensures (k * 0x1_0000 + b) % 0x1_0000 == b % 0x1_0000
  {
  }

  /** Shifting one more byte into a number that keeps its low 32 bits. */
  lemma Shift32(v: nat, x: U8)
    ensures (v * 0x100 + x) % 0x1_0000_0000 == (v % 0x1_0000_0000 * 0x100 % 0x1_0000_0000 + x) % 0x1_0000_0000
  {
    var q, r := v / 0x1_0000_0000, v % 0x1_0000_0000;
    assert v * 0x100 + x == q * 0x100 * 0x1_0000_0000 + (r * 0x100 + x);
    Drop32(q * 0x100, r * 0x100 + x);
    Drop32(r * 0x100 / 0x1_0000_0000, r * 0x100 % 0x1_0000_0000 + x);
  }

  /** Shifting one more byte into a number that keeps its low 16 bits. */
  lemma Shift16(v: nat, x: U8)
    ensures (v * 0x100 + x) % 0x1_0000 == (v % 0x1_0000 * 0x100 % 0x1_0000 + x) % 0x1_0000
  {
    var q, r := v / 0x1_0000, v % 0x1_0000;
    assert v * 0x100 + x == q * 0x100 * 0x1_0000 + (r * 0x100 + x);
    Drop16(q * 0x100, r * 0x100 + x);
    Drop16(r * 0x100 / 0x1_0000, r * 0x100 % 0x1_0000 + x);
  }

  lemma NextByte(data: seq<U8>, index: nat, k: nat)
    requires index + k < |data|
    ensures FromBigEndian(data[index..index + k + 1]) == FromBigEndian(data[index..index + k]) * 0x100 + data[index + k]
  {
    assert data[index..index + k + 1][..k] == data[index..index + k];
  }

  method ReadUint(data: seq<U8>, index: nat, e: DataElement) returns (r: BodyResult)
    requires index <= |data| && e.IsEmpty()
    modifies e`uintValue
    ensures r == if BodyInReach(data, index, e.size) then Read(e.size) else Past
    ensures r.Read? ==> e.uintValue == FromBigEndian(data[index..index + e.size]) % 0x1_0000_0000
  {
    var consumed := 0;
    while consumed < e.size
      invariant consumed <= e.size && index + consumed <= |data| && (consumed > 0 ==> index <= 255)
      invariant e.uintValue == FromBigEndian(data[index..index + consumed]) % 0x1_0000_0000
    {
      if index > 255 || index + consumed >= |data| {
        return Past;
      }
      Shift32(FromBigEndian(data[index..index + consumed]), data[index + consumed]);
      NextByte(data, index, consumed);
      e.uintValue := e.uintValue as int * 0x100 % 0x1_0000_0000;
      e.uintValue := (e.uintValue as int + data[index + consumed]) % 0x1_0000_0000;
      consumed := consumed + 1;
    }
    return Read(consumed);
  }

  method ReadUuid(data: seq<U8>, index: nat, e: DataElement) returns (r: BodyResult)
    requires index <= |data| && e.IsEmpty()
    modifies e`uuidValue
    ensures r == if BodyInReach(data, index, e.size) then Read(e.size) else Past
    ensures r.Read? ==> e.uuidValue == FromBigEndian(data[index..index + e.size]) % 0x1_0000
  {
    var consumed := 0;
    while consumed < e.size
      invariant consumed <= e.size && index + consumed <= |data| && (consumed > 0 ==> index <= 255)
      invariant e.uuidValue == FromBigEndian(data[index..index + consumed]) % 0x1_0000
    {
      if index > 255 || index + consumed >= |data| {
        return Past;
      }
      Shift16(FromBigEndian(data[index..index + consumed]), data[index + consumed]);
      NextByte(data, index, consumed);
      e.uuidValue := e.uuidValue as int * 0x100 % 0x1_0000;
      e.uuidValue := (e.uuidValue as int + data[index + consumed]) % 0x1_0000;
      consumed := consumed + 1;
    }
    return Read(consumed);
  }

  method ReadText(data: seq<U8>, index: nat, e: DataElement) returns (r: BodyResult)
    requires index <= |data| && e.IsEmpty()
    modifies e`text
    ensures r == if BodyInReach(data, index, e.size) then Read(e.size) else Past
    ensures r.Read? ==> e.text == data[index..index + e.size]
  {
    var consumed := 0;
    while consumed < e.size
      invariant consumed <= e.size && index + consumed <= |data| && (consumed > 0 ==> index <= 255)
      invariant e.text == data[index..index + consumed]
    {
      if index > 255 || index + consumed >= |data| {
        return Past;
      }
      e.text := e.text + [data[index + consumed]];
      consumed := consumed + 1;
    }
    return Read(consumed);
  }

  /** Reads the body of e at index; a finished leaf sends the caller's current
    * pointer back to the parent, if there is one. */
  method ReadBody(data: seq<U8>, index: nat, e: DataElement) returns (r: BodyResult, current: DataElement)
    requires index <= |data| && e.IsEmpty()
    modifies e`uintValue, e`uuidValue, e`text
    ensures r == BodyOutcome(data, index, e.kind, e.size)
    ensures r.Read? ==>
              && e.Own() == FieldsOf(e.startIndex, e.kind, e.size, data[index..index + r.consumed])
              && current == if e.kind != Sequence && e.parent != null then e.parent else e
  {
    current := e;
    match e.kind {
      case Uint => r := ReadUint(data, index, e);
      case Uuid => r := ReadUuid(data, index, e);
      case TextString => r := ReadText(data, index, e);
      case Sequence => return Read(0), e;
      case _ => return BadKind, e;
    }
    if r.Read? && e.parent != null {
      current := e.parent;
    }
  }

  function BodyOutcome(data: seq<U8>, index: nat, kind: ElementType, size: U16): (r: BodyResult)
    ensures r.Read? ==> index <= |data| ==> index + r.consumed <= |data|
  {
    match kind
    case Uint => if BodyInReach(data, index, size) then Read(size) else Past
    case Uuid => if BodyInReach(data, index, size) then Read(size) else Past
    case TextString => if BodyInReach(data, index, size) then Read(size) else Past
    case Sequence => Read(0)
    case _ => BadKind
  }

  /** A header and a body read in turn are one token. */
  lemma HeaderThenBody(data: seq<U8>, index: nat)
    requires index < |data| && HeaderInReach(data, index, HeaderLength(data[index] % 8))
    ensures var n := HeaderLength(data[index] % 8);
            var kind, size := KindOf(data[index] / 8), DeclaredSize(data[index..index + n]);
            ReadToken(data, index) ==
              match BodyOutcome(data, index + n, kind, size)
              case Past => Beyond
              case BadKind => BadType
              case Read(c) => Item(Token(FieldsOf(index, kind, size, data[index + n..index + n + c]), n + c))
  {
  }

  /** Adds a fresh child below the current element, the last one on the path. */
  method AddChild(current: DataElement, ghost path: seq<DataElement>, ghost stack: seq<Frame>,
                  ghost done: set<DataElement>)
    returns (child: DataElement)
    requires PathOk(path, stack, done, []) && current == path[|path| - 1]
    modifies current`children
    ensures fresh(child) && child.IsReset() && child.parent == current
    ensures PathOk(path, stack, done, [child])
  {
    child := new DataElement();
    child.Reset();
    child.parent := current;
    current.children := current.children + [child];
    forall k | 0 <= k < |path| ensures NodeOk(path, k, stack[k], done, [child]) {
      ghost var kids := |stack[k].kids|;
      assert old(NodeOk(path, k, stack[k], done, []));
      assert path[k].children[..kids] == old(path[k].children[..kids]);
      assert ModelsAll(path[k].children[..kids], stack[k].kids, done);
    }
  }

  lemma HeaderBeyond(data: seq<U8>, index: nat)
    requires !(index < |data| && HeaderInReach(data, index, HeaderLength(data[index] % 8)))
    ensures ReadToken(data, index) == Beyond
  {
  }

  /** One more token of a scan. */
  lemma ScanStep(data: seq<U8>, start: nat, ts: seq<Token>, pos: nat, stop: nat)
    requires pos < stop && ScanElement(data, start) == Prepend(ts, ScanFrom(data, pos, stop))
    ensures ScanElement(data, start)
         == match ReadToken(data, pos)
            case Beyond => OutOfRange
            case BadType => Threw
            case Item(t) => Prepend(ts + [t], ScanFrom(data, pos + t.length, stop))
  {
    hide ReadToken; hide ScanElement;
    if ReadToken(data, pos).Item? {
      var t := ReadToken(data, pos).token;
      PrependPrepend(ts, [t], ScanFrom(data, pos + t.length, stop));
    }
  }

  // ----- the loop -------------------------------------------------------------

  /** Reads one element, header and body, into a fresh object. */
  method ReadElement(data: seq<U8>, index: nat, e: DataElement) returns (r: BodyResult, current: DataElement)
    requires e.IsReset()
    modifies e`startIndex, e`kind, e`size, e`uintValue, e`uuidValue, e`text
    ensures match ReadToken(data, index)
            case Beyond => r == Past
            case BadType => r == BadKind
            case Item(t) =>
              && r == Read(t.length) && e.Own() == t.fields
              && current == if e.kind != Sequence && e.parent != null then e.parent else e
  {
    hide FieldsOf; hide DeclaredSize; hide HeaderLength; hide KindOf;
    var inRange, n := ReadHeader(data, index, e);
    if !inRange {
      HeaderBeyond(data, index);
      return Past, e;
    }
    r, current := ReadBody(data, index + n, e);
    HeaderThenBody(data, index);
    if r.Read? {
      r := Read(n + r.consumed);
    }
  }

  predicate AllSequences(stack: seq<Frame>)
  {
    forall k :: 0 <= k < |stack| ==> stack[k].fields.kind == Sequence
  }

  /** The state between two iterations: current is the end of the rightmost path
    * below root, and all objects met so far are in nodes. */
  ghost predicate Growing(root: DataElement, current: DataElement, path: seq<DataElement>, stack: seq<Frame>,
                          done: set<DataElement>, nodes: set<DataElement>)
    reads path, done
  {
    && PathOk(path, stack, done, []) && AllSequences(stack)
    && path[0] == root && path[|path| - 1] == current
    && done <= nodes && forall p :: p in path ==> p in nodes
  }

  /** A child that has just been read becomes the end of the path, if it is a
    * sequence, or a complete subtree. */
  lemma EnterToken(root: DataElement, path: seq<DataElement>, stack: seq<Frame>, done: set<DataElement>,
                   nodes: set<DataElement>, child: DataElement, t: Token)
    requires PathOk(path, stack, done, [child]) && AllSequences(stack) && path[0] == root
    requires done <= nodes && (forall p :: p in path ==> p in nodes) && child !in nodes
    requires child.children == [] && child.Own() == t.fields && child.parent == path[|path| - 1]
    ensures if t.fields.kind == Sequence
            then Growing(root, child, path + [child], Enter(stack, t), done, nodes + {child})
            else Growing(root, path[|path| - 1], path, Enter(stack, t), done + {child}, nodes + {child})
  {
    if t.fields.kind == Sequence {
      EnterSequence(path, stack, done, child);
    } else {
      EnterLeaf(path, stack, done, child);
    }
  }

  /** The end test: leaves a sequence whose bytes are taken to be read. */
  method LeaveIfEnded(consumed: nat, current: DataElement, root: DataElement, ghost origin: nat,
                      ghost path: seq<DataElement>, ghost stack: seq<Frame>,
                      ghost done: set<DataElement>, ghost nodes: set<DataElement>)
    returns (current': DataElement, ghost path': seq<DataElement>, ghost stack': seq<Frame>,
             ghost done': set<DataElement>)
    requires Growing(root, current, path, stack, done, nodes)
    ensures Growing(root, current', path', stack', done', nodes)
    ensures 0 < |stack'| <= |path| && current' == path[|stack'| - 1]
    ensures stack' == if |stack| > 1 && Ended(stack[|stack| - 1].fields, origin + consumed, origin) then Pop(stack)
                      else stack
  {
    current', path', stack', done' := current, path, stack, done;
    assert NodeOk(path, |path| - 1, stack[|path| - 1], done, []);
    if current.kind == Sequence {
      if consumed >= current.startIndex + current.size {
        if current.parent != null {
          Leave(path, stack, done);
          path', stack', done' := path[..|path| - 1], Pop(stack), done + {current};
          current' := current.parent;
        }
      }
    }
  }

  /** One iteration of the loop below the root. */
  method NextBelow(data: seq<U8>, start: nat, consumed: nat, current: DataElement, root: DataElement,
                   ghost path: seq<DataElement>, ghost stack: seq<Frame>,
                   ghost done: set<DataElement>, ghost nodes: set<DataElement>)
    returns (r: BodyResult, current': DataElement, ghost path': seq<DataElement>, ghost stack': seq<Frame>,
             ghost done': set<DataElement>, ghost nodes': set<DataElement>)
    requires Growing(root, current, path, stack, done, nodes)
    modifies current`children
    ensures nodes <= nodes' && fresh(nodes' - nodes)
    ensures match ReadToken(data, start + consumed)
            case Beyond => r == Past
            case BadType => r == BadKind
            case Item(t) =>
              && r == Read(t.length) && stack' == StepStack(stack, t, start)
              && Growing(root, current', path', stack', done', nodes')
  {
    hide ReadToken; hide Enter; hide Ended; hide Pop; hide AllSequences; hide PathOk;
    path', stack', done' := path, stack, done;
    var child := AddChild(current, path, stack, done);
    nodes' := nodes + {child};
    r, current' := ReadElement(data, start + consumed, child);
    if r.Read? {
      ghost var t := ReadToken(data, start + consumed).token;
      EnterToken(root, path, stack, done, nodes, child, t);
      stack' := Enter(stack, t);
      if child.kind == Sequence {
        path' := path + [child];
      } else {
        done' := done + {child};
      }
      current', path', stack', done' :=
        LeaveIfEnded(consumed + r.consumed, current', root, start, path', stack', done', nodes');
    }
  }

  datatype ParseResult = Parsed(consumed: nat) | ParseThrew | ParseOutOfRange

  /** Reads the element at start into root and the objects it allocates below
    * root. For all data: the result is that of the linear scan, and the tree
    * left behind is the one the scan gives when every token is attached below
    * the current node of the rightmost path. */
  method Deserialize(data: seq<U8>, start: nat, root: DataElement)
    returns (r: ParseResult, ghost nodes: set<DataElement>)
    requires root.IsReset() && root.parent == null
    modifies root
    ensures match Scan(data, start)
            case Threw => r == ParseThrew
            case OutOfRange => r == ParseOutOfRange
            case Scanned(ts, end) =>
              && r == Parsed(end - start)
              && root in nodes && fresh(nodes - {root})
              && Models(root, BuildTree(ts, start), nodes)
  {
    hide ReadToken; hide ScanElement; hide BuildTree; hide RunStack; hide StepStack; hide Models; hide ModelsAll;
    hide Growing; hide PathOk; hide NodeOk; hide Prepend; hide ScanFrom;
    var current, consumed := root, 0;
    // before the header of root is read, it is unknown how long the element is
    var dataSize: int := -1;
    ghost var path: seq<DataElement>, stack: seq<Frame>, done: set<DataElement> := [root], [], {};
    ghost var tokens: seq<Token> := [];
    nodes := {root};
    while dataSize == -1 || consumed < dataSize
      invariant dataSize >= -1 && consumed <= 255 && root in nodes && fresh(nodes - {root})
      invariant dataSize == -1 ==>
                  current == root && consumed == 0 && nodes == {root} && root.IsReset() && root.parent == null
      invariant dataSize != -1 ==>
                  && tokens != [] && start + dataSize == Stop(tokens[0].fields) && start + consumed <= |data|
                  && ScanElement(data, start) == Prepend(tokens, ScanFrom(data, start + consumed, start + dataSize))
                  && if tokens[0].fields.kind == Sequence then
                       && Growing(root, current, path, stack, done, nodes)
                       && stack == RunStack([Frame(tokens[0].fields, [])], tokens[1..], start)
                     else
                       consumed >= dataSize && |tokens| == 1 && root.Own() == tokens[0].fields && root.children == []
      decreases |data| - start - consumed
    {
      var body;
      ghost var t := ReadToken(data, start + consumed);
      if dataSize == -1 {
        body, current := ReadElement(data, start, root);
        ScanRoot(data, start);
        if body.Read? {
          dataSize := root.size;
          if root.kind == Sequence {
            dataSize := dataSize + 2;
          }
          tokens, path, stack, done := [t.token], [root], [Frame(t.token.fields, [])], {};
          RootRead(root, t.token, start);
        }
      } else {
        CurrentKnown(root, current, path, stack, done, nodes);
        body, current, path, stack, done, nodes :=
          NextBelow(data, start, consumed, current, root, path, stack, done, nodes);
        ScanStep(data, start, tokens, start + consumed, start + dataSize);
        if body.Read? {
          RunStackSnoc([Frame(tokens[0].fields, [])], tokens[1..], t.token, start);
          assert (tokens + [t.token])[1..] == tokens[1..] + [t.token];
          tokens := tokens + [t.token];
        }
      }
      match body {
        case BadKind => return ParseThrew, nodes;
        case Past => return ParseOutOfRange, nodes;
        case Read(c) => consumed := consumed + c;
      }
      // the count has eight bits
      if consumed > 255 {
        CountWraps(data, start, tokens, start + consumed, start + dataSize);
        return ParseOutOfRange, nodes;
      }
    }
    ScanStops(data, tokens, start + consumed, start + dataSize);
    if tokens[0].fields.kind == Sequence {
      SequenceRead(root, current, path, stack, done, nodes, tokens, start);
    } else {
      LeafRead(root, nodes, tokens, start);
    }
    return Parsed(consumed), nodes;
  }

  /** A count that passes 255 cannot be that of a scan. */
  lemma CountWraps(data: seq<U8>, start: nat, tokens: seq<Token>, pos: nat, stop: nat)
    requires ScanElement(data, start) == Prepend(tokens, ScanFrom(data, pos, stop)) && pos > start + 255
    ensures Scan(data, start) == OutOfRange
  {
    hide ScanElement;
  }

  lemma ScanStops(data: seq<U8>, tokens: seq<Token>, pos: nat, stop: nat)
    requires pos >= stop
    ensures Prepend(tokens, ScanFrom(data, pos, stop)) == Scanned(tokens, pos)
  {
    assert tokens + [] == tokens;
  }

  lemma CurrentKnown(root: DataElement, current: DataElement, path: seq<DataElement>, stack: seq<Frame>,
                     done: set<DataElement>, nodes: set<DataElement>)
    requires Growing(root, current, path, stack, done, nodes)
    ensures current in nodes
  {
  }

  lemma SequenceRead(root: DataElement, current: DataElement, path: seq<DataElement>, stack: seq<Frame>,
                     done: set<DataElement>, nodes: set<DataElement>, tokens: seq<Token>, start: nat)
    requires Growing(root, current, path, stack, done, nodes)
    requires tokens != [] && stack == RunStack([Frame(tokens[0].fields, [])], tokens[1..], start)
    ensures Models(root, BuildTree(tokens, start), nodes)
  {
    PathModels(path, stack, done, nodes);
  }

  lemma RootRead(root: DataElement, t: Token, start: nat)
    requires root.parent == null && root.Own() == t.fields && root.children == []
    ensures [Frame(t.fields, [])] == RunStack([Frame(t.fields, [])], [t][1..], start)
    ensures t.fields.kind == Sequence ==> Growing(root, root, [root], [Frame(t.fields, [])], {}, {root})
  {
    if t.fields.kind == Sequence {
      assert NodeOk([root], 0, Frame(t.fields, []), {}, []);
    }
  }

  lemma LeafRead(root: DataElement, nodes: set<DataElement>, tokens: seq<Token>, start: nat)
    requires |tokens| == 1 && root in nodes && root.Own() == tokens[0].fields && root.children == []
    ensures Models(root, BuildTree(tokens, start), nodes)
  {
    assert tokens[1..] == [];
    assert BuildTree(tokens, start) == Node(tokens[0].fields, []);
  }

  lemma ScanRoot(data: seq<U8>, start: nat)
    ensures ScanElement(data, start)
         == match ReadToken(data, start)
            case Beyond => OutOfRange
            case BadType => Threw
            case Item(t) => Prepend([t], ScanFrom(data, start + t.length, Stop(t.fields)))
  {
    hide ReadToken;
  }
}
