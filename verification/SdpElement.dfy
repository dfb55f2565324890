/** SDP data elements: the fields of a tree node, trees as values, and the
  * bytes the serializer writes for one element. */
module SdpElement {
  import opened Bytes
  import opened Sequences

  datatype ElementType =
    | Nil | Uint | TwosComplementInt | Uuid | TextString | Boolean
    | Sequence | Alternative | Url | Unknown | DummyUint

  /** The data fields of one DataElement. */
  datatype Fields = Fields(
    start: nat,
    kind: ElementType,
    size: U16,
    uintValue: U32,
    uuidValue: U16,
    text: seq<U8>)

  datatype Tree = Node(fields: Fields, kids: seq<Tree>)

  /** A node of a preorder listing. */
  datatype Placed = Placed(fields: Fields, depth: nat)

  /** Preorder listing of a tree whose root has the given depth. */
  function Flatten(t: Tree, depth: nat): (items: seq<Placed>)
    ensures |items| > 0 && items[0] == Placed(t.fields, depth)
    decreases t, 0
  {
    [Placed(t.fields, depth)] + FlattenForest(t.kids, depth + 1)
  }

  function FlattenForest(ts: seq<Tree>, depth: nat): (items: seq<Placed>)
    ensures ts == [] <==> items == []
    ensures ts != [] ==> items[0] == Placed(ts[0].fields, depth)
    decreases ts, 1
  {
    if ts == [] then [] else Flatten(ts[0], depth) + FlattenForest(ts[1..], depth)
  }

  function AllFields(items: seq<Placed>): (ls: seq<Fields>)
    ensures |ls| == |items|
  {
    seq(|items|, i requires 0 <= i < |items| => items[i].fields)
  }

  lemma AllFieldsConcat(a: seq<Placed>, b: seq<Placed>)
    ensures AllFields(a + b) == AllFields(a) + AllFields(b)
  {
  }

  /** The fields of the nodes of a tree, in preorder. */
  function Preorder(t: Tree): (fs: seq<Fields>)
    decreases t, 0
  {
    [t.fields] + PreorderForest(t.kids)
  }

  function PreorderForest(ts: seq<Tree>): (fs: seq<Fields>)
    decreases ts, 1
  {
    if ts == [] then [] else Preorder(ts[0]) + PreorderForest(ts[1..])
  }

  lemma {:induction false} FlattenFields(t: Tree, depth: nat)
    ensures AllFields(Flatten(t, depth)) == Preorder(t)
    decreases t, 0
  {
    FlattenForestFields(t.kids, depth + 1);
    AllFieldsConcat([Placed(t.fields, depth)], FlattenForest(t.kids, depth + 1));
  }

  lemma {:induction false} FlattenForestFields(ts: seq<Tree>, depth: nat)
    ensures AllFields(FlattenForest(ts, depth)) == PreorderForest(ts)
    decreases ts, 1
  {
    if ts == [] {
    } else {
      FlattenFields(ts[0], depth);
      FlattenForestFields(ts[1..], depth);
      AllFieldsConcat(Flatten(ts[0], depth), FlattenForest(ts[1..], depth));
    }
  }

  lemma {:induction false} FlattenForestConcat(a: seq<Tree>, b: seq<Tree>, depth: nat)
    ensures FlattenForest(a + b, depth) == FlattenForest(a, depth) + FlattenForest(b, depth)
  {
    if a == [] {
      assert a + b == b;
    } else {
      assert (a + b)[1..] == a[1..] + b;
      FlattenForestConcat(a[1..], b, depth);
    }
  }

  /** A listing that cannot continue a forest of the given depth. */
  predicate Stops(items: seq<Placed>, depth: nat)
  {
    items == [] || items[0].depth < depth
  }

  lemma UnfoldForest(a: seq<Tree>, x: seq<Placed>, depth: nat)
    requires a != []
    ensures FlattenForest(a, depth) + x
         == [Placed(a[0].fields, depth)]
          + (FlattenForest(a[0].kids, depth + 1) + (FlattenForest(a[1..], depth) + x))
    ensures |FlattenForest(a, depth)| == 1 + |FlattenForest(a[0].kids, depth + 1)| + |FlattenForest(a[1..], depth)|
  {
    var first, kids := [Placed(a[0].fields, depth)], FlattenForest(a[0].kids, depth + 1);
    var rest := FlattenForest(a[1..], depth);
    assert FlattenForest(a, depth) == first + kids + rest;
    hide FlattenForest; hide Flatten;
    Regroup(first, kids, rest, x);
  }

  /** The preorder fields with their depths determine a forest, even when a
    * shallower listing follows. */
  lemma {:induction false} FlattenForestInjective(a: seq<Tree>, x: seq<Placed>, b: seq<Tree>, y: seq<Placed>,
                                                  depth: nat)
    requires FlattenForest(a, depth) + x == FlattenForest(b, depth) + y
    requires Stops(x, depth) && Stops(y, depth)
    ensures a == b && x == y
    decreases |FlattenForest(a, depth)|
  {
    hide Flatten; hide FlattenForest;
    assert a == [] ==> FlattenForest(a, depth) + x == x;
    assert b == [] ==> FlattenForest(b, depth) + y == y;
    if a == [] {
      if b != [] {
        UnfoldForest(b, y, depth);
      }
    } else {
      UnfoldForest(a, x, depth);
      if b != [] {
        UnfoldForest(b, y, depth);
        var ra, rb := FlattenForest(a[1..], depth) + x, FlattenForest(b[1..], depth) + y;
        ConsInjective(Placed(a[0].fields, depth), FlattenForest(a[0].kids, depth + 1) + ra,
                      Placed(b[0].fields, depth), FlattenForest(b[0].kids, depth + 1) + rb);
        FlattenForestInjective(a[0].kids, ra, b[0].kids, rb, depth + 1);
        FlattenForestInjective(a[1..], x, b[1..], y, depth);
        assert a == [a[0]] + a[1..] && b == [b[0]] + b[1..];
      }
    }
  }

  lemma ConsInjective<T>(a: T, x: seq<T>, b: T, y: seq<T>)
    requires [a] + x == [b] + y
    ensures a == b && x == y
  {
    assert ([a] + x)[0] == a && ([b] + y)[0] == b;
    assert ([a] + x)[1..] == x && ([b] + y)[1..] == y;
  }

  /** Two trees with the same preorder fields and depths are equal. */
  lemma FlattenInjective(t: Tree, u: Tree, depth: nat)
    requires Flatten(t, depth) == Flatten(u, depth)
    ensures t == u
  {
    var ft, fu := FlattenForest(t.kids, depth + 1), FlattenForest(u.kids, depth + 1);
    assert ft == Flatten(t, depth)[1..] && fu == Flatten(u, depth)[1..];
    assert ft + [] == fu + [];
    FlattenForestInjective(t.kids, [], u.kids, [], depth + 1);
  }
}
