/** The link key database and its file format. */
module LinkKeys {
  import opened Bytes
  import opened Options

  type Addr = a: seq<U8> | |a| == 6 witness [0, 0, 0, 0, 0, 0]
  type Key = k: seq<U8> | |k| == 16 witness [0, 0, 0, 0, 0, 0, 0, 0, 0, 0, 0, 0, 0, 0, 0, 0]

  const ZERO_KEY: Key := [0, 0, 0, 0, 0, 0, 0, 0, 0, 0, 0, 0, 0, 0, 0, 0]

  const RECORD := 22

  // ----- the order of addresses ------------------------------------------------------

  predicate Less(a: seq<U8>, b: seq<U8>)
  {
    if a == [] || b == [] then |a| < |b|
    else a[0] < b[0] || (a[0] == b[0] && Less(a[1..], b[1..]))
  }

  lemma {:induction false} LessTotal(a: seq<U8>, b: seq<U8>)
    ensures Less(a, b) || Less(b, a) || a == b
    ensures !(Less(a, b) && Less(b, a)) && !Less(a, a)
    decreases |a|
  {
    if a == [] {
    } else {
      LessTotal(a[1..], a[1..]);
      if b != [] {
        LessTotal(a[1..], b[1..]);
        assert a == [a[0]] + a[1..] && b == [b[0]] + b[1..];
      }
    }
  }

  lemma {:induction false} LessTransitive(a: seq<U8>, b: seq<U8>, c: seq<U8>)
    requires Less(a, b) && Less(b, c)
    ensures Less(a, c)
    decreases |a|
  {
    if a != [] && b != [] && c != [] && a[0] == b[0] == c[0] {
      LessTransitive(a[1..], b[1..], c[1..]);
    }
  }

  /** At place i the two differ for the first time, and a has the smaller byte. */
  predicate SmallerAt(a: seq<U8>, b: seq<U8>, i: nat)
  {
    i < |a| && i < |b| && a[..i] == b[..i] && a[i] < b[i]
  }

  predicate Smaller(a: seq<U8>, b: seq<U8>)
  {
    exists i :: 0 <= i < |a| && SmallerAt(a, b, i)
  }

  /** Addresses are compared as byte arrays are: the first byte in which they differ
    * decides. */
  lemma {:induction false} FirstDifferenceDecides(a: seq<U8>, b: seq<U8>)
    requires |a| == |b|
    ensures Less(a, b) <==> Smaller(a, b)
  {
    if a == [] {
    } else {
      var ta, tb := a[1..], b[1..];
      FirstDifferenceDecides(ta, tb);
      forall i | 0 <= i < |ta| ensures SmallerAt(a, b, i + 1) <==> a[0] == b[0] && SmallerAt(ta, tb, i) {
        assert a[..i + 1] == [a[0]] + ta[..i] && b[..i + 1] == [b[0]] + tb[..i];
      }
      assert SmallerAt(a, b, 0) <==> a[0] < b[0];
      if Smaller(a, b) && a[0] >= b[0] {
        var i :| 0 <= i < |a| && SmallerAt(a, b, i);
        assert SmallerAt(ta, tb, i - 1);
      }
      if a[0] == b[0] && Smaller(ta, tb) {
        var i :| 0 <= i < |ta| && SmallerAt(ta, tb, i);
        assert SmallerAt(a, b, i + 1);
      }
    }
  }

  predicate IsLeast(a: Addr, s: set<Addr>)
  {
    a in s && forall b :: b in s ==> a == b || Less(a, b)
  }

  lemma {:induction false} LeastExists(s: set<Addr>)
    requires s != {}
    ensures exists a: Addr :: IsLeast(a, s)
    decreases |s|
  {
    var x :| x in s;
    if s == {x} {
      assert IsLeast(x, s);
    } else {
      LeastExists(s - {x});
      var a: Addr :| IsLeast(a, s - {x});
      LessTotal(a, x);
      if Less(a, x) {
        assert IsLeast(a, s);
      } else {
        forall b | b in s ensures x == b || Less(x, b) {
          if b != x && b != a {
            LessTransitive(x, a, b);
          }
        }
        assert IsLeast(x, s);
      }
    }
  }

  lemma LeastUnique(s: set<Addr>)
    ensures forall a: Addr, b: Addr :: IsLeast(a, s) && IsLeast(b, s) ==> a == b
  {
    forall a: Addr, b: Addr | IsLeast(a, s) && IsLeast(b, s) ensures a == b {
      LessTotal(a, b);
    }
  }

  function Least(s: set<Addr>): (a: Addr)
    requires s != {}
    ensures IsLeast(a, s)
  {
    LeastExists(s);
    LeastUnique(s);
    var a: Addr :| IsLeast(a, s);
    a
  }

  /** The addresses in the order in which an ordered map is traversed. */
  function InOrder(s: set<Addr>): (ks: seq<Addr>)
    ensures |ks| == |s|
    ensures forall a :: a in ks <==> a in s
  {
    if s == {} then []
    else
      var a := Least(s);
      [a] + InOrder(s - {a})
  }

  predicate Ascending(ks: seq<Addr>)
  {
    forall i, j :: 0 <= i < j < |ks| ==> Less(ks[i], ks[j])
  }

  lemma {:induction false} InOrderSorted(s: set<Addr>)
    ensures Ascending(InOrder(s))
    decreases |s|
  {
    hide Less;
    if s != {} {
      var a := Least(s);
      var rest := InOrder(s - {a});
      InOrderSorted(s - {a});
      forall j | 0 <= j < |rest| ensures Less(a, rest[j]) {
        assert rest[j] in s - {a};
      }
      AscendingCons(a, rest);
    }
  }

  lemma AscendingCons(a: Addr, rest: seq<Addr>)
    requires Ascending(rest) && forall j :: 0 <= j < |rest| ==> Less(a, rest[j])
    ensures Ascending([a] + rest)
  {
    hide Less;
  }

  // ----- the file ----------------------------------------------------------------------

  datatype Entry = Entry(addr: Addr, key: Key)

  function EntriesOf(ks: seq<Addr>, m: map<Addr, Key>): (es: seq<Entry>)
    requires forall a :: a in ks ==> a in m
    ensures |es| == |ks|
  {
    if ks == [] then [] else [Entry(ks[0], m[ks[0]])] + EntriesOf(ks[1..], m)
  }

  function EncodeEntries(es: seq<Entry>): (b: seq<U8>)
    ensures |b| == RECORD * |es|
  {
    if es == [] then [] else es[0].addr + es[0].key + EncodeEntries(es[1..])
  }

  /** A 16-bit count, low byte first, then the pairs ordered by address. */
  function FileOf(m: map<Addr, Key>): (b: seq<U8>)
    ensures |b| == 2 + RECORD * |m|
  {
    LittleEndian(|m| % 0x1_0000, 2) + EncodeEntries(EntriesOf(InOrder(m.Keys), m))
  }

  /** Inserting never replaces. */
  function Insert(m: map<Addr, Key>, a: Addr, k: Key): map<Addr, Key>
  {
    if a in m then m else m[a := k]
  }

  function InsertAll(m: map<Addr, Key>, es: seq<Entry>): map<Addr, Key>
    decreases |es|
  {
    if es == [] then m else InsertAll(Insert(m, es[0].addr, es[0].key), es[1..])
  }

  /** The number of pairs a file announces; bytes that are missing count as zero. */
  function PairCount(file: seq<U8>): nat
  {
    FromLittleEndian(if |file| < 2 then file else file[..2])
  }

  /** The file as the reader sees it: where pairs that are announced are missing,
    * the bytes that happened to be in the variables. */
  function Filled(file: seq<U8>, stale: nat -> U8): (r: seq<U8>)
    ensures |r| >= 2 + RECORD * PairCount(file)
    ensures |file| >= 2 + RECORD * PairCount(file) ==> r == file
  {
    var need := 2 + RECORD * PairCount(file);
    if |file| >= need then file else seq(need, i requires 0 <= i < need => if i < |file| then file[i] else stale(i))
  }

  function EntryAt(file: seq<U8>, i: nat): Entry
    requires 2 + RECORD * (i + 1) <= |file|
  {
    var p := 2 + RECORD * i;
    Entry(file[p..p + 6], file[p + 6..p + RECORD])
  }

  /** The first n entries of a file. */
  function DecodeEntries(file: seq<U8>, n: nat): (es: seq<Entry>)
    requires 2 + RECORD * n <= |file|
    ensures |es| == n
  {
    if n == 0 then [] else DecodeEntries(file, n - 1) + [EntryAt(file, n - 1)]
  }

  function Loaded(file: seq<U8>, stale: nat -> U8): map<Addr, Key>
  {
    InsertAll(map[], DecodeEntries(Filled(file, stale), PairCount(file)))
  }

  // ----- the database object --------------------------------------------------------------

  lemma {:induction false} InsertAllSnoc(m: map<Addr, Key>, es: seq<Entry>, e: Entry)
    ensures InsertAll(m, es + [e]) == Insert(InsertAll(m, es), e.addr, e.key)
    decreases |es|
  {
    if es == [] {
      assert ([] + [e])[1..] == [];
    } else {
      assert (es + [e])[1..] == es[1..] + [e];
      InsertAllSnoc(Insert(m, es[0].addr, es[0].key), es[1..], e);
    }
  }

  class LinkKeyDatabase {
    var dataStore: map<Addr, Key>

    constructor ()
      ensures dataStore == map[]
    {
      dataStore := map[];
    }

    method Contains(a: Addr) returns (b: bool)
      ensures b == (a in dataStore)
    {
      b := a in dataStore;
    }

    method Add(a: Addr, k: Key)
      modifies this
      ensures dataStore == Insert(old(dataStore), a, k)
    {
      if a !in dataStore {
        dataStore := dataStore[a := k];
      }
    }

    method Remove(a: Addr)
      modifies this
      ensures dataStore == old(dataStore) - {a}
    {
      dataStore := dataStore - {a};
    }

    /** Looking up an address that is not there adds it, with a key of zeros. */
    method Retrieve(a: Addr) returns (k: Key)
      modifies this
      ensures dataStore == Insert(old(dataStore), a, ZERO_KEY) && k == dataStore[a]
      ensures a !in old(dataStore) ==> forall i :: 0 <= i < 16 ==> k[i] == 0
    {
      if a !in dataStore {
        dataStore := dataStore[a := ZERO_KEY];
      }
      k := dataStore[a];
    }

    /** What was stored before is gone, even if the file cannot be opened. */
    method LoadFromFile(source: Option<seq<U8>>, stale: nat -> U8)
      modifies this
      ensures dataStore == if source == None then map[] else Loaded(source.value, stale)
    {
      dataStore := map[];
      if source == None {
        return;
      }
      var amountOfPairs := PairCount(source.value);
      var file := Filled(source.value, stale);
      for i := 0 to amountOfPairs
        invariant dataStore == InsertAll(map[], DecodeEntries(file, i))
      {
        var p := 2 + RECORD * i;
        var addr, key := file[p..p + 6], file[p + 6..p + RECORD];
        InsertAllSnoc(map[], DecodeEntries(file, i), EntryAt(file, i));
        Add(addr, key);
      }
    }

    /** Runs operations one after the other. */
    method RunAll(ops: seq<Op>)
      modifies this
      ensures dataStore == PerformAll(old(dataStore), ops)
    {
      for i := 0 to |ops|
        invariant PerformAll(dataStore, ops[i..]) == PerformAll(old(dataStore), ops)
      {
        assert ops[i..][1..] == ops[i + 1..];
        match ops[i] {
          case DoContains(a) =>
            var _ := Contains(a);
          case DoAdd(a, k) => Add(a, k);
          case DoRemove(a) => Remove(a);
          case DoRetrieve(a) =>
            var _ := Retrieve(a);
        }
      }
    }

    method StoreToFile() returns (file: seq<U8>)
      ensures file == FileOf(dataStore)
    {
      var amountOfPairs := |dataStore| % 0x1_0000;
      file := LittleEndian(amountOfPairs, 2);
      var keys := InOrder(dataStore.Keys);
      var entries := EntriesOf(keys, dataStore);
      for i := 0 to |keys|
        invariant file + EncodeEntries(entries[i..]) == FileOf(dataStore)
      {
        EntriesAt(keys, dataStore, i);
        assert entries[i..][1..] == entries[i + 1..];
        ghost var before := file;
        file := file + keys[i];
        file := file + dataStore[keys[i]];
        assert before + (keys[i] + dataStore[keys[i]] + EncodeEntries(entries[i + 1..])) ==
            file + EncodeEntries(entries[i + 1..]);
      }
    }
  }

  lemma {:induction false} EntriesAt(ks: seq<Addr>, m: map<Addr, Key>, i: nat)
    requires (forall a :: a in ks ==> a in m) && i < |ks|
    ensures EntriesOf(ks, m)[i] == Entry(ks[i], m[ks[i]])
  {
    if i == 0 {
    } else {
      EntriesAt(ks[1..], m, i - 1);
    }
  }

  // ----- round trip --------------------------------------------------------------------------

  /** Reading entries back. */
  lemma {:induction false} DecodeEncoded(count: seq<U8>, es: seq<Entry>, n: nat)
    requires |count| == 2 && n <= |es|
    ensures DecodeEntries(count + EncodeEntries(es), n) == es[..n]
    decreases n
  {
    if n == 0 {
    } else {
      DecodeEncoded(count, es, n - 1);
      EncodedAt(es, n - 1);
      var file, p := count + EncodeEntries(es), RECORD * (n - 1);
      var e := es[n - 1];
      assert file[2 + p..2 + p + 6] == EncodeEntries(es)[p..p + 6];
      assert file[2 + p + 6..2 + p + RECORD] == EncodeEntries(es)[p + 6..p + RECORD];
      assert es[..n] == es[..n - 1] + [e];
    }
  }

  lemma {:induction false} EncodedAt(es: seq<Entry>, i: nat)
    requires i < |es|
    ensures var b, p := EncodeEntries(es), RECORD * i;
            b[p..p + 6] == es[i].addr && b[p + 6..p + RECORD] == es[i].key
    decreases i
  {
    var b := EncodeEntries(es);
    var first := es[0].addr + es[0].key;
    assert b == first + EncodeEntries(es[1..]);
    if i == 0 {
      assert b[0..6] == first[..6] == es[0].addr;
      assert b[6..RECORD] == first[6..] == es[0].key;
    } else {
      var p := RECORD * (i - 1);
      EncodedAt(es[1..], i - 1);
      assert b[RECORD + p..RECORD + p + 6] == EncodeEntries(es[1..])[p..p + 6];
      assert b[RECORD + p + 6..RECORD + p + RECORD] == EncodeEntries(es[1..])[p + 6..p + RECORD];
    }
  }

  /** The entries of a file with duplicates: the first one of an address counts. */
  predicate IsFirst(es: seq<Entry>, i: nat)
    requires i < |es|
  {
    forall j :: 0 <= j < i ==> es[j].addr != es[i].addr
  }

  lemma {:induction false} FirstEntryCounts(m: map<Addr, Key>, es: seq<Entry>)
    ensures var r := InsertAll(m, es);
            && (forall a :: a in r <==> a in m || exists i :: 0 <= i < |es| && es[i].addr == a)
            && (forall a :: a in m ==> r[a] == m[a])
            && (forall i :: 0 <= i < |es| && es[i].addr !in m && IsFirst(es, i) ==> r[es[i].addr] == es[i].key)
    decreases |es|
  {
    if es == [] {
    } else {
      var m' := Insert(m, es[0].addr, es[0].key);
      var rest := es[1..];
      FirstEntryCounts(m', rest);
      assert forall i :: 0 <= i < |rest| ==> rest[i] == es[i + 1];
      assert forall i :: 0 < i < |es| ==> es[i] == rest[i - 1];
      forall i | 0 <= i < |es| && es[i].addr !in m && IsFirst(es, i)
        ensures InsertAll(m, es)[es[i].addr] == es[i].key
      {
        if i > 0 {
          assert es[0].addr != es[i].addr;
          forall j | 0 <= j < i - 1 ensures rest[j].addr != rest[i - 1].addr {
            assert es[j + 1].addr != es[i].addr;
          }
          assert IsFirst(rest, i - 1);
        }
      }
    }
  }

  predicate Listed(es: seq<Entry>, a: Addr)
  {
    exists i :: 0 <= i < |es| && es[i].addr == a
  }

  /** Inserting into an empty map. */
  lemma FromNothing(es: seq<Entry>)
    ensures var r := InsertAll(map[], es);
            && (forall a :: a in r ==> Listed(es, a))
            && forall i :: 0 <= i < |es| && IsFirst(es, i) ==> es[i].addr in r && r[es[i].addr] == es[i].key
  {
    hide InsertAll; hide IsFirst;
    var none: map<Addr, Key> := map[];
    var r := InsertAll(none, es);
    FirstEntryCounts(none, es);
    forall i | 0 <= i < |es| && IsFirst(es, i) ensures es[i].addr in r && r[es[i].addr] == es[i].key {
      assert es[i].addr !in none;
    }
    forall a | a in r ensures Listed(es, a) {
      assert a !in none;
    }
  }

  /** Inserting the first n pairs of a map, in order, gives the map restricted to
    * their addresses. */
  lemma InsertPairs(m: map<Addr, Key>, n: nat)
    requires n <= |m|
    ensures var ks := InOrder(m.Keys)[..n];
            InsertAll(map[], EntriesOf(InOrder(m.Keys), m)[..n]) == map a | a in ks :: m[a]
  {
    hide InsertAll; hide EntriesOf; hide InOrder; hide Less; hide Listed;
    var all := InOrder(m.Keys);
    var ks, es := all[..n], EntriesOf(all, m)[..n];
    var r := InsertAll(map[], es);
    FromNothing(es);
    forall i | 0 <= i < n ensures es[i] == Entry(ks[i], m[ks[i]]) && IsFirst(es, i) {
      EntriesAt(all, m, i);
      forall j | 0 <= j < i ensures es[j].addr != es[i].addr {
        EntriesAt(all, m, j);
        NoRepeats(m.Keys, j, i);
      }
    }
    Restriction(m, ks, es, r);
  }

  /** A map that holds exactly the listed pairs of m. */
  lemma Restriction(m: map<Addr, Key>, ks: seq<Addr>, es: seq<Entry>, r: map<Addr, Key>)
    requires |ks| == |es| && forall a :: a in ks ==> a in m
    requires forall i :: 0 <= i < |es| ==> es[i] == Entry(ks[i], m[ks[i]]) && IsFirst(es, i)
    requires forall a :: a in r ==> Listed(es, a)
    requires forall i :: 0 <= i < |es| && IsFirst(es, i) ==> es[i].addr in r && r[es[i].addr] == es[i].key
    ensures r == map a | a in ks :: m[a]
  {
    hide IsFirst;
    forall i | 0 <= i < |ks| ensures ks[i] in r && r[ks[i]] == m[ks[i]] {
      assert es[i] == Entry(ks[i], m[ks[i]]) && IsFirst(es, i);
    }
    forall a | a in r ensures a in ks {
      var i :| 0 <= i < |es| && es[i].addr == a;
      assert ks[i] == a;
    }
  }

  lemma NoRepeats(s: set<Addr>, i: nat, j: nat)
    requires i < j < |s|
    ensures InOrder(s)[i] != InOrder(s)[j]
  {
    InOrderSorted(s);
    LessTotal(InOrder(s)[i], InOrder(s)[j]);
    assert Less(InOrder(s)[i], InOrder(s)[j]);
  }

  lemma TwoBytes(v: U16)
    ensures FromLittleEndian(LittleEndian(v, 2)) == v
  {
    assert Pow256(2) == 256 * Pow256(1);
    DecodeLittleEndian(v, 2);
  }

  /** The first n pairs in address order. */
  function FirstPairs(m: map<Addr, Key>, n: nat): map<Addr, Key>
    requires n <= |m|
  {
    map a | a in InOrder(m.Keys)[..n] :: m[a]
  }

  /** What loading a stored database gives, of any size: the pairs the 16-bit
    * count still counts, the first ones in address order. */
  lemma LoadStored(m: map<Addr, Key>, stale: nat -> U8)
    ensures Loaded(FileOf(m), stale) == FirstPairs(m, |m| % 0x1_0000)
  {
    hide InOrder; hide InsertAll; hide EncodeEntries; hide DecodeEntries; hide EntriesOf; hide LittleEndian;
    hide Filled;
    var n, es := |m| % 0x1_0000, EntriesOf(InOrder(m.Keys), m);
    StoredCount(m, stale);
    DecodeEncoded(LittleEndian(n, 2), es, n);
    InsertPairs(m, n);
  }

  lemma StoredCount(m: map<Addr, Key>, stale: nat -> U8)
    ensures PairCount(FileOf(m)) == |m| % 0x1_0000 && Filled(FileOf(m), stale) == FileOf(m)
  {
    hide InOrder; hide EncodeEntries; hide EntriesOf; hide LittleEndian;
    TwoBytes(|m| % 0x1_0000);
    assert FileOf(m)[..2] == LittleEndian(|m| % 0x1_0000, 2);
  }

  /** Store, then load: the database comes back exactly when it has fewer than
    * 65536 entries. */
  lemma RoundTrip(m: map<Addr, Key>, stale: nat -> U8)
    ensures Loaded(FileOf(m), stale) == m <==> |m| < 0x1_0000
  {
    hide InsertAll; hide EntriesOf; hide InOrder; hide Less; hide DecodeEntries; hide EncodeEntries; hide Loaded;
    hide FileOf;
    var n := |m| % 0x1_0000;
    var all := InOrder(m.Keys);
    LoadStored(m, stale);
    var r := Loaded(FileOf(m), stale);
    if |m| < 0x1_0000 {
      assert all[..n] == all;
      assert r == m;
    } else {
      var a := all[n];
      forall i | 0 <= i < n ensures all[..n][i] != a {
        NoRepeats(m.Keys, i, n);
      }
      assert a in m && a !in r;
    }
  }

  /** The bytes of a stored file: two for the number of pairs, low byte first, then 22
    * for each pair, its address in front of its key. */
  lemma StoredBytes(m: map<Addr, Key>, i: nat)
    requires i < |m|
    ensures var file, p, a := FileOf(m), 2 + 22 * i, InOrder(m.Keys)[i];
            && |file| == 2 + 22 * |m| && file[0] == |m| % 0x100 && file[1] == |m| / 0x100 % 0x100
            && file[p..p + 6] == a && a in m && file[p + 6..p + 22] == m[a]
  {
    hide EncodeEntries; hide EntriesOf; hide InOrder; hide LittleEndian;
    CountBytes(|m|);
    PairBytes(m, i);
  }

  lemma CountBytes(n: nat)
    ensures LittleEndian(n % 0x1_0000, 2) == [n % 0x100, n / 0x100 % 0x100]
  {
    hide LittleEndian;
    var q, r := n / 0x1_0000, n % 0x1_0000;
    LittleEndianBytes(r);
    assert n == 0x100 * (0x100 * q + r / 0x100) + r % 0x100;
    assert n / 0x100 == 0x100 * q + r / 0x100 && n % 0x100 == r % 0x100;
  }

  lemma PairBytes(m: map<Addr, Key>, i: nat)
    requires i < |m|
    ensures var file, p, a := FileOf(m), 2 + 22 * i, InOrder(m.Keys)[i];
            p + 22 <= |file| && file[p..p + 6] == a && a in m && file[p + 6..p + 22] == m[a]
  {
    hide EncodeEntries; hide EntriesOf; hide InOrder; hide LittleEndian;
    var keys := InOrder(m.Keys);
    var b, q := EncodeEntries(EntriesOf(keys, m)), 22 * i;
    EntriesAt(keys, m, i);
    EncodedAt(EntriesOf(keys, m), i);
    assert FileOf(m)[2 + q..2 + q + 6] == b[q..q + 6];
    assert FileOf(m)[2 + q + 6..2 + q + 22] == b[q + 6..q + 22];
    assert keys[i] in keys;
  }

  /** The pairs are written in the order of their addresses, the first byte first. */
  lemma StoredInOrder(m: map<Addr, Key>, i: nat, j: nat)
    requires i < j < |m|
    ensures Smaller(InOrder(m.Keys)[i], InOrder(m.Keys)[j])
  {
    hide InOrder; hide Less; hide Smaller;
    InOrderSorted(m.Keys);
    FirstDifferenceDecides(InOrder(m.Keys)[i], InOrder(m.Keys)[j]);
  }

  // ----- runs of operations ------------------------------------------------------------------

  datatype Op = DoContains(addr: Addr) | DoAdd(addr: Addr, key: Key) | DoRemove(addr: Addr) | DoRetrieve(addr: Addr)

  function Perform(m: map<Addr, Key>, op: Op): map<Addr, Key>
  {
    match op
    case DoContains(_) => m
    case DoAdd(a, k) => Insert(m, a, k)
    case DoRemove(a) => m - {a}
    case DoRetrieve(a) => Insert(m, a, ZERO_KEY)
  }

  function PerformAll(m: map<Addr, Key>, ops: seq<Op>): map<Addr, Key>
    decreases |ops|
  {
    if ops == [] then m else PerformAll(Perform(m, ops[0]), ops[1..])
  }

  function Lookup(m: map<Addr, Key>, a: Addr): Option<Key>
  {
    if a in m then Some(m[a]) else None
  }

  /** The key that the first operation to add address a adds. */
  function FirstAdded(ops: seq<Op>, a: Addr): Option<Key>
  {
    if ops == [] then None
    else if ops[0].addr == a && ops[0].DoAdd? then Some(ops[0].key)
    else if ops[0].addr == a && ops[0].DoRetrieve? then Some(ZERO_KEY)
    else FirstAdded(ops[1..], a)
  }

  predicate NeverRemoves(ops: seq<Op>, a: Addr)
  {
    forall i :: 0 <= i < |ops| ==> ops[i] != DoRemove(a)
  }

  lemma {:induction false} WithoutRemove(m: map<Addr, Key>, ops: seq<Op>, a: Addr)
    requires NeverRemoves(ops, a)
    ensures Lookup(PerformAll(m, ops), a) == if a in m then Some(m[a]) else FirstAdded(ops, a)
    decreases |ops|
  {
    if ops == [] {
    } else {
      assert ops[0] != DoRemove(a);
      forall i | 0 <= i < |ops| - 1 ensures ops[1..][i] != DoRemove(a) {
        assert ops[i + 1] != DoRemove(a);
      }
      WithoutRemove(Perform(m, ops[0]), ops[1..], a);
    }
  }

  lemma {:induction false} PerformConcat(m: map<Addr, Key>, p: seq<Op>, q: seq<Op>)
    ensures PerformAll(m, p + q) == PerformAll(PerformAll(m, p), q)
    decreases |p|
  {
    if p == [] {
      assert p + q == q;
    } else {
      assert (p + q)[1..] == p[1..] + q;
      PerformConcat(Perform(m, p[0]), p[1..], q);
    }
  }

  /** Over any run, an address holds the key of its first add since its last
    * removal, where looking it up counts as adding the zero key. */
  lemma KeyAfterRun(m: map<Addr, Key>, before: seq<Op>, after: seq<Op>, a: Addr)
    requires NeverRemoves(after, a)
    ensures Lookup(PerformAll(m, before + [DoRemove(a)] + after), a) == FirstAdded(after, a)
  {
    var m' := PerformAll(m, before + [DoRemove(a)]);
    PerformConcat(m, before + [DoRemove(a)], after);
    PerformConcat(m, before, [DoRemove(a)]);
    assert [DoRemove(a)][1..] == [];
    assert m' == PerformAll(m, before) - {a};
    WithoutRemove(m', after, a);
  }
}
