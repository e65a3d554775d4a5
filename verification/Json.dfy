/** Strings in code-point order, and ordered maps as strictly sorted association lists. */
module Ordered {

  predicate Less(a: string, b: string) {
    if b == "" then false
    else if a == "" then true
    else a[0] < b[0] || (a[0] == b[0] && Less(a[1..], b[1..]))
  }

  /** The order of strings by their first difference; a proper prefix comes first. */
  lemma {:induction false} LessMeans(a: string, b: string)
    ensures Less(a, b) <==> a < b || exists i :: 0 <= i < |a| && i < |b| && a[..i] == b[..i] && a[i] < b[i]
  {
    if a != "" && b != "" && a[0] == b[0] {
      LessMeans(a[1..], b[1..]);
      assert a < b <==> a[1..] < b[1..];
      if i :| 0 <= i < |a[1..]| && i < |b[1..]| && a[1..][..i] == b[1..][..i] && a[1..][i] < b[1..][i] {
        assert a[..i + 1] == [a[0]] + a[1..][..i] && b[..i + 1] == [b[0]] + b[1..][..i];
        assert a[i + 1] < b[i + 1];
      }
      if i :| 0 <= i < |a| && i < |b| && a[..i] == b[..i] && a[i] < b[i] {
        assert a[1..][..i - 1] == a[..i][1..] && b[1..][..i - 1] == b[..i][1..];
        assert a[1..][i - 1] < b[1..][i - 1];
      }
    } else if a != "" && b != "" {
      assert a[..0] == b[..0];
      if i :| 0 <= i < |a| && i < |b| && a[..i] == b[..i] && a[i] < b[i] {
        assert i > 0 ==> a[..i][0] == b[..i][0];
      }
    }
  }

  lemma {:induction false} LessTotal(a: string, b: string)
    ensures Less(a, b) || a == b || Less(b, a)
    ensures !(Less(a, b) && Less(b, a))
    ensures !Less(a, a)
  {
    if a != "" {
      LessTotal(a[1..], if b == "" then "" else b[1..]);
    }
    if a != "" && b != "" && a[0] == b[0] {
      assert a[1..] == b[1..] ==> a == [a[0]] + a[1..] == [b[0]] + b[1..] == b;
    }
  }

  lemma {:induction false} LessTransitive(a: string, b: string, c: string)
    requires Less(a, b) && Less(b, c)
    ensures Less(a, c)
  {
    if a != "" && a[0] == b[0] == c[0] {
      LessTransitive(a[1..], b[1..], c[1..]);
    }
  }

  predicate Sorted<V>(s: seq<(string, V)>) {
    forall i, j :: 0 <= i < j < |s| ==> Less(s[i].0, s[j].0)
  }

  /** Inserts or overwrites, as an ordered map does. */
  function Insert<V>(s: seq<(string, V)>, k: string, v: V): seq<(string, V)> {
    if s == [] || Less(k, s[0].0) then [(k, v)] + s
    else if s[0].0 == k then [(k, v)] + s[1..]
    else [s[0]] + Insert(s[1..], k, v)
  }

  /** The ordered map that holds the given pairs. */
  function FromPairs<V>(ps: seq<(string, V)>): seq<(string, V)> {
    if ps == [] then [] else Insert(FromPairs(ps[1..]), ps[0].0, ps[0].1)
  }

  ghost function Keys<V>(s: seq<(string, V)>): set<string> {
    set i | 0 <= i < |s| :: s[i].0
  }

  lemma SortedTail<V>(s: seq<(string, V)>)
    requires Sorted(s) && s != []
    ensures Sorted(s[1..])
    ensures forall e :: e in s[1..] ==> Less(s[0].0, e.0) && e.0 != s[0].0
    ensures forall e :: e in s <==> e == s[0] || e in s[1..]
  {
    LessTotal(s[0].0, s[0].0);
    forall e | e in s[1..]
      ensures Less(s[0].0, e.0)
    {
      var j :| 0 <= j < |s| - 1 && s[1..][j] == e;
      assert Less(s[0].0, s[j + 1].0);
    }
    assert s == [s[0]] + s[1..];
  }

  lemma SortedCons<V>(x: (string, V), s: seq<(string, V)>)
    requires Sorted(s)
    requires forall e :: e in s ==> Less(x.0, e.0)
    ensures Sorted([x] + s)
  {
    forall j | 0 <= j < |s|
      ensures Less(x.0, s[j].0)
    {
      assert s[j] in s;
    }
  }

  lemma {:induction false} InsertSorted<V>(s: seq<(string, V)>, k: string, v: V)
    requires Sorted(s)
    ensures Sorted(Insert(s, k, v))
    ensures forall e :: e in Insert(s, k, v) ==> e == (k, v) || (e in s && e.0 != k)
    ensures (k, v) in Insert(s, k, v)
    ensures forall e :: e in s && e.0 != k ==> e in Insert(s, k, v)
  {
    hide Less;
    LessTotal(k, k);
    if s != [] {
      var head, tail := s[0], s[1..];
      LessTotal(k, head.0);
      SortedTail(s);
      if Less(k, head.0) {
        forall e | e in s
          ensures Less(k, e.0) && e.0 != k
        {
          if e != head {
            LessTransitive(k, head.0, e.0);
          }
        }
        SortedCons((k, v), s);
      } else if head.0 == k {
        SortedCons((k, v), tail);
      } else {
        InsertSorted(tail, k, v);
        var rest := Insert(tail, k, v);
        forall e: (string, V) | e in rest
          ensures Less(head.0, e.0)
        {
          assert e == (k, v) || e in tail;
        }
        SortedCons(head, rest);
      }
    }
  }

  lemma {:induction false} FromPairsElements<V>(ps: seq<(string, V)>)
    requires forall i, j :: 0 <= i < j < |ps| ==> ps[i].0 != ps[j].0
    ensures Sorted(FromPairs(ps))
    ensures forall e :: e in FromPairs(ps) <==> e in ps
  {
    if ps != [] {
      var tail := ps[1..];
      FromPairsElements(tail);
      InsertSorted(FromPairs(tail), ps[0].0, ps[0].1);
      assert ps == [ps[0]] + tail;
      forall e | e in tail
        ensures e.0 != ps[0].0
      {
        var j :| 0 <= j < |tail| && tail[j] == e;
        assert ps[j + 1] == e;
      }
    }
  }

  /** A strictly sorted list is determined by its elements. */
  lemma {:induction false} SortedUnique<V>(s: seq<(string, V)>, t: seq<(string, V)>)
    requires Sorted(s) && Sorted(t)
    requires forall e :: e in s <==> e in t
    ensures s == t
  {
    assert s != [] ==> s[0] in t;
    assert t != [] ==> t[0] in s;
    if s != [] {
      SortedTail(s);
      SortedTail(t);
      LessTotal(s[0].0, t[0].0);
      assert s[0] == t[0];
      SortedUnique(s[1..], t[1..]);
      assert s == [s[0]] + s[1..] && t == [t[0]] + t[1..];
    }
  }
}

/** JSON values and the key sorting behind canonical manifest bytes. */
module Json {
  import opened Foundation
  import opened Ordered

  /** Numbers are unsigned or negative 64-bit integers, or 64-bit floats given by their bits. */
  type JsonInteger = n: int | -TWO_63 <= n < TWO_64

  datatype Json =
    | JNull
    | JBool(b: bool)
    | JInt(n: JsonInteger)
    | JFloat(bits: u64)
    | JString(s: string)
    | JArray(items: seq<Json>)
    | JObject(members: seq<(string, Json)>)

  /** No object repeats a key, at any depth. */
  predicate UniqueKeys(v: Json) {
    match v
    case JArray(items) => forall i :: 0 <= i < |items| ==> UniqueKeys(items[i])
    case JObject(ms) =>
      && (forall i, j :: 0 <= i < j < |ms| ==> ms[i].0 != ms[j].0)
      && (forall i :: 0 <= i < |ms| ==> UniqueKeys(ms[i].1))
    case _ => true
  }

  /** No floats, and at most `depth` arrays and objects inside each other. */
  predicate Plain(v: Json, depth: nat) {
    match v
    case JFloat(_) => false
    case JArray(items) => depth > 0 && forall i :: 0 <= i < |items| ==> Plain(items[i], depth - 1)
    case JObject(ms) => depth > 0 && forall i :: 0 <= i < |ms| ==> Plain(ms[i].1, depth - 1)
    case _ => true
  }

  function SortJson(v: Json): Json {
    match v
    case JArray(items) => JArray(seq(|items|, i requires 0 <= i < |items| => SortJson(items[i])))
    case JObject(ms) => JObject(FromPairs(seq(|ms|, i requires 0 <= i < |ms| => (ms[i].0, SortJson(ms[i].1)))))
    case _ => v
  }

  function SortMembers(ms: seq<(string, Json)>): seq<(string, Json)> {
    SortJson(JObject(ms)).members
  }

  ghost predicate DistinctKeys(ms: seq<(string, Json)>) {
    forall i, j :: 0 <= i < j < |ms| ==> ms[i].0 != ms[j].0
  }

  /** Sorting keeps every member, with its value sorted, and orders the keys. */
  lemma SortMembersElements(ms: seq<(string, Json)>)
    requires DistinctKeys(ms)
    ensures Sorted(SortMembers(ms))
    ensures forall e :: e in SortMembers(ms) <==> exists i :: 0 <= i < |ms| && e == (ms[i].0, SortJson(ms[i].1))
  {
    var pairs := seq(|ms|, i requires 0 <= i < |ms| => (ms[i].0, SortJson(ms[i].1)));
    FromPairsElements(pairs);
    forall e
      ensures e in pairs <==> exists i :: 0 <= i < |ms| && e == (ms[i].0, SortJson(ms[i].1))
    {
      if i :| 0 <= i < |ms| && e == (ms[i].0, SortJson(ms[i].1)) {
        assert pairs[i] == e;
      }
    }
  }

  /** Equality that ignores the order of object members, at every depth. */
  ghost predicate EqualUpToOrder(v: Json, w: Json) {
    match v
    case JArray(items) =>
      && w.JArray? && |items| == |w.items|
      && forall i :: 0 <= i < |items| ==> EqualUpToOrder(items[i], w.items[i])
    case JObject(ms) =>
      && w.JObject? && Keys(ms) == Keys(w.members)
      && forall i, j :: 0 <= i < |ms| && 0 <= j < |w.members| && ms[i].0 == w.members[j].0 ==>
           EqualUpToOrder(ms[i].1, w.members[j].1)
    case _ => v == w
  }

  /** One direction over members: equal up to order, every sorted member of one is in the other. */
  lemma MembersIncluded(ms: seq<(string, Json)>, ns: seq<(string, Json)>, e: (string, Json))
    requires DistinctKeys(ms) && DistinctKeys(ns)
    requires Keys(ms) <= Keys(ns)
    requires forall i, j :: 0 <= i < |ms| && 0 <= j < |ns| && ms[i].0 == ns[j].0 ==>
               SortJson(ms[i].1) == SortJson(ns[j].1)
    requires e in SortMembers(ms)
    ensures e in SortMembers(ns)
  {
    SortMembersElements(ms);
    SortMembersElements(ns);
    var i :| 0 <= i < |ms| && e == (ms[i].0, SortJson(ms[i].1));
    assert ms[i].0 in Keys(ns);
    var j :| 0 <= j < |ns| && ns[j].0 == ms[i].0;
  }

  lemma MembersValues(ms: seq<(string, Json)>, ns: seq<(string, Json)>, i: nat)
    requires DistinctKeys(ms) && DistinctKeys(ns) && i < |ms|
    requires SortMembers(ms) == SortMembers(ns)
    ensures exists j :: 0 <= j < |ns| && ns[j].0 == ms[i].0 && SortJson(ns[j].1) == SortJson(ms[i].1)
  {
    SortMembersElements(ms);
    SortMembersElements(ns);
    assert (ms[i].0, SortJson(ms[i].1)) in SortMembers(ms);
  }

  /** Sorting maps two values to the same value exactly when they are equal up to member order. */
  lemma {:induction false} SortJsonCanonical(v: Json, w: Json)
    requires UniqueKeys(v) && UniqueKeys(w)
    ensures SortJson(v) == SortJson(w) <==> EqualUpToOrder(v, w)
    decreases v
  {
    if v.JArray? && w.JArray? {
      if |v.items| == |w.items| {
        forall i | 0 <= i < |v.items|
          ensures SortJson(v.items[i]) == SortJson(w.items[i]) <==> EqualUpToOrder(v.items[i], w.items[i])
        {
          SortJsonCanonical(v.items[i], w.items[i]);
        }
      }
      var xs, ys := SortJson(v).items, SortJson(w).items;
      assert |xs| == |v.items| && |ys| == |w.items|;
      if xs == ys {
        forall i | 0 <= i < |v.items|
          ensures SortJson(v.items[i]) == SortJson(w.items[i])
        {
          assert xs[i] == ys[i];
        }
      }
    } else if v.JObject? && w.JObject? {
      SortJsonCanonicalObjects(v, w);
    }
  }

  lemma {:induction false} SortJsonCanonicalObjects(v: Json, w: Json)
    requires v.JObject? && w.JObject? && UniqueKeys(v) && UniqueKeys(w)
    ensures SortJson(v) == SortJson(w) <==> EqualUpToOrder(v, w)
    decreases v, 0
  {
    var ms, ns := v.members, w.members;
    forall i, j | 0 <= i < |ms| && 0 <= j < |ns|
      ensures SortJson(ms[i].1) == SortJson(ns[j].1) <==> EqualUpToOrder(ms[i].1, ns[j].1)
    {
      SortJsonCanonical(ms[i].1, ns[j].1);
    }
    if EqualUpToOrder(v, w) {
      forall e
        ensures e in SortMembers(ms) <==> e in SortMembers(ns)
      {
        if e in SortMembers(ms) { MembersIncluded(ms, ns, e); }
        if e in SortMembers(ns) { MembersIncluded(ns, ms, e); }
      }
      SortMembersElements(ms);
      SortMembersElements(ns);
      SortedUnique(SortMembers(ms), SortMembers(ns));
    }
    if SortMembers(ms) == SortMembers(ns) {
      forall i | 0 <= i < |ms|
        ensures ms[i].0 in Keys(ns)
        ensures forall j :: 0 <= j < |ns| && ms[i].0 == ns[j].0 ==> EqualUpToOrder(ms[i].1, ns[j].1)
      {
        MembersValues(ms, ns, i);
      }
      forall j | 0 <= j < |ns|
        ensures ns[j].0 in Keys(ms)
      {
        MembersValues(ns, ms, j);
      }
      assert Keys(ms) == Keys(ns);
    }
  }

  lemma {:induction false} SortJsonUniqueKeys(v: Json)
    requires UniqueKeys(v)
    ensures UniqueKeys(SortJson(v))
    decreases v
  {
    match v
    case JArray(items) =>
      forall i | 0 <= i < |items| { SortJsonUniqueKeys(items[i]); }
    case JObject(ms) =>
      SortMembersElements(ms);
      var s := SortMembers(ms);
      forall i | 0 <= i < |s|
        ensures UniqueKeys(s[i].1)
      {
        assert s[i] in s;
        var k :| 0 <= k < |ms| && s[i] == (ms[k].0, SortJson(ms[k].1));
        SortJsonUniqueKeys(ms[k].1);
      }
      forall i, j | 0 <= i < j < |s|
        ensures s[i].0 != s[j].0
      {
        LessTotal(s[i].0, s[i].0);
      }
    case _ =>
  }

  /** The sorted value is equal, up to member order, to the value it came from. */
  lemma {:induction false} SortJsonKeepsValue(v: Json)
    requires UniqueKeys(v)
    ensures EqualUpToOrder(SortJson(v), v)
    decreases v
  {
    match v
    case JArray(items) =>
      forall i | 0 <= i < |items| { SortJsonKeepsValue(items[i]); }
    case JObject(ms) =>
      SortMembersElements(ms);
      var s := SortMembers(ms);
      forall i | 0 <= i < |s|
        ensures s[i].0 in Keys(ms)
        ensures forall j :: 0 <= j < |ms| && ms[j].0 == s[i].0 ==> EqualUpToOrder(s[i].1, ms[j].1)
      {
        assert s[i] in s;
        var k :| 0 <= k < |ms| && s[i] == (ms[k].0, SortJson(ms[k].1));
        SortJsonKeepsValue(ms[k].1);
      }
      forall k | 0 <= k < |ms|
        ensures ms[k].0 in Keys(s)
      {
        assert (ms[k].0, SortJson(ms[k].1)) in s;
      }
      assert Keys(s) == Keys(ms);
    case _ =>
  }

  lemma SortJsonIdempotent(v: Json)
    requires UniqueKeys(v)
    ensures SortJson(SortJson(v)) == SortJson(v)
  {
    SortJsonUniqueKeys(v);
    SortJsonKeepsValue(v);
    SortJsonCanonical(SortJson(v), v);
  }

  // ---------------------------------------------------------------- lookups

  datatype Step = Member(key: string) | Element(index: nat)

  function Lookup(ms: seq<(string, Json)>, key: string): Option<Json> {
    if ms == [] then None
    else if ms[0].0 == key then Some(ms[0].1)
    else Lookup(ms[1..], key)
  }

  function Get(v: Json, path: seq<Step>): Option<Json>
    decreases |path|
  {
    if path == [] then Some(v)
    else
      match (path[0], v)
      case (Member(key), JObject(ms)) =>
        var child :- Lookup(ms, key);
        Get(child, path[1..])
      case (Element(i), JArray(items)) =>
        if i < |items| then Get(items[i], path[1..]) else None
      case _ => None
  }

  lemma {:induction false} LookupElement(ms: seq<(string, Json)>, key: string)
    requires DistinctKeys(ms)
    ensures forall x :: Lookup(ms, key) == Some(x) <==> (key, x) in ms
  {
    if ms != [] {
      LookupElement(ms[1..], key);
      assert ms == [ms[0]] + ms[1..];
      assert forall e :: e in ms <==> e == ms[0] || e in ms[1..];
      if ms[0].0 == key {
        forall e | e in ms[1..]
          ensures e.0 != key
        {
          var j :| 0 <= j < |ms[1..]| && ms[1..][j] == e;
          assert ms[j + 1] == e;
        }
      }
    }
  }

  lemma SortedDistinct(s: seq<(string, Json)>)
    requires Sorted(s)
    ensures DistinctKeys(s)
  {
    forall i, j | 0 <= i < j < |s|
      ensures s[i].0 != s[j].0
    {
      LessTotal(s[i].0, s[i].0);
    }
  }

  lemma LookupSorted(ms: seq<(string, Json)>, key: string)
    requires DistinctKeys(ms)
    ensures Lookup(SortMembers(ms), key) == MapOption(Lookup(ms, key), v => SortJson(v))
  {
    var s := SortMembers(ms);
    SortMembersElements(ms);
    SortedDistinct(s);
    LookupElement(ms, key);
    LookupElement(s, key);
    if Lookup(ms, key).Some? {
      var x := Lookup(ms, key).value;
      var i :| 0 <= i < |ms| && ms[i] == (key, x);
      assert (key, SortJson(x)) in s;
    } else {
      assert forall i :: 0 <= i < |ms| ==> (ms[i].0, ms[i].1) in ms;
      assert forall i :: 0 <= i < |ms| ==> ms[i].0 != key;
    }
  }

  /** Whatever a path leads to before sorting, it leads to the sorted form of afterwards. */
  lemma {:induction false} GetSorted(v: Json, path: seq<Step>)
    requires UniqueKeys(v)
    ensures Get(SortJson(v), path) == MapOption(Get(v, path), w => SortJson(w))
    decreases |path|
  {
    if path != [] {
      match (path[0], v)
      case (Member(key), JObject(ms)) =>
        LookupSorted(ms, key);
        LookupElement(ms, key);
        if Lookup(ms, key).Some? {
          assert (key, Lookup(ms, key).value) in ms;
          GetSorted(Lookup(ms, key).value, path[1..]);
        }
      case (Element(i), JArray(items)) =>
        if i < |items| {
          GetSorted(items[i], path[1..]);
        }
      case _ =>
    }
  }

  // ---------------------------------------------------------------- the sorting loop

  /** The keys of an association list, as one that carries nothing else. */
  function KeyList<V>(ms: seq<(string, V)>): (keys: seq<(string, ())>)
    ensures |keys| == |ms| && forall i :: 0 <= i < |ms| ==> keys[i] == (ms[i].0, ())
  {
    MapSeq(ms, (m: (string, V)) => (m.0, ()))
  }

  /** Sorts the keys, then rebuilds each object in that order from lookups. */
  method SortJsonValue(v: Json) returns (r: Json)
    requires UniqueKeys(v)
    ensures r == SortJson(v)
    decreases v
  {
    match v
    case JObject(ms) =>
      ghost var target := SortMembers(ms);
      SortMembersElements(ms);
      var keys := SortKeys(ms);
      KeysOfSorted(ms, keys);
      var out: seq<(string, Json)> := [];
      for i := 0 to |keys|
        invariant out == target[..i]
      {
        assert target[i] in target;
        ghost var k :| 0 <= k < |ms| && target[i] == (ms[k].0, SortJson(ms[k].1));
        LookupElement(ms, keys[i]);
        assert (ms[k].0, ms[k].1) in ms;
        var child := Lookup(ms, keys[i]).value;
        assert child == ms[k].1;
        assert child < v;
        var sorted := SortJsonValue(child);
        out := out + [(keys[i], sorted)];
      }
      r := JObject(out);
    case JArray(items) =>
      var out: seq<Json> := [];
      for i := 0 to |items|
        invariant |out| == i
        invariant forall j :: 0 <= j < i ==> out[j] == SortJson(items[j])
      {
        var sorted := SortJsonValue(items[i]);
        out := out + [sorted];
      }
      assert out == SortJson(v).items;
      r := JArray(out);
    case _ =>
      r := v;
  }

  /** The keys of an object, in order. */
  method SortKeys(ms: seq<(string, Json)>) returns (keys: seq<string>)
    ensures forall i, j :: 0 <= i < j < |keys| ==> Less(keys[i], keys[j])
    ensures forall k :: k in keys <==> k in Keys(ms)
  {
    hide Less;
    var sorted: seq<(string, ())> := [];
    for i := 0 to |ms|
      invariant Sorted(sorted)
      invariant forall k :: (k, ()) in sorted <==> k in Keys(ms[..i])
    {
      InsertSorted(sorted, ms[i].0, ());
      KeysGrow(ms, i);
      sorted := Insert(sorted, ms[i].0, ());
    }
    assert ms[..|ms|] == ms;
    keys := MapSeq(sorted, (e: (string, ())) => e.0);
    forall k
      ensures k in keys <==> (k, ()) in sorted
    {
      if k in keys {
        var i :| 0 <= i < |keys| && keys[i] == k;
        assert sorted[i] in sorted && sorted[i].1 == ();
        assert sorted[i] == (k, ());
      }
      if (k, ()) in sorted {
        var i :| 0 <= i < |sorted| && sorted[i] == (k, ());
        assert keys[i] == k;
      }
    }
  }

  lemma KeysGrow(ms: seq<(string, Json)>, i: nat)
    requires i < |ms|
    ensures Keys(ms[..i + 1]) == Keys(ms[..i]) + {ms[i].0}
  {
    var more := ms[..i + 1];
    forall k
      ensures k in Keys(more) <==> k in Keys(ms[..i]) || k == ms[i].0
    {
      if k in Keys(ms[..i]) {
        var j :| 0 <= j < i && ms[..i][j].0 == k;
        assert more[j].0 == k;
      }
      if k in Keys(more) && k != ms[i].0 {
        var j :| 0 <= j < i + 1 && more[j].0 == k;
        assert ms[..i][j].0 == k;
      }
      assert more[i].0 == ms[i].0;
    }
  }

  /** Keys sorted on their own are the keys of the sorted object. */
  lemma KeysOfSorted(ms: seq<(string, Json)>, keys: seq<string>)
    requires DistinctKeys(ms)
    requires forall i, j :: 0 <= i < j < |keys| ==> Less(keys[i], keys[j])
    requires forall k :: k in keys <==> k in Keys(ms)
    ensures |keys| == |SortMembers(ms)|
    ensures forall i :: 0 <= i < |keys| ==> keys[i] == SortMembers(ms)[i].0
  {
    hide Less, SortMembers;
    SortMembersElements(ms);
    var target, own := KeyList(SortMembers(ms)), MapSeq(keys, (k: string) => (k, ()));
    forall e
      ensures e in target <==> e in own
    {
      if e in target {
        var i :| 0 <= i < |target| && target[i] == e;
        assert SortMembers(ms)[i] in SortMembers(ms);
        assert e.0 in Keys(ms) && e.0 in keys;
        var j :| 0 <= j < |keys| && keys[j] == e.0;
        assert own[j] == e;
      }
      if e in own {
        var j :| 0 <= j < |own| && own[j] == e;
        assert keys[j] in keys && keys[j] in Keys(ms);
        var k :| 0 <= k < |ms| && ms[k].0 == e.0;
        assert (ms[k].0, SortJson(ms[k].1)) in SortMembers(ms);
        var i :| 0 <= i < |SortMembers(ms)| && SortMembers(ms)[i] == (ms[k].0, SortJson(ms[k].1));
        assert target[i] == e;
      }
    }
    SortedUnique(target, own);
  }
}
