/** JSON values with their members in key order, at every depth. */
module CanonicalJson {
  import opened Wrappers

  datatype Scalar = Null | Bool(b: bool) | Number(literal: string) | Text(s: string)

  datatype Json = Leaf(scalar: Scalar) | Array(items: seq<Json>) | Object(members: seq<(string, Json)>)

  // -------------------------------------------------------------------
  // Keys
  // -------------------------------------------------------------------

  predicate Less(a: string, b: string) {
    if b == [] then false
    else if a == [] then true
    else a[0] < b[0] || (a[0] == b[0] && Less(a[1..], b[1..]))
  }

  lemma {:induction false} LessIsTransitive(a: string, b: string, c: string)
    requires Less(a, b) && Less(b, c)
    ensures Less(a, c)
  {
    if a != [] && a[0] == b[0] == c[0] {
      LessIsTransitive(a[1..], b[1..], c[1..]);
    }
  }

  lemma {:induction false} LessIsTotal(a: string, b: string)
    ensures Less(a, b) || Less(b, a) || a == b
    ensures !(Less(a, b) && Less(b, a)) && !Less(a, a)
  {
    if a != [] && b != [] {
      LessIsTotal(a[1..], b[1..]);
      LessIsTotal(a[1..], a[1..]);
      assert a == [a[0]] + a[1..] && b == [b[0]] + b[1..];
    } else if a != [] {
      LessIsTotal(a[1..], a[1..]);
    }
  }

  /** The keys agree up to a position where the first has ended, or has the smaller
      character. */
  ghost predicate SmallerAt(a: string, b: string, k: nat) {
    && k <= |a| && k < |b|
    && a[..k] == b[..k]
    && (k == |a| || a[k] < b[k])
  }

  /** The order of keys: at the first difference the smaller character decides, and
      a proper prefix comes first. */
  lemma {:induction false} LessExactly(a: string, b: string)
    ensures Less(a, b) <==> exists k: nat :: SmallerAt(a, b, k)
  {
    if b == [] {
    } else if a == [] || a[0] < b[0] {
      assert SmallerAt(a, b, 0);
    } else {
      LessExactly(a[1..], b[1..]);
      if a[0] == b[0] && Less(a[1..], b[1..]) {
        var k: nat :| SmallerAt(a[1..], b[1..], k);
        assert a == [a[0]] + a[1..] && b == [b[0]] + b[1..];
        assert a[..k + 1] == [a[0]] + a[1..][..k] && b[..k + 1] == [b[0]] + b[1..][..k];
        assert SmallerAt(a, b, k + 1);
      }
      if k: nat :| SmallerAt(a, b, k) {
        assert k > 0 && a[0] == a[..k][0] == b[..k][0] == b[0];
        assert a[1..][..k - 1] == a[..k][1..] && b[1..][..k - 1] == b[..k][1..];
        assert SmallerAt(a[1..], b[1..], k - 1);
      }
    }
  }

  ghost predicate Ascending(keys: seq<string>) {
    forall i, j | 0 <= i < j < |keys| :: Less(keys[i], keys[j])
  }

  function Insert(k: string, keys: seq<string>): seq<string> {
    if keys == [] || Less(k, keys[0]) then [k] + keys else [keys[0]] + Insert(k, keys[1..])
  }

  function SortKeys(keys: seq<string>): seq<string> {
    if keys == [] then [] else Insert(keys[0], SortKeys(keys[1..]))
  }

  lemma {:induction false} InsertInserts(k: string, keys: seq<string>)
    requires Ascending(keys) && k !in keys
    ensures Ascending(Insert(k, keys))
    ensures forall x :: x in Insert(k, keys) <==> x == k || x in keys
  {
    if keys == [] {
    } else if Less(k, keys[0]) {
      forall j | 0 < j < |keys|
        ensures Less(k, keys[j])
      {
        LessIsTransitive(k, keys[0], keys[j]);
      }
    } else {
      var rest := keys[1..];
      InsertInserts(k, rest);
      LessIsTotal(k, keys[0]);
      var r := Insert(k, rest);
      forall i | 0 <= i < |r|
        ensures Less(keys[0], r[i])
      {
        assert r[i] in r;
        if r[i] != k {
          var j :| 0 <= j < |rest| && rest[j] == r[i];
          assert keys[j + 1] == r[i];
        }
      }
    }
  }

  lemma {:induction false} SortSorts(keys: seq<string>)
    requires Distinct(keys)
    ensures Ascending(SortKeys(keys))
    ensures forall x :: x in SortKeys(keys) <==> x in keys
  {
    if keys != [] {
      SortSorts(keys[1..]);
      InsertInserts(keys[0], SortKeys(keys[1..]));
    }
  }

  lemma HasMember(keys: seq<string>)
    ensures keys != [] <==> exists x :: x in keys
  {
    if keys != [] {
      assert keys[0] in keys;
    }
  }

  /** There is one ascending list of given elements. */
  lemma {:induction false} AscendingIsUnique(a: seq<string>, b: seq<string>)
    requires Ascending(a) && Ascending(b) && forall x :: x in a <==> x in b
    ensures a == b
  {
    if a == [] || b == [] {
      HasMember(a);
      HasMember(b);
    } else {
      assert a[0] in b && b[0] in a;
      FirstIsLeast(a, b[0]);
      FirstIsLeast(b, a[0]);
      LessIsTotal(a[0], b[0]);
      forall x
        ensures x in a[1..] <==> x in b[1..]
      {
        TailMember(a, x);
        TailMember(b, x);
      }
      AscendingIsUnique(a[1..], b[1..]);
    }
  }

  lemma FirstIsLeast(keys: seq<string>, x: string)
    requires Ascending(keys) && x in keys
    ensures x == keys[0] || Less(keys[0], x)
  {
  }

  lemma TailMember(keys: seq<string>, x: string)
    requires Ascending(keys) && keys != []
    ensures x in keys[1..] <==> x in keys && x != keys[0]
  {
    LessIsTotal(x, x);
    assert keys == [keys[0]] + keys[1..];
  }

  // -------------------------------------------------------------------
  // Canonical form
  // -------------------------------------------------------------------

  function Keys(members: seq<(string, Json)>): (r: seq<string>)
    ensures |r| == |members|
    ensures forall i | 0 <= i < |members| :: r[i] == members[i].0
  {
    seq(|members|, i requires 0 <= i < |members| => members[i].0)
  }

  /** No object has a key twice, at any depth. */
  predicate WellFormed(v: Json) {
    match v
    case Leaf(_) => true
    case Array(items) => forall i | 0 <= i < |items| :: WellFormed(items[i])
    case Object(members) =>
      && Distinct(Keys(members))
      && forall i | 0 <= i < |members| :: WellFormed(members[i].1)
  }

  lemma WellFormedByLayer(s: Scalar, items: seq<Json>, members: seq<(string, Json)>)
    ensures WellFormed(Leaf(s))
    ensures WellFormed(Array(items)) <==> forall v | v in items :: WellFormed(v)
    ensures WellFormed(Object(members)) <==>
              && (forall i, j | 0 <= i < |members| && 0 <= j < |members| && members[i].0 == members[j].0 :: i == j)
              && (forall i | 0 <= i < |members| :: WellFormed(members[i].1))
  {
    assert forall i | 0 <= i < |items| :: items[i] in items;
  }

  function Find(members: seq<(string, Json)>, k: string): (i: nat)
    requires k in Keys(members)
    ensures i < |members| && members[i].0 == k
  {
    if members[0].0 == k then 0
    else
      assert Keys(members)[1..] == Keys(members[1..]);
      Find(members[1..], k) + 1
  }

  function Canonical(v: Json): Json
    requires WellFormed(v)
  {
    match v
    case Leaf(_) => v
    case Array(items) => Array(seq(|items|, i requires 0 <= i < |items| => Canonical(items[i])))
    case Object(members) =>
      SortSorts(Keys(members));
      var keys := SortKeys(Keys(members));
      Object(seq(|keys|, i requires 0 <= i < |keys| =>
        assert keys[i] in Keys(members);
        (keys[i], Canonical(members[Find(members, keys[i])].1))))
  }

  /** Equal but for the order of members, at every depth. */
  predicate Equivalent(a: Json, b: Json) {
    match (a, b)
    case (Leaf(s), Leaf(t)) => s == t
    case (Array(xs), Array(ys)) => |xs| == |ys| && forall i | 0 <= i < |xs| :: Equivalent(xs[i], ys[i])
    case (Object(ms), Object(ns)) =>
      && (forall i | 0 <= i < |ms| :: ms[i].0 in Keys(ns))
      && (forall j | 0 <= j < |ns| :: ns[j].0 in Keys(ms))
      && forall i, j | 0 <= i < |ms| && 0 <= j < |ns| && ms[i].0 == ns[j].0 :: Equivalent(ms[i].1, ns[j].1)
    case _ => false
  }

  lemma KeysOfCanonical(members: seq<(string, Json)>)
    requires WellFormed(Object(members))
    ensures Canonical(Object(members)).Object?
    ensures Keys(Canonical(Object(members)).members) == SortKeys(Keys(members))
    ensures forall k :: k in SortKeys(Keys(members)) <==> k in Keys(members)
    ensures Ascending(SortKeys(Keys(members)))
  {
    SortSorts(Keys(members));
  }

  lemma {:induction false} FindIsUnique(members: seq<(string, Json)>, i: nat)
    requires Distinct(Keys(members)) && i < |members|
    ensures members[i].0 in Keys(members) && Find(members, members[i].0) == i
  {
  }

  /** The value of a member is the canonical form of the value under that key. */
  lemma MemberOfCanonical(members: seq<(string, Json)>, i: nat)
    requires WellFormed(Object(members)) && i < |SortKeys(Keys(members))|
    ensures var k := SortKeys(Keys(members))[i];
      && k in Keys(members)
      && |Canonical(Object(members)).members| == |SortKeys(Keys(members))|
      && Canonical(Object(members)).members[i] == (k, Canonical(members[Find(members, k)].1))
  {
    SortSorts(Keys(members));
    assert SortKeys(Keys(members))[i] in SortKeys(Keys(members));
  }

  lemma AscendingIsDistinct(keys: seq<string>)
    requires Ascending(keys)
    ensures Distinct(keys)
  {
    forall i, j | 0 <= i < j < |keys|
      ensures keys[i] != keys[j]
    {
      LessIsTotal(keys[i], keys[j]);
      LessIsTotal(keys[i], keys[i]);
    }
  }

  /** The canonical form is well-formed and equal to the value but for the order of
      members. */
  lemma {:induction false} CanonicalIsEquivalent(v: Json)
    requires WellFormed(v)
    ensures WellFormed(Canonical(v)) && Equivalent(Canonical(v), v)
  {
    match v {
      case Leaf(_) =>
      case Array(items) =>
        forall i | 0 <= i < |items|
          ensures WellFormed(Canonical(items[i])) && Equivalent(Canonical(items[i]), items[i])
        {
          CanonicalIsEquivalent(items[i]);
        }
      case Object(members) =>
        var sorted := Canonical(v).members;
        KeysOfCanonical(members);
        AscendingIsDistinct(Keys(sorted));
        forall i, j | 0 <= i < |sorted| && 0 <= j < |members| && sorted[i].0 == members[j].0
          ensures WellFormed(sorted[i].1) && Equivalent(sorted[i].1, members[j].1)
        {
          MemberOfCanonical(members, i);
          FindIsUnique(members, j);
          CanonicalIsEquivalent(members[j].1);
        }
        SameKeys(sorted, members);
    }
  }

  /** Lists of members over the same keys: every key of one is a key of the other,
      and every position of one has its partner. */
  lemma SameKeys(ms: seq<(string, Json)>, ns: seq<(string, Json)>)
    ensures (forall k :: k in Keys(ms) <==> k in Keys(ns)) <==>
            (forall i | 0 <= i < |ms| :: ms[i].0 in Keys(ns)) && (forall j | 0 <= j < |ns| :: ns[j].0 in Keys(ms))
  {
  }

  /** Canonical forms are equal exactly for values that are equal but for the order
      of members. */
  lemma {:induction false} CanonicalDecides(a: Json, b: Json)
    requires WellFormed(a) && WellFormed(b)
    ensures Canonical(a) == Canonical(b) <==> Equivalent(a, b)
  {
    match (a, b) {
      case (Array(xs), Array(ys)) =>
        forall i | 0 <= i < |xs| && i < |ys|
          ensures Canonical(xs[i]) == Canonical(ys[i]) <==> Equivalent(xs[i], ys[i])
        {
          CanonicalDecides(xs[i], ys[i]);
        }
        ArraysAgree(xs, ys);
      case (Object(ms), Object(ns)) =>
        forall i, j | 0 <= i < |ms| && 0 <= j < |ns|
          ensures Canonical(ms[i].1) == Canonical(ns[j].1) <==> Equivalent(ms[i].1, ns[j].1)
        {
          CanonicalDecides(ms[i].1, ns[j].1);
        }
        SameKeys(ms, ns);
        ObjectsAgree(ms, ns);
      case _ =>
    }
  }

  lemma ArraysAgree(xs: seq<Json>, ys: seq<Json>)
    requires WellFormed(Array(xs)) && WellFormed(Array(ys))
    ensures Canonical(Array(xs)) == Canonical(Array(ys)) <==>
            |xs| == |ys| && forall i | 0 <= i < |xs| :: Canonical(xs[i]) == Canonical(ys[i])
  {
    var cx, cy := Canonical(Array(xs)).items, Canonical(Array(ys)).items;
    assert |cx| == |xs| && |cy| == |ys|;
    assert forall i | 0 <= i < |xs| :: cx[i] == Canonical(xs[i]);
    assert forall i | 0 <= i < |ys| :: cy[i] == Canonical(ys[i]);
  }

  lemma ObjectsAgree(ms: seq<(string, Json)>, ns: seq<(string, Json)>)
    requires WellFormed(Object(ms)) && WellFormed(Object(ns))
    ensures Canonical(Object(ms)) == Canonical(Object(ns)) <==>
            && (forall k :: k in Keys(ms) <==> k in Keys(ns))
            && forall i, j | 0 <= i < |ms| && 0 <= j < |ns| && ms[i].0 == ns[j].0 ::
                 Canonical(ms[i].1) == Canonical(ns[j].1)
  {
    KeysOfCanonical(ms);
    KeysOfCanonical(ns);
    if Canonical(Object(ms)) == Canonical(Object(ns)) {
      forall i, j | 0 <= i < |ms| && 0 <= j < |ns| && ms[i].0 == ns[j].0
        ensures Canonical(ms[i].1) == Canonical(ns[j].1)
      {
        FindIsUnique(ms, i);
        FindIsUnique(ns, j);
        var at :| 0 <= at < |SortKeys(Keys(ms))| && SortKeys(Keys(ms))[at] == ms[i].0;
        MemberOfCanonical(ms, at);
        MemberOfCanonical(ns, at);
      }
    }
    if && (forall k :: k in Keys(ms) <==> k in Keys(ns))
       && forall i, j | 0 <= i < |ms| && 0 <= j < |ns| && ms[i].0 == ns[j].0 ::
            Canonical(ms[i].1) == Canonical(ns[j].1) {
      AscendingIsUnique(SortKeys(Keys(ms)), SortKeys(Keys(ns)));
      forall at | 0 <= at < |SortKeys(Keys(ms))|
        ensures Canonical(Object(ms)).members[at] == Canonical(Object(ns)).members[at]
      {
        MemberOfCanonical(ms, at);
        MemberOfCanonical(ns, at);
      }
      assert Canonical(Object(ms)).members == Canonical(Object(ns)).members;
    }
  }

  /** Sorting what is sorted changes nothing. */
  lemma CanonicalIsIdempotent(v: Json)
    requires WellFormed(v)
    ensures WellFormed(Canonical(v)) && Canonical(Canonical(v)) == Canonical(v)
  {
    CanonicalIsEquivalent(v);
    CanonicalDecides(Canonical(v), v);
  }

  /** The code's walk: arrays item by item, objects by inserting the members of a
      fresh one in the order of the sorted keys. */
  method SortJson(v: Json) returns (r: Json)
    requires WellFormed(v)
    ensures r == Canonical(v)
    decreases v
  {
    match v {
      case Leaf(_) => r := v;
      case Array(items) =>
        var sorted: seq<Json> := [];
        for i := 0 to |items|
          invariant |sorted| == i && forall k | 0 <= k < i :: sorted[k] == Canonical(items[k])
        {
          var item := SortJson(items[i]);
          sorted := sorted + [item];
        }
        assert sorted == Canonical(v).items;
        r := Array(sorted);
      case Object(members) =>
        var keys := SortKeys(Keys(members));
        var sorted: seq<(string, Json)> := [];
        KeysOfCanonical(members);
        for i := 0 to |keys|
          invariant |sorted| == i && sorted == Canonical(v).members[..i]
        {
          MemberOfCanonical(members, i);
          var value := SortJson(members[Find(members, keys[i])].1);
          sorted := sorted + [(keys[i], value)];
        }
        r := Object(sorted);
    }
  }
}
