/**
 What canonical text determines: it is equal exactly for values equal up to key order, and it is equal
 across ports exactly on the values whose characters and key orders the ports treat alike.
 */
module CanonicalTheorems {
  import opened Json
  import opened JsonRoundTrip
  import opened Canonical

  // --------------------------------------------------------- injectivity

  /** Every surviving member of `ms` has a counterpart in `ns` with the same key and the same value. */
  ghost predicate Covered(p: Port, ms: seq<Member>, ns: seq<Member>)
    decreases ms
  {
    forall i :: 0 <= i < |ms| && !Dropped(p, ms[i].key) ==>
      exists j :: 0 <= j < |ns| && ns[j].key == ms[i].key && SameValue(p, ms[i].value, ns[j].value)
  }

  /** Equal up to the order of keys in objects (and up to the members a port drops). */
  ghost predicate SameValue(p: Port, v: Json, w: Json)
    decreases v
  {
    match (v, w)
    case (Arr(xs), Arr(ys)) => |xs| == |ys| && forall i :: 0 <= i < |xs| ==> SameValue(p, xs[i], ys[i])
    case (Obj(ms), Obj(ns)) =>
      Covered(p, ms, ns) &&
      forall j :: 0 <= j < |ns| && !Dropped(p, ns[j].key) ==> exists i :: 0 <= i < |ms| && ms[i].key == ns[j].key
    case _ => v == w
  }

  /** A value and its sorted form determine one another, up to key order. */
  lemma {:induction false} SortKeysDecides(p: Port, v: Json, w: Json)
    requires UniqueKeys(v) && UniqueKeys(w)
    ensures SortKeys(p, v) == SortKeys(p, w) <==> SameValue(p, v, w)
    decreases v
  {
    match (v, w)
    case (Arr(xs), Arr(ys)) =>
      forall i | 0 <= i < |xs| && |xs| == |ys|
        ensures SortKeys(p, xs[i]) == SortKeys(p, ys[i]) <==> SameValue(p, xs[i], ys[i])
      {
        SortKeysDecides(p, xs[i], ys[i]);
      }
      if SortItems(p, xs) == SortItems(p, ys) {
        forall i | 0 <= i < |xs| ensures SameValue(p, xs[i], ys[i]) {
          assert SortItems(p, xs)[i] == SortItems(p, ys)[i];
        }
      }
    case (Obj(ms), Obj(ns)) =>
      forall i, j | 0 <= i < |ms| && 0 <= j < |ns|
        ensures SortKeys(p, ms[i].value) == SortKeys(p, ns[j].value) <==> SameValue(p, ms[i].value, ns[j].value)
      {
        SortKeysDecides(p, ms[i].value, ns[j].value);
      }
      ObjectsDecide(p, ms, ns);
    case _ =>
  }

  /** The object case, given the answer for every pair of member values. */
  lemma ObjectsDecide(p: Port, ms: seq<Member>, ns: seq<Member>)
    requires DistinctKeys(ms) && DistinctKeys(ns)
    requires forall i, j :: 0 <= i < |ms| && 0 <= j < |ns| ==>
               (SortKeys(p, ms[i].value) == SortKeys(p, ns[j].value) <==> SameValue(p, ms[i].value, ns[j].value))
    ensures SortKeys(p, Obj(ms)) == SortKeys(p, Obj(ns)) <==> SameValue(p, Obj(ms), Obj(ns))
  {
    if SameValue(p, Obj(ms), Obj(ns)) {
      SameMembersSortAlike(p, ms, ns);
    }
    if SortKeys(p, Obj(ms)) == SortKeys(p, Obj(ns)) {
      SortedAlikeCovered(p, ms, ns);
    }
  }

  lemma SameMembersSortAlike(p: Port, ms: seq<Member>, ns: seq<Member>)
    requires DistinctKeys(ms) && DistinctKeys(ns) && SameValue(p, Obj(ms), Obj(ns))
    requires forall i, j :: 0 <= i < |ms| && 0 <= j < |ns| && SameValue(p, ms[i].value, ns[j].value) ==>
               SortKeys(p, ms[i].value) == SortKeys(p, ns[j].value)
    ensures SortKeys(p, Obj(ms)) == SortKeys(p, Obj(ns))
  {
    var a, b := SortValues(p, ms), SortValues(p, ns);
    forall m ensures m in a <==> m in b {
      if m in a { MemberFollows(p, ms, ns, m); }
      if m in b { MemberComesFrom(p, ms, ns, m); }
    }
    SortedFormsEqual(p, a, b, ms, ns);
  }

  lemma MemberFollows(p: Port, ms: seq<Member>, ns: seq<Member>, m: Member)
    requires Covered(p, ms, ns) && m in SortValues(p, ms)
    requires forall i, j :: 0 <= i < |ms| && 0 <= j < |ns| && SameValue(p, ms[i].value, ns[j].value) ==>
               SortKeys(p, ms[i].value) == SortKeys(p, ns[j].value)
    ensures m in SortValues(p, ns)
  {
    SortValuesElements(p, ms, m);
    SortValuesElements(p, ns, m);
    var i :| 0 <= i < |ms| && !Dropped(p, ms[i].key) && m == Member(ms[i].key, SortKeys(p, ms[i].value));
    var j :| 0 <= j < |ns| && ns[j].key == ms[i].key && SameValue(p, ms[i].value, ns[j].value);
    assert m == Member(ns[j].key, SortKeys(p, ns[j].value));
  }

  lemma MemberComesFrom(p: Port, ms: seq<Member>, ns: seq<Member>, m: Member)
    requires DistinctKeys(ns) && SameValue(p, Obj(ms), Obj(ns)) && m in SortValues(p, ns)
    requires forall i, j :: 0 <= i < |ms| && 0 <= j < |ns| && SameValue(p, ms[i].value, ns[j].value) ==>
               SortKeys(p, ms[i].value) == SortKeys(p, ns[j].value)
    ensures m in SortValues(p, ms)
  {
    SortValuesElements(p, ms, m);
    SortValuesElements(p, ns, m);
    var j :| 0 <= j < |ns| && !Dropped(p, ns[j].key) && m == Member(ns[j].key, SortKeys(p, ns[j].value));
    var i :| 0 <= i < |ms| && ms[i].key == ns[j].key;
    var j' :| 0 <= j' < |ns| && ns[j'].key == ms[i].key && SameValue(p, ms[i].value, ns[j'].value);
    assert j' == j;
    assert m == Member(ms[i].key, SortKeys(p, ms[i].value));
  }

  lemma SortedFormsEqual(p: Port, a: seq<Member>, b: seq<Member>, ms: seq<Member>, ns: seq<Member>)
    requires a == SortValues(p, ms) && b == SortValues(p, ns) && DistinctKeys(ms) && DistinctKeys(ns)
    requires forall m :: m in a <==> m in b
    ensures SortMembers(p, a) == SortMembers(p, b)
  {
    SortValuesDistinct(p, ms);
    SortValuesDistinct(p, ns);
    DistinctOfSort(p, a);
    DistinctOfSort(p, b);
    SortElements(p, a);
    SortElements(p, b);
    SortSorts(p, a);
    SortSorts(p, b);
    SortedUnique(p, SortMembers(p, a), SortMembers(p, b));
  }

  /** A surviving member is found again, by key and sorted value, in any object that sorts alike. */
  lemma SortedAlikeFinds(p: Port, ms: seq<Member>, ns: seq<Member>, i: nat) returns (j: nat)
    requires i < |ms| && !Dropped(p, ms[i].key)
    requires SortKeys(p, Obj(ms)) == SortKeys(p, Obj(ns))
    ensures j < |ns| && ns[j].key == ms[i].key && SortKeys(p, ms[i].value) == SortKeys(p, ns[j].value)
  {
    var m := Member(ms[i].key, SortKeys(p, ms[i].value));
    SortValuesElements(p, ms, m);
    SortElements(p, SortValues(p, ms));
    SortElements(p, SortValues(p, ns));
    SortValuesElements(p, ns, m);
    j :| 0 <= j < |ns| && !Dropped(p, ns[j].key) && m == Member(ns[j].key, SortKeys(p, ns[j].value));
  }

  lemma SortedAlikeCovered(p: Port, ms: seq<Member>, ns: seq<Member>)
    requires SortKeys(p, Obj(ms)) == SortKeys(p, Obj(ns))
    requires forall i, j :: 0 <= i < |ms| && 0 <= j < |ns| && SortKeys(p, ms[i].value) == SortKeys(p, ns[j].value)
               ==> SameValue(p, ms[i].value, ns[j].value)
    ensures SameValue(p, Obj(ms), Obj(ns))
  {
    forall i | 0 <= i < |ms| && !Dropped(p, ms[i].key)
      ensures exists j :: 0 <= j < |ns| && ns[j].key == ms[i].key && SameValue(p, ms[i].value, ns[j].value)
    {
      var j := SortedAlikeFinds(p, ms, ns, i);
    }
    forall j | 0 <= j < |ns| && !Dropped(p, ns[j].key)
      ensures exists i :: 0 <= i < |ms| && ms[i].key == ns[j].key
    {
      var i := SortedAlikeFinds(p, ns, ms, j);
    }
  }

  /** MAIN: canonical text is equal exactly for values that are equal up to key order. */
  lemma CanonicalDecides(p: Port, v: Json, w: Json)
    requires UniqueKeys(v) && UniqueKeys(w)
    ensures CanonicalText(p, v) == CanonicalText(p, w) <==> SameValue(p, v, w)
  {
    EncodeInjective(CanonicalStyle(p), SortKeys(p, v), SortKeys(p, w));
    SortKeysDecides(p, v, w);
  }

  lemma {:induction false} SortValuesSkips(p: Port, ms: seq<Member>, i: nat, m: Member)
    requires i <= |ms| && Dropped(p, m.key)
    ensures SortValues(p, ms[..i] + ([m] + ms[i..])) == SortValues(p, ms)
  {
    var all := ms[..i] + ([m] + ms[i..]);
    if i == 0 {
      assert all[1..] == ms && all[0] == m;
    } else {
      assert all[0] == ms[0] && all[1..] == ms[1..][..i - 1] + ([m] + ms[1..][i - 1..]);
      SortValuesSkips(p, ms[1..], i - 1, m);
    }
  }

  /** The TypeScript canonical text does not see a `__proto__` member of any object, whatever it holds. */
  lemma ProtoMemberUnsigned(ms: seq<Member>, i: nat, v: Json)
    requires i <= |ms|
    ensures CanonicalText(TypeScript, Obj(ms[..i] + ([Member("__proto__", v)] + ms[i..]))) ==
            CanonicalText(TypeScript, Obj(ms))
  {
    SortValuesSkips(TypeScript, ms, i, Member("__proto__", v));
  }
}
