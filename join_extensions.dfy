/** LINQ joins over ordered sequences. `GroupJoin` + `DefaultIfEmpty` + `SelectMany`
    is modelled directly; the `default` a missing partner stands for is `None`. */
module JoinExtensions {
  import opened Wrappers
  import opened Clr
  import opened Sequences

  /** The inner elements whose key equals `key`, in inner order: the group
      `GroupJoin` pairs with one outer element. */
  function Matching<I(!new), K(==)>(inner: seq<I>, ik: I -> K, key: K): (m: seq<I>)
    ensures |m| <= |inner|
    ensures forall x :: x in m <==> x in inner && ik(x) == key
  {
    if inner == [] then []
    else (if ik(inner[0]) == key then [inner[0]] else []) + Matching(inner[1..], ik, key)
  }

  /** The results one outer element contributes: one per match, in inner order, or
      a single result paired with the default when nothing matches. */
  function Group<O(!new), I(!new), K(==), R>(o: O, inner: seq<I>, ok: O -> K, ik: I -> K, sel: (O, Option<I>) -> R): seq<R> {
    var m := Matching(inner, ik, ok(o));
    if m == [] then [sel(o, None)]
    else seq(|m|, j requires 0 <= j < |m| => sel(o, Some(m[j])))
  }

  /** `outer.LeftJoin(inner, outerKey, innerKey, resultSelector)`. */
  function LeftJoin<O(!new), I(!new), K(==), R>(outer: seq<O>, inner: seq<I>, ok: O -> K, ik: I -> K, sel: (O, Option<I>) -> R): seq<R> {
    if outer == [] then []
    else Group(outer[0], inner, ok, ik, sel) + LeftJoin(outer[1..], inner, ok, ik, sel)
  }

  /** `outer.RightJoin(...)`: a left join with the roles of the two sides swapped,
      the selector's arguments swapped back. */
  function RightJoin<O(!new), I(!new), K(==), R>(outer: seq<O>, inner: seq<I>, ok: O -> K, ik: I -> K, sel: (Option<O>, I) -> R): seq<R> {
    LeftJoin(inner, outer, ik, ok, (i: I, oo: Option<O>) => sel(oo, i))
  }

  predicate NoDuplicates<T(==)>(s: seq<T>) {
    forall i, j :: 0 <= i < j < |s| ==> s[i] != s[j]
  }

  /** The elements of `s` not in `seen`, each at its first occurrence. */
  function DistinctFrom<T(==,!new)>(s: seq<T>, seen: set<T>): (r: seq<T>)
    ensures forall x :: x in r <==> x in s && x !in seen
    ensures NoDuplicates(r)
  {
    if s == [] then []
    else if s[0] in seen then DistinctFrom(s[1..], seen)
    else [s[0]] + DistinctFrom(s[1..], seen + {s[0]})
  }

  /** `first.Union(second)`: the distinct elements of both, first occurrences kept in order. */
  function Union<T(==,!new)>(first: seq<T>, second: seq<T>): seq<T> {
    DistinctFrom(first + second, {})
  }

  /** `outer.FullOuterJoin(...)`: the union of the left join and the right join. */
  function FullOuterJoin<O(!new), I(!new), K(==), R(==,!new)>(outer: seq<O>, inner: seq<I>, ok: O -> K, ik: I -> K,
                                            sel: (Option<O>, Option<I>) -> R): seq<R> {
    Union(LeftJoin(outer, inner, ok, ik, (o: O, ii: Option<I>) => sel(Some(o), ii)),
          RightJoin(outer, inner, ok, ik, (oo: Option<O>, i: I) => sel(oo, Some(i))))
  }

  predicate KeysDistinct<K(==), V>(pairs: seq<(K, V)>) {
    forall i, j :: 0 <= i < j < |pairs| ==> pairs[i].0 != pairs[j].0
  }

  /** `ToDictionary(k => k.Key, v => v.Value)`: the pairs are added in order and the
      first repeated key throws. */
  function ToDictionary<K(==), V>(pairs: seq<(K, V)>): Result<seq<(K, V)>, Exception> {
    if KeysDistinct(pairs) then Ok(pairs) else Err(DuplicateKey)
  }

  /** `first.Merge(second)`: the union of the two dictionaries' pairs, made a dictionary. */
  function Merge<K(==,!new), V(==,!new)>(first: seq<(K, V)>, second: seq<(K, V)>): Result<seq<(K, V)>, Exception> {
    ToDictionary(Union(first, second))
  }

  // ---------------------------------------------------------------------------
  // Left join

  /** Number of inner elements whose key is `key`. */
  function CountMatching<I(!new), K(==)>(inner: seq<I>, ik: I -> K, key: K): nat {
    if inner == [] then 0
    else (if ik(inner[0]) == key then 1 else 0) + CountMatching(inner[1..], ik, key)
  }

  /** The sum, over the outer elements, of max(1, number of matches). */
  function JoinSize<O, I(!new), K(==)>(outer: seq<O>, inner: seq<I>, ok: O -> K, ik: I -> K): nat {
    if outer == [] then 0
    else
      var c := CountMatching(inner, ik, ok(outer[0]));
      (if c == 0 then 1 else c) + JoinSize(outer[1..], inner, ok, ik)
  }

  lemma {:induction false} MatchingCount<I(!new), K>(inner: seq<I>, ik: I -> K, key: K)
    ensures |Matching(inner, ik, key)| == CountMatching(inner, ik, key)
    decreases |inner|
  {
    if inner != [] {
      MatchingCount(inner[1..], ik, key);
    }
  }

  /** The length of a left join is the sum over outer elements of max(1, matches). */
  lemma {:induction false} LeftJoinLength<O(!new), I(!new), K, R>(outer: seq<O>, inner: seq<I>, ok: O -> K, ik: I -> K, sel: (O, Option<I>) -> R)
    ensures |LeftJoin(outer, inner, ok, ik, sel)| == JoinSize(outer, inner, ok, ik)
    decreases |outer|
  {
    if outer != [] {
      MatchingCount(inner, ik, ok(outer[0]));
      LeftJoinLength(outer[1..], inner, ok, ik, sel);
    }
  }

  /** Results come grouped by outer element, in outer order: joining a
      concatenation is concatenating the joins. */
  lemma {:induction false} LeftJoinAppend<O(!new), I(!new), K, R>(a: seq<O>, b: seq<O>, inner: seq<I>, ok: O -> K, ik: I -> K, sel: (O, Option<I>) -> R)
    ensures LeftJoin(a + b, inner, ok, ik, sel) == LeftJoin(a, inner, ok, ik, sel) + LeftJoin(b, inner, ok, ik, sel)
    decreases |a|
  {
    if a == [] {
      assert a + b == b;
    } else {
      var rest := a[1..] + b;
      assert a + b == [a[0]] + rest;
      LeftJoinAppend(a[1..], b, inner, ok, ik, sel);
      LeftJoinCons(a[0], rest, inner, ok, ik, sel);
      assert a == [a[0]] + a[1..];
      LeftJoinCons(a[0], a[1..], inner, ok, ik, sel);
      AppendAssoc(Group(a[0], inner, ok, ik, sel), LeftJoin(a[1..], inner, ok, ik, sel), LeftJoin(b, inner, ok, ik, sel));
    }
  }

  lemma LeftJoinCons<O(!new), I(!new), K, R>(o: O, rest: seq<O>, inner: seq<I>, ok: O -> K, ik: I -> K, sel: (O, Option<I>) -> R)
    ensures LeftJoin([o] + rest, inner, ok, ik, sel) == Group(o, inner, ok, ik, sel) + LeftJoin(rest, inner, ok, ik, sel)
  {
    assert ([o] + rest)[0] == o && ([o] + rest)[1..] == rest;
  }

  /** The results an outer element `o` may pair to. */
  ghost predicate InGroup<O(!new), I(!new), K, R(!new)>(r: R, o: O, inner: seq<I>, ok: O -> K, ik: I -> K, sel: (O, Option<I>) -> R) {
    || (exists i :: i in inner && ik(i) == ok(o) && r == sel(o, Some(i)))
    || ((forall i :: i in inner ==> ik(i) != ok(o)) && r == sel(o, None))
  }

  lemma GroupMembers<O(!new), I(!new), K, R(!new)>(o: O, inner: seq<I>, ok: O -> K, ik: I -> K, sel: (O, Option<I>) -> R, r: R)
    ensures r in Group(o, inner, ok, ik, sel) <==> InGroup(r, o, inner, ok, ik, sel)
  {
    var m := Matching(inner, ik, ok(o));
    var g := Group(o, inner, ok, ik, sel);
    if m == [] {
      assert g == [sel(o, None)];
      assert forall i :: i in inner ==> ik(i) != ok(o) by {
        forall i | i in inner ensures ik(i) != ok(o) {
          assert ik(i) == ok(o) ==> i in m;
        }
      }
    } else {
      assert m[0] in m;
      assert !(forall i :: i in inner ==> ik(i) != ok(o)) by {
        assert m[0] in inner && ik(m[0]) == ok(o);
      }
      if r in g {
        var j :| 0 <= j < |m| && g[j] == r;
        assert m[j] in m;
      }
      if exists i :: i in inner && ik(i) == ok(o) && r == sel(o, Some(i)) {
        var i :| i in inner && ik(i) == ok(o) && r == sel(o, Some(i));
        assert i in m;
        var j :| 0 <= j < |m| && m[j] == i;
        assert g[j] == r;
      }
    }
  }

  /** Membership in a left join, both directions: a result is `sel(o, Some(i))` for
      an outer `o` and an inner `i` with equal keys, or `sel(o, None)` for an outer
      `o` that nothing matches. */
  lemma {:induction false} LeftJoinMembers<O(!new), I(!new), K, R(!new)>(outer: seq<O>, inner: seq<I>, ok: O -> K, ik: I -> K, sel: (O, Option<I>) -> R, r: R)
    ensures r in LeftJoin(outer, inner, ok, ik, sel) <==> exists o :: o in outer && InGroup(r, o, inner, ok, ik, sel)
    decreases |outer|
  {
    if outer != [] {
      GroupMembers(outer[0], inner, ok, ik, sel, r);
      LeftJoinMembers(outer[1..], inner, ok, ik, sel, r);
      if exists o :: o in outer && InGroup(r, o, inner, ok, ik, sel) {
        var o :| o in outer && InGroup(r, o, inner, ok, ik, sel);
        if o != outer[0] {
          assert o in outer[1..];
        }
      }
    }
  }

  /** Every outer element appears at least once, with each of its matches or,
      lacking any, with the default. */
  lemma LeftJoinCoversOuter<O(!new), I(!new), K, R(!new)>(outer: seq<O>, inner: seq<I>, ok: O -> K, ik: I -> K, sel: (O, Option<I>) -> R, o: O, i: I)
    requires o in outer
    ensures i in inner && ik(i) == ok(o) ==> sel(o, Some(i)) in LeftJoin(outer, inner, ok, ik, sel)
    ensures (forall x :: x in inner ==> ik(x) != ok(o)) ==> sel(o, None) in LeftJoin(outer, inner, ok, ik, sel)
  {
    LeftJoinMembers(outer, inner, ok, ik, sel, sel(o, Some(i)));
    LeftJoinMembers(outer, inner, ok, ik, sel, sel(o, None));
  }

  /** When the inner keys are distinct, a key matches at most one inner element. */
  lemma {:induction false} MatchingAtMostOne<I(!new), K>(inner: seq<I>, ik: I -> K, key: K)
    requires forall i, j :: 0 <= i < j < |inner| ==> ik(inner[i]) != ik(inner[j])
    ensures |Matching(inner, ik, key)| <= 1
    decreases |inner|
  {
    if inner != [] {
      MatchingAtMostOne(inner[1..], ik, key);
      if ik(inner[0]) == key {
        assert forall i :: 0 <= i < |inner[1..]| ==> inner[1..][i] == inner[i + 1];
        MatchingNone(inner[1..], ik, key);
      }
    }
  }

  /** A key no inner element carries matches nothing. */
  lemma {:induction false} MatchingNone<I(!new), K>(inner: seq<I>, ik: I -> K, key: K)
    requires forall i :: 0 <= i < |inner| ==> ik(inner[i]) != key
    ensures Matching(inner, ik, key) == []
    decreases |inner|
  {
    if inner != [] {
      assert forall i :: 0 <= i < |inner[1..]| ==> inner[1..][i] == inner[i + 1];
      MatchingNone(inner[1..], ik, key);
    }
  }

  /** When no outer element has more than one match, the left join is one result
      per outer element, in outer order: its match, or the default. */
  lemma {:induction false} LeftJoinOneToOne<O(!new), I(!new), K, R>(outer: seq<O>, inner: seq<I>, ok: O -> K, ik: I -> K, sel: (O, Option<I>) -> R)
    requires forall i :: 0 <= i < |outer| ==> |Matching(inner, ik, ok(outer[i]))| <= 1
    ensures |LeftJoin(outer, inner, ok, ik, sel)| == |outer|
    ensures forall i :: 0 <= i < |outer| ==>
              LeftJoin(outer, inner, ok, ik, sel)[i] ==
                (var m := Matching(inner, ik, ok(outer[i])); if m == [] then sel(outer[i], None) else sel(outer[i], Some(m[0])))
    decreases |outer|
  {
    if outer != [] {
      assert forall i :: 0 <= i < |outer[1..]| ==> outer[1..][i] == outer[i + 1];
      LeftJoinOneToOne(outer[1..], inner, ok, ik, sel);
    }
  }

  // ---------------------------------------------------------------------------
  // Right join and full outer join

  /** The right join, stated on its own terms: its length sums max(1, matches) over
      the INNER elements, and it holds exactly the inner elements paired with each
      matching outer element, or with the default when none matches. */
  lemma RightJoinSpec<O(!new), I(!new), K, R(!new)>(outer: seq<O>, inner: seq<I>, ok: O -> K, ik: I -> K, sel: (Option<O>, I) -> R, r: R)
    ensures |RightJoin(outer, inner, ok, ik, sel)| == JoinSize(inner, outer, ik, ok)
    ensures r in RightJoin(outer, inner, ok, ik, sel) <==>
              exists i :: i in inner &&
                (|| (exists o :: o in outer && ok(o) == ik(i) && r == sel(Some(o), i))
                 || ((forall o :: o in outer ==> ok(o) != ik(i)) && r == sel(None, i)))
  {
    var swapped := (i: I, oo: Option<O>) => sel(oo, i);
    LeftJoinLength(inner, outer, ik, ok, swapped);
    LeftJoinMembers(inner, outer, ik, ok, swapped, r);
  }

  /** The full outer join holds each result of the left join and of the right join,
      and nothing else, once each. */
  lemma FullOuterJoinSpec<O(!new), I(!new), K, R(!new)>(outer: seq<O>, inner: seq<I>, ok: O -> K, ik: I -> K, sel: (Option<O>, Option<I>) -> R, r: R)
    ensures NoDuplicates(FullOuterJoin(outer, inner, ok, ik, sel))
    ensures r in FullOuterJoin(outer, inner, ok, ik, sel) <==>
              || r in LeftJoin(outer, inner, ok, ik, (o: O, ii: Option<I>) => sel(Some(o), ii))
              || r in RightJoin(outer, inner, ok, ik, (oo: Option<O>, i: I) => sel(oo, Some(i)))
  {
  }

  /** An outer element with no partner still reaches the full outer join, paired with
      the default; so does an inner element with no partner. */
  lemma FullOuterJoinKeepsUnmatched<O(!new), I(!new), K, R(!new)>(outer: seq<O>, inner: seq<I>, ok: O -> K, ik: I -> K, sel: (Option<O>, Option<I>) -> R, o: O, i: I)
    ensures o in outer && (forall x :: x in inner ==> ik(x) != ok(o)) ==> sel(Some(o), None) in FullOuterJoin(outer, inner, ok, ik, sel)
    ensures i in inner && (forall x :: x in outer ==> ok(x) != ik(i)) ==> sel(None, Some(i)) in FullOuterJoin(outer, inner, ok, ik, sel)
  {
    var left := (o: O, ii: Option<I>) => sel(Some(o), ii);
    var right := (oo: Option<O>, i: I) => sel(oo, Some(i));
    if o in outer && (forall x :: x in inner ==> ik(x) != ok(o)) {
      LeftJoinMembers(outer, inner, ok, ik, left, sel(Some(o), None));
      FullOuterJoinSpec(outer, inner, ok, ik, sel, sel(Some(o), None));
    }
    if i in inner && (forall x :: x in outer ==> ok(x) != ik(i)) {
      RightJoinSpec(outer, inner, ok, ik, right, sel(None, Some(i)));
      FullOuterJoinSpec(outer, inner, ok, ik, sel, sel(None, Some(i)));
    }
  }

  // ---------------------------------------------------------------------------
  // Merge

  /** Two dictionaries disagree when one key carries different values in them. */
  ghost predicate Conflict<K(!new), V(!new)>(first: seq<(K, V)>, second: seq<(K, V)>) {
    exists k, v1, v2 :: (k, v1) in first && (k, v2) in second && v1 != v2
  }

  /** Merge succeeds exactly when no key carries different values in the two
      dictionaries (identical pairs collapse in the union); the merged dictionary
      then holds every pair of both and nothing else, so every key of both. */
  lemma MergeSpec<K(!new), V(!new)>(first: seq<(K, V)>, second: seq<(K, V)>)
    requires KeysDistinct(first) && KeysDistinct(second)
    ensures Merge(first, second).Ok? <==> !Conflict(first, second)
    ensures Merge(first, second).Ok? ==>
              forall p :: p in Merge(first, second).value <==> p in first || p in second
  {
    var u := Union(first, second);
    if Conflict(first, second) {
      var k, v1, v2 :| (k, v1) in first && (k, v2) in second && v1 != v2;
      assert (k, v1) in u && (k, v2) in u;
      var i :| 0 <= i < |u| && u[i] == (k, v1);
      var j :| 0 <= j < |u| && u[j] == (k, v2);
      if i < j {
        assert !KeysDistinct(u);
      } else {
        assert !KeysDistinct(u);
      }
    } else {
      forall i, j | 0 <= i < j < |u| ensures u[i].0 != u[j].0 {
        DistinctPairsDistinctKeys(first, second, u[i], u[j]);
      }
    }
  }

  /** In two dictionaries that never disagree, two different pairs have different keys. */
  lemma DistinctPairsDistinctKeys<K(!new), V(!new)>(first: seq<(K, V)>, second: seq<(K, V)>, p: (K, V), q: (K, V))
    requires KeysDistinct(first) && KeysDistinct(second) && !Conflict(first, second)
    requires p in first + second && q in first + second && p != q
    ensures p.0 != q.0
  {
    if p in first && q in first {
      var a :| 0 <= a < |first| && first[a] == p;
      var b :| 0 <= b < |first| && first[b] == q;
      assert a < b || b < a;
    } else if p in second && q in second {
      var a :| 0 <= a < |second| && second[a] == p;
      var b :| 0 <= b < |second| && second[b] == q;
      assert a < b || b < a;
    } else if p in first {
      assert p.0 == q.0 ==> (p.0, p.1) in first && (p.0, q.1) in second;
    } else {
      assert p.0 == q.0 ==> (q.0, q.1) in first && (q.0, p.1) in second;
    }
  }
}
