/** Array operations the application uses: `filter`, `find` and the
    first-occurrence de-duplication of `new Set(array)`. */
module Seqs {
  import opened Wrappers

  /** `s.filter(p)`. */
  function Filter<T>(s: seq<T>, p: T -> bool): (r: seq<T>)
    ensures |r| <= |s|
  {
    if s == [] then []
    else (if p(s[0]) then [s[0]] else []) + Filter(s[1..], p)
  }

  /** What the filter keeps: exactly the elements that pass. */
  lemma {:induction false} FilterMembers<T>(s: seq<T>, p: T -> bool)
    ensures forall x :: x in Filter(s, p) <==> x in s && p(x)
  {
    if s != [] {
      FilterMembers(s[1..], p);
      assert s == [s[0]] + s[1..];
    }
  }

  /** `a` is `b` with some elements left out, in the same order. */
  ghost predicate IsSubsequence<T>(a: seq<T>, b: seq<T>)
    decreases |b|
  {
    if a == [] then true
    else if b == [] then false
    else (a[0] == b[0] && IsSubsequence(a[1..], b[1..])) || IsSubsequence(a, b[1..])
  }

  /** Filtering keeps the order of what it keeps. */
  lemma {:induction false} FilterIsSubsequence<T>(s: seq<T>, p: T -> bool)
    ensures IsSubsequence(Filter(s, p), s)
  {
    if s != [] {
      FilterIsSubsequence(s[1..], p);
      if p(s[0]) {
        assert Filter(s, p)[1..] == Filter(s[1..], p);
      } else {
        assert Filter(s, p) == Filter(s[1..], p);
        FilterIsSubsequence(s[1..], p);
      }
    }
  }

  /** A filter every element passes is the identity. */
  lemma {:induction false} FilterAll<T>(s: seq<T>, p: T -> bool)
    requires forall k :: 0 <= k < |s| ==> p(s[k])
    ensures Filter(s, p) == s
  {
    if s != [] {
      FilterAll(s[1..], p);
    }
  }

  /** Filtering a sequence with a given first element. */
  lemma FilterCons<T>(x: T, s: seq<T>, p: T -> bool)
    ensures Filter([x] + s, p) == (if p(x) then [x] else []) + Filter(s, p)
  {
    assert ([x] + s)[1..] == s;
  }

  /** Filtering a sequence with a given last element. */
  lemma {:induction false} FilterSnoc<T>(s: seq<T>, x: T, p: T -> bool)
    ensures Filter(s + [x], p) == Filter(s, p) + (if p(x) then [x] else [])
  {
    if s == [] {
      assert [] + [x] == [x];
    } else {
      var t, head, last := s + [x], if p(s[0]) then [s[0]] else [], if p(x) then [x] else [];
      assert t[0] == s[0] && t[1..] == s[1..] + [x];
      FilterSnoc(s[1..], x, p);
      assert Filter(t, p) == head + (Filter(s[1..], p) + last);
      assert Filter(s, p) == head + Filter(s[1..], p);
    }
  }

  /** Two filters in a row are one filter by the conjunction. */
  lemma {:induction false} FilterFilter<T>(s: seq<T>, p: T -> bool, q: T -> bool, pq: T -> bool)
    requires forall x :: pq(x) == (p(x) && q(x))
    ensures Filter(Filter(s, p), q) == Filter(s, pq)
  {
    if s != [] {
      var x, rest := s[0], s[1..];
      assert s == [x] + rest;
      FilterFilter(rest, p, q, pq);
      FilterCons(x, rest, p);
      FilterCons(x, rest, pq);
      if p(x) {
        assert Filter(s, p) == [x] + Filter(rest, p);
        FilterCons(x, Filter(rest, p), q);
        assert pq(x) == q(x);
      } else {
        assert Filter(s, p) == Filter(rest, p);
        assert !pq(x);
      }
    }
  }

  /** Filters by predicates that agree on every element give the same result. */
  lemma {:induction false} FilterCongruent<T>(s: seq<T>, p: T -> bool, q: T -> bool)
    requires forall k :: 0 <= k < |s| ==> p(s[k]) == q(s[k])
    ensures Filter(s, p) == Filter(s, q)
  {
    if s != [] {
      FilterCongruent(s[1..], p, q);
    }
  }

  /** An element is kept as often as it occurs, when it passes. */
  lemma {:induction false} FilterCount<T>(s: seq<T>, p: T -> bool, notP: T -> bool)
    requires forall x :: notP(x) == !p(x)
    ensures |Filter(s, p)| + |Filter(s, notP)| == |s|
  {
    if s != [] {
      FilterCount(s[1..], p, notP);
    }
  }

  /** `s.find(p)`: the first element that passes, if any. */
  function Find<T>(s: seq<T>, p: T -> bool): (r: Option<T>)
    ensures r.None? <==> forall k :: 0 <= k < |s| ==> !p(s[k])
    ensures r.Some? ==> r.value in s && p(r.value)
  {
    if s == [] then None
    else if p(s[0]) then Some(s[0])
    else Find(s[1..], p)
  }

  /** What `Find` returns comes before every other passing element. */
  lemma {:induction false} FindIsFirst<T>(s: seq<T>, p: T -> bool, k: nat)
    requires Find(s, p).Some?
    requires k < |s| && p(s[k])
    ensures exists i :: 0 <= i <= k && s[i] == Find(s, p).value && forall j :: 0 <= j < i ==> !p(s[j])
  {
    if p(s[0]) {
      assert s[0] == Find(s, p).value;
    } else {
      FindIsFirst(s[1..], p, k - 1);
      var i :| 0 <= i <= k - 1 && s[1..][i] == Find(s[1..], p).value && forall j :: 0 <= j < i ==> !p(s[1..][j]);
      assert forall j :: 0 <= j < i + 1 ==> !p(s[j]) by {
        forall j | 0 <= j < i + 1 ensures !p(s[j]) {
          if j > 0 {
            assert s[j] == s[1..][j - 1];
          }
        }
      }
    }
  }

  /** The element at `k` is found when it passes and nothing before it does. */
  lemma {:induction false} FindAt<T>(s: seq<T>, p: T -> bool, k: nat)
    requires k < |s| && p(s[k])
    requires forall j :: 0 <= j < k ==> !p(s[j])
    ensures Find(s, p) == Some(s[k])
  {
    if k > 0 {
      FindAt(s[1..], p, k - 1);
    }
  }

  /** Finding among the elements that pass `q` is finding by both. */
  lemma {:induction false} FindFilter<T>(s: seq<T>, q: T -> bool, p: T -> bool, qp: T -> bool)
    requires forall x :: qp(x) == (q(x) && p(x))
    ensures Find(Filter(s, q), p) == Find(s, qp)
  {
    if s != [] {
      var x, rest := s[0], s[1..];
      assert s == [x] + rest;
      FindFilter(rest, q, p, qp);
      FilterCons(x, rest, q);
      if q(x) {
        var f := [x] + Filter(rest, q);
        assert Filter(s, q) == f;
        assert f[0] == x && f[1..] == Filter(rest, q);
      } else {
        assert Filter(s, q) == Filter(rest, q);
        assert !qp(x);
      }
    }
  }

  /** `[...new Set(s)]`: the elements of `s` not in `seen`, each once, in order of
      their first occurrence. */
  function DistinctFrom<T(==)>(s: seq<T>, seen: set<T>): (r: seq<T>)
  {
    if s == [] then []
    else if s[0] in seen then DistinctFrom(s[1..], seen)
    else [s[0]] + DistinctFrom(s[1..], seen + {s[0]})
  }

  function Distinct<T(==)>(s: seq<T>): (r: seq<T>)
  {
    DistinctFrom(s, {})
  }

  /** A name JavaScript treats as truthy. */
  predicate NonEmpty(n: string) {
    n != ""
  }

  /** `new Set(names.filter(Boolean))` in its iteration order: the non-empty
      names, each once, in order of first occurrence. These are also the keys an
      object receives when every non-empty name is assigned only the first time. */
  function DistinctNames(names: seq<string>): seq<string> {
    Distinct(Filter(names, NonEmpty))
  }

  /** The de-duplicated sequence holds the elements not yet seen, each once. */
  lemma {:induction false} DistinctFromMembers<T>(s: seq<T>, seen: set<T>)
    ensures forall x :: x in DistinctFrom(s, seen) <==> x in s && x !in seen
    ensures forall i, j :: 0 <= i < j < |DistinctFrom(s, seen)| ==> DistinctFrom(s, seen)[i] != DistinctFrom(s, seen)[j]
  {
    if s != [] {
      DistinctFromMembers(s[1..], seen + {s[0]});
      DistinctFromMembers(s[1..], seen);
      assert s == [s[0]] + s[1..];
    }
  }

  /** De-duplicating a sequence with a given last element. */
  lemma {:induction false} DistinctFromSnoc<T>(s: seq<T>, seen: set<T>, x: T)
    ensures DistinctFrom(s + [x], seen) == DistinctFrom(s, seen) + (if x in s || x in seen then [] else [x])
  {
    if s == [] {
      assert [] + [x] == [x];
      assert [x][1..] == [];
    } else {
      assert (s + [x])[0] == s[0] && (s + [x])[1..] == s[1..] + [x];
      assert x in s <==> x == s[0] || x in s[1..];
      if s[0] in seen {
        DistinctFromSnoc(s[1..], seen, x);
      } else {
        DistinctFromSnoc(s[1..], seen + {s[0]}, x);
      }
    }
  }

  lemma DistinctSnoc<T>(s: seq<T>, x: T)
    ensures Distinct(s + [x]) == Distinct(s) + (if x in s then [] else [x])
  {
    DistinctFromSnoc(s, {}, x);
  }

  lemma DistinctMembers<T>(s: seq<T>)
    ensures forall x :: x in Distinct(s) <==> x in s
    ensures forall i, j :: 0 <= i < j < |Distinct(s)| ==> Distinct(s)[i] != Distinct(s)[j]
  {
    DistinctFromMembers(s, {});
  }

  /** De-duplicating does not change which element is found first. */
  lemma {:induction false} FindDistinctFrom<T>(s: seq<T>, seen: set<T>, p: T -> bool)
    requires forall k :: 0 <= k < |s| && s[k] in seen ==> !p(s[k])
    ensures Find(DistinctFrom(s, seen), p) == Find(s, p)
  {
    if s != [] {
      if s[0] in seen {
        FindDistinctFrom(s[1..], seen, p);
      } else if !p(s[0]) {
        FindDistinctFrom(s[1..], seen + {s[0]}, p);
      }
    }
  }

  /** The distinct names are the non-empty names, each once. */
  lemma DistinctNamesMembers(names: seq<string>)
    ensures forall n :: n in DistinctNames(names) <==> n in names && n != ""
    ensures forall i, j :: 0 <= i < j < |DistinctNames(names)| ==> DistinctNames(names)[i] != DistinctNames(names)[j]
  {
    FilterMembers(names, NonEmpty);
    DistinctMembers(Filter(names, NonEmpty));
  }

  /** One more name is one more distinct name when it is non-empty and new. */
  lemma DistinctNamesSnoc(names: seq<string>, name: string)
    ensures DistinctNames(names + [name]) ==
              DistinctNames(names) + (if name != "" && name !in names then [name] else [])
  {
    FilterSnoc(names, name, NonEmpty);
    FilterMembers(names, NonEmpty);
    DistinctSnoc(Filter(names, NonEmpty), name);
    if name == "" {
      assert Filter(names, NonEmpty) + [] == Filter(names, NonEmpty);
    }
  }

  /** A non-empty first name is the first distinct name. */
  lemma FirstDistinctName(names: seq<string>)
    requires |names| > 0 && names[0] != ""
    ensures |DistinctNames(names)| > 0 && DistinctNames(names)[0] == names[0]
  {
    var nonEmpty := Filter(names, NonEmpty);
    assert nonEmpty == [names[0]] + Filter(names[1..], NonEmpty);
  }
}
