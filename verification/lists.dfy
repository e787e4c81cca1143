/** Order-preserving selection over sequences: the `Array.prototype.filter`
    behaviour every list view of the dashboard relies on. */
module Lists {

  /** `a` is obtained from `b` by deleting elements, keeping the order of the rest. */
  ghost predicate IsSubsequence<T>(a: seq<T>, b: seq<T>)
    decreases |b|
  {
    if a == [] then true
    else if b == [] then false
    else (a[0] == b[0] && IsSubsequence(a[1..], b[1..])) || IsSubsequence(a, b[1..])
  }

  /** The elements of `s` satisfying `p`, in order: the definition. */
  function Select<T>(s: seq<T>, p: T -> bool): seq<T> {
    if s == [] then [] else (if p(s[0]) then [s[0]] else []) + Select(s[1..], p)
  }

  /** `s.filter(p)`: the elements of `s` satisfying `p`, in their original
      order and with their original multiplicities. */
  function Filter<T(!new)>(s: seq<T>, p: T -> bool): (r: seq<T>)
    ensures |r| <= |s|
    ensures IsSubsequence(r, s)
    ensures forall x :: x in r <==> x in s && p(x)
    ensures forall x :: multiset(r)[x] == if p(x) then multiset(s)[x] else 0
    ensures (forall i :: 0 <= i < |s| ==> p(s[i])) <==> r == s
  {
    SelectFacts(s, p);
    Select(s, p)
  }

  lemma {:induction false} SelectFacts<T(!new)>(s: seq<T>, p: T -> bool)
    ensures |Select(s, p)| <= |s|
    ensures IsSubsequence(Select(s, p), s)
    ensures forall x :: x in Select(s, p) <==> x in s && p(x)
    ensures forall x :: multiset(Select(s, p))[x] == if p(x) then multiset(s)[x] else 0
    ensures (forall i :: 0 <= i < |s| ==> p(s[i])) <==> Select(s, p) == s
    decreases |s|
  {
    if s != [] {
      var rest := Select(s[1..], p);
      SelectFacts(s[1..], p);
      if p(s[0]) {
        assert Select(s, p) == [s[0]] + rest;
        KeepHead(s, rest, p);
      } else {
        assert Select(s, p) == [] + rest == rest;
        DropHead(s, rest, p);
      }
    }
  }

  /** The step of `Filter` that keeps the head. */
  lemma KeepHead<T>(s: seq<T>, rest: seq<T>, p: T -> bool)
    requires s != [] && p(s[0])
    requires |rest| <= |s[1..]| && IsSubsequence(rest, s[1..])
    requires forall x :: x in rest <==> x in s[1..] && p(x)
    requires forall x :: multiset(rest)[x] == if p(x) then multiset(s[1..])[x] else 0
    requires (forall i :: 0 <= i < |s[1..]| ==> p(s[1..][i])) <==> rest == s[1..]
    ensures |[s[0]] + rest| <= |s| && IsSubsequence([s[0]] + rest, s)
    ensures forall x :: x in [s[0]] + rest <==> x in s && p(x)
    ensures forall x :: multiset([s[0]] + rest)[x] == if p(x) then multiset(s)[x] else 0
    ensures (forall i :: 0 <= i < |s| ==> p(s[i])) <==> [s[0]] + rest == s
  {
    var r := [s[0]] + rest;
    assert s == [s[0]] + s[1..];
    assert r[1..] == rest;
    assert multiset(s) == multiset([s[0]]) + multiset(s[1..]);
    if forall i :: 0 <= i < |s| ==> p(s[i]) {
      assert forall i :: 0 <= i < |s[1..]| ==> p(s[1..][i]) by {
        forall i | 0 <= i < |s[1..]| ensures p(s[1..][i]) {
          assert s[1..][i] == s[i + 1];
        }
      }
    }
    if r == s {
      forall i | 0 <= i < |s| ensures p(s[i]) {
        if i > 0 {
          assert s[i] == rest[i - 1] && rest[i - 1] in rest;
        }
      }
    }
  }

  /** The step of `Filter` that drops the head. */
  lemma DropHead<T>(s: seq<T>, rest: seq<T>, p: T -> bool)
    requires s != [] && !p(s[0])
    requires |rest| <= |s[1..]| && IsSubsequence(rest, s[1..])
    requires forall x :: x in rest <==> x in s[1..] && p(x)
    requires forall x :: multiset(rest)[x] == if p(x) then multiset(s[1..])[x] else 0
    ensures |rest| <= |s| && IsSubsequence(rest, s)
    ensures forall x :: x in rest <==> x in s && p(x)
    ensures forall x :: multiset(rest)[x] == if p(x) then multiset(s)[x] else 0
    ensures (forall i :: 0 <= i < |s| ==> p(s[i])) <==> rest == s
  {
    assert s == [s[0]] + s[1..];
    assert multiset(s) == multiset([s[0]]) + multiset(s[1..]);
    assert rest != s by {
      assert |rest| < |s|;
    }
  }

  lemma {:induction false} SubsequenceRefl<T>(s: seq<T>)
    ensures IsSubsequence(s, s)
    decreases |s|
  {
    if s != [] {
      SubsequenceRefl(s[1..]);
    }
  }

  /** A stricter selection picks an order-preserving sub-list of a looser one. */
  lemma FilterMonotone<T(!new)>(s: seq<T>, p: T -> bool, q: T -> bool)
    requires forall x :: p(x) ==> q(x)
    ensures IsSubsequence(Filter(s, p), Filter(s, q))
  {
    SelectMonotone(s, p, q);
  }

  lemma {:induction false} SelectMonotone<T>(s: seq<T>, p: T -> bool, q: T -> bool)
    requires forall x :: p(x) ==> q(x)
    ensures IsSubsequence(Select(s, p), Select(s, q))
    decreases |s|
  {
    if s != [] {
      SelectMonotone(s[1..], p, q);
      var fp := Select(s[1..], p);
      var fq := Select(s[1..], q);
      if p(s[0]) {
        assert Select(s, p) == [s[0]] + fp;
        assert Select(s, q) == [s[0]] + fq;
        assert ([s[0]] + fp)[1..] == fp;
        assert ([s[0]] + fq)[1..] == fq;
      } else if q(s[0]) {
        assert Select(s, p) == [] + fp == fp;
        assert Select(s, q) == [s[0]] + fq;
        SkipHead(fp, s[0], fq);
      } else {
        assert Select(s, p) == [] + fp == fp;
        assert Select(s, q) == [] + fq == fq;
      }
    }
  }

  lemma {:induction false} SkipHead<T>(a: seq<T>, x: T, b: seq<T>)
    requires IsSubsequence(a, b)
    ensures IsSubsequence(a, [x] + b)
  {
    assert ([x] + b)[1..] == b;
  }

  /** Filtering twice with the same predicate changes nothing more. */
  lemma FilterIdempotent<T(!new)>(s: seq<T>, p: T -> bool)
    ensures Filter(Filter(s, p), p) == Filter(s, p)
  {
    var r := Filter(s, p);
    assert forall i :: 0 <= i < |r| ==> p(r[i]) by {
      forall i | 0 <= i < |r| ensures p(r[i]) {
        assert r[i] in r;
      }
    }
  }

  /** Filtering distributes over concatenation. */
  lemma FilterAppend<T(!new)>(a: seq<T>, b: seq<T>, p: T -> bool)
    ensures Filter(a + b, p) == Filter(a, p) + Filter(b, p)
  {
    SelectAppend(a, b, p);
  }

  /** Appending only elements the predicate drops leaves the result alone. */
  lemma FilterAppendDropped<T(!new)>(a: seq<T>, b: seq<T>, p: T -> bool)
    requires forall i :: 0 <= i < |b| ==> !p(b[i])
    ensures Filter(a + b, p) == Filter(a, p)
  {
    FilterAppend(a, b, p);
  }

  lemma {:induction false} SelectAppend<T>(a: seq<T>, b: seq<T>, p: T -> bool)
    ensures Select(a + b, p) == Select(a, p) + Select(b, p)
    decreases |a|
  {
    if a == [] {
      assert a + b == b;
    } else {
      var ab := a + b;
      assert ab[0] == a[0] && ab[1..] == a[1..] + b;
      SelectAppend(a[1..], b, p);
      var head := if p(a[0]) then [a[0]] else [];
      assert head + (Select(a[1..], p) + Select(b, p)) == (head + Select(a[1..], p)) + Select(b, p);
    }
  }

  /** Filtering depends only on what the predicate says of each element. */
  lemma {:induction false} FilterExt<T(!new)>(s: seq<T>, p: T -> bool, q: T -> bool)
    requires forall x :: p(x) == q(x)
    ensures Filter(s, p) == Filter(s, q)
    decreases |s|
  {
    if s != [] {
      FilterExt(s[1..], p, q);
    }
  }
  /** Two lists of one length filter alike when the predicate says the same
      of their elements position by position, and they agree on every
      element it keeps. */
  lemma {:induction false} FilterAgree<T(!new)>(s: seq<T>, t: seq<T>, p: T -> bool)
    requires |s| == |t|
    requires forall i :: 0 <= i < |s| ==> p(s[i]) == p(t[i])
    requires forall i :: 0 <= i < |s| && p(s[i]) ==> s[i] == t[i]
    ensures Filter(s, p) == Filter(t, p)
    decreases |s|
  {
    if s != [] {
      assert forall i :: 0 <= i < |s| - 1 ==> s[1..][i] == s[i + 1] && t[1..][i] == t[i + 1];
      FilterAgree(s[1..], t[1..], p);
    }
  }
}
