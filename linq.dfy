/**
 * The LINQ operators the source composes (`Select`, `Where`, `Distinct`,
 * `Except`, `SelectMany`, `FirstOrDefault`, `Skip`, `Take`), over finite
 * sequences with the ordering LINQ-to-Objects gives them.
 */
module Linq {
  import opened Wrappers

  /** `Enumerable.Select`: one result per element, in order. */
  function Select<A, B>(s: seq<A>, f: A -> B): (r: seq<B>)
    ensures |r| == |s|
    ensures forall i :: 0 <= i < |s| ==> r[i] == f(s[i])
  {
    if s == [] then [] else [f(s[0])] + Select(s[1..], f)
  }

  /** `Enumerable.Where`: the elements that satisfy `p`, in their original order. */
  function Where<T(!new)>(s: seq<T>, p: T -> bool): (r: seq<T>)
    ensures |r| <= |s|
    ensures forall x :: x in r <==> x in s && p(x)
  {
    if s == [] then [] else (if p(s[0]) then [s[0]] else []) + Where(s[1..], p)
  }

  /** `idx` lists, in increasing order, the positions in `s` of the elements that make up `r`. */
  ghost predicate IsOrderedSelection<T>(idx: seq<nat>, r: seq<T>, s: seq<T>)
  {
    |idx| == |r| &&
    (forall k :: 0 <= k < |idx| ==> idx[k] < |s| && r[k] == s[idx[k]]) &&
    (forall k, l :: 0 <= k < l < |idx| ==> idx[k] < idx[l])
  }

  /** The positions `Where` keeps: every passing position, in increasing order. */
  lemma {:induction false} WhereIndices<T(!new)>(s: seq<T>, p: T -> bool) returns (idx: seq<nat>)
    ensures IsOrderedSelection(idx, Where(s, p), s)
    ensures forall i :: 0 <= i < |s| && p(s[i]) ==> i in idx
    decreases |s|
  {
    if s == [] {
      idx := [];
    } else {
      var t := s[1..];
      var rest := WhereIndices(t, p);
      assert s == [s[0]] + t;
      assert Where(s, p) == (if p(s[0]) then [s[0]] else []) + Where(t, p);
      idx := SelectionCons(s[0], t, Where(t, p), rest, p(s[0]));
      CoverCons(s[0], t, p, rest, idx);
    }
  }

  /** Every passing position of `[x] + t` is covered, given that every passing position of `t` is. */
  lemma CoverCons<T>(x: T, t: seq<T>, p: T -> bool, rest: seq<nat>, idx: seq<nat>)
    requires forall j :: 0 <= j < |t| && p(t[j]) ==> j in rest
    requires p(x) ==> 0 in idx
    requires forall j :: 0 <= j < |t| && j in rest ==> j + 1 in idx
    ensures forall i :: 0 <= i < |[x] + t| && p(([x] + t)[i]) ==> i in idx
  {
    forall i | 0 <= i < |[x] + t| && p(([x] + t)[i])
      ensures i in idx
    {
      if i > 0 {
        CoverStep(x, t, p, rest, i - 1);
      }
    }
  }

  lemma CoverStep<T>(x: T, t: seq<T>, p: T -> bool, rest: seq<nat>, i: nat)
    requires forall j :: 0 <= j < |t| && p(t[j]) ==> j in rest
    requires i < |t| && p(([x] + t)[i + 1])
    ensures i in rest
  {
    assert ([x] + t)[i + 1] == t[i];
  }

  /** Positions of a selection from `t`, moved one place on, with position 0 in front when the new head is kept. */
  ghost function SelectionCons<T>(x: T, t: seq<T>, r: seq<T>, rest: seq<nat>, keep: bool): (idx: seq<nat>)
    requires IsOrderedSelection(rest, r, t)
    ensures IsOrderedSelection(idx, (if keep then [x] else []) + r, [x] + t)
    ensures keep ==> 0 in idx
    ensures forall i :: 0 <= i < |t| && i in rest ==> i + 1 in idx
  {
    var shifted := Shifted(rest);
    ShiftedSelection(x, t, r, rest);
    if keep then
      ZeroSelection(x, t, r, shifted);
      [0] + shifted
    else
      shifted
  }

  /** Position 0 put in front of a selection of positive positions selects the head as well. */
  lemma ZeroSelection<T>(x: T, t: seq<T>, r: seq<T>, sh: seq<nat>)
    requires IsOrderedSelection(sh, r, [x] + t)
    requires forall k :: 0 <= k < |sh| ==> sh[k] > 0
    ensures IsOrderedSelection([0] + sh, [x] + r, [x] + t)
  {
    var idx := [0] + sh;
    forall k | 0 < k < |idx|
      ensures idx[k] == sh[k - 1] && ([x] + r)[k] == r[k - 1]
    {
    }
  }

  /** Every position moved one place on. */
  ghost function Shifted(rest: seq<nat>): (r: seq<nat>)
    ensures |r| == |rest|
    ensures forall k :: 0 <= k < |rest| ==> r[k] == rest[k] + 1
    ensures forall i :: i in rest ==> i + 1 in r
  {
    var r := seq(|rest|, k requires 0 <= k < |rest| => rest[k] + 1);
    assert forall i :: i in rest ==> i + 1 in r by {
      forall i | i in rest ensures i + 1 in r {
        var k :| 0 <= k < |rest| && rest[k] == i;
        assert r[k] == i + 1;
      }
    }
    r
  }

  /** Moving a selection from `t` one place on makes it a selection from `[x] + t`, all of whose positions are positive. */
  lemma ShiftedSelection<T>(x: T, t: seq<T>, r: seq<T>, rest: seq<nat>)
    requires IsOrderedSelection(rest, r, t)
    ensures IsOrderedSelection(Shifted(rest), r, [x] + t)
    ensures forall k :: 0 <= k < |rest| ==> Shifted(rest)[k] > 0
  {
    var sh := Shifted(rest);
    forall k | 0 <= k < |sh|
      ensures sh[k] < |[x] + t| && r[k] == ([x] + t)[sh[k]]
    {
      assert ([x] + t)[rest[k] + 1] == t[rest[k]];
    }
  }

  /** What `Select(Where(s, p), f)` holds: the images of the elements that pass. */
  lemma InSelectWhere<A(!new), B>(s: seq<A>, p: A -> bool, f: A -> B, y: B)
    ensures y in Select(Where(s, p), f) <==> exists a :: a in s && p(a) && f(a) == y
  {
    var w := Where(s, p);
    var r := Select(w, f);
    if y in r {
      var k :| 0 <= k < |r| && r[k] == y;
      assert w[k] in w;
    }
    if exists a :: a in s && p(a) && f(a) == y {
      var a :| a in s && p(a) && f(a) == y;
      assert a in w;
      var k :| 0 <= k < |w| && w[k] == a;
      assert r[k] == y;
    }
  }

  /** What `Select(s, f)` holds: the images of the elements of `s`. */
  lemma InSelect<A, B>(s: seq<A>, f: A -> B, y: B)
    ensures y in Select(s, f) <==> exists a :: a in s && f(a) == y
  {
    if y in Select(s, f) {
      var k :| 0 <= k < |s| && Select(s, f)[k] == y;
      assert s[k] in s;
    }
  }

  /** What `SelectMany` over the elements that pass holds: the members of their images. */
  lemma InFlattenSelectWhere<A(!new), B(!new)>(s: seq<A>, p: A -> bool, f: A -> seq<B>, y: B)
    ensures y in Flatten(Select(Where(s, p), f)) <==> exists a :: a in s && p(a) && y in f(a)
  {
    var w := Where(s, p);
    var groups := Select(w, f);
    if y in Flatten(groups) {
      var k :| 0 <= k < |groups| && y in groups[k];
      assert w[k] in w;
    }
    if exists a :: a in s && p(a) && y in f(a) {
      var a :| a in s && p(a) && y in f(a);
      assert a in w;
      var k :| 0 <= k < |w| && w[k] == a;
      assert y in groups[k];
    }
  }

  lemma {:induction false} WhereConcat<T(!new)>(a: seq<T>, b: seq<T>, p: T -> bool)
    ensures Where(a + b, p) == Where(a, p) + Where(b, p)
  {
    if a == [] {
      assert a + b == b;
    } else {
      assert (a + b)[1..] == a[1..] + b;
      WhereConcat(a[1..], b, p);
    }
  }

  lemma {:induction false} WhereNone<T(!new)>(s: seq<T>, p: T -> bool)
    requires forall i :: 0 <= i < |s| ==> !p(s[i])
    ensures Where(s, p) == []
  {
    if s != [] {
      WhereNone(s[1..], p);
    }
  }

  lemma {:induction false} WhereAll<T(!new)>(s: seq<T>, p: T -> bool)
    requires forall i :: 0 <= i < |s| ==> p(s[i])
    ensures Where(s, p) == s
  {
    if s != [] {
      WhereAll(s[1..], p);
      assert [s[0]] + s[1..] == s;
    }
  }

  /** Filters that agree on every element keep the same elements. */
  lemma {:induction false} WhereSamePredicate<T(!new)>(s: seq<T>, p: T -> bool, q: T -> bool)
    requires forall i :: 0 <= i < |s| ==> p(s[i]) == q(s[i])
    ensures Where(s, p) == Where(s, q)
  {
    if s != [] {
      assert forall i :: 1 <= i < |s| ==> s[1..][i - 1] == s[i];
      WhereSamePredicate(s[1..], p, q);
    }
  }

  predicate NoDuplicates<T(==)>(s: seq<T>)
  {
    forall i, j :: 0 <= i < j < |s| ==> s[i] != s[j]
  }

  /** `Enumerable.Distinct`: the first occurrence of every element, in order. */
  function Distinct<T(==,!new)>(s: seq<T>): (r: seq<T>)
    ensures forall x :: x in r <==> x in s
    ensures NoDuplicates(r)
    decreases |s|
  {
    if s == [] then []
    else
      var d := Distinct(s[..|s| - 1]);
      assert forall x :: x in s <==> x in s[..|s| - 1] || x == s[|s| - 1];
      if s[|s| - 1] in d then d else d + [s[|s| - 1]]
  }

  /** A sequence that already has no duplicates is its own `Distinct`. */
  lemma {:induction false} DistinctOfNoDuplicates<T(!new)>(s: seq<T>)
    requires NoDuplicates(s)
    ensures Distinct(s) == s
    decreases |s|
  {
    if s != [] {
      var init := s[..|s| - 1];
      assert NoDuplicates(init);
      DistinctOfNoDuplicates(init);
      assert s[|s| - 1] !in init;
      assert init + [s[|s| - 1]] == s;
    }
  }

  /** `Enumerable.Except`: the distinct elements of `a` that are not in `b`. */
  function Except<T(==,!new)>(a: seq<T>, b: seq<T>): (r: seq<T>)
    ensures forall x :: x in r <==> x in a && x !in b
    ensures NoDuplicates(r)
  {
    Distinct(Where(a, x => x !in b))
  }

  /** `Enumerable.SelectMany` with the identity selector. */
  function Flatten<T(!new)>(ss: seq<seq<T>>): (r: seq<T>)
    ensures forall x :: x in r <==> exists i :: 0 <= i < |ss| && x in ss[i]
  {
    if ss == [] then []
    else
      var rest := Flatten(ss[1..]);
      assert forall i :: 1 <= i < |ss| ==> ss[i] == ss[1..][i - 1];
      ss[0] + rest
  }

  /** `Where(x => x != null)` over a sequence of nullable values. */
  function Somes<T(!new)>(s: seq<Option<T>>): (r: seq<T>)
    ensures |r| <= |s|
    ensures forall x :: x in r <==> Some(x) in s
  {
    if s == [] then []
    else (if s[0].Some? then [s[0].value] else []) + Somes(s[1..])
  }

  /** `FirstOrDefault(p)`: the first element satisfying `p`, or none. */
  function FirstWhere<T(!new)>(s: seq<T>, p: T -> bool): (r: Option<T>)
    ensures r.Some? ==> exists i :: 0 <= i < |s| && s[i] == r.value && p(s[i]) && forall j :: 0 <= j < i ==> !p(s[j])
    ensures r.None? <==> forall x :: x in s ==> !p(x)
  {
    if s == [] then None
    else if p(s[0]) then Some(s[0])
    else
      var r := FirstWhere(s[1..], p);
      assert r.Some? ==> (exists i :: 0 <= i < |s[1..]| && s[1..][i] == r.value && p(s[1..][i]) &&
                                (forall j :: 0 <= j < i ==> !p(s[1..][j])));
      assert forall x :: x in s <==> x == s[0] || x in s[1..];
      r
  }

  /** `Enumerable.Skip`: a count of zero or less skips nothing. */
  function Skip<T>(s: seq<T>, n: int): seq<T>
  {
    if n <= 0 then s else if n >= |s| then [] else s[n..]
  }

  /** `Enumerable.Take`: a count of zero or less takes nothing. */
  function Take<T>(s: seq<T>, n: int): seq<T>
  {
    if n <= 0 then [] else if n >= |s| then s else s[..n]
  }

  function Min(a: int, b: int): int { if a <= b then a else b }
  function Max(a: int, b: int): int { if a <= b then b else a }

  /** `Take(Skip(s, from), count)` is the window of `s` starting at `from`, clamped to its ends. */
  lemma SkipTakeWindow<T>(s: seq<T>, from: int, count: int)
    ensures var lo := Min(Max(from, 0), |s|);
      Take(Skip(s, from), count) == s[lo..Max(lo, Min(lo + count, |s|))]
  {
  }
}
