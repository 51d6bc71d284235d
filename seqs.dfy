/** List operations the scripts perform with comprehensions, `list.index`
    and `for` loops: order-preserving filtering, first-occurrence search and
    a left-to-right pass that threads a state through a list. */
module Seqs {
  import opened Wrappers

  /** The elements of s that satisfy keep, in their original order. */
  function Filter<T>(s: seq<T>, keep: T -> bool): (r: seq<T>)
    ensures |r| <= |s|
    ensures forall k :: 0 <= k < |r| ==> keep(r[k])
  {
    if s == [] then []
    else (if keep(s[0]) then [s[0]] else []) + Filter(s[1..], keep)
  }

  /** Filtering a list one element longer adds that element when it is kept. */
  lemma {:induction false} FilterSnoc<T>(s: seq<T>, x: T, keep: T -> bool)
    ensures Filter(s + [x], keep) == Filter(s, keep) + (if keep(x) then [x] else [])
  {
    if s != [] {
      assert (s + [x])[1..] == s[1..] + [x];
      FilterSnoc(s[1..], x, keep);
    } else {
      assert [x][1..] == [];
    }
  }

  /** a can be obtained from b by deleting elements: same relative order. */
  predicate IsSubsequence<T(==)>(a: seq<T>, b: seq<T>)
    decreases |b|
  {
    if a == [] then true
    else if b == [] then false
    else if a[0] == b[0] then IsSubsequence(a[1..], b[1..])
    else IsSubsequence(a, b[1..])
  }

  /** Filtering keeps exactly the satisfying elements and keeps their order. */
  lemma {:induction false} FilterKeepsExactly<T>(s: seq<T>, keep: T -> bool)
    ensures forall x :: x in Filter(s, keep) <==> x in s && keep(x)
    ensures IsSubsequence(Filter(s, keep), s)
  {
    if s != [] {
      FilterKeepsExactly(s[1..], keep);
      assert s == [s[0]] + s[1..];
      var r := Filter(s, keep);
      if keep(s[0]) {
        assert r == [s[0]] + Filter(s[1..], keep);
        assert r[1..] == Filter(s[1..], keep);
        assert r[0] == s[0];
        assert IsSubsequence(r[1..], s[1..]);
        assert IsSubsequence(r, s);
      } else {
        assert r == Filter(s[1..], keep);
        SubsequenceSkip(r, s);
      }
    }
  }

  /** Filtering a list without repeats gives a list without repeats. */
  lemma {:induction false} FilterDistinct<T>(s: seq<T>, keep: T -> bool)
    requires Distinct(s)
    ensures Distinct(Filter(s, keep))
  {
    if s != [] {
      assert Distinct(s[1..]) by {
        forall j, k | 0 <= j < k < |s[1..]| ensures s[1..][j] != s[1..][k] {
          assert s[1..][j] == s[j + 1] && s[1..][k] == s[k + 1];
        }
      }
      FilterDistinct(s[1..], keep);
      FilterKeepsExactly(s[1..], keep);
      var rest := Filter(s[1..], keep);
      if keep(s[0]) {
        assert s[0] !in s[1..];
        forall j, k | 0 <= j < k < |[s[0]] + rest| ensures ([s[0]] + rest)[j] != ([s[0]] + rest)[k] {
          if j == 0 {
            assert ([s[0]] + rest)[k] == rest[k - 1];
          } else {
            assert ([s[0]] + rest)[j] == rest[j - 1] && ([s[0]] + rest)[k] == rest[k - 1];
          }
        }
      }
    }
  }

  lemma {:induction false} SubsequenceSkip<T>(a: seq<T>, b: seq<T>)
    requires b != [] && IsSubsequence(a, b[1..])
    ensures IsSubsequence(a, b)
    decreases |b|, 0
  {
    if a != [] && a[0] == b[0] {
      SubsequenceTail(a, b[1..]);
    }
  }

  lemma {:induction false} SubsequenceTail<T>(a: seq<T>, b: seq<T>)
    requires a != [] && IsSubsequence(a, b)
    ensures IsSubsequence(a[1..], b)
    decreases |b|, 1
  {
    assert b != [];
    if a[0] == b[0] {
      if a[1..] != [] {
        SubsequenceSkip(a[1..], b);
      }
    } else {
      SubsequenceTail(a, b[1..]);
      if a[1..] != [] {
        SubsequenceSkip(a[1..], b);
      }
    }
  }

  /** `s.index(x)`: the first position of x in s. */
  function IndexOf<T(==)>(s: seq<T>, x: T): (i: nat)
    requires x in s
    ensures i < |s| && s[i] == x
  {
    if s[0] == x then 0 else 1 + IndexOf(s[1..], x)
  }

  /** Nothing before `s.index(x)` is x. */
  lemma {:induction false} IndexOfFirst<T>(s: seq<T>, x: T)
    requires x in s
    ensures x !in s[..IndexOf(s, x)]
  {
    if s[0] != x {
      IndexOfFirst(s[1..], x);
      assert s[..IndexOf(s, x)] == [s[0]] + s[1..][..IndexOf(s[1..], x)];
    }
  }

  function Last<T>(s: seq<T>): T
    requires s != []
  {
    s[|s| - 1]
  }

  function Init<T>(s: seq<T>): seq<T>
    requires s != []
  {
    s[..|s| - 1]
  }

  lemma {:induction false} InitLast<T>(s: seq<T>)
    requires s != []
    ensures Init(s) + [Last(s)] == s
  {
  }

  lemma {:induction false} InitLastSnoc<T>(s: seq<T>, x: T)
    ensures Init(s + [x]) == s && Last(s + [x]) == x
  {
    assert (s + [x])[..|s|] == s;
  }

  lemma {:induction false} SnocAfterConcat<T>(a: seq<T>, b: seq<T>, z: T)
    requires b != []
    ensures Last(a + b) == Last(b)
    ensures Init(a + b) + [z] == a + (Init(b) + [z])
    ensures (a + b) + [z] == a + (b + [z])
  {
    assert Init(a + b) == a + Init(b);
  }

  predicate Distinct<T(==)>(s: seq<T>) {
    forall j, k :: 0 <= j < k < |s| ==> s[j] != s[k]
  }

  /** The elements of s without repeats, each where it first occurs. */
  function FirstOccurrences<T(==)>(s: seq<T>): (r: seq<T>)
    ensures forall k :: 0 <= k < |r| ==> r[k] in s
    ensures forall k :: 0 <= k < |s| ==> s[k] in r
    ensures Distinct(r)
  {
    if s == [] then []
    else if Last(s) in Init(s) then FirstOccurrences(Init(s))
    else FirstOccurrences(Init(s)) + [Last(s)]
  }

  /** Every element of r occurs in s, and r lists them in the order of
      their first occurrence in s. */
  predicate InOrderOf<T(==)>(r: seq<T>, s: seq<T>) {
    && (forall x :: x in r ==> x in s)
    && (forall j, k :: 0 <= j < k < |r| ==> IndexOf(s, r[j]) < IndexOf(s, r[k]))
  }

  /** FirstOccurrences lists the elements in the order of their first
      occurrence in s. */
  lemma {:induction false} FirstOccurrencesOrder<T>(s: seq<T>)
    ensures InOrderOf(FirstOccurrences(s), s)
  {
    if s != [] {
      var init, last := Init(s), Last(s);
      var ri := FirstOccurrences(init);
      FirstOccurrencesOrder(init);
      InitLast(s);
      IndexOfSnoc(init, last);
      forall x | x in init
        ensures x in s && IndexOf(s, x) == IndexOf(init, x) < |init|
      {
      }
      forall j, k | 0 <= j < k < |ri|
        ensures IndexOf(s, ri[j]) < IndexOf(s, ri[k])
      {
        assert ri[j] in ri && ri[k] in ri;
        assert IndexOf(init, ri[j]) < IndexOf(init, ri[k]);
      }
      if last !in init {
        var r := ri + [last];
        IndexOfFirst(s, last);
        forall j | 0 <= j < |ri|
          ensures IndexOf(s, r[j]) < IndexOf(s, r[|ri|])
        {
          assert r[j] == ri[j] && ri[j] in ri;
        }
      }
    }
  }

  /** The tail of an ordered list is ordered. */
  lemma {:induction false} TailInOrder<T>(a: seq<T>, s: seq<T>)
    requires a != [] && InOrderOf(a, s)
    ensures InOrderOf(a[1..], s)
  {
    var tail := a[1..];
    forall j, k | 0 <= j < k < |tail|
      ensures IndexOf(s, tail[j]) < IndexOf(s, tail[k])
    {
      assert tail[j] == a[j + 1] && tail[k] == a[k + 1];
    }
  }

  /** The head of an ordered list comes before everything in its tail. */
  lemma {:induction false} HeadPrecedes<T>(a: seq<T>, s: seq<T>, x: T)
    requires a != [] && InOrderOf(a, s) && x in a[1..]
    ensures a[0] in s && x in s && IndexOf(s, a[0]) < IndexOf(s, x)
  {
    var m :| 0 <= m < |a[1..]| && a[1..][m] == x;
    assert a[0] in a && a[m + 1] in a && a[m + 1] == x;
  }

  /** Putting an element first that comes before all of an ordered list
      keeps it ordered. */
  lemma {:induction false} ConsInOrder<T>(x: T, rest: seq<T>, s: seq<T>)
    requires x in s && InOrderOf(rest, s)
    requires forall y :: y in rest ==> IndexOf(s, x) < IndexOf(s, y)
    ensures InOrderOf([x] + rest, s)
  {
    var r := [x] + rest;
    forall j, k | 0 <= j < k < |r|
      ensures IndexOf(s, r[j]) < IndexOf(s, r[k])
    {
      assert r[k] == rest[k - 1] && rest[k - 1] in rest;
      if 0 < j {
        assert r[j] == rest[j - 1] && rest[j - 1] in rest;
      }
    }
  }

  /** Dropping elements keeps the rest in order. */
  lemma {:induction false} FilterInOrder<T>(a: seq<T>, s: seq<T>, keep: T -> bool)
    requires InOrderOf(a, s)
    ensures InOrderOf(Filter(a, keep), s)
  {
    if a != [] {
      TailInOrder(a, s);
      FilterInOrder(a[1..], s, keep);
      var rest := Filter(a[1..], keep);
      if keep(a[0]) {
        FilterKeepsExactly(a[1..], keep);
        forall y | y in rest
          ensures IndexOf(s, a[0]) < IndexOf(s, y)
        {
          assert y in a[1..] && keep(y);
          HeadPrecedes(a, s, y);
        }
        ConsInOrder(a[0], rest, s);
        assert Filter(a, keep) == [a[0]] + rest;
      } else {
        assert Filter(a, keep) == rest;
      }
    }
  }

  /** Appending does not move the first occurrence of an element. */
  lemma {:induction false} IndexOfSnoc<T>(s: seq<T>, y: T)
    ensures forall x :: x in s ==> IndexOf(s + [y], x) == IndexOf(s, x)
  {
    forall x | x in s
      ensures IndexOf(s + [y], x) == IndexOf(s, x)
    {
      var j := IndexOf(s, x);
      var i := IndexOf(s + [y], x);
      IndexOfFirst(s, x);
      IndexOfFirst(s + [y], x);
      assert (s + [y])[j] == x;
    }
  }

  predicate StrictlyIncreasing(s: seq<int>) {
    forall j, k :: 0 <= j < k < |s| ==> s[j] < s[k]
  }

  /** The state after the first i elements of a left-to-right pass that
      starts from init and applies step to each element in turn. */
  function FoldLeft<S, T>(step: (S, T) -> S, init: S, s: seq<T>, i: nat): S
    requires i <= |s|
  {
    if i == 0 then init else step(FoldLeft(step, init, s, i - 1), s[i - 1])
  }

  /** A property of the state that holds after i elements and that every
      further step keeps holds after every j >= i elements. */
  lemma {:induction false} FoldInvariant<S, T>(step: (S, T) -> S, init: S, s: seq<T>, i: nat, j: nat, inv: (nat, S) -> bool)
    requires i <= j <= |s|
    requires inv(i, FoldLeft(step, init, s, i))
    requires forall k, x :: i <= k < |s| && inv(k, x) ==> inv(k + 1, step(x, s[k]))
    ensures inv(j, FoldLeft(step, init, s, j))
    decreases j
  {
    if j > i {
      FoldInvariant(step, init, s, i, j - 1, inv);
    }
  }

  /** Each row read in turn, stopping at the first that cannot be read. */
  method ReadEach<T, U>(raw: seq<T>, read: T -> Option<U>) returns (r: Option<seq<U>>)
    ensures r.Some? <==> forall k :: 0 <= k < |raw| ==> read(raw[k]).Some?
    ensures r.Some? ==> |r.value| == |raw| && forall k :: 0 <= k < |raw| ==> Some(r.value[k]) == read(raw[k])
  {
    var rows := [];
    for i := 0 to |raw|
      invariant forall k :: 0 <= k < i ==> read(raw[k]).Some?
      invariant |rows| == i && forall k :: 0 <= k < i ==> Some(rows[k]) == read(raw[k])
    {
      var row := read(raw[i]);
      if row.None? {
        return None;
      }
      rows := rows + [row.value];
    }
    return Some(rows);
  }
}
