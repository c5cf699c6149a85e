/** List operations from Python's builtins: comprehension filters, `dict.fromkeys`
    de-duplication, prefix slices `s[:n]`, and the stable `sorted` / `list.sort`. */
module Seqs {

  predicate NoDup<T(==)>(s: seq<T>) {
    forall i, j :: 0 <= i < j < |s| ==> s[i] != s[j]
  }

  /** `[x for x in s if keep(x)]`, defined on the last element so that a loop over
      `s` can keep its prefix's filter as an invariant. */
  function Filter<T>(s: seq<T>, keep: T -> bool): (r: seq<T>)
    ensures |r| <= |s|
    ensures forall i :: 0 <= i < |r| ==> keep(r[i])
    decreases |s|
  {
    if s == [] then []
    else Filter(s[..|s| - 1], keep) + (if keep(s[|s| - 1]) then [s[|s| - 1]] else [])
  }

  lemma {:induction false} FilterMembers<T>(s: seq<T>, keep: T -> bool)
    ensures forall x :: x in Filter(s, keep) <==> x in s && keep(x)
    decreases |s|
  {
    if s != [] {
      FilterMembers(s[..|s| - 1], keep);
      assert s == s[..|s| - 1] + [s[|s| - 1]];
    }
  }

  /** Filtering keeps a list whose every element passes as it is. */
  lemma {:induction false} FilterAll<T>(s: seq<T>, keep: T -> bool)
    requires forall i :: 0 <= i < |s| ==> keep(s[i])
    ensures Filter(s, keep) == s
    decreases |s|
  {
    if s != [] {
      FilterAll(s[..|s| - 1], keep);
    }
  }

  /** The index of the first element satisfying `p`, or `|s|` when there is none. */
  function FirstWhere<T>(s: seq<T>, p: T -> bool): (r: nat)
    ensures r <= |s|
    ensures r < |s| ==> p(s[r])
    ensures forall j :: 0 <= j < r ==> !p(s[j])
    decreases |s|
  {
    if s == [] then 0
    else if p(s[0]) then 0
    else 1 + FirstWhere(s[1..], p)
  }

  /** The last element of `s`, or `otherwise` when `s` is empty. */
  function LastOr<T>(s: seq<T>, otherwise: T): T {
    if s == [] then otherwise else s[|s| - 1]
  }

  /** `list(dict.fromkeys(s))`: the first occurrence of every element, in order. */
  function Dedupe<T(==)>(s: seq<T>): (r: seq<T>)
    decreases |s|
  {
    if s == [] then []
    else
      var d := Dedupe(s[..|s| - 1]);
      if s[|s| - 1] in d then d else d + [s[|s| - 1]]
  }

  lemma {:induction false} DedupeSpec<T>(s: seq<T>)
    ensures NoDup(Dedupe(s))
    ensures forall x :: x in Dedupe(s) <==> x in s
    ensures |Dedupe(s)| <= |s|
    decreases |s|
  {
    if s != [] {
      DedupeSpec(s[..|s| - 1]);
      assert s == s[..|s| - 1] + [s[|s| - 1]];
    }
  }

  /** De-duplication keeps the order of first occurrences: the first element stays first. */
  lemma {:induction false} DedupeHead<T>(s: seq<T>)
    requires s != []
    ensures Dedupe(s) != [] && Dedupe(s)[0] == s[0]
    decreases |s|
  {
    if |s| > 1 {
      DedupeHead(s[..|s| - 1]);
    }
  }

  /** The index of the first `x` in `s`, or `|s|` when `x` does not occur. */
  function IndexOf<T(==)>(s: seq<T>, x: T): (r: nat)
    ensures r <= |s|
    ensures r < |s| <==> x in s
    ensures r < |s| ==> s[r] == x
    ensures forall j :: 0 <= j < r ==> s[j] != x
    decreases |s|
  {
    if s == [] then 0
    else if s[0] == x then 0
    else
      var r := 1 + IndexOf(s[1..], x);
      assert forall j :: 1 <= j < r ==> s[j] == s[1..][j - 1];
      r
  }

  /** Appending an element does not move the first occurrence of an earlier one. */
  lemma IndexOfSnoc<T>(s: seq<T>, y: T, x: T)
    ensures IndexOf(s + [y], x) == if x in s then IndexOf(s, x) else if x == y then |s| else |s| + 1
  {
    var t := s + [y];
    var k := IndexOf(s, x);
    assert forall j :: 0 <= j < |s| ==> t[j] == s[j];
    if x in s {
      assert t[k] == x;
    } else if x == y {
      assert t[|s|] == x;
    } else {
      assert x !in t;
    }
  }

  /** De-duplication keeps first occurrences in their order: an entry that comes
      earlier in the result first occurs earlier in the input. */
  lemma {:induction false} DedupeOrder<T>(s: seq<T>)
    ensures forall i, j :: 0 <= i < j < |Dedupe(s)| ==> IndexOf(s, Dedupe(s)[i]) < IndexOf(s, Dedupe(s)[j])
    decreases |s|
  {
    if s != [] {
      var init, last := s[..|s| - 1], s[|s| - 1];
      assert s == init + [last];
      DedupeOrder(init);
      DedupeSpec(init);
      var d := Dedupe(init);
      var r := Dedupe(s);
      if last in d {
        assert r == d;
      } else {
        assert r == d + [last];
      }
      forall i, j | 0 <= i < j < |r|
        ensures IndexOf(s, r[i]) < IndexOf(s, r[j])
      {
        DedupeOrderStep(init, last, d, r, i, j);
      }
    }
  }

  lemma DedupeOrderStep<T>(init: seq<T>, last: T, d: seq<T>, r: seq<T>, i: nat, j: nat)
    requires forall x :: x in d <==> x in init
    requires forall i, j :: 0 <= i < j < |d| ==> IndexOf(init, d[i]) < IndexOf(init, d[j])
    requires r == d || (last !in d && r == d + [last])
    requires i < j < |r|
    ensures IndexOf(init + [last], r[i]) < IndexOf(init + [last], r[j])
  {
    var x, y := r[i], r[j];
    assert x == d[i] && x in init;
    IndexOfSnoc(init, last, x);
    IndexOfSnoc(init, last, y);
    if j < |d| {
      assert y == d[j] && y in init;
    } else {
      assert y == last && last !in init;
    }
  }

  /** A list without repetitions is its own de-duplication. */
  lemma {:induction false} DedupeNoDup<T>(s: seq<T>)
    requires NoDup(s)
    ensures Dedupe(s) == s
    decreases |s|
  {
    if s != [] {
      var init := s[..|s| - 1];
      DedupeNoDup(init);
      assert s[|s| - 1] !in init by {
        forall i | 0 <= i < |init|
          ensures init[i] != s[|s| - 1]
        {
          assert init[i] == s[i];
        }
      }
      assert s == init + [s[|s| - 1]];
    }
  }

  /** The de-duplication of a prefix is a prefix of the de-duplication. */
  lemma {:induction false} DedupePrefix<T>(s: seq<T>, k: nat)
    requires k <= |s|
    ensures Dedupe(s[..k]) <= Dedupe(s)
    decreases |s|
  {
    if k < |s| {
      var init := s[..|s| - 1];
      DedupePrefix(init, k);
      assert init[..k] == s[..k];
    } else {
      assert s[..k] == s;
    }
  }

  /** Two distinct elements in front stay in front. */
  lemma DedupeFrontPair<T>(s: seq<T>, x: T, y: T)
    requires |s| >= 2 && s[..2] == [x, y] && x != y
    ensures |Dedupe(s)| >= 2 && Dedupe(s)[..2] == [x, y]
  {
    DedupePrefix(s, 2);
    DedupeNoDup(s[..2]);
  }

  /** Python's `s[:n]`, including a negative `n`, which drops the last `-n` items. */
  function Take<T>(s: seq<T>, n: int): (r: seq<T>)
    ensures |r| <= |s| && r == s[..|r|]
    ensures 0 <= n ==> |r| == (if n < |s| then n else |s|)
    ensures |r| <= (if n < 0 then 0 else n) || n < 0
  {
    if n >= 0 then (if n < |s| then s[..n] else s)
    else if |s| + n > 0 then s[..|s| + n]
    else []
  }

  /** Python's `a < b` on `str`: code-point-wise lexicographic order. */
  predicate Less(a: string, b: string)
    decreases |a|
  {
    if a == [] then b != []
    else b != [] && (a[0] < b[0] || (a[0] == b[0] && Less(a[1..], b[1..])))
  }

  predicate LessEq(a: string, b: string) {
    a == b || Less(a, b)
  }

  lemma {:induction false} LessIrreflexive(a: string)
    ensures !Less(a, a)
    decreases |a|
  {
    if a != [] {
      LessIrreflexive(a[1..]);
    }
  }

  lemma {:induction false} LessAsymmetric(a: string, b: string)
    ensures !(Less(a, b) && Less(b, a))
    decreases |a|
  {
    if a != [] && b != [] && a[0] == b[0] {
      LessAsymmetric(a[1..], b[1..]);
    }
  }

  lemma {:induction false} LessTotal(a: string, b: string)
    ensures a == b || Less(a, b) || Less(b, a)
    decreases |a|
  {
    if a != [] && b != [] && a[0] == b[0] {
      LessTotal(a[1..], b[1..]);
      if a[1..] == b[1..] {
        assert a == [a[0]] + a[1..] && b == [b[0]] + b[1..];
      }
    }
  }

  lemma {:induction false} LessTransitive(a: string, b: string, c: string)
    requires Less(a, b) && Less(b, c)
    ensures Less(a, c)
    decreases |a|
  {
    if a != [] && a[0] == b[0] && b[0] == c[0] {
      LessTransitive(a[1..], b[1..], c[1..]);
    }
  }

  /** Every two strings are comparable: `LessEq` is total. */
  lemma LessEqTotal()
    ensures forall a: string, b: string :: LessEq(a, b) || LessEq(b, a)
    ensures forall a: string, b: string, c: string :: LessEq(a, b) && LessEq(b, c) ==> LessEq(a, c)
  {
    forall a: string, b: string
      ensures LessEq(a, b) || LessEq(b, a)
    {
      LessTotal(a, b);
    }
    forall a: string, b: string, c: string | LessEq(a, b) && LessEq(b, c)
      ensures LessEq(a, c)
    {
      if a != b && b != c {
        LessTransitive(a, b, c);
      }
    }
  }

  ghost predicate Total<T(!new)>(le: (T, T) -> bool) {
    forall a, b :: le(a, b) || le(b, a)
  }

  ghost predicate Transitive<T(!new)>(le: (T, T) -> bool) {
    forall a, b, c :: le(a, b) && le(b, c) ==> le(a, c)
  }

  predicate SortedBy<T>(s: seq<T>, le: (T, T) -> bool) {
    forall i, j :: 0 <= i < j < |s| ==> le(s[i], s[j])
  }

  /** Inserts `x` in front of the first element it is `le` to; an element equal in
      the order to `x` and already in `s` therefore stays behind it. */
  function Insert<T(==)>(x: T, s: seq<T>, le: (T, T) -> bool): (r: seq<T>)
    ensures multiset(r) == multiset(s) + multiset{x}
    decreases |s|
  {
    if s == [] then [x]
    else if le(x, s[0]) then [x] + s
    else
      assert s == [s[0]] + s[1..];
      [s[0]] + Insert(x, s[1..], le)
  }

  /** Insertion sort from the back: the head is inserted in front of the sorted tail,
      ahead of every tail element it ties with, so ties keep their original order
      (Python's sort is stable). */
  function Sort<T(==)>(s: seq<T>, le: (T, T) -> bool): (r: seq<T>)
    ensures multiset(r) == multiset(s)
    decreases |s|
  {
    if s == [] then []
    else
      assert s == [s[0]] + s[1..];
      Insert(s[0], Sort(s[1..], le), le)
  }

  lemma {:induction false} InsertSorted<T(!new)>(x: T, s: seq<T>, le: (T, T) -> bool)
    requires Total(le) && Transitive(le)
    requires SortedBy(s, le)
    ensures SortedBy(Insert(x, s, le), le)
    decreases |s|
  {
    if s != [] && le(x, s[0]) {
      InsertFront(x, s, le);
    } else if s != [] {
      InsertSorted(x, s[1..], le);
      InsertBehind(x, s, le);
    }
  }

  /** `x` goes in front of a sorted list whose head it precedes. */
  lemma InsertFront<T(!new)>(x: T, s: seq<T>, le: (T, T) -> bool)
    requires Transitive(le)
    requires SortedBy(s, le) && s != [] && le(x, s[0])
    ensures SortedBy([x] + s, le)
  {
    forall k | 0 <= k < |s|
      ensures le(x, s[k])
    {
      if k > 0 {
        assert le(s[0], s[k]);
      }
    }
  }

  /** The head stays in front when `x` goes into the sorted tail. */
  lemma InsertBehind<T(!new)>(x: T, s: seq<T>, le: (T, T) -> bool)
    requires Total(le)
    requires SortedBy(s, le) && s != [] && !le(x, s[0])
    requires SortedBy(Insert(x, s[1..], le), le)
    ensures SortedBy(Insert(x, s, le), le)
  {
    var rest := Insert(x, s[1..], le);
    assert le(s[0], x);
    InsertLowerBound(s[0], x, s[1..], le);
    var r := Insert(x, s, le);
    assert r == [s[0]] + rest;
    forall i, j | 0 <= i < j < |r|
      ensures le(r[i], r[j])
    {
      assert r[j] == rest[j - 1];
      if i > 0 {
        assert r[i] == rest[i - 1];
      }
    }
  }

  /** A lower bound of `x` and of every element of `s` bounds the insertion too. */
  lemma {:induction false} InsertLowerBound<T(!new)>(b: T, x: T, s: seq<T>, le: (T, T) -> bool)
    requires le(b, x)
    requires forall k :: 0 <= k < |s| ==> le(b, s[k])
    ensures forall k :: 0 <= k < |Insert(x, s, le)| ==> le(b, Insert(x, s, le)[k])
    decreases |s|
  {
    if s != [] && !le(x, s[0]) {
      InsertLowerBound(b, x, s[1..], le);
      var r, t := Insert(x, s, le), Insert(x, s[1..], le);
      assert r == [s[0]] + t;
      forall k | 0 <= k < |r|
        ensures le(b, r[k])
      {
        if k > 0 {
          assert r[k] == t[k - 1];
        }
      }
    }
  }

  /** The sort is a permutation that is ordered by `le`. */
  lemma {:induction false} SortSorted<T(!new)>(s: seq<T>, le: (T, T) -> bool)
    requires Total(le) && Transitive(le)
    ensures SortedBy(Sort(s, le), le)
    ensures multiset(Sort(s, le)) == multiset(s)
    decreases |s|
  {
    if s != [] {
      SortSorted(s[1..], le);
      InsertSorted(s[0], Sort(s[1..], le), le);
    }
  }

  /** `a` and `c` tie in the order `le`. */
  predicate IsTied<T>(a: T, c: T, le: (T, T) -> bool) {
    le(a, c) && le(c, a)
  }

  /** The elements of `s` that tie with `c`, in order. */
  function Tied<T>(s: seq<T>, c: T, le: (T, T) -> bool): (r: seq<T>)
    ensures |r| <= |s|
    decreases |s|
  {
    if s == [] then []
    else (if IsTied(s[0], c, le) then [s[0]] else []) + Tied(s[1..], c, le)
  }

  lemma TiedCons<T>(a: T, u: seq<T>, c: T, le: (T, T) -> bool)
    ensures Tied([a] + u, c, le) == (if IsTied(a, c, le) then [a] else []) + Tied(u, c, le)
  {
    assert ([a] + u)[1..] == u;
  }

  /** Inserting an element that does not tie with `c` leaves the elements that do. */
  lemma {:induction false} InsertUntied<T>(x: T, s: seq<T>, c: T, le: (T, T) -> bool)
    requires !IsTied(x, c, le)
    ensures Tied(Insert(x, s, le), c, le) == Tied(s, c, le)
    decreases |s|
  {
    if s == [] {
      TiedCons(x, [], c, le);
    } else if le(x, s[0]) {
      TiedCons(x, s, c, le);
    } else {
      InsertUntied(x, s[1..], c, le);
      var rest := Insert(x, s[1..], le);
      assert Insert(x, s, le) == [s[0]] + rest;
      TiedCons(s[0], rest, c, le);
      TiedCons(s[0], s[1..], c, le);
      assert [s[0]] + s[1..] == s;
    }
  }

  /** Inserting an element that ties with `c`, and is `le` to every element of `s`
      that does, puts it in front of them. */
  lemma {:induction false} InsertTied<T>(x: T, s: seq<T>, c: T, le: (T, T) -> bool)
    requires IsTied(x, c, le)
    requires forall y :: y in s && IsTied(y, c, le) ==> le(x, y)
    ensures Tied(Insert(x, s, le), c, le) == [x] + Tied(s, c, le)
    decreases |s|
  {
    if s == [] {
      TiedCons(x, [], c, le);
    } else if le(x, s[0]) {
      TiedCons(x, s, c, le);
    } else {
      var rest := Insert(x, s[1..], le);
      assert Tied(rest, c, le) == [x] + Tied(s[1..], c, le) by {
        assert forall y :: y in s[1..] ==> y in s;
        InsertTied(x, s[1..], c, le);
      }
      assert !IsTied(s[0], c, le) by {
        assert s[0] in s;
      }
      assert Insert(x, s, le) == [s[0]] + rest;
      TiedCons(s[0], rest, c, le);
      TiedCons(s[0], s[1..], c, le);
      assert [s[0]] + s[1..] == s;
    }
  }

  /** Two elements that tie with the same `c` are ordered both ways. */
  lemma TiedOrdered<T(!new)>(x: T, c: T, y: T, le: (T, T) -> bool)
    requires Transitive(le)
    ensures IsTied(x, c, le) && IsTied(y, c, le) ==> le(x, y)
  {
  }

  /** The sort is stable: the elements that tie with any `c` keep their input order. */
  lemma {:induction false} SortStable<T(!new)>(s: seq<T>, c: T, le: (T, T) -> bool)
    requires Transitive(le)
    ensures Tied(Sort(s, le), c, le) == Tied(s, c, le)
    decreases |s|
  {
    if s != [] {
      var x, t := s[0], Sort(s[1..], le);
      SortStable(s[1..], c, le);
      assert Sort(s, le) == Insert(x, t, le);
      assert Tied(Insert(x, t, le), c, le) == (if IsTied(x, c, le) then [x] else []) + Tied(t, c, le) by {
        if IsTied(x, c, le) {
          forall y | y in t && IsTied(y, c, le)
            ensures le(x, y)
          {
            TiedOrdered(x, c, y, le);
          }
          InsertTied(x, t, c, le);
        } else {
          InsertUntied(x, t, c, le);
        }
      }
      assert Tied(s, c, le) == (if IsTied(x, c, le) then [x] else []) + Tied(s[1..], c, le) by {
        TiedCons(x, s[1..], c, le);
        assert [x] + s[1..] == s;
      }
    }
  }

  /** Python's `sorted(s)` for a list of strings. */
  function SortStrings(s: seq<string>): seq<string> {
    Sort(s, LessEq)
  }

  predicate StrictlySorted(s: seq<string>) {
    forall i, j :: 0 <= i < j < |s| ==> Less(s[i], s[j])
  }

  /** Sorting a duplicate-free list of strings gives a strictly increasing list with
      the same elements. */
  lemma SortStringsSpec(s: seq<string>)
    requires NoDup(s)
    ensures StrictlySorted(SortStrings(s))
    ensures forall x :: x in SortStrings(s) <==> x in s
  {
    var r := SortStrings(s);
    LessEqTotal();
    SortSorted(s, LessEq);
    assert forall x :: x in r <==> x in multiset(r);
    forall i, j | 0 <= i < j < |r|
      ensures Less(r[i], r[j])
    {
      if r[i] == r[j] {
        MultisetTwice(r, i, j);
        MultisetNoDup(s, r[i]);
        assert false;
      }
    }
  }

  lemma MultisetTwice<T>(s: seq<T>, i: nat, j: nat)
    requires i < j < |s| && s[i] == s[j]
    ensures multiset(s)[s[i]] >= 2
  {
    var x := s[i];
    assert s == s[..i] + [x] + s[i + 1..j] + [x] + s[j + 1..];
    assert multiset(s) == multiset(s[..i]) + multiset{x} + multiset(s[i + 1..j]) + multiset{x} + multiset(s[j + 1..]);
  }

  lemma {:induction false} MultisetNoDup<T>(s: seq<T>, x: T)
    requires NoDup(s)
    ensures multiset(s)[x] <= 1
    decreases |s|
  {
    if s != [] {
      var t := s[..|s| - 1];
      MultisetNoDup(t, x);
      assert s == t + [s[|s| - 1]];
      if s[|s| - 1] == x {
        assert x !in t;
      }
    }
  }
}
