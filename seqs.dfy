/**
 * Row selection and list shaping shared by the dashboard's rules: a boolean
 * mask over a frame, `head(n)`, Python's `s[:k]`, first-occurrence
 * de-duplication and `sorted(set(...))` over strings.
 */
module Seqs {
  import opened Optional

  /** `df[mask]`: the rows for which `keep` holds, in their original order. */
  function Filter<T(!new)>(s: seq<T>, keep: T -> bool): (r: seq<T>)
    ensures |r| <= |s|
    ensures forall x :: x in r <==> x in s && keep(x)
  {
    if s == [] then []
    else
      assert s == [s[0]] + s[1..];
      if keep(s[0]) then [s[0]] + Filter(s[1..], keep)
      else Filter(s[1..], keep)
  }

  /** Filtering works row by row: the kept rows of `a + b` are those of `a`, then those of `b`. */
  lemma {:induction false} FilterConcat<T(!new)>(a: seq<T>, b: seq<T>, keep: T -> bool)
    ensures Filter(a + b, keep) == Filter(a, keep) + Filter(b, keep)
  {
    if a == [] {
      assert a + b == b;
    } else {
      var ab := a + b;
      assert ab != [] && ab[0] == a[0] && ab[1..] == a[1..] + b;
      FilterConcat(a[1..], b, keep);
      if keep(a[0]) {
        calc {
          Filter(ab, keep);
          [a[0]] + Filter(a[1..] + b, keep);
          [a[0]] + (Filter(a[1..], keep) + Filter(b, keep));
          ([a[0]] + Filter(a[1..], keep)) + Filter(b, keep);
        }
      }
    }
  }

  /** Two masks applied one after the other select what their conjunction `both` selects. */
  lemma {:induction false} FilterFilter<T(!new)>(s: seq<T>, p: T -> bool, q: T -> bool, both: T -> bool)
    requires forall x | x in s :: both(x) == (p(x) && q(x))
    ensures Filter(Filter(s, p), q) == Filter(s, both)
  {
    if s != [] {
      assert forall x | x in s[1..] :: x in s;
      FilterFilter(s[1..], p, q, both);
    }
  }

  /** Masks that agree on every row select the same rows. */
  lemma {:induction false} FilterExt<T(!new)>(s: seq<T>, p: T -> bool, q: T -> bool)
    requires forall x | x in s :: p(x) == q(x)
    ensures Filter(s, p) == Filter(s, q)
  {
    if s != [] {
      assert forall x | x in s[1..] :: x in s;
      FilterExt(s[1..], p, q);
    }
  }

  /** A mask every row passes keeps the frame as it is. */
  lemma {:induction false} FilterAll<T(!new)>(s: seq<T>, p: T -> bool)
    requires forall x | x in s :: p(x)
    ensures Filter(s, p) == s
  {
    if s != [] {
      assert forall x | x in s[1..] :: x in s;
      FilterAll(s[1..], p);
      assert s == [s[0]] + s[1..];
    }
  }

  /** `series.dropna()`: the present values, in order. */
  function Present<T(!new)>(xs: seq<Option<T>>): (r: seq<T>)
    ensures |r| <= |xs|
    ensures forall x :: x in r <==> Some(x) in xs
  {
    if xs == [] then []
    else
      assert xs == [xs[0]] + xs[1..];
      (if xs[0].Some? then [xs[0].value] else []) + Present(xs[1..])
  }

  /** `xs[i]` holds a value and every earlier cell is missing. */
  predicate FirstSomeAt<T>(xs: seq<Option<T>>, i: int) {
    0 <= i < |xs| && xs[i].Some? && forall j | 0 <= j < i :: xs[j].None?
  }

  /** `dropna().iloc[0]` is the value of the first cell that holds one. */
  lemma {:induction false} PresentHead<T(!new)>(xs: seq<Option<T>>)
    requires Present(xs) != []
    ensures exists i :: FirstSomeAt(xs, i) && xs[i] == Some(Present(xs)[0])
  {
    if xs[0].Some? {
      assert FirstSomeAt(xs, 0);
    } else {
      assert Present(xs) == Present(xs[1..]);
      PresentHead(xs[1..]);
      var k :| FirstSomeAt(xs[1..], k) && xs[1..][k] == Some(Present(xs[1..])[0]);
      assert forall j | 1 <= j < k + 1 :: xs[j] == xs[1..][j - 1];
      assert FirstSomeAt(xs, k + 1);
    }
  }

  lemma {:induction false} PresentConcat<T(!new)>(a: seq<Option<T>>, b: seq<Option<T>>)
    ensures Present(a + b) == Present(a) + Present(b)
  {
    if a == [] {
      assert a + b == b;
    } else {
      assert (a + b)[0] == a[0] && (a + b)[1..] == a[1..] + b;
      PresentConcat(a[1..], b);
    }
  }

  /** `df[col]`: one field of every row, in row order. */
  function Column<R, T>(rows: seq<R>, field: R -> T): (r: seq<T>)
    ensures |r| == |rows|
    ensures forall i | 0 <= i < |rows| :: r[i] == field(rows[i])
  {
    seq(|rows|, i requires 0 <= i < |rows| => field(rows[i]))
  }

  /** Appending `f` of the last item to `f` of the others gives `f` of every item. */
  lemma MappedSnoc<A, B>(items: seq<A>, prev: seq<B>, last: B, f: A -> B)
    requires items != [] && |prev| == |items| - 1
    requires forall k | 0 <= k < |prev| :: prev[k] == f(items[k])
    requires last == f(items[|items| - 1])
    ensures forall k | 0 <= k < |items| :: (prev + [last])[k] == f(items[k])
  {
  }

  /** `df.head(n)`: the first `n` rows, or all of them when there are fewer. */
  function Head<T>(s: seq<T>, n: nat): (r: seq<T>)
    ensures |r| == if |s| < n then |s| else n
    ensures r == s[..|r|]
  {
    if |s| <= n then s else s[..n]
  }

  /** Python's `s[:k]`, where a negative `k` counts from the end. */
  function SliceTo<T>(s: seq<T>, k: int): (r: seq<T>)
    ensures |r| <= |s| && r == s[..|r|]
    ensures 0 <= k ==> |r| == if |s| < k then |s| else k
    ensures k < 0 ==> |r| == if |s| + k < 0 then 0 else |s| + k
  {
    if 0 <= k then (if |s| <= k then s else s[..k])
    else if |s| + k < 0 then []
    else s[..|s| + k]
  }

  predicate NoDuplicates<T(==)>(s: seq<T>) {
    forall i, j | 0 <= i < j < |s| :: s[i] != s[j]
  }

  /** Each value once, at the place of its first occurrence (a `seen` set and a list grown left to right). */
  function Distinct<T(==,!new)>(s: seq<T>): (r: seq<T>)
    ensures NoDuplicates(r)
    ensures forall x :: x in r <==> x in s
    ensures |r| <= |s|
  {
    if s == [] then []
    else
      var d := Distinct(s[..|s| - 1]);
      var x := s[|s| - 1];
      assert s == s[..|s| - 1] + [x];
      if x in d then d else d + [x]
  }

  /** Filtering keeps a list free of duplicates. */
  lemma {:induction false} FilterNoDuplicates<T(!new)>(s: seq<T>, keep: T -> bool)
    requires NoDuplicates(s)
    ensures NoDuplicates(Filter(s, keep))
  {
    if s != [] {
      FilterNoDuplicates(s[1..], keep);
      assert s[0] !in s[1..];
    }
  }

  /** The set of values a list holds. */
  ghost function Elements<T>(s: seq<T>): set<T> {
    set i | 0 <= i < |s| :: s[i]
  }

  /** A list without repeats has as many entries as it has distinct values. */
  lemma {:induction false} NoDuplicatesCard<T>(s: seq<T>)
    requires NoDuplicates(s)
    ensures |Elements(s)| == |s|
  {
    if s != [] {
      var init := s[..|s| - 1];
      var x := s[|s| - 1];
      assert Elements(s) == Elements(init) + {x} by {
        forall y ensures y in Elements(s) <==> y in Elements(init) + {x} {
          if y in Elements(s) {
            var i :| 0 <= i < |s| && s[i] == y;
            if i < |s| - 1 { assert init[i] == y; }
          }
          if y in Elements(init) {
            var i :| 0 <= i < |init| && init[i] == y;
            assert s[i] == y;
          }
        }
      }
      assert x !in Elements(init) by {
        forall i | 0 <= i < |init| ensures init[i] != x {
          assert s[i] == init[i];
        }
      }
      NoDuplicatesCard(init);
    }
  }

  /** De-duplicating a list that has no repeats changes nothing. */
  lemma {:induction false} DistinctOfDistinct<T(!new)>(s: seq<T>)
    requires NoDuplicates(s)
    ensures Distinct(s) == s
  {
    if s != [] {
      DistinctOfDistinct(s[..|s| - 1]);
      assert s[|s| - 1] !in s[..|s| - 1];
      assert s == s[..|s| - 1] + [s[|s| - 1]];
    }
  }

  /** The first value of a non-empty list is also the first value it keeps after de-duplication. */
  lemma {:induction false} DistinctFirst<T(!new)>(s: seq<T>)
    requires s != []
    ensures Distinct(s) != [] && Distinct(s)[0] == s[0]
  {
    var init := s[..|s| - 1];
    if init != [] {
      DistinctFirst(init);
      assert init[0] == s[0];
    }
  }

  /** Filtering a list grown by one value. */
  lemma FilterSnoc<T(!new)>(s: seq<T>, x: T, keep: T -> bool)
    ensures Filter(s + [x], keep) == Filter(s, keep) + (if keep(x) then [x] else [])
  {
    FilterConcat(s, [x], keep);
    assert Filter([x], keep) == (if keep(x) then [x] else []) by {
      assert [x][1..] == [];
    }
  }

  /** De-duplicating a list grown by one value. */
  lemma DistinctSnoc<T(!new)>(s: seq<T>, x: T)
    ensures Distinct(s + [x]) == if x in s then Distinct(s) else Distinct(s) + [x]
  {
    assert (s + [x])[..|s|] == s;
  }

  /** De-duplicating then filtering equals filtering then de-duplicating. */
  lemma {:induction false} FilterDistinct<T(!new)>(s: seq<T>, keep: T -> bool)
    ensures Filter(Distinct(s), keep) == Distinct(Filter(s, keep))
    decreases |s|
  {
    if s == [] {
      assert Distinct(s) == [];
      assert Filter(s, keep) == [];
    } else {
      var init := s[..|s| - 1];
      var x := s[|s| - 1];
      assert init + [x] == s;
      FilterDistinct(init, keep);
      FilterDistinctStep(init, x, keep);
    }
  }

  lemma FilterDistinctStep<T(!new)>(init: seq<T>, x: T, keep: T -> bool)
    requires Filter(Distinct(init), keep) == Distinct(Filter(init, keep))
    ensures Filter(Distinct(init + [x]), keep) == Distinct(Filter(init + [x], keep))
  {
    var d := Distinct(init);
    var f := Filter(init, keep);
    FilterSnoc(init, x, keep);
    DistinctSnoc(init, x);
    if x in init {
      assert Distinct(init + [x]) == d;
      if keep(x) {
        assert x in f;
        DistinctSnoc(f, x);
        assert Filter(init + [x], keep) == f + [x];
      } else {
        assert Filter(init + [x], keep) == f;
      }
    } else {
      assert Distinct(init + [x]) == d + [x];
      FilterSnoc(d, x, keep);
      if keep(x) {
        assert x !in f;
        DistinctSnoc(f, x);
        assert Filter(init + [x], keep) == f + [x];
        assert Filter(d + [x], keep) == Filter(d, keep) + [x];
      } else {
        assert Filter(init + [x], keep) == f;
        assert Filter(d + [x], keep) == Filter(d, keep);
      }
    }
  }

  /** Python's `<` on `str`: lexicographic by code point, a proper prefix first. */
  predicate Less(a: string, b: string) {
    if a == [] then b != []
    else if b == [] then false
    else if a[0] != b[0] then a[0] < b[0]
    else Less(a[1..], b[1..])
  }

  lemma LessIrreflexive(a: string)
    ensures !Less(a, a)
  {
  }

  lemma {:induction false} LessTransitive(a: string, b: string, c: string)
    requires Less(a, b) && Less(b, c)
    ensures Less(a, c)
  {
    if a != [] && b != [] && c != [] && a[0] == b[0] && b[0] == c[0] {
      LessTransitive(a[1..], b[1..], c[1..]);
    }
  }

  lemma {:induction false} LessTotal(a: string, b: string)
    requires a != b
    ensures Less(a, b) || Less(b, a)
  {
    if a != [] && b != [] && a[0] == b[0] {
      assert a == [a[0]] + a[1..] && b == [b[0]] + b[1..];
      LessTotal(a[1..], b[1..]);
    }
  }

  predicate StrictlySorted(s: seq<string>) {
    forall i, j | 0 <= i < j < |s| :: Less(s[i], s[j])
  }

  /** Place `x` in a strictly increasing list, unless it is already there. */
  function Insert(s: seq<string>, x: string): (r: seq<string>)
    requires StrictlySorted(s)
    ensures StrictlySorted(r)
    ensures forall y :: y in r <==> y in s || y == x
  {
    if s == [] then [x]
    else if x == s[0] then s
    else if Less(x, s[0]) then
      assert forall j | 0 <= j < |s| :: Less(x, s[j]) by {
        forall j | 0 <= j < |s| ensures Less(x, s[j]) {
          if j > 0 { LessTransitive(x, s[0], s[j]); }
        }
      }
      [x] + s
    else
      LessTotal(x, s[0]);
      var rest := Insert(s[1..], x);
      assert forall y | y in rest :: Less(s[0], y);
      [s[0]] + rest
  }

  /** `sorted(set(xs))`: the distinct values in increasing order. */
  function SortedDistinct(xs: seq<string>): (r: seq<string>)
    ensures StrictlySorted(r)
    ensures forall y :: y in r <==> y in xs
  {
    if xs == [] then []
    else
      assert xs == xs[..|xs| - 1] + [xs[|xs| - 1]];
      Insert(SortedDistinct(xs[..|xs| - 1]), xs[|xs| - 1])
  }

  lemma {:induction false} LessAsymmetric(a: string, b: string)
    ensures !(Less(a, b) && Less(b, a))
  {
    if a != [] && b != [] && a[0] == b[0] {
      LessAsymmetric(a[1..], b[1..]);
    }
  }

  /** A strictly increasing list is fixed by the values it holds, so `SortedDistinct` has one possible result. */
  lemma {:induction false} SortedListsAgree(a: seq<string>, b: seq<string>)
    requires StrictlySorted(a) && StrictlySorted(b)
    requires forall y :: y in a <==> y in b
    ensures a == b
  {
    assert a != [] <==> b != [] by {
      if a != [] { assert a[0] in a; }
      if b != [] { assert b[0] in b; }
    }
    if a != [] {
      assert a[0] in a && b[0] in b;
      assert a[0] == b[0] || Less(b[0], a[0]);
      assert a[0] == b[0] || Less(a[0], b[0]);
      LessAsymmetric(a[0], b[0]);
      forall y ensures y in a[1..] <==> y in b[1..] {
        LessIrreflexive(y);
        if y in a[1..] {
          var k :| 1 <= k < |a| && a[k] == y;
          assert Less(a[0], y);
          assert y in b;
        }
        if y in b[1..] {
          var k :| 1 <= k < |b| && b[k] == y;
          assert Less(b[0], y);
          assert y in a;
        }
      }
      SortedListsAgree(a[1..], b[1..]);
      assert a == [a[0]] + a[1..] && b == [b[0]] + b[1..];
    }
  }

  /** `value_counts()` for one value: how often `v` occurs in `xs`. */
  function CountOf<T(==)>(xs: seq<T>, v: T): (r: nat)
    ensures r <= |xs|
    ensures r == 0 <==> v !in xs
  {
    if xs == [] then 0
    else (if xs[0] == v then 1 else 0) + CountOf(xs[1..], v)
  }

  /** The counts of the given labels, added up. */
  function TotalOver<T(==)>(labels: seq<T>, xs: seq<T>): nat {
    if labels == [] then 0 else CountOf(xs, labels[0]) + TotalOver(labels[1..], xs)
  }

  /** One more value adds one to the total exactly when it is among the (distinct) labels. */
  lemma {:induction false} TotalOverCons<T>(labels: seq<T>, x: T, rest: seq<T>)
    requires NoDuplicates(labels)
    ensures TotalOver(labels, [x] + rest) == TotalOver(labels, rest) + (if x in labels then 1 else 0)
  {
    assert ([x] + rest)[1..] == rest;
    if labels != [] {
      TotalOverCons(labels[1..], x, rest);
      assert x == labels[0] ==> x !in labels[1..];
      assert x in labels <==> x == labels[0] || x in labels[1..];
    }
  }

  /** When every value is one of the distinct labels, the labels' counts add up to the number of values. */
  lemma {:induction false} TotalOverAll<T>(labels: seq<T>, xs: seq<T>)
    requires NoDuplicates(labels)
    requires forall x | x in xs :: x in labels
    ensures TotalOver(labels, xs) == |xs|
  {
    if xs == [] {
      TotalOverNone(labels);
    } else {
      assert xs == [xs[0]] + xs[1..];
      TotalOverCons(labels, xs[0], xs[1..]);
      TotalOverAll(labels, xs[1..]);
    }
  }

  lemma {:induction false} TotalOverNone<T>(labels: seq<T>)
    ensures TotalOver(labels, []) == 0
  {
    if labels != [] {
      TotalOverNone(labels[1..]);
    }
  }
}
