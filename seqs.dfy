/** The array operations the source uses on its lists: `filter`, `slice`,
    a `Set` filled in insertion order, and the stable `Array.prototype.sort`. */
module Seqs {

  /** `s.filter(p)`. */
  function Keep<T>(s: seq<T>, p: T -> bool): (r: seq<T>)
    ensures |r| <= |s|
    decreases |s|
  {
    if s == [] then [] else (if p(s[0]) then [s[0]] else []) + Keep(s[1..], p)
  }

  predicate Distinct<T(==)>(s: seq<T>) {
    forall i, j :: 0 <= i < j < |s| ==> s[i] != s[j]
  }

  /** A duplicate-free sequence of numbers in `[0, n)` has at most `n` elements. */
  lemma DistinctBelow(xs: seq<int>, n: nat)
    requires Distinct(xs)
    requires forall i :: 0 <= i < |xs| ==> 0 <= xs[i] < n
    ensures |xs| <= n
  {
    var range := seq(n, k requires 0 <= k < n => k);
    DistinctCard(xs);
    DistinctCard(range);
    forall x | x in xs ensures x in range {
      assert range[x] == x;
    }
    SubsetCard(set x | x in xs, set x | x in range);
  }

  lemma {:induction false} DistinctCard<T>(xs: seq<T>)
    requires Distinct(xs)
    ensures |set x | x in xs| == |xs|
    decreases |xs|
  {
    if xs != [] {
      var front := xs[..|xs| - 1];
      DistinctCard(front);
      assert (set x | x in xs) == (set x | x in front) + {xs[|xs| - 1]};
    }
  }

  lemma {:induction false} SubsetCard<T>(a: set<T>, b: set<T>)
    requires a <= b
    ensures |a| <= |b|
    decreases b
  {
    if a != {} {
      var x :| x in a;
      SubsetCard(a - {x}, b - {x});
    }
  }

  /** `a` is `b` with some elements left out, the rest in their order. */
  predicate IsSubsequence<T(==)>(a: seq<T>, b: seq<T>)
    decreases |b|
  {
    if a == [] then true
    else if b == [] then false
    else if a[0] == b[0] then IsSubsequence(a[1..], b[1..])
    else IsSubsequence(a, b[1..])
  }

  /** What `filter` keeps: exactly the elements that pass, each as often as
      in the input. */
  lemma {:induction false} KeepMultiset<T>(s: seq<T>, p: T -> bool)
    ensures forall x :: multiset(Keep(s, p))[x] == if p(x) then multiset(s)[x] else 0
    decreases |s|
  {
    if s != [] {
      KeepMultiset(s[1..], p);
      assert s == [s[0]] + s[1..];
    }
  }

  lemma KeepMembers<T>(s: seq<T>, p: T -> bool)
    ensures forall x :: x in Keep(s, p) <==> x in s && p(x)
  {
    KeepMultiset(s, p);
    forall x ensures x in Keep(s, p) <==> x in s && p(x) {
      assert x in Keep(s, p) <==> multiset(Keep(s, p))[x] > 0;
      assert x in s <==> multiset(s)[x] > 0;
    }
  }

  /** A filter that every element passes returns the input. */
  lemma {:induction false} KeepAll<T>(s: seq<T>, p: T -> bool)
    requires forall i :: 0 <= i < |s| ==> p(s[i])
    ensures Keep(s, p) == s
    decreases |s|
  {
    if s != [] {
      KeepAll(s[1..], p);
      assert s == [s[0]] + s[1..];
    }
  }

  /** `filter` keeps the order of what it keeps. */
  lemma {:induction false} KeepIsSubsequence<T>(s: seq<T>, p: T -> bool)
    ensures IsSubsequence(Keep(s, p), s)
    decreases |s|
  {
    if s != [] {
      KeepIsSubsequence(s[1..], p);
      if p(s[0]) {
        var k := Keep(s, p);
        assert k[0] == s[0] && k[1..] == Keep(s[1..], p);
      } else {
        assert Keep(s, p) == Keep(s[1..], p);
        SubsequenceExtend(Keep(s[1..], p), s[1..], s[0]);
        assert [s[0]] + s[1..] == s;
      }
    }
  }

  lemma {:induction false} KeepConcat<T>(a: seq<T>, b: seq<T>, p: T -> bool)
    ensures Keep(a + b, p) == Keep(a, p) + Keep(b, p)
    decreases |a|
  {
    if a == [] {
      assert a + b == b;
    } else {
      KeepConcat(a[1..], b, p);
      assert (a + b)[0] == a[0] && (a + b)[1..] == a[1..] + b;
      assert Keep(a + b, p) == (if p(a[0]) then [a[0]] else []) + Keep(a[1..] + b, p);
    }
  }

  /** A subsequence of `b` is a subsequence of `b` with one more element in front. */
  lemma {:induction false} SubsequenceExtend<T>(a: seq<T>, b: seq<T>, x: T)
    requires IsSubsequence(a, b)
    ensures IsSubsequence(a, [x] + b)
    decreases |b|, 1
  {
    assert ([x] + b)[1..] == b;
    if a != [] && a[0] == x {
      SubsequenceDropFirst(a, b);
    }
  }

  lemma {:induction false} SubsequenceDropFirst<T>(a: seq<T>, b: seq<T>)
    requires a != [] && IsSubsequence(a, b)
    ensures IsSubsequence(a[1..], b)
    decreases |b|, 0
  {
    assert b != [];
    if a[0] == b[0] {
      SubsequenceExtend(a[1..], b[1..], b[0]);
    } else {
      SubsequenceDropFirst(a, b[1..]);
      SubsequenceExtend(a[1..], b[1..], b[0]);
    }
    assert [b[0]] + b[1..] == b;
  }

  /** An element of a subsequence is an element of the whole. */
  lemma {:induction false} SubsequenceMembers<T>(a: seq<T>, b: seq<T>)
    requires IsSubsequence(a, b)
    ensures forall x :: x in a ==> x in b
    decreases |b|
  {
    if a != [] && b != [] {
      if a[0] == b[0] {
        SubsequenceMembers(a[1..], b[1..]);
        forall x | x in a ensures x in b {
          if x != a[0] { assert x in a[1..]; }
        }
      } else {
        SubsequenceMembers(a, b[1..]);
      }
    }
  }

  /** A prefix is a subsequence. */
  lemma {:induction false} PrefixIsSubsequence<T>(a: seq<T>, b: seq<T>)
    requires a <= b
    ensures IsSubsequence(a, b)
    decreases |b|
  {
    if a != [] {
      assert a[1..] <= b[1..];
      PrefixIsSubsequence(a[1..], b[1..]);
    }
  }

  lemma {:induction false} SubsequenceTransitive<T>(a: seq<T>, b: seq<T>, c: seq<T>)
    requires IsSubsequence(a, b) && IsSubsequence(b, c)
    ensures IsSubsequence(a, c)
    decreases |c|
  {
    if a != [] {
      assert b != [] && c != [];
      if b[0] == c[0] {
        if a[0] == b[0] {
          SubsequenceTransitive(a[1..], b[1..], c[1..]);
        } else {
          SubsequenceTransitive(a, b[1..], c[1..]);
        }
      } else {
        SubsequenceTransitive(a, b, c[1..]);
        if a[0] == c[0] {
          SubsequenceDropFirst(a, c[1..]);
        }
      }
    }
  }

  /** Filtering a list without duplicates leaves none. */
  lemma {:induction false} KeepDistinct<T>(s: seq<T>, p: T -> bool)
    requires Distinct(s)
    ensures Distinct(Keep(s, p))
    decreases |s|
  {
    if s != [] {
      assert Distinct(s[1..]) by {
        forall i, j | 0 <= i < j < |s[1..]| ensures s[1..][i] != s[1..][j] {
          assert s[1..][i] == s[i + 1] && s[1..][j] == s[j + 1];
        }
      }
      KeepDistinct(s[1..], p);
      KeepMembers(s[1..], p);
      var rest := Keep(s[1..], p);
      if p(s[0]) {
        assert s[0] !in s[1..] by {
          forall k | 0 <= k < |s[1..]| ensures s[1..][k] != s[0] {
            assert s[1..][k] == s[k + 1];
          }
        }
        var r := [s[0]] + rest;
        forall i, j | 0 <= i < j < |r| ensures r[i] != r[j] {
          if i == 0 {
            assert r[j] in rest;
          } else {
            assert r[i] == rest[i - 1] && r[j] == rest[j - 1];
          }
        }
      }
    }
  }

  /** Adding one value to a JavaScript `Set` kept as its insertion order. */
  function SetAdd<T(==)>(acc: seq<T>, x: T): seq<T> {
    if x in acc then acc else acc + [x]
  }

  /** `xs.forEach(x => { if (keep(x)) set.add(x) })`, starting from the set
      `acc`, as the sequence of values in insertion order. */
  function AddAll<T(==)>(acc: seq<T>, xs: seq<T>, keep: T -> bool): seq<T>
    decreases |xs|
  {
    if xs == [] then acc
    else
      var prev := AddAll(acc, xs[..|xs| - 1], keep);
      var x := xs[|xs| - 1];
      if keep(x) then SetAdd(prev, x) else prev
  }

  /** The set grows from `acc`, stays free of duplicates, and ends up
      holding exactly `acc` and the values that pass `keep`. */
  lemma {:induction false} AddAllProperties<T>(acc: seq<T>, xs: seq<T>, keep: T -> bool)
    requires Distinct(acc)
    ensures acc <= AddAll(acc, xs, keep)
    ensures Distinct(AddAll(acc, xs, keep))
    ensures forall x :: x in AddAll(acc, xs, keep) <==> x in acc || (x in xs && keep(x))
    decreases |xs|
  {
    if xs != [] {
      var front := xs[..|xs| - 1];
      AddAllProperties(acc, front, keep);
      var prev := AddAll(acc, front, keep);
      var x := xs[|xs| - 1];
      assert xs == front + [x];
      forall y ensures y in AddAll(acc, xs, keep) <==> y in acc || (y in xs && keep(y)) {
        assert y in xs <==> y in front || y == x;
      }
    }
  }

  /** One more `forEach` step: the value goes through `keep` and `add`. */
  lemma AddAllSnoc<T>(acc: seq<T>, xs: seq<T>, x: T, keep: T -> bool)
    ensures AddAll(acc, xs + [x], keep)
         == if keep(x) then SetAdd(AddAll(acc, xs, keep), x) else AddAll(acc, xs, keep)
  {
    assert (xs + [x])[..|xs|] == xs;
  }

  /** Two `forEach` passes one after the other fill the set as one pass over
      both sequences would. */
  lemma {:induction false} AddAllConcat<T>(acc: seq<T>, xs: seq<T>, ys: seq<T>, keep: T -> bool)
    ensures AddAll(acc, xs + ys, keep) == AddAll(AddAll(acc, xs, keep), ys, keep)
    decreases |ys|
  {
    if ys == [] {
      assert xs + ys == xs;
    } else {
      var front := ys[..|ys| - 1];
      var y := ys[|ys| - 1];
      AddAllConcat(acc, xs, front, keep);
      assert xs + ys == (xs + front) + [y];
      AddAllSnoc(acc, xs + front, y, keep);
    }
  }

  /** `Array.from(set).slice(0, n)` after the set was filled from `xs`: the
      first `n` distinct values of `xs` that pass `keep`, in first-seen order. */
  function FirstDistinct<T(==)>(xs: seq<T>, keep: T -> bool, n: nat): (r: seq<T>)
    ensures |r| <= n
    ensures Distinct(r)
    ensures forall x :: x in r ==> x in xs && keep(x)
    ensures |r| < n ==> forall x :: x in xs && keep(x) ==> x in r
    ensures r <= AddAll([], xs, keep)
  {
    var all := AddAll([], xs, keep);
    AddAllFromEmpty(xs, keep);
    var k := if |all| < n then |all| else n;
    PrefixOfAddAll(xs, keep, k);
    all[..k]
  }

  lemma AddAllFromEmpty<T>(xs: seq<T>, keep: T -> bool)
    ensures Distinct(AddAll([], xs, keep))
    ensures forall x :: x in AddAll([], xs, keep) <==> x in xs && keep(x)
  {
    AddAllProperties([], xs, keep);
  }

  lemma MemberOfAddAll<T>(xs: seq<T>, keep: T -> bool, x: T)
    requires x in AddAll([], xs, keep)
    ensures x in xs && keep(x)
  {
    AddAllFromEmpty(xs, keep);
  }

  lemma PrefixOfAddAll<T>(xs: seq<T>, keep: T -> bool, k: nat)
    requires k <= |AddAll([], xs, keep)|
    ensures Distinct(AddAll([], xs, keep)[..k])
    ensures forall x :: x in AddAll([], xs, keep)[..k] ==> x in xs && keep(x)
  {
    var all := AddAll([], xs, keep);
    AddAllFromEmpty(xs, keep);
    forall x | x in all[..k] ensures x in xs && keep(x) {
      var i :| 0 <= i < k && all[..k][i] == x;
      assert all[i] == x;
      MemberOfAddAll(xs, keep, x);
    }
  }

  // ----- Stable sort -----

  ghost predicate TotalPreorder<T(!new)>(le: (T, T) -> bool) {
    && (forall a, b :: le(a, b) || le(b, a))
    && (forall a, b, c :: le(a, b) && le(b, c) ==> le(a, c))
  }

  ghost predicate SortedBy<T>(s: seq<T>, le: (T, T) -> bool) {
    forall i, j :: 0 <= i < j < |s| ==> le(s[i], s[j])
  }

  /** Insert `x` into the sorted `t` after every element not greater than it. */
  function Insert<T>(t: seq<T>, x: T, le: (T, T) -> bool): (r: seq<T>)
    ensures |r| == |t| + 1
    decreases |t|
  {
    if t == [] then [x]
    else if le(t[|t| - 1], x) then t + [x]
    else Insert(t[..|t| - 1], x, le) + [t[|t| - 1]]
  }

  /** The order a stable sort by the comparator behind `le` produces:
      elements are taken in input order and each goes after every element
      already placed that it does not precede. */
  function StableSort<T>(s: seq<T>, le: (T, T) -> bool): (r: seq<T>)
    ensures |r| == |s|
    decreases |s|
  {
    if s == [] then [] else Insert(StableSort(s[..|s| - 1], le), s[|s| - 1], le)
  }

  lemma {:induction false} InsertMultiset<T>(t: seq<T>, x: T, le: (T, T) -> bool)
    ensures multiset(Insert(t, x, le)) == multiset(t) + multiset{x}
    decreases |t|
  {
    if t != [] && !le(t[|t| - 1], x) {
      InsertMultiset(t[..|t| - 1], x, le);
      assert t == t[..|t| - 1] + [t[|t| - 1]];
    }
  }

  /** The sort rearranges and neither loses nor adds an element. */
  lemma {:induction false} StableSortPermutation<T>(s: seq<T>, le: (T, T) -> bool)
    ensures multiset(StableSort(s, le)) == multiset(s)
    decreases |s|
  {
    if s != [] {
      StableSortPermutation(s[..|s| - 1], le);
      InsertMultiset(StableSort(s[..|s| - 1], le), s[|s| - 1], le);
      assert s == s[..|s| - 1] + [s[|s| - 1]];
    }
  }

  lemma {:induction false} InsertSorted<T(!new)>(t: seq<T>, x: T, le: (T, T) -> bool)
    requires TotalPreorder(le) && SortedBy(t, le)
    ensures SortedBy(Insert(t, x, le), le)
    decreases |t|
  {
    if t != [] && !le(t[|t| - 1], x) {
      var front := t[..|t| - 1];
      var last := t[|t| - 1];
      InsertSorted(front, x, le);
      var ins := Insert(front, x, le);
      InsertMultiset(front, x, le);
      forall y | y in ins ensures le(y, last) {
        assert y in multiset(ins);
        if y != x {
          assert y in multiset(front);
          var k :| 0 <= k < |front| && front[k] == y;
          assert t[k] == y;
        }
      }
      var r := ins + [last];
      forall i, j | 0 <= i < j < |r| ensures le(r[i], r[j]) {
        if j == |r| - 1 {
          assert r[i] in ins;
        }
      }
    }
  }

  /** The sort orders its output by `le` when `le` comes from a consistent
      comparator. */
  lemma {:induction false} StableSortSorted<T(!new)>(s: seq<T>, le: (T, T) -> bool)
    requires TotalPreorder(le)
    ensures SortedBy(StableSort(s, le), le)
    decreases |s|
  {
    if s != [] {
      StableSortSorted(s[..|s| - 1], le);
      InsertSorted(StableSort(s[..|s| - 1], le), s[|s| - 1], le);
    }
  }

  /** `x` and `c` compare equal. */
  ghost predicate Tied<T>(le: (T, T) -> bool, x: T, c: T) {
    le(x, c) && le(c, x)
  }

  lemma {:induction false} InsertStable<T(!new)>(t: seq<T>, x: T, le: (T, T) -> bool, c: T)
    requires TotalPreorder(le)
    ensures Keep(Insert(t, x, le), y => Tied(le, y, c))
         == Keep(t, y => Tied(le, y, c)) + Keep([x], y => Tied(le, y, c))
    decreases |t|
  {
    var p := y => Tied(le, y, c);
    if t == [] {
    } else if le(t[|t| - 1], x) {
      KeepConcat(t, [x], p);
    } else {
      var front := t[..|t| - 1];
      var last := t[|t| - 1];
      InsertStable(front, x, le, c);
      KeepConcat(Insert(front, x, le), [last], p);
      KeepConcat(front, [last], p);
      assert t == front + [last];
      if p(x) {
        assert !p(last);
      }
    }
  }

  /** Stability: among the elements that compare equal to any given `c`,
      the sort keeps the input order. */
  lemma {:induction false} StableSortStable<T(!new)>(s: seq<T>, le: (T, T) -> bool, c: T)
    requires TotalPreorder(le)
    ensures Keep(StableSort(s, le), y => Tied(le, y, c)) == Keep(s, y => Tied(le, y, c))
    decreases |s|
  {
    if s != [] {
      var front := s[..|s| - 1];
      var p := y => Tied(le, y, c);
      StableSortStable(front, le, c);
      InsertStable(StableSort(front, le), s[|s| - 1], le, c);
      KeepConcat(front, [s[|s| - 1]], p);
      assert s == front + [s[|s| - 1]];
    }
  }

  /** When the comparator says every pair is equal (it returns 0), the
      sort leaves the input as it was. */
  lemma {:induction false} StableSortAllTied<T>(s: seq<T>, le: (T, T) -> bool)
    requires forall a, b :: le(a, b)
    ensures StableSort(s, le) == s
    decreases |s|
  {
    if s != [] {
      StableSortAllTied(s[..|s| - 1], le);
      assert s == s[..|s| - 1] + [s[|s| - 1]];
    }
  }
}
