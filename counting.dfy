/** Count dictionaries as used by the flow-log parser: the increment
    `d[x] = d.get(x, 0) + 1`, the dictionary a run of increments builds,
    the sum of its values, and the filter-and-project step that picks the
    values to count out of the input lines. */
module Counting {
  import opened Outcomes

  /** d.get(x, 0) */
  function Get<T>(m: map<T, nat>, x: T): nat {
    if x in m then m[x] else 0
  }

  /** after is before with the entry for x raised by one (and created at 1
      when absent), and every other entry exactly as it was. */
  ghost predicate IncrementedAt<T>(after: map<T, nat>, before: map<T, nat>, x: T) {
    && after.Keys == before.Keys + {x}
    && after[x] == Get(before, x) + 1
    && forall y :: y in before && y != x ==> after[y] == before[y]
  }

  /** d[x] = d.get(x, 0) + 1 */
  function Inc<T>(m: map<T, nat>, x: T): (r: map<T, nat>)
    ensures IncrementedAt(r, m, x)
  {
    m[x := Get(m, x) + 1]
  }

  /** The count dictionary built by incrementing the entry of each element
      of xs in turn, starting from the empty dictionary. */
  function Tally<T>(xs: seq<T>): map<T, nat>
  {
    if xs == [] then map[] else Inc(Tally(xs[..|xs| - 1]), xs[|xs| - 1])
  }

  /** The tally of xs holds an entry exactly for the values occurring in xs,
      and that entry is the number of occurrences. */
  lemma {:induction false} TallyCounts<T>(xs: seq<T>)
    ensures forall x :: x in Tally(xs) <==> x in multiset(xs)
    ensures forall x :: Get(Tally(xs), x) == multiset(xs)[x]
  {
    if xs != [] {
      var init, last := xs[..|xs| - 1], xs[|xs| - 1];
      assert xs == init + [last];
      TallyCounts(init);
      assert multiset(xs) == multiset(init) + multiset{last};
    }
  }

  /** Counting one more element increments its entry. */
  lemma TallyStep<T>(xs: seq<T>, x: T)
    ensures Tally(xs + [x]) == Inc(Tally(xs), x)
  {
    assert (xs + [x])[..|xs|] == xs;
  }

  /** Every entry of a tally is at least one. */
  lemma TallyPositive<T>(xs: seq<T>)
    ensures forall x :: x in Tally(xs) ==> Tally(xs)[x] >= 1
  {
    TallyCounts(xs);
    forall x | x in Tally(xs) ensures Tally(xs)[x] >= 1 {
      assert Get(Tally(xs), x) == multiset(xs)[x];
    }
  }

  /** Two sequences with the same multiset of values agree on every entry
      of their tallies. */
  lemma TallyEntryPermutation<T>(xs: seq<T>, ys: seq<T>, x: T)
    requires multiset(xs) == multiset(ys)
    requires x in Tally(xs)
    ensures x in Tally(ys) && Tally(xs)[x] == Tally(ys)[x]
  {
    TallyCounts(xs);
    TallyCounts(ys);
    assert Get(Tally(xs), x) == multiset(xs)[x];
    assert Get(Tally(ys), x) == multiset(ys)[x];
  }

  /** A tally depends only on the multiset of counted values, so counting a
      permutation gives the same dictionary. */
  lemma TallyPermutation<T>(xs: seq<T>, ys: seq<T>)
    requires multiset(xs) == multiset(ys)
    ensures Tally(xs) == Tally(ys)
  {
    forall x | x in Tally(xs) ensures x in Tally(ys) && Tally(xs)[x] == Tally(ys)[x] {
      TallyEntryPermutation(xs, ys, x);
    }
    forall x | x in Tally(ys) ensures x in Tally(xs) {
      TallyEntryPermutation(ys, xs, x);
    }
  }

  // ------------------------------------------------------------ map sums

  /** The sum of the values of m. */
  ghost function SumValues<T>(m: map<T, nat>): nat
    decreases |m|
  {
    if m == map[] then 0
    else
      var k :| k in m;
      m[k] + SumValues(m - {k})
  }

  /** The sum does not depend on which key is taken out first. */
  lemma {:induction false} SumValuesRemove<T>(m: map<T, nat>, k: T)
    requires k in m
    ensures SumValues(m) == m[k] + SumValues(m - {k})
    decreases |m|
  {
    var j :| j in m && SumValues(m) == m[j] + SumValues(m - {j});
    if j != k {
      var mj, mk := m - {j}, m - {k};
      assert |mj| < |m| && |mk| < |m|;
      SumValuesRemove(mj, k);
      SumValuesRemove(mk, j);
      assert mj - {k} == mk - {j};
    }
  }

  /** One increment raises the sum by one. */
  lemma SumValuesInc<T>(m: map<T, nat>, x: T)
    ensures SumValues(Inc(m, x)) == SumValues(m) + 1
  {
    var m' := Inc(m, x);
    SumValuesRemove(m', x);
    if x in m {
      SumValuesRemove(m, x);
      assert m' - {x} == m - {x};
    } else {
      assert m' - {x} == m;
    }
  }

  /** The values of a tally add up to the number of counted elements. */
  lemma {:induction false} SumValuesTally<T>(xs: seq<T>)
    ensures SumValues(Tally(xs)) == |xs|
  {
    if xs != [] {
      SumValuesTally(xs[..|xs| - 1]);
      SumValuesInc(Tally(xs[..|xs| - 1]), xs[|xs| - 1]);
    }
  }

  // --------------------------------------------------------- filter-map

  /** The values f gives to the elements of s, in order, skipping the
      elements for which it gives None. */
  function FilterMap<A, B>(s: seq<A>, f: A -> Option<B>): seq<B>
  {
    if s == [] then []
    else
      var init := FilterMap(s[..|s| - 1], f);
      match f(s[|s| - 1])
      case Some(b) => init + [b]
      case None => init
  }

  /** Extending the input by one element extends the output by that
      element's value, if it has one. */
  lemma FilterMapStep<A, B>(s: seq<A>, f: A -> Option<B>, i: nat)
    requires i < |s|
    ensures FilterMap(s[..i + 1], f) == FilterMap(s[..i], f) + (match f(s[i]) case Some(b) => [b] case None => [])
  {
    assert s[..i + 1][..i] == s[..i];
  }

  /** Appending one element appends its value, if it has one. */
  lemma FilterMapSnoc<A, B>(s: seq<A>, x: A, f: A -> Option<B>)
    ensures FilterMap(s + [x], f) == FilterMap(s, f) + (match f(x) case Some(b) => [b] case None => [])
  {
    assert (s + [x])[..|s|] == s;
  }

  /** The number of elements of s that f maps to Some(y). */
  function Occurrences<A, B(==)>(s: seq<A>, f: A -> Option<B>, y: B): nat
  {
    if s == [] then 0
    else Occurrences(s[..|s| - 1], f, y) + (if f(s[|s| - 1]) == Some(y) then 1 else 0)
  }

  /** The number of elements of s that f maps to some value. */
  function Kept<A, B>(s: seq<A>, f: A -> Option<B>): nat
  {
    if s == [] then 0
    else Kept(s[..|s| - 1], f) + (if f(s[|s| - 1]).Some? then 1 else 0)
  }

  /** Filter-map keeps one value per element that has one, and each value y
      occurs as often as there are elements mapped to y. */
  lemma {:induction false} FilterMapCounts<A, B>(s: seq<A>, f: A -> Option<B>)
    ensures |FilterMap(s, f)| == Kept(s, f)
    ensures forall y :: multiset(FilterMap(s, f))[y] == Occurrences(s, f, y)
  {
    if s != [] {
      FilterMapCounts(s[..|s| - 1], f);
    }
  }

  /** Filter-map distributes over concatenation. */
  lemma {:induction false} FilterMapAppend<A, B>(a: seq<A>, b: seq<A>, f: A -> Option<B>)
    ensures FilterMap(a + b, f) == FilterMap(a, f) + FilterMap(b, f)
    decreases |b|
  {
    if b == [] {
      assert a + b == a;
    } else {
      var b' := b[..|b| - 1];
      assert (a + b)[..|a + b| - 1] == a + b';
      assert (a + b)[|a + b| - 1] == b[|b| - 1];
      FilterMapAppend(a, b', f);
    }
  }

  /** Filter-map of a single element. */
  lemma FilterMapSingle<A, B>(x: A, f: A -> Option<B>)
    ensures FilterMap([x], f) == (match f(x) case Some(b) => [b] case None => [])
  {
    assert [x][..0] == [];
  }

  lemma SplitAt<A>(b: seq<A>, j: nat)
    requires j < |b|
    ensures b == b[..j] + [b[j]] + b[j + 1..]
  {
  }

  /** Filter-map of a sequence with one element taken out of the middle. */
  lemma FilterMapAround<A, B>(b: seq<A>, j: nat, f: A -> Option<B>)
    requires j < |b|
    ensures multiset(FilterMap(b, f))
            == multiset(FilterMap(b[..j] + b[j + 1..], f)) + multiset(FilterMap([b[j]], f))
  {
    var before, x, after := b[..j], b[j], b[j + 1..];
    SplitAt(b, j);
    FilterMapAppend(before, [x], f);
    FilterMapAppend(before + [x], after, f);
    FilterMapAppend(before, after, f);
  }

  /** Taking the last element out of a and an equal element out of b keeps
      the multisets equal. */
  lemma RemoveMatching<A>(a: seq<A>, b: seq<A>, j: nat)
    requires multiset(a) == multiset(b)
    requires a != [] && j < |b| && b[j] == a[|a| - 1]
    ensures multiset(a[..|a| - 1]) == multiset(b[..j] + b[j + 1..])
  {
    var init, x := a[..|a| - 1], a[|a| - 1];
    assert a == init + [x];
    assert b == b[..j] + [x] + b[j + 1..];
    assert multiset(init) == multiset(a) - multiset{x};
    assert multiset(b[..j] + b[j + 1..]) == multiset(b) - multiset{x};
  }

  /** Permuting the input permutes the output. */
  lemma {:induction false} FilterMapPermutation<A, B>(a: seq<A>, b: seq<A>, f: A -> Option<B>)
    requires multiset(a) == multiset(b)
    ensures multiset(FilterMap(a, f)) == multiset(FilterMap(b, f))
    decreases |a|
  {
    if a == [] {
      assert |b| == |multiset(b)| == 0;
    } else {
      var init := a[..|a| - 1];
      assert a[|a| - 1] in multiset(b);
      var j :| 0 <= j < |b| && b[j] == a[|a| - 1];
      RemoveMatching(a, b, j);
      FilterMapPermutation(init, b[..j] + b[j + 1..], f);
      FilterMapAround(a, |a| - 1, f);
      assert a[..|a| - 1] + a[|a|..] == init;
      FilterMapAround(b, j, f);
    }
  }

  /** Tallying the filter-mapped values counts, for each value, the
      elements mapped to it. */
  lemma TallyFilterMap<A, B>(s: seq<A>, f: A -> Option<B>)
    ensures forall y :: Get(Tally(FilterMap(s, f)), y) == Occurrences(s, f, y)
    ensures forall y :: y in Tally(FilterMap(s, f)) <==> Occurrences(s, f, y) > 0
  {
    TallyCounts(FilterMap(s, f));
    FilterMapCounts(s, f);
  }
}
