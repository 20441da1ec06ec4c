/**
 * The pure list operations applied to queue names (src/bull.js):
 * `new Set(...)` deduplication in insertion order, `Array.prototype.sort`
 * on strings, and the `filter(... !includes(...))` set differences that
 * refresh computes.
 */
module Names {

  predicate Distinct<T(==)>(s: seq<T>) {
    forall i, j :: 0 <= i < j < |s| ==> s[i] != s[j]
  }

  /** `Array.from(new Set(s))`: each value once, at the position of its
      first occurrence (a Set iterates in insertion order). */
  function Dedup(s: seq<string>): (r: seq<string>)
    ensures Distinct(r)
    ensures forall x :: x in r <==> x in s
  {
    if s == [] then []
    else
      var last := s[|s| - 1];
      var d := Dedup(s[..|s| - 1]);
      assert s == s[..|s| - 1] + [last];
      if last in d then d else d + [last]
  }

  /** Insertion order: deduplicating a prefix of the input yields a prefix
      of the result, so later keys never reorder names already seen. */
  lemma {:induction false} DedupPrefix(s: seq<string>, k: nat)
    requires k <= |s|
    ensures Dedup(s[..k]) <= Dedup(s)
  {
    if k < |s| {
      var init := s[..|s| - 1];
      assert init[..k] == s[..k];
      DedupPrefix(init, k);
    } else {
      assert s[..k] == s;
    }
  }

  /** An input without duplicates is left as it is. */
  lemma {:induction false} DedupDistinct(s: seq<string>)
    requires Distinct(s)
    ensures Dedup(s) == s
  {
    if s != [] {
      var init := s[..|s| - 1];
      DedupDistinct(init);
      assert s[|s| - 1] !in init;
      assert s == init + [s[|s| - 1]];
    }
  }

  /** JavaScript's default string order, as lexicographic order on
      characters: `a` comes no later than `b`. */
  predicate Below(a: string, b: string) {
    |a| == 0 || (|b| > 0 && (a[0] < b[0] || (a[0] == b[0] && Below(a[1..], b[1..]))))
  }

  lemma {:induction false} BelowTotal(a: string, b: string)
    ensures Below(a, b) || Below(b, a)
  {
    if |a| > 0 && |b| > 0 && a[0] == b[0] {
      BelowTotal(a[1..], b[1..]);
    }
  }

  lemma {:induction false} BelowAntisymmetric(a: string, b: string)
    requires Below(a, b) && Below(b, a)
    ensures a == b
  {
    if |a| > 0 && |b| > 0 {
      BelowAntisymmetric(a[1..], b[1..]);
      assert a == [a[0]] + a[1..] && b == [b[0]] + b[1..];
    }
  }

  lemma {:induction false} BelowTransitive(a: string, b: string, c: string)
    requires Below(a, b) && Below(b, c)
    ensures Below(a, c)
  {
    if |a| > 0 && |b| > 0 && |c| > 0 && a[0] == b[0] == c[0] {
      BelowTransitive(a[1..], b[1..], c[1..]);
    }
  }

  predicate Ascending(s: seq<string>) {
    forall i :: 0 <= i < |s| - 1 ==> Below(s[i], s[i + 1])
  }

  function Insert(x: string, s: seq<string>): (r: seq<string>)
    ensures multiset(r) == multiset(s) + multiset{x}
    ensures |r| > 0 && (r[0] == x || (|s| > 0 && r[0] == s[0]))
  {
    if s == [] then [x]
    else if Below(x, s[0]) then [x] + s
    else
      assert s == [s[0]] + s[1..];
      [s[0]] + Insert(x, s[1..])
  }

  lemma {:induction false} InsertAscending(x: string, s: seq<string>)
    requires Ascending(s)
    ensures Ascending(Insert(x, s))
  {
    if s != [] && !Below(x, s[0]) {
      BelowTotal(x, s[0]);
      InsertAscending(x, s[1..]);
    }
  }

  lemma {:induction false} InsertDistinct(x: string, s: seq<string>)
    requires x !in s && Distinct(s)
    ensures Distinct(Insert(x, s))
  {
    if s != [] && !Below(x, s[0]) {
      var tail := Insert(x, s[1..]);
      InsertDistinct(x, s[1..]);
      assert s == [s[0]] + s[1..];
      assert s[0] !in multiset(tail);
      DistinctAppend([s[0]], tail);
    }
  }

  /** `Array.prototype.sort()` on distinct strings: an ascending
      permutation of the input. */
  function Sort(s: seq<string>): (r: seq<string>)
    ensures multiset(r) == multiset(s)
    ensures Ascending(r)
  {
    if s == [] then []
    else
      assert s == [s[0]] + s[1..];
      var sorted := Sort(s[1..]);
      InsertAscending(s[0], sorted);
      Insert(s[0], sorted)
  }

  /** Sorting keeps a duplicate-free list duplicate-free. */
  lemma {:induction false} SortDistinct(s: seq<string>)
    requires Distinct(s)
    ensures Distinct(Sort(s))
  {
    if s != [] {
      assert s == [s[0]] + s[1..];
      var sorted := Sort(s[1..]);
      SortDistinct(s[1..]);
      assert s[0] !in multiset(s[1..]);
      InsertDistinct(s[0], sorted);
    }
  }

  /** `Array.from(new Set(c)).sort()`: each candidate once, in ascending
      order; empty exactly when there is no candidate. */
  lemma {:induction false} SortedNames(c: seq<string>)
    ensures var names := Sort(Dedup(c));
            Distinct(names) && Ascending(names)
            && (forall x :: x in names <==> x in c)
            && (|names| == 0 <==> c == [])
  {
    var d := Dedup(c);
    var names := Sort(d);
    SortDistinct(d);
    assert forall x :: x in names <==> x in multiset(d);
    if c != [] {
      assert c[0] in d;
      assert c[0] in multiset(d);
    }
  }

  /** The ascending arrangement of a collection of names is unique, so the
      sorted bootstrap list is determined by the scanned names alone. */
  lemma {:induction false} SortedUnique(a: seq<string>, b: seq<string>)
    requires Ascending(a) && Ascending(b) && multiset(a) == multiset(b)
    ensures a == b
  {
    if a != [] {
      SameHead(a, b);
      TailMultiset(a);
      TailMultiset(b);
      AscendingTail(a);
      AscendingTail(b);
      SortedUnique(a[1..], b[1..]);
      assert a == [a[0]] + a[1..] && b == [b[0]] + b[1..];
    } else {
      assert |b| == |multiset(b)|;
    }
  }

  /** Two ascending arrangements of the same names start alike. */
  lemma {:induction false} SameHead(a: seq<string>, b: seq<string>)
    requires Ascending(a) && Ascending(b) && multiset(a) == multiset(b) && a != []
    ensures b != [] && a[0] == b[0]
  {
    assert a[0] in multiset(b);
    assert b[0] in multiset(a);
    LeastFirst(a, b[0]);
    LeastFirst(b, a[0]);
    BelowAntisymmetric(a[0], b[0]);
  }

  lemma {:induction false} TailMultiset(s: seq<string>)
    requires s != []
    ensures multiset(s[1..]) == multiset(s) - multiset{s[0]}
  {
    assert s == [s[0]] + s[1..];
  }

  lemma {:induction false} AscendingTail(s: seq<string>)
    requires s != [] && Ascending(s)
    ensures Ascending(s[1..])
  {
    forall i | 0 <= i < |s| - 2
      ensures Below(s[1..][i], s[1..][i + 1])
    {
      assert s[1..][i] == s[i + 1] && s[1..][i + 1] == s[i + 2];
    }
  }

  /** The head of an ascending list is below each of its elements. */
  lemma {:induction false} LeastFirst(s: seq<string>, x: string)
    requires Ascending(s) && x in s
    ensures Below(s[0], x)
  {
    if s[0] == x {
      BelowReflexive(x);
    } else {
      LeastFirst(s[1..], x);
      BelowTransitive(s[0], s[1], x);
    }
  }

  lemma {:induction false} BelowReflexive(a: string)
    ensures Below(a, a)
  {
    if |a| > 0 {
      BelowReflexive(a[1..]);
    }
  }

  /** `s.filter(x => !other.includes(x))`: the elements of `s` absent from
      `other`, in the order of `s`. */
  function Missing(s: seq<string>, other: seq<string>): (r: seq<string>)
    ensures forall x :: x in r <==> x in s && x !in other
    ensures Distinct(s) ==> Distinct(r)
  {
    if s == [] then []
    else
      var rest := Missing(s[1..], other);
      assert s == [s[0]] + s[1..];
      if s[0] in other then rest else [s[0]] + rest
  }

  /** Filtering keeps order: it distributes over concatenation. */
  lemma {:induction false} MissingAppend(a: seq<string>, b: seq<string>, other: seq<string>)
    ensures Missing(a + b, other) == Missing(a, other) + Missing(b, other)
  {
    if a != [] {
      assert (a + b)[1..] == a[1..] + b;
      MissingAppend(a[1..], b, other);
    } else {
      assert a + b == b;
    }
  }

  /** The names refresh ends with: the kept ones (current minus
      removeKeys) followed by addKeys. They are exactly the freshly
      scanned names, each once. */
  lemma {:induction false} ReconciledNames(current: seq<string>, uniq: seq<string>)
    requires Distinct(current) && Distinct(uniq)
    ensures var after := Missing(current, Missing(current, uniq)) + Missing(uniq, current);
            Distinct(after) && forall x :: x in after <==> x in uniq
  {
    var kept := Missing(current, Missing(current, uniq));
    var added := Missing(uniq, current);
    DistinctAppend(kept, added);
  }

  lemma {:induction false} DistinctAppend(a: seq<string>, b: seq<string>)
    requires Distinct(a) && Distinct(b)
    requires forall x :: x in a ==> x !in b
    ensures Distinct(a + b)
  {
    forall i, j | 0 <= i < j < |a + b|
      ensures (a + b)[i] != (a + b)[j]
    {
      if j >= |a| && i < |a| {
        assert (a + b)[i] in a && (a + b)[j] in b;
      }
    }
  }

  /** Both differences of two lists holding the same names are empty:
      a second refresh against an unchanged store has nothing to do. */
  lemma {:induction false} SameNamesNoDiff(current: seq<string>, uniq: seq<string>)
    requires forall x :: x in current <==> x in uniq
    ensures Missing(uniq, current) == [] && Missing(current, uniq) == []
  {
    MissingNone(uniq, current);
    MissingNone(current, uniq);
  }

  lemma {:induction false} MissingNone(s: seq<string>, other: seq<string>)
    requires forall x :: x in s ==> x in other
    ensures Missing(s, other) == []
  {
    if s != [] {
      assert s[0] in other;
      MissingNone(s[1..], other);
    }
  }
}
