/**
 * Reference definitions over plain sequences, independent of how the
 * type-list operations compute their results: filtering by a predicate,
 * subsequences, duplicate-freedom, first indices and the list of first
 * occurrences. The lemmas here say what these definitions mean; the
 * type-list model is then proved against them.
 */
module Sequences {

  /** `a` is obtained from `b` by deleting some elements, keeping the order of the rest. */
  predicate Subsequence<T(==)>(a: seq<T>, b: seq<T>)
    decreases |b|
  {
    a == [] || (b != [] && ((a[0] == b[0] && Subsequence(a[1..], b[1..])) || Subsequence(a, b[1..])))
  }

  /** The elements of `s` that satisfy `p`, in their order in `s`. */
  function Filtered<T>(p: T -> bool, s: seq<T>): seq<T>
    decreases |s|
  {
    if s == [] then [] else (if p(s[0]) then [s[0]] else []) + Filtered(p, s[1..])
  }

  /** No element occurs twice. */
  predicate NoDuplicates<T(==)>(s: seq<T>)
  {
    forall i, j :: 0 <= i < j < |s| ==> s[i] != s[j]
  }

  /** The position of the first occurrence of `x` in `s`. */
  function FirstIndex<T(==)>(x: T, s: seq<T>): (k: nat)
    requires x in s
    ensures k < |s| && s[k] == x && x !in s[..k]
    decreases |s|
  {
    if s[0] == x then 0 else 1 + FirstIndex(x, s[1..])
  }

  /** The first occurrence of every element of `s`, in the order of those occurrences. */
  function FirstOccurrences<T(==)>(s: seq<T>): seq<T>
    decreases |s|
  {
    if s == [] then []
    else
      var init, last := s[..|s| - 1], s[|s| - 1];
      FirstOccurrences(init) + (if last in init then [] else [last])
  }

  // ---------------------------------------------------------------------------
  // Filtered

  /** Each element occurs in the filtered sequence exactly as often as in `s` if it satisfies `p`, and never otherwise. */
  lemma {:induction false} FilteredCount<T>(p: T -> bool, s: seq<T>, x: T)
    ensures multiset(Filtered(p, s))[x] == if p(x) then multiset(s)[x] else 0
    decreases |s|
  {
    if s != [] {
      FilteredCount(p, s[1..], x);
      assert s == [s[0]] + s[1..];
    }
  }

  /** Filtering keeps the relative order of the elements it retains. */
  lemma {:induction false} FilteredSubsequence<T>(p: T -> bool, s: seq<T>)
    ensures Subsequence(Filtered(p, s), s)
    decreases |s|
  {
    if s != [] {
      FilteredSubsequence(p, s[1..]);
      var r := Filtered(p, s);
      if p(s[0]) {
        assert r[0] == s[0] && r[1..] == Filtered(p, s[1..]);
      } else {
        assert r == Filtered(p, s[1..]);
      }
    }
  }

  /** Filtering a concatenation filters each part. */
  lemma {:induction false} FilteredConcat<T>(p: T -> bool, a: seq<T>, b: seq<T>)
    ensures Filtered(p, a + b) == Filtered(p, a) + Filtered(p, b)
    decreases |a|
  {
    if a == [] {
      assert a + b == b;
    } else {
      var head := if p(a[0]) then [a[0]] else [];
      calc {
        Filtered(p, a + b);
        { assert (a + b)[0] == a[0] && (a + b)[1..] == a[1..] + b; }
        head + Filtered(p, a[1..] + b);
        { FilteredConcat(p, a[1..], b); }
        head + (Filtered(p, a[1..]) + Filtered(p, b));
        (head + Filtered(p, a[1..])) + Filtered(p, b);
        Filtered(p, a) + Filtered(p, b);
      }
    }
  }

  /** When every element satisfies `p`, filtering changes nothing. */
  lemma {:induction false} FilteredAll<T>(p: T -> bool, s: seq<T>)
    requires forall i :: 0 <= i < |s| ==> p(s[i])
    ensures Filtered(p, s) == s
    decreases |s|
  {
    if s != [] {
      FilteredAll(p, s[1..]);
      assert s == [s[0]] + s[1..];
    }
  }

  /** When no element satisfies `p`, the result is empty. */
  lemma {:induction false} FilteredNone<T>(p: T -> bool, s: seq<T>)
    requires forall i :: 0 <= i < |s| ==> !p(s[i])
    ensures Filtered(p, s) == []
    decreases |s|
  {
    if s != [] {
      FilteredNone(p, s[1..]);
    }
  }

  // ---------------------------------------------------------------------------
  // First indices

  /** The first index is the only position of `x` with no earlier `x`. */
  lemma FirstIndexUnique<T>(x: T, s: seq<T>, k: nat)
    requires k < |s| && s[k] == x && x !in s[..k]
    ensures FirstIndex(x, s) == k
  {
  }

  /** Appending after `a` does not move the first occurrence of an element of `a`. */
  lemma FirstIndexPrefix<T>(x: T, a: seq<T>, b: seq<T>)
    requires x in a
    ensures FirstIndex(x, a + b) == FirstIndex(x, a)
  {
    var k := FirstIndex(x, a);
    assert (a + b)[..k] == a[..k];
    FirstIndexUnique(x, a + b, k);
  }

  // ---------------------------------------------------------------------------
  // FirstOccurrences

  lemma SnocSplit<T>(s: seq<T>)
    requires s != []
    ensures s == s[..|s| - 1] + [s[|s| - 1]]
  {
  }

  /** The first occurrences of `s` are exactly the elements of `s`. */
  lemma {:induction false} FirstOccurrencesMembers<T>(s: seq<T>, x: T)
    ensures x in FirstOccurrences(s) <==> x in s
    decreases |s|
  {
    if s != [] {
      SnocSplit(s);
      FirstOccurrencesMembers(s[..|s| - 1], x);
    }
  }

  /** The first occurrences of `s` contain no duplicates. */
  lemma {:induction false} FirstOccurrencesDistinct<T>(s: seq<T>)
    ensures NoDuplicates(FirstOccurrences(s))
    decreases |s|
  {
    if s != [] {
      var init, last := s[..|s| - 1], s[|s| - 1];
      FirstOccurrencesDistinct(init);
      FirstOccurrencesMembers(init, last);
    }
  }

  /** No element is added: the first occurrences are never longer than `s`. */
  lemma {:induction false} FirstOccurrencesLength<T>(s: seq<T>)
    ensures |FirstOccurrences(s)| <= |s|
    decreases |s|
  {
    if s != [] {
      FirstOccurrencesLength(s[..|s| - 1]);
    }
  }

  /** On a duplicate-free sequence, taking first occurrences is the identity. */
  lemma {:induction false} FirstOccurrencesOfDistinct<T>(s: seq<T>)
    requires NoDuplicates(s)
    ensures FirstOccurrences(s) == s
    decreases |s|
  {
    if s != [] {
      var init, last := s[..|s| - 1], s[|s| - 1];
      assert NoDuplicates(init) by {
        forall i, j | 0 <= i < j < |init| ensures init[i] != init[j] {
          assert init[i] == s[i] && init[j] == s[j];
        }
      }
      FirstOccurrencesOfDistinct(init);
      assert last !in init;
      SnocSplit(s);
    }
  }

  /** Taking first occurrences twice is the same as taking them once. */
  lemma FirstOccurrencesIdempotent<T>(s: seq<T>)
    ensures FirstOccurrences(FirstOccurrences(s)) == FirstOccurrences(s)
  {
    FirstOccurrencesDistinct(s);
    FirstOccurrencesOfDistinct(FirstOccurrences(s));
  }

  /**
   * The first occurrences appear in the order of their first positions in `s`:
   * an element listed earlier occurs earlier in `s`.
   */
  lemma {:induction false} FirstOccurrencesOrdered<T>(s: seq<T>, i: nat, j: nat)
    requires i < j < |FirstOccurrences(s)|
    ensures FirstOccurrences(s)[i] in s && FirstOccurrences(s)[j] in s
    ensures FirstIndex(FirstOccurrences(s)[i], s) < FirstIndex(FirstOccurrences(s)[j], s)
    decreases |s|
  {
    var init, last := s[..|s| - 1], s[|s| - 1];
    var fo, fi := FirstOccurrences(s), FirstOccurrences(init);
    SnocSplit(s);
    FirstOccurrencesMembers(init, fo[i]);
    FirstOccurrencesMembers(init, fo[j]);
    if j < |fi| {
      FirstOccurrencesOrdered(init, i, j);
      FirstIndexPrefix(fo[i], init, [last]);
      FirstIndexPrefix(fo[j], init, [last]);
    } else {
      // fo[j] is `last`, which does not occur in `init`
      assert fo[j] == last && last !in init;
      FirstIndexPrefix(fo[i], init, [last]);
      FirstIndexUnique(last, s, |s| - 1);
    }
  }
}
