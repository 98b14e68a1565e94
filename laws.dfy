/**
 * Laws of the type-list algebra: how the operations of `TypeList` relate to
 * each other and to the reference definitions of `Sequences`.
 */
module TypeListLaws {
  import opened Sequences
  import opened TypeList

  // ---------------------------------------------------------------------------
  // TypeList and npos

  /**
   * A type is a `TypeList` exactly when it instantiates the `TypeList`
   * template; two `TypeList`s are the same type exactly when their element
   * packs agree, since the empty struct carries nothing else.
   */
  lemma TypeListTemplate(tmpl: string, ts: seq<Ty>, us: seq<Ty>)
    ensures IsTypeList(Inst(tmpl, ts)) <==> tmpl == TypeListTmpl
    ensures IsTypeList(Inst(tmpl, ts)) ==> IsList(Inst(tmpl, ts))
    ensures Inst(TypeListTmpl, ts) == Inst(TypeListTmpl, us) <==> ts == us
  {
  }

  /**
   * `npos` is the largest 64-bit `size_t`, and on every list shorter than
   * it, it is no index of an element: `index_of` yields either `npos` or a
   * position inside the list.
   */
  lemma NposIsInvalidIndex(t: Ty, l: Ty)
    requires IsList(l) && |l.args| < NPOS
    ensures NPOS == 0xFFFF_FFFF_FFFF_FFFF
    ensures NPOS >= ListSize(l)
    ensures IndexOf(t, l) == NPOS || IndexOf(t, l) < ListSize(l)
  {
  }

  // ---------------------------------------------------------------------------
  // Sizes and accessors

  /** Pushing adds one element; popping removes one unless the list is already empty. */
  lemma SizeLaws(t: Ty, l: Ty)
    requires IsList(l)
    ensures ListSize(PushFront(t, l)) == ListSize(l) + 1
    ensures ListSize(PushBack(t, l)) == ListSize(l) + 1
    ensures ListSize(PopFront(l)) == if ListSize(l) == 0 then 0 else ListSize(l) - 1
    ensures ListSize(PopBack(l)) == if ListSize(l) == 0 then 0 else ListSize(l) - 1
  {
  }

  /** `last_t` is `type_at` at the last index, and on a one-element list `first_t` and `last_t` agree. */
  lemma LastIsTypeAt(l: Ty)
    requires IsList(l) && ListSize(l) > 0
    ensures Last(l) == TypeAt(ListSize(l) - 1, l)
    ensures ListSize(l) == 1 ==> First(l) == Last(l)
  {
  }

  /** `contains` holds exactly when `index_of` finds an index. */
  lemma ContainsIffIndexOf(t: Ty, l: Ty)
    requires IsList(l) && |l.args| < NPOS
    ensures Contains(t, l) <==> IndexOf(t, l) != NPOS
    ensures Contains(t, l) ==> TypeAt(IndexOf(t, l), l) == t
  {
  }

  // ---------------------------------------------------------------------------
  // Front and back

  /** An element pushed at the front is found at index 0, and is the head. */
  lemma IndexOfPushFront(t: Ty, l: Ty)
    requires IsList(l) && |l.args| + 1 < NPOS
    ensures IndexOf(t, PushFront(t, l)) == 0
    ensures Head(PushFront(t, l)) == t
  {
  }

  /** `pop_front` undoes `push_front` up to the container, which becomes `TypeList`. */
  lemma PopFrontPushFront(t: Ty, l: Ty)
    requires IsList(l)
    ensures PopFront(PushFront(t, l)) == Inst(TypeListTmpl, l.args)
    ensures IsTypeList(l) ==> PopFront(PushFront(t, l)) == l
  {
  }

  /**
   * `pop_back` undoes `push_back` on the elements; it gives back `l` itself
   * exactly when `l` is empty or already a `TypeList`, since a list of two or
   * more elements is rebuilt in a `TypeList`.
   */
  lemma PopBackPushBack(t: Ty, l: Ty)
    requires IsList(l)
    ensures PopBack(PushBack(t, l)).args == l.args
    ensures PopBack(PushBack(t, l)) == l <==> l.args == [] || l.tmpl == TypeListTmpl
  {
  }

  // ---------------------------------------------------------------------------
  // apply, extract, for_each, transform

  /** `extract` after `apply` recovers the elements in a `TypeList`; `apply` to a list's own template after `extract` rebuilds it. */
  lemma ApplyExtract(f: string, l: Ty)
    requires IsList(l)
    ensures Extract(Apply(f, l)) == Extract(l) == Apply(TypeListTmpl, l)
    ensures Apply(l.tmpl, Extract(l)) == l
  {
  }

  /** `for_each` with `F` is `transform` with the function that leaves `F<T>` unresolved. */
  lemma ForEachIsTransform(f: string, l: Ty)
    requires IsList(l)
    ensures ForEach(f, l) == Transform(t => Inst(f, [t]), l)
  {
  }

  /** `transform` with the identity leaves a list unchanged. */
  lemma TransformIdentity(l: Ty)
    requires IsList(l)
    ensures Transform(t => t, l) == l
  {
  }

  /** `transform` commutes with merging two lists. */
  lemma TransformMerge(f: Ty -> Ty, a: Ty, b: Ty)
    requires IsList(a) && IsList(b)
    ensures Transform(f, Merge([a, b])) == Merge([Transform(f, a), Transform(f, b)])
  {
  }

  // ---------------------------------------------------------------------------
  // merge

  /** The merged length is the sum of the lengths. */
  lemma {:induction false} ConcatenationLength(ls: seq<Ty>)
    requires AllLists(ls)
    ensures |Concatenation(ls)| == TotalSize(ls)
    decreases |ls|
  {
    if ls != [] {
      ConcatenationLength(ls[1..]);
    }
  }

  /** `merge` of any number of lists has the sum of their lengths. */
  lemma MergeSize(ls: seq<Ty>)
    requires AllLists(ls)
    ensures ListSize(Merge(ls)) == TotalSize(ls)
  {
  }

  /** Concatenating the lists of `a + b` concatenates the two results. */
  lemma {:induction false} ConcatenationAppend(a: seq<Ty>, b: seq<Ty>)
    requires AllLists(a) && AllLists(b)
    ensures AllLists(a + b)
    ensures Concatenation(a + b) == Concatenation(a) + Concatenation(b)
    decreases |a|
  {
    if a == [] {
      assert a + b == b;
    } else {
      assert (a + b)[0] == a[0] && (a + b)[1..] == a[1..] + b;
      ConcatenationAppend(a[1..], b);
    }
  }

  /** Merging in stages gives the same list as merging all at once, in the first list's container. */
  lemma MergeNested(ls: seq<Ty>, ms: seq<Ty>)
    requires AllLists(ls) && AllLists(ms) && ls != []
    ensures AllLists([Merge(ls)] + ms) && AllLists(ls + ms)
    ensures Merge([Merge(ls)] + ms) == Merge(ls + ms)
  {
    ConcatenationAppend(ls, ms);
    ConcatenationAppend([Merge(ls)], ms);
    assert [Merge(ls)][1..] == [];
    assert (ls + ms)[0] == ls[0];
  }

  // ---------------------------------------------------------------------------
  // filter

  /**
   * `filter` keeps each element that satisfies `p` as often as it occurs and
   * drops every other, keeps the relative order, and keeps the container.
   */
  lemma FilterKeepsExactly(p: Ty -> bool, l: Ty, x: Ty)
    requires IsList(l)
    ensures Filter(p, l).tmpl == l.tmpl
    ensures multiset(Filter(p, l).args)[x] == if p(x) then multiset(l.args)[x] else 0
    ensures x in Filter(p, l).args <==> x in l.args && p(x)
    ensures Subsequence(Filter(p, l).args, l.args)
  {
    FilteredCount(p, l.args, x);
    FilteredSubsequence(p, l.args);
  }

  /** If no element qualifies the result is an empty list in the input's container. */
  lemma FilterNone(p: Ty -> bool, l: Ty)
    requires IsList(l) && forall i :: 0 <= i < |l.args| ==> !p(l.args[i])
    ensures Filter(p, l) == Inst(l.tmpl, [])
  {
    FilteredNone(p, l.args);
  }

  /** Filtering twice with the same predicate is filtering once. */
  lemma FilterIdempotent(p: Ty -> bool, l: Ty)
    requires IsList(l)
    ensures Filter(p, Filter(p, l)) == Filter(p, l)
  {
    var f := Filter(p, l);
    forall i | 0 <= i < |f.args| ensures p(f.args[i]) {
      FilteredCount(p, l.args, f.args[i]);
    }
    FilteredAll(p, f.args);
  }

  /** `filter` commutes with merging two lists. */
  lemma FilterMerge(p: Ty -> bool, a: Ty, b: Ty)
    requires IsList(a) && IsList(b)
    ensures Filter(p, Merge([a, b])) == Merge([Filter(p, a), Filter(p, b)])
  {
    var x, y := Filter(p, a), Filter(p, b);
    assert [a, b][1..] == [b] && [b][1..] == [];
    assert [x, y][1..] == [y] && [y][1..] == [];
    FilteredConcat(p, a.args, b.args);
  }

  // ---------------------------------------------------------------------------
  // remove_duplicates

  /** `remove_duplicates` keeps exactly the elements of its input. */
  lemma RemoveDuplicatesMembers(l: Ty, x: Ty)
    requires IsList(l)
    ensures x in RemoveDuplicates(l).args <==> x in l.args
  {
    FirstOccurrencesMembers(l.args, x);
  }

  /** The kept elements appear in the order of their first occurrences, as `index_of` reports them. */
  lemma RemoveDuplicatesOrder(l: Ty, i: nat, j: nat)
    requires IsList(l) && |l.args| < NPOS && i < j < |RemoveDuplicates(l).args|
    ensures IndexOf(RemoveDuplicates(l).args[i], l) < IndexOf(RemoveDuplicates(l).args[j], l)
  {
    FirstOccurrencesOrdered(l.args, i, j);
    var r := RemoveDuplicates(l).args;
    FirstIndexUnique(r[i], l.args, IndexOf(r[i], l));
    FirstIndexUnique(r[j], l.args, IndexOf(r[j], l));
  }

  /** On a duplicate-free list `remove_duplicates` is the identity. */
  lemma RemoveDuplicatesOfDistinct(l: Ty)
    requires IsList(l) && NoDuplicates(l.args)
    ensures RemoveDuplicates(l) == l
  {
    FirstOccurrencesOfDistinct(l.args);
  }

  /** Applying `remove_duplicates` twice is the same as applying it once. */
  lemma RemoveDuplicatesIdempotent(l: Ty)
    requires IsList(l)
    ensures RemoveDuplicates(RemoveDuplicates(l)) == RemoveDuplicates(l)
  {
    RemoveDuplicatesOfDistinct(RemoveDuplicates(l));
  }
}
