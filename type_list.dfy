/**
 * The type-list algebra of `type_list.hpp`, one function per meta function.
 *
 * A C++ meta function is a class template whose partial specialisations
 * pattern-match a template instantiation `List<Ts...>` and either name a
 * result type (`::type`) or a constant (`::value`). Here each becomes a
 * function over `Ty`; an input for which no specialisation matches (a
 * compile error in C++) is excluded by a `requires` clause.
 */
module TypeList {
  import opened Sequences

  /**
   * A C++ type as template matching sees it: a type without template
   * arguments (`int`, `unsigned long`), or an instantiation `tmpl<args...>`
   * of a class template over type parameters. Structural equality of `Ty`
   * is `std::is_same`.
   */
  datatype Ty = Atom(name: string) | Inst(tmpl: string, args: seq<Ty>)

  /** The name of the library's own container template `TypeList`. */
  const TypeListTmpl: string := "TypeList"

  /** `npos`: the largest value of `size_t`, taken to be 64 bits wide. */
  const NPOS: nat := 0x1_0000_0000_0000_0000 - 1

  /** A type list: any instantiation of a template over type parameters. */
  predicate IsList(l: Ty)
  {
    l.Inst?
  }

  /** An instantiation of the library's own `TypeList` template. */
  predicate IsTypeList(l: Ty)
  {
    l.Inst? && l.tmpl == TypeListTmpl
  }

  // ---------------------------------------------------------------------------
  // TypeList and its comparison operators

  /**
   * `operator==` on two `TypeList`s: the overload for one pack `Ts...` on both
   * sides is the more specialised and yields true; the overload for two packs
   * yields false.
   */
  function Equal(a: Ty, b: Ty): (r: bool)
    requires IsTypeList(a) && IsTypeList(b)
    ensures r <==> a == b
  {
    a.args == b.args
  }

  /** `operator!=` on two `TypeList`s, with the same overload selection. */
  function NotEqual(a: Ty, b: Ty): (r: bool)
    requires IsTypeList(a) && IsTypeList(b)
    ensures r <==> a != b
    ensures r == !Equal(a, b)
  {
    a.args != b.args
  }

  // ---------------------------------------------------------------------------
  // Internal helpers

  /**
   * `index_of_impl<N, T, Ts...>`: `N` is the index of the first of `ts`;
   * the specialisation whose first element is `T` itself wins over the one
   * that recurses, and an empty pack gives `npos`.
   */
  function IndexOfImpl(n: nat, t: Ty, ts: seq<Ty>): (r: nat)
    requires n + |ts| < NPOS
    ensures r == NPOS <==> t !in ts
    ensures r != NPOS ==> n <= r < n + |ts| && ts[r - n] == t && t !in ts[..r - n]
    decreases |ts|
  {
    if ts == [] then NPOS
    else if ts[0] == t then n
    else IndexOfImpl(n + 1, t, ts[1..])
  }

  /**
   * `type_at_impl<N, T, Ts...>`: index 0 names the first element, any other
   * index recurses on the rest with `N - 1`; running out of elements matches
   * nothing.
   */
  function TypeAtImpl(n: nat, ts: seq<Ty>): (r: Ty)
    requires n < |ts|
    ensures r == ts[n]
    decreases n
  {
    if n == 0 then ts[0] else TypeAtImpl(n - 1, ts[1..])
  }

  /**
   * `disjunction_helper<B, Ts...>`: true as soon as the flag is true, false
   * when the flag is false and nothing is left, otherwise the next value
   * becomes the flag.
   */
  function DisjunctionHelper(b: bool, bs: seq<bool>): (r: bool)
    ensures r <==> b || true in bs
    decreases |bs|
  {
    if b then true
    else if bs == [] then false
    else
      assert bs == [bs[0]] + bs[1..];
      DisjunctionHelper(bs[0], bs[1..])
  }

  /** `disjunction<Ts...>`: starts the helper with a false flag. */
  function Disjunction(bs: seq<bool>): (r: bool)
    ensures r <==> true in bs
  {
    DisjunctionHelper(false, bs)
  }

  // ---------------------------------------------------------------------------
  // Accessors

  /** `head<List<T, Ts...>>`: there is no specialisation for an empty list. */
  function Head(l: Ty): (r: Ty)
    requires IsList(l) && |l.args| > 0
    ensures r == TypeAt(0, l)
  {
    l.args[0]
  }

  /** `tail<List>`: total; the empty list maps to itself, otherwise the first element is dropped. */
  function Tail(l: Ty): (r: Ty)
    requires IsList(l)
    ensures IsList(r) && r.tmpl == l.tmpl
    ensures |r.args| == if |l.args| == 0 then 0 else |l.args| - 1
    ensures forall i :: 0 <= i < |r.args| ==> r.args[i] == l.args[i + 1]
  {
    if l.args == [] then Inst(l.tmpl, []) else Inst(l.tmpl, l.args[1..])
  }

  /** `list_size<List<Ts...>>`: `sizeof...(Ts)`. */
  function ListSize(l: Ty): (r: nat)
    requires IsList(l)
    ensures r == |l.args|
  {
    |l.args|
  }

  /**
   * `index_of<T, List>`: the index of the first occurrence of `t`, or `npos`.
   * The sentinel cannot collide with an index because every index is below
   * the list's length, which is below `npos`.
   */
  function IndexOf(t: Ty, l: Ty): (r: nat)
    requires IsList(l) && |l.args| < NPOS
    ensures r == NPOS <==> t !in l.args
    ensures r != NPOS ==> r < |l.args| && l.args[r] == t && t !in l.args[..r]
  {
    IndexOfImpl(0, t, l.args)
  }

  /** `type_at<N, List>`: the `N`-th element; an index past the end matches nothing. */
  function TypeAt(n: nat, l: Ty): (r: Ty)
    requires IsList(l) && n < |l.args|
    ensures r == l.args[n]
  {
    TypeAtImpl(n, l.args)
  }

  /** `first_t<List>`: the same meta function as `head`. */
  function First(l: Ty): (r: Ty)
    requires IsList(l) && |l.args| > 0
    ensures r == TypeAt(0, l)
  {
    Head(l)
  }

  /**
   * `last_t<List>`: `type_at` at `list_size - 1`. On an empty list the index
   * wraps round to `npos` and nothing matches, hence the precondition.
   */
  function Last(l: Ty): (r: Ty)
    requires IsList(l) && |l.args| > 0
    ensures r == l.args[|l.args| - 1]
  {
    TypeAt(ListSize(l) - 1, l)
  }

  /** `contains<T, List<Ts...>>`: the disjunction of `std::is_same<T, Ts>...`. */
  function Contains(t: Ty, l: Ty): (r: bool)
    requires IsList(l)
    ensures r <==> t in l.args
  {
    var same := seq(|l.args|, i requires 0 <= i < |l.args| => l.args[i] == t);
    assert t in l.args ==> same[FirstIndex(t, l.args)];
    Disjunction(same)
  }

  // ---------------------------------------------------------------------------
  // Structural mutators

  /** `push_front<T, List<Ts...>>`: always `TypeList<T, Ts...>`, whatever the input's container. */
  function PushFront(t: Ty, l: Ty): (r: Ty)
    requires IsList(l)
    ensures IsTypeList(r) && |r.args| == |l.args| + 1
    ensures r.args[0] == t && r.args[1..] == l.args
  {
    Inst(TypeListTmpl, [t] + l.args)
  }

  /** `pop_front<List>`: total, and the same function as `tail`. */
  function PopFront(l: Ty): (r: Ty)
    requires IsList(l)
    ensures r == Tail(l)
  {
    if l.args == [] then Inst(l.tmpl, []) else Inst(l.tmpl, l.args[1..])
  }

  /** `push_back<T, List<Ts...>>`: `List<Ts..., T>`, in the input's container. */
  function PushBack(t: Ty, l: Ty): (r: Ty)
    requires IsList(l)
    ensures IsList(r) && r.tmpl == l.tmpl && |r.args| == |l.args| + 1
    ensures r.args[..|l.args|] == l.args && r.args[|l.args|] == t
  {
    Inst(l.tmpl, l.args + [t])
  }

  /**
   * `pop_back_impl<List, I>`: `I` counts the elements still to be visited.
   * `List<>` with 0 and `List<T>` with 1 give `List<>`; otherwise the first
   * element is put back with `push_front_t` in front of the recursive result.
   * Only a counter equal to the length ever reaches a base case, so that is
   * what is required of the caller, and each recursive call keeps it.
   */
  function PopBackImpl(l: Ty, i: nat): (r: Ty)
    requires IsList(l) && i == |l.args|
    ensures IsList(r) && |r.args| == (if i == 0 then 0 else i - 1)
    ensures r.args == l.args[..|r.args|]
    ensures r.tmpl == if i >= 2 then TypeListTmpl else l.tmpl
    decreases i
  {
    if i == 0 then Inst(l.tmpl, [])
    else if i == 1 then Inst(l.tmpl, [])
    else
      var rest := PopBackImpl(Inst(l.tmpl, l.args[1..]), i - 1);
      assert l.args[..i - 1] == [l.args[0]] + l.args[1..][..i - 2];
      PushFront(l.args[0], rest)
  }

  /**
   * `pop_back<List>`: total; keeps all elements but the last, in order. A list
   * of zero or one element gives `List<>` in its own container; a longer one is
   * rebuilt with `push_front_t`, hence ends up in a `TypeList`.
   */
  function PopBack(l: Ty): (r: Ty)
    requires IsList(l)
    ensures IsList(r) && |r.args| == (if |l.args| == 0 then 0 else |l.args| - 1)
    ensures r.args == l.args[..|r.args|]
    ensures r.tmpl == if |l.args| >= 2 then TypeListTmpl else l.tmpl
  {
    PopBackImpl(l, ListSize(l))
  }

  // ---------------------------------------------------------------------------
  // Higher-order operations

  /** `apply<F, List<Ts...>>`: `F<Ts...>`, for any number of elements. */
  function Apply(f: string, l: Ty): (r: Ty)
    requires IsList(l)
    ensures IsList(r) && r.tmpl == f && r.args == l.args
  {
    Inst(f, l.args)
  }

  /** `extract<Class<Ts...>>`: the template arguments of `Class`, collected in a `TypeList`. */
  function Extract(c: Ty): (r: Ty)
    requires IsList(c)
    ensures IsTypeList(r) && r.args == c.args
  {
    Inst(TypeListTmpl, c.args)
  }

  /** `for_each<F, List<Ts...>>`: `List<F<Ts>...>`; each `F<T>` is left unevaluated. */
  function ForEach(f: string, l: Ty): (r: Ty)
    requires IsList(l)
    ensures IsList(r) && r.tmpl == l.tmpl && |r.args| == |l.args|
    ensures forall i :: 0 <= i < |l.args| ==> r.args[i] == Inst(f, [l.args[i]])
  {
    Inst(l.tmpl, seq(|l.args|, i requires 0 <= i < |l.args| => Inst(f, [l.args[i]])))
  }

  /**
   * `transform<F, List<Ts...>>`: `List<typename F<Ts>::type...>`; the type
   * trait `F` is the function `f` from a type to its nested `type`.
   */
  function Transform(f: Ty -> Ty, l: Ty): (r: Ty)
    requires IsList(l)
    ensures IsList(r) && r.tmpl == l.tmpl && |r.args| == |l.args|
    ensures forall i :: 0 <= i < |l.args| ==> r.args[i] == f(l.args[i])
  {
    Inst(l.tmpl, seq(|l.args|, i requires 0 <= i < |l.args| => f(l.args[i])))
  }

  /** Every argument of a `merge` must be a type list. */
  predicate AllLists(ls: seq<Ty>)
  {
    forall i :: 0 <= i < |ls| ==> IsList(ls[i])
  }

  /** The elements of all the lists `ls`, left to right. */
  function Concatenation(ls: seq<Ty>): seq<Ty>
    requires AllLists(ls)
    decreases |ls|
  {
    if ls == [] then [] else ls[0].args + Concatenation(ls[1..])
  }

  /** The sum of the lengths of the lists `ls`. */
  function TotalSize(ls: seq<Ty>): nat
    requires AllLists(ls)
    decreases |ls|
  {
    if ls == [] then 0 else |ls[0].args| + TotalSize(ls[1..])
  }

  /**
   * `merge<Lists...>`: no argument gives `TypeList<>`, one argument is returned
   * as it is, two are joined in the first one's container, and with more the
   * first two are joined and the result merged with the rest.
   */
  function Merge(ls: seq<Ty>): (r: Ty)
    requires AllLists(ls)
    ensures IsList(r) && r.args == Concatenation(ls)
    ensures r.tmpl == if ls == [] then TypeListTmpl else ls[0].tmpl
    ensures |ls| == 1 ==> r == ls[0]
    decreases |ls|
  {
    if |ls| == 0 then Inst(TypeListTmpl, [])
    else if |ls| == 1 then
      assert ls[1..] == [];
      ls[0]
    else if |ls| == 2 then
      assert ls[1..][1..] == [] && Concatenation(ls[1..]) == ls[1].args + [];
      Inst(ls[0].tmpl, ls[0].args + ls[1].args)
    else
      var joined := Inst(ls[0].tmpl, ls[0].args + ls[1].args);
      var next := [joined] + ls[2..];
      assert next[1..] == ls[2..] == ls[1..][1..];
      Merge(next)
  }

  /**
   * `filter_impl<List1<Filtered...>, List2<ToFilter, ToBeFiltered...>, P>`:
   * `acc` holds the elements kept so far and `rest` those still to be looked
   * at; each step moves the first of `rest` into `acc` when `p` holds of it.
   * When `rest` is empty the result is `List2<Filtered...>`, in the container
   * of the list being filtered.
   */
  function FilterImpl(acc: Ty, rest: Ty, p: Ty -> bool): (r: Ty)
    requires IsList(acc) && IsList(rest)
    ensures IsList(r) && r.tmpl == rest.tmpl
    ensures r.args == acc.args + Filtered(p, rest.args)
    decreases |rest.args|
  {
    if rest.args == [] then Inst(rest.tmpl, acc.args)
    else
      var x, xs := rest.args[0], rest.args[1..];
      if p(x) then FilterImpl(Inst(rest.tmpl, acc.args + [x]), Inst(rest.tmpl, xs), p)
      else FilterImpl(Inst(rest.tmpl, acc.args), Inst(rest.tmpl, xs), p)
  }

  /** `filter<Predicate, List>`: starts `filter_impl` from `TypeList<>`. */
  function Filter(p: Ty -> bool, l: Ty): (r: Ty)
    requires IsList(l)
    ensures IsList(r) && r.tmpl == l.tmpl && r.args == Filtered(p, l.args)
  {
    FilterImpl(Inst(TypeListTmpl, []), l, p)
  }

  /**
   * `remove_duplicates_impl<List1<Filtered...>, List2<ToFilter, ToBeFiltered...>>`:
   * the first of `rest` is moved into `acc` unless `contains` finds it there
   * already; when `rest` is empty the result is `List2<Filtered...>`.
   */
  function RemoveDuplicatesImpl(acc: Ty, rest: Ty): (r: Ty)
    requires IsList(acc) && IsList(rest)
    ensures IsList(r) && r.tmpl == rest.tmpl
    ensures |acc.args| <= |r.args| && r.args[..|acc.args|] == acc.args
    ensures NoDuplicates(acc.args) ==> NoDuplicates(r.args)
    decreases |rest.args|
  {
    if rest.args == [] then Inst(rest.tmpl, acc.args)
    else
      var x, xs := rest.args[0], rest.args[1..];
      assert rest.args == [x] + xs;
      if Contains(x, acc) then RemoveDuplicatesImpl(Inst(rest.tmpl, acc.args), Inst(rest.tmpl, xs))
      else
        var r := RemoveDuplicatesImpl(Inst(rest.tmpl, acc.args + [x]), Inst(rest.tmpl, xs));
        assert r.args[..|acc.args|] == (acc.args + [x])[..|acc.args|];
        r
  }

  /**
   * The invariant of `remove_duplicates_impl`: if the accumulator holds the
   * first occurrences of the elements already seen, the result holds the
   * first occurrences of everything.
   */
  lemma {:induction false} RemoveDuplicatesImplFirst(seen: seq<Ty>, acc: Ty, rest: Ty)
    requires IsList(acc) && IsList(rest) && acc.args == FirstOccurrences(seen)
    ensures RemoveDuplicatesImpl(acc, rest).args == FirstOccurrences(seen + rest.args)
    decreases |rest.args|
  {
    if rest.args == [] {
      assert seen + rest.args == seen;
    } else {
      var x, xs := rest.args[0], rest.args[1..];
      var seen' := seen + [x];
      assert seen' + xs == seen + rest.args;
      assert seen'[..|seen'| - 1] == seen;
      FirstOccurrencesMembers(seen, x);
      if Contains(x, acc) {
        RemoveDuplicatesImplFirst(seen', Inst(rest.tmpl, acc.args), Inst(rest.tmpl, xs));
      } else {
        RemoveDuplicatesImplFirst(seen', Inst(rest.tmpl, acc.args + [x]), Inst(rest.tmpl, xs));
      }
    }
  }

  /**
   * `remove_duplicates<List>`: starts `remove_duplicates_impl` from
   * `TypeList<>`; the result keeps the first occurrence of every element, in
   * the input's container, and has no duplicates.
   */
  function RemoveDuplicates(l: Ty): (r: Ty)
    requires IsList(l)
    ensures IsList(r) && r.tmpl == l.tmpl
    ensures r.args == FirstOccurrences(l.args)
    ensures NoDuplicates(r.args)
  {
    RemoveDuplicatesImplFirst([], Inst(TypeListTmpl, []), l);
    assert [] + l.args == l.args;
    RemoveDuplicatesImpl(Inst(TypeListTmpl, []), l)
  }
}
