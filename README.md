# type_list in Dafny

A model of `type_list`, a single-header C++ library of compile-time
meta functions over *type lists*. A type list is any instantiation
`List<Ts...>` of a class template over type parameters. The library's own
container is `TypeList<Ts...>`, but every operation also accepts foreign
containers such as `std::tuple` or `other_list`. Most meta functions are
sets of partial specialisations that pattern-match `List<Ts...>`, or
`List<>` and `List<T, Ts...>`. `filter`, `remove_duplicates` and `pop_back`
are primary templates that derive from an internal helper, and `first_t` and
`last_t` are alias templates. Each one becomes a Dafny function over

    datatype Ty = Atom(name: string) | Inst(tmpl: string, args: seq<Ty>)

In this type, `Inst(tmpl, args)` is the instantiation `tmpl<args...>`, and
structural equality of `Ty` is `std::is_same`. Where no specialisation
matches, C++ gives a compile error. The model turns each such case into a
`requires` clause:
- `head`, `first_t` and `last_t` need a non-empty list;
- `type_at` needs an index below the size;
- every operation needs a list (an `Inst`);
- `pop_back_impl` needs its counter to equal the remaining length.

Files:
- `type_list.dfy` (module `TypeList`): the data model and one function per
  meta function. This includes the internal helpers `index_of_impl`,
  `type_at_impl`, `disjunction_helper`, `pop_back_impl`, `filter_impl` and
  `remove_duplicates_impl`, in the same recursive, accumulator-passing form.
  Each function's contract says what its result is in terms of the input:
  - which container template the result carries: `push_front` always gives
    `TypeList`; `push_back`, `tail`, `pop_front`, `filter` and
    `remove_duplicates` keep the input's container; `pop_back` gives
    `TypeList` once the list has two or more elements; `merge` keeps the
    first operand's;
  - which elements the result has, in which order. For `remove_duplicates_impl`
    the contract gives only the container, the accumulator prefix and
    duplicate-freedom. Its contents are stated by the lemma
    `RemoveDuplicatesImplFirst` beside it.
- `sequences.dfy` (module `Sequences`): reference definitions that do not
  depend on how the library computes. They are filtering, subsequence,
  duplicate-freedom, first index and first occurrences, together with
  lemmas about what they mean.
- `laws.dfy` (module `TypeListLaws`): lemmas that relate the operations to
  each other. They cover round trips, the `contains`/`index_of` agreement,
  idempotence, and how `transform` and `filter` commute with `merge`.
- `test_cases.dfy` (module `TypeListExamples`): every `static_assert` of
  `tests/test.cpp`, stated about the model, with `std::is_signed` and
  `std::make_signed` written out for the types the tests use. An assert that
  compares two lists with `==` uses `Equal`; one that uses `std::is_same`
  uses equality of `Ty`. Four further lemmas apply container rules to
  the foreign container `other_list`. `ContainerExamples` covers `push_front`,
  `push_back`, `tail`, `pop_front` and `pop_back`. `FilterContainerExample`,
  `RemoveDuplicatesContainerExample` and `MergeContainerExample` cover
  `filter`, `remove_duplicates` and a `merge` whose first argument is an
  `other_list`.

`npos` is `2^64 - 1`, the largest 64-bit `size_t`. `index_of` requires the
list to be shorter than `npos`, which is what keeps the sentinel from
colliding with an index.

Three facts about the code shape the contracts:
- `remove_duplicates` starts from `TypeList<>` but returns `List2<Filtered...>`,
  the input's own container (type_list.hpp:466-470, 479).
- `operator==` and `operator!=` are declared only for two `TypeList`
  operands (type_list.hpp:83-101). Comparing `TypeList<int>` with
  `other_list<int>` does not compile. So `Equal` and `NotEqual` require two
  `TypeList`s. That lists in different containers are different types is
  stated on `Ty` equality instead (`TypeListExamples.EqualityExamples`).
- `push_front` always returns a `TypeList`, and so does `pop_back` from two
  elements on, although the header's summary table says both return `List`
  (type_list.hpp:45, 48).

## Model

| member | source | states |
|---|---|---|
| `TypeListLaws.TypeListTemplate` | include/type_list/type_list.hpp:77-81 | `TypeList` (`TypeListTmpl`, `IsTypeList`): a type is a `TypeList` exactly when it instantiates that template; two `TypeList`s are the same type exactly when their elements agree |
| `TypeListLaws.NposIsInvalidIndex` | include/type_list/type_list.hpp:74-75 | `npos` (`NPOS`) is the largest 64-bit `size_t`; on a list shorter than it, it is not an index of the list, and `index_of` gives either `npos` or an index inside the list |
| `TypeList.Equal` | include/type_list/type_list.hpp:83-91 | on two `TypeList`s, `==` is true exactly when the two types are identical |
| `TypeList.NotEqual` | include/type_list/type_list.hpp:93-101 | on two `TypeList`s, `!=` is true exactly when the types differ, the negation of `==` |
| `TypeList.IndexOfImpl` | include/type_list/type_list.hpp:105-116 | starting from offset `n`: `npos` exactly when `T` is absent; otherwise `n` plus the position of the first `T`, with no `T` before it |
| `TypeList.TypeAtImpl` | include/type_list/type_list.hpp:118-123 | by counting `N` down while dropping elements, reaches exactly the `N`-th element |
| `TypeList.DisjunctionHelper` | include/type_list/type_list.hpp:125-135 | true exactly when the starting flag or any later value is true |
| `TypeList.Disjunction` | include/type_list/type_list.hpp:138 | true exactly when some value is true |
| `TypeList.Head` | include/type_list/type_list.hpp:147-152 | on a non-empty list, the head is `type_at<0>` |
| `TypeList.Tail` | include/type_list/type_list.hpp:161-170 | total: same container; length one less, or 0 for an empty list; element `i` is input element `i+1` |
| `TypeList.ListSize` | include/type_list/type_list.hpp:179-184 | the number of type arguments, 0 for `List<>` |
| `TypeList.IndexOf` | include/type_list/type_list.hpp:186-196 | `npos` exactly when `T` is absent; otherwise an index whose element is `T` and before which `T` does not occur |
| `TypeList.PushFront` | include/type_list/type_list.hpp:198-209 | always a `TypeList`, whatever the input's container; one longer; `T` first, then the input's elements |
| `TypeList.PopFront` | include/type_list/type_list.hpp:214-228 | coincides with `tail`, including `List<>` to `List<>` in the same container |
| `TypeList.TypeAt` | include/type_list/type_list.hpp:232-241 | defined only for `N < size`, where it is element `N` |
| `TypeList.First` | include/type_list/type_list.hpp:246 | on a non-empty list, `first_t` is `type_at<0>` |
| `TypeList.Last` | include/type_list/type_list.hpp:247-248 | on a non-empty list, the last element |
| `TypeList.PushBack` | include/type_list/type_list.hpp:250-271 | keeps the input's container; one longer; the input's elements, then `T` |
| `TypeList.PopBackImpl` | include/type_list/type_list.hpp:273-290 | with the counter equal to the remaining length, which each recursive call keeps: all but the last element, in order; `List<>` in the input's container for 0 or 1 elements, a `TypeList` otherwise |
| `TypeList.PopBack` | include/type_list/type_list.hpp:292-306 | total: all but the last element, in order; input container for sizes 0 and 1, `TypeList` from size 2 |
| `TypeList.Apply` | include/type_list/type_list.hpp:308-324 | `F` instantiated with exactly the list's elements, in order |
| `TypeList.Extract` | include/type_list/type_list.hpp:326-336 | a `TypeList` of exactly the instantiation's template arguments |
| `TypeList.ForEach` | include/type_list/type_list.hpp:338-351 | same container and length; element `i` is `F<T_i>` |
| `TypeList.Transform` | include/type_list/type_list.hpp:353-367 | same container and length; element `i` is `F<T_i>::type` |
| `TypeList.Merge` | include/type_list/type_list.hpp:369-397 | the concatenation of all arguments' elements, left to right; `TypeList<>` for no argument; an argument alone is returned unchanged; otherwise the first argument's container |
| `TypeList.FilterImpl` | include/type_list/type_list.hpp:399-420 | the elements kept so far, followed by the elements still to be looked at that satisfy the predicate; in the container of the list being filtered |
| `TypeList.Filter` | include/type_list/type_list.hpp:422-438 | the input's container; exactly the elements satisfying the predicate, in their original order |
| `TypeList.Contains` | include/type_list/type_list.hpp:440-449 | true exactly when `T` is an element |
| `TypeList.RemoveDuplicatesImpl` | include/type_list/type_list.hpp:451-470 | in the container of the list being processed; begins with the accumulator unchanged; duplicate-free when the accumulator is |
| `TypeList.RemoveDuplicatesImplFirst` | include/type_list/type_list.hpp:454-464 | the invariant of `remove_duplicates_impl`'s recursion: if the accumulator holds the first occurrences of what was seen, the result holds the first occurrences of everything |
| `TypeList.RemoveDuplicates` | include/type_list/type_list.hpp:473-482 | the input's container; the first occurrence of each element, in first-occurrence order; no duplicates |
| `Sequences.FilteredCount` | include/type_list/type_list.hpp:403-420 | an element kept by filtering occurs exactly as often as in the input; a rejected one never occurs |
| `Sequences.FilteredSubsequence` | include/type_list/type_list.hpp:403-420 | filtering keeps the relative order of what it keeps |
| `Sequences.FilteredConcat` | include/type_list/type_list.hpp:403-420 | filtering a concatenation filters each part |
| `Sequences.FilteredAll` | include/type_list/type_list.hpp:403-420 | when every element qualifies, filtering changes nothing |
| `Sequences.FilteredNone` | include/type_list/type_list.hpp:403-420 | when no element qualifies, the result is empty |
| `Sequences.FirstOccurrencesMembers` | include/type_list/type_list.hpp:454-470 | the first occurrences have exactly the input's elements |
| `Sequences.FirstOccurrencesDistinct` | include/type_list/type_list.hpp:454-470 | the first occurrences have no duplicates |
| `Sequences.FirstOccurrencesLength` | include/type_list/type_list.hpp:454-470 | the first occurrences are never longer than the input |
| `Sequences.FirstOccurrencesOfDistinct` | include/type_list/type_list.hpp:454-470 | on a duplicate-free input, nothing is removed |
| `Sequences.FirstOccurrencesIdempotent` | include/type_list/type_list.hpp:454-470 | taking first occurrences twice equals taking them once |
| `Sequences.FirstOccurrencesOrdered` | include/type_list/type_list.hpp:454-470 | an element listed earlier among the first occurrences occurs first earlier in the input |
| `TypeListLaws.SizeLaws` | include/type_list/type_list.hpp:179-184 | push_front and push_back add one to the size; pop_front and pop_back subtract one, or leave 0 at 0 |
| `TypeListLaws.LastIsTypeAt` | include/type_list/type_list.hpp:246-248 | `last_t` is `type_at<size-1>`, and on a one-element list it equals `first_t` |
| `TypeListLaws.ContainsIffIndexOf` | include/type_list/type_list.hpp:193-196 | `contains` holds exactly when `index_of` is not `npos`, and then `type_at` at that index is `T` |
| `TypeListLaws.IndexOfPushFront` | include/type_list/type_list.hpp:204-209 | a type pushed at the front is at index 0 and is the head |
| `TypeListLaws.PopFrontPushFront` | include/type_list/type_list.hpp:204-228 | pop_front after push_front gives the original elements in a `TypeList`, and the original list when that was a `TypeList` |
| `TypeListLaws.PopBackPushBack` | include/type_list/type_list.hpp:256-299 | pop_back after push_back gives the original elements; it gives the original list exactly when that list is empty or a `TypeList` |
| `TypeListLaws.ApplyExtract` | include/type_list/type_list.hpp:315-334 | extract after apply recovers the elements in a `TypeList`; apply to a list's own template after extract rebuilds the list |
| `TypeListLaws.ForEachIsTransform` | include/type_list/type_list.hpp:343-364 | for_each with `F` is transform with the trait whose `type` is the unevaluated `F<T>` |
| `TypeListLaws.TransformIdentity` | include/type_list/type_list.hpp:359-364 | transform with the identity trait leaves a list unchanged |
| `TypeListLaws.TransformMerge` | include/type_list/type_list.hpp:359-386 | transforming a merge of two lists is merging the transformed lists |
| `TypeListLaws.ConcatenationLength` | include/type_list/type_list.hpp:374-395 | the concatenated elements number the sum of the lengths |
| `TypeListLaws.MergeSize` | include/type_list/type_list.hpp:374-395 | the merged list's size is the sum of the sizes |
| `TypeListLaws.ConcatenationAppend` | include/type_list/type_list.hpp:374-395 | concatenating the elements of two argument sequences, one after the other, concatenates the results |
| `TypeListLaws.MergeNested` | include/type_list/type_list.hpp:376-386 | merging a merge with further lists equals merging all the lists at once |
| `TypeListLaws.FilterKeepsExactly` | include/type_list/type_list.hpp:399-438 | filter keeps the container; each element satisfying the predicate is kept as often as it occurs; every other element is dropped; relative order is kept |
| `TypeListLaws.FilterNone` | include/type_list/type_list.hpp:399-438 | when nothing qualifies, the result is `List<>` in the input's container |
| `TypeListLaws.FilterIdempotent` | include/type_list/type_list.hpp:399-438 | filtering twice with one predicate equals filtering once |
| `TypeListLaws.FilterMerge` | include/type_list/type_list.hpp:376-438 | filtering a merge of two lists is merging the filtered lists |
| `TypeListLaws.RemoveDuplicatesMembers` | include/type_list/type_list.hpp:451-482 | the result contains exactly the input's distinct elements |
| `TypeListLaws.RemoveDuplicatesOrder` | include/type_list/type_list.hpp:451-482 | the kept elements are ordered by their first index in the input, as `index_of` reports it |
| `TypeListLaws.RemoveDuplicatesOfDistinct` | include/type_list/type_list.hpp:451-482 | on a duplicate-free list the result is the list itself |
| `TypeListLaws.RemoveDuplicatesIdempotent` | include/type_list/type_list.hpp:451-482 | applying remove_duplicates twice equals applying it once |
| `TypeListExamples.EqualityExamples` | tests/test.cpp:6-9 | the four `operator==`/`operator!=` tests, and that `TypeList<int>` and `other_list<int>` are different types |
| `TypeListExamples.AccessorExamples` | tests/test.cpp:11-29 | every head, tail, list_size and index_of test |
| `TypeListExamples.FrontExamples` | tests/test.cpp:31-42 | every push_front and pop_front test |
| `TypeListExamples.TypeAtExamples` | tests/test.cpp:44-50 | every type_at test, plus `last_t` of the same three-element list |
| `TypeListExamples.BackExamples` | tests/test.cpp:52-63 | every push_back and pop_back test, and the repeated pop_front test at line 61 |
| `TypeListExamples.ContainerExamples` | include/type_list/type_list.hpp:161-306 | the container rules of push_front, push_back, tail, pop_front and pop_back applied to `other_list`: only push_front, and pop_back from two elements on, give a `TypeList` |
| `TypeListExamples.FilterContainerExample` | include/type_list/type_list.hpp:416-419 | `filter` of an `other_list` is an `other_list` |
| `TypeListExamples.RemoveDuplicatesContainerExample` | include/type_list/type_list.hpp:466-479 | `remove_duplicates` of an `other_list` is an `other_list`, although it starts from `TypeList<>` |
| `TypeListExamples.MergeContainerExample` | include/type_list/type_list.hpp:376-386 | `merge` with an `other_list` first gives an `other_list` holding all the elements |
| `TypeListExamples.ApplyExtractExamples` | tests/test.cpp:68-81 | every apply and extract test |
| `TypeListExamples.ForEachTransformExamples` | tests/test.cpp:83-98 | every for_each test with `Unary` and every transform test with `std::make_signed` |
| `TypeListExamples.MergeExamples` | tests/test.cpp:100-118 | the merge tests of no, one and two lists, across containers |
| `TypeListExamples.MergeThreeExamples` | tests/test.cpp:103-130 | the merge tests of three lists whose last one is `TypeList<>` |
| `TypeListExamples.MergeThreeNonEmptyExamples` | tests/test.cpp:131-143 | the merge tests of three lists whose last one is `TypeList<char>` |
| `TypeListExamples.FilterRejectExamples` | tests/test.cpp:145-154 | the `std::is_signed` filter tests whose result is `TypeList<>` |
| `TypeListExamples.FilterExamples` | tests/test.cpp:155-166 | the `std::is_signed` filter tests that keep some element |
| `TypeListExamples.ContainsExamples` | tests/test.cpp:168-172 | every contains test |
| `TypeListExamples.RemoveDuplicatesShortExamples` | tests/test.cpp:174-178 | remove_duplicates of `TypeList<>` and of one, two and three `int`s |
| `TypeListExamples.RemoveDuplicatesLongExample` | tests/test.cpp:179-182 | `remove_duplicates<TypeList<int,int,char,double,char,int,double,char>>` is `TypeList<int,char,double>` |

## Left out

- The `TYPELIST_INLINE` macro and the `__cplusplus` guards (type_list.hpp:66-70) are omitted. They select C++ dialect features and have no behaviour.
- The `_t` alias templates and the `_v` variable templates (type_list.hpp:484-493) are omitted. They are other names for the same meta functions.
- Concrete standard traits are not modelled as a library. The predicate of `filter` is a parameter `Ty -> bool` (its `::value`). The trait of `transform` is a parameter `Ty -> Ty` (its `::type`). `std::conditional` is an `if`. `std::is_same` is `Ty` equality.
- Compile-time failure is not modelled as a value. Inputs for which no specialisation matches are excluded by `requires` clauses.
- Template arity is not checked. The model does not verify that `F` in `apply` accepts the given number of arguments. It also does not verify that `F` in `for_each` and `transform` is a one-parameter template, or that `F<T>::type` exists.
- `extract` on templates with non-type parameters is outside `Ty`. The library does not support it either.
- The short-circuit instantiation behaviour of `disjunction` is not modelled. Only its boolean result is.
- `ListSize` and `TypeAt`: sizes and indices are unbounded `nat`s, not 64-bit `size_t`. Only `npos` and the `index_of` bound use the 64-bit width.
- `tests/test.cpp`'s `main` is omitted. The file's assertions appear as lemmas in `test_cases.dfy`.
