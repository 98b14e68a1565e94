/**
 * The compile-time assertions of the library's test file, stated about the
 * model. The standard traits the tests use (`std::is_signed`,
 * `std::make_signed`) are written out for the types that occur.
 */
module TypeListExamples {
  import opened Sequences
  import opened TypeList

  const Int := Atom("int")
  const Long := Atom("long")
  const Char := Atom("char")
  const SignedChar := Atom("signed char")
  const Double := Atom("double")
  const Unsigned := Atom("unsigned")
  const UnsignedLong := Atom("unsigned long")
  const UnsignedChar := Atom("unsigned char")

  /** `TypeList<Ts...>`. */
  function TL(ts: seq<Ty>): (r: Ty)
    ensures IsTypeList(r) && r.args == ts
  {
    Inst(TypeListTmpl, ts)
  }

  /** The test file's own variadic container `other_list<Ts...>`. */
  function Other(ts: seq<Ty>): (r: Ty)
    ensures IsList(r) && !IsTypeList(r) && r.args == ts
  {
    Inst("other_list", ts)
  }

  /** `std::is_signed` on the types the tests use. */
  function IsSigned(t: Ty): bool
  {
    t == Int || t == Long || t == SignedChar || t == Double
  }

  /** `std::make_signed` on the types the tests use. */
  function MakeSigned(t: Ty): Ty
  {
    if t == Unsigned then Int
    else if t == UnsignedLong then Long
    else if t == UnsignedChar then SignedChar
    else t
  }

  lemma EqualityExamples()
    ensures Equal(TL([Int, Double]), TL([Int, Double]))
    ensures !NotEqual(TL([Int, Double]), TL([Int, Double]))
    ensures NotEqual(TL([Int, Int]), TL([Int, Double]))
    ensures !Equal(TL([Int, Int]), TL([Int, Double]))
    ensures TL([Int]) != Other([Int])
  {
  }

  lemma AccessorExamples()
    ensures Head(TL([Int])) == Int
    ensures Head(TL([Int, Double, Char])) == Int
    ensures Equal(Tail(TL([])), TL([]))
    ensures Equal(Tail(TL([Int])), TL([]))
    ensures Equal(Tail(TL([Int, Double, Char])), TL([Double, Char]))
    ensures ListSize(TL([])) == 0
    ensures ListSize(TL([Int])) == 1
    ensures ListSize(TL([Int, Char])) == 2
    ensures IndexOf(Int, TL([])) == NPOS
    ensures IndexOf(Int, TL([Int])) == 0
    ensures IndexOf(Int, TL([Int, Int])) == 0
    ensures IndexOf(Int, TL([Int, Char])) == 0
    ensures IndexOf(Int, TL([Char, Int, Char])) == 1
    ensures IndexOf(Int, TL([Char, Double, Int])) == 2
  {
  }

  lemma FrontExamples()
    ensures Equal(PushFront(Int, TL([])), TL([Int]))
    ensures Equal(PushFront(Int, TL([Char])), TL([Int, Char]))
    ensures Equal(PushFront(Int, TL([Char, Double])), TL([Int, Char, Double]))
    ensures Equal(PopFront(TL([])), TL([]))
    ensures Equal(PopFront(TL([Char])), TL([]))
    ensures Equal(PopFront(TL([Char, Double])), TL([Double]))
    ensures Equal(PopFront(TL([Char, Double, Int])), TL([Double, Int]))
  {
  }

  lemma TypeAtExamples()
    ensures TypeAt(0, TL([Int])) == Int
    ensures TypeAt(0, TL([Int, Double, Char])) == Int
    ensures TypeAt(1, TL([Int, Double, Char])) == Double
    ensures TypeAt(2, TL([Int, Double, Char])) == Char
    ensures Last(TL([Int, Double, Char])) == Char
  {
  }

  lemma BackExamples()
    ensures Equal(PushBack(Int, TL([])), TL([Int]))
    ensures Equal(PushBack(Int, TL([Char])), TL([Char, Int]))
    ensures Equal(PushBack(Int, TL([Char, Double])), TL([Char, Double, Int]))
    ensures Equal(PopBack(TL([])), TL([]))
    ensures Equal(PopBack(TL([Char])), TL([]))
    ensures Equal(PopBack(TL([Char, Double])), TL([Char]))
    ensures Equal(PopFront(TL([Char, Double, Int])), TL([Double, Int]))
  {
  }

  /**
   * The container rules of the front and back operations applied to the
   * foreign container `other_list`: `push_front` and `pop_back` (from two
   * elements on) switch to `TypeList`, the others keep `other_list`.
   */
  lemma ContainerExamples()
    ensures PushFront(Int, Other([Char])) == TL([Int, Char])
    ensures PushBack(Int, Other([Char])) == Other([Char, Int])
    ensures Tail(Other([])) == Other([]) && Tail(Other([Char, Double])) == Other([Double])
    ensures PopFront(Other([Char, Double])) == Other([Double])
    ensures PopBack(Other([Char])) == Other([]) && PopBack(Other([Char, Double])) == TL([Char])
  {
  }

  /** `filter` keeps `other_list`. */
  lemma FilterContainerExample()
    ensures Filter(IsSigned, Other([Unsigned, Int])) == Other([Int])
  {
    assert Filtered(IsSigned, [Atom("unsigned"), Atom("int")]) == [Atom("int")];
  }

  /** `remove_duplicates` keeps `other_list`, although it starts from `TypeList<>`. */
  lemma RemoveDuplicatesContainerExample()
    ensures RemoveDuplicates(Other([Int, Int])) == Other([Int])
  {
    RemoveDuplicatesStep(TL([]), "other_list", Int, [Int]);
    assert [Int] + [Int] == [Int, Int] && [] + [Int] == [Int];
    RemoveDuplicatesStep(Inst("other_list", [Int]), "other_list", Int, []);
    assert [Int] + [] == [Int];
  }

  /** `merge` takes the container of its first argument, here `other_list`. */
  lemma MergeContainerExample()
    ensures Merge([Other([Int]), TL([Char]), TL([Long])]) == Other([Int, Char, Long])
  {
    MergeThreeStep(Other([Int]), TL([Char]), TL([Long]));
    assert [Int] + [Char] + [Long] == [Int, Char, Long];
  }

  lemma ApplyExtractExamples()
    ensures Other([]) == Apply("other_list", TL([]))
    ensures Other([Int]) == Apply("other_list", TL([Int]))
    ensures Other([Int, Char]) == Apply("other_list", TL([Int, Char]))
    ensures Equal(Apply(TypeListTmpl, Other([Int, Char])), TL([Int, Char]))
    ensures Equal(Extract(Other([])), TL([]))
    ensures Equal(Extract(Other([Int])), TL([Int]))
    ensures Equal(Extract(Other([Int, Char])), TL([Int, Char]))
  {
  }

  lemma ForEachTransformExamples()
    ensures Equal(ForEach("Unary", TL([])), TL([]))
    ensures Equal(ForEach("Unary", TL([Int])), TL([Inst("Unary", [Int])]))
    ensures Equal(ForEach("Unary", TL([Int, Char])), TL([Inst("Unary", [Int]), Inst("Unary", [Char])]))
    ensures Equal(Transform(MakeSigned, TL([])), TL([]))
    ensures Equal(Transform(MakeSigned, TL([Unsigned])), TL([Int]))
    ensures Equal(Transform(MakeSigned, TL([Unsigned, UnsignedLong])), TL([Int, Long]))
  {
  }

  /** The merges of one and two lists. */
  lemma MergeExamples()
    ensures Equal(Merge([]), TL([]))
    ensures Equal(Merge([TL([])]), TL([]))
    ensures Equal(Merge([TL([]), TL([])]), TL([]))
    ensures Equal(Merge([TL([]), Other([])]), TL([]))
    ensures Equal(Merge([TL([Int]), Other([])]), TL([Int]))
    ensures Equal(Merge([TL([]), Other([Int])]), TL([Int]))
    ensures Equal(Merge([TL([Int]), Other([Char])]), TL([Int, Char]))
    ensures Equal(Merge([TL([Int, Double]), Other([Char])]), TL([Int, Double, Char]))
    ensures Equal(Merge([TL([Int, Double]), Other([Char, Long])]), TL([Int, Double, Char, Long]))
  {
  }

  /** The merges of three lists whose last one is empty. */
  lemma MergeThreeExamples()
    ensures Equal(Merge([TL([]), TL([]), TL([])]), TL([]))
    ensures Equal(Merge([TL([]), Other([]), TL([])]), TL([]))
    ensures Equal(Merge([TL([Int]), Other([]), TL([])]), TL([Int]))
    ensures Equal(Merge([TL([]), Other([Int]), TL([])]), TL([Int]))
    ensures Equal(Merge([TL([Int]), Other([Char]), TL([])]), TL([Int, Char]))
    ensures Equal(Merge([TL([Int, Double]), Other([Char]), TL([])]), TL([Int, Double, Char]))
  {
  }

  /** `merge` of three lists, unfolded. */
  lemma MergeThreeStep(a: Ty, b: Ty, c: Ty)
    requires IsList(a) && IsList(b) && IsList(c)
    ensures Merge([a, b, c]) == Inst(a.tmpl, a.args + b.args + c.args)
  {
    var j := Inst(a.tmpl, a.args + b.args);
    assert [j, c][1..] == [c] && [c][1..] == [];
  }

  /** The merges of three lists whose last one is `TypeList<char>`. */
  lemma MergeThreeNonEmptyExamples()
    ensures Equal(Merge([TL([Int]), Other([]), TL([Char])]), TL([Int, Char]))
    ensures Equal(Merge([TL([]), Other([Int]), TL([Char])]), TL([Int, Char]))
    ensures Equal(Merge([TL([Int]), Other([Char]), TL([Char])]), TL([Int, Char, Char]))
    ensures Equal(Merge([TL([Int, Double]), Other([Char]), TL([Char])]), TL([Int, Double, Char, Char]))
  {
    MergeThreeStep(TL([Int]), Other([]), TL([Char]));
    assert [Int] + [] + [Char] == [Int, Char];
    MergeThreeStep(TL([]), Other([Int]), TL([Char]));
    assert [] + [Int] + [Char] == [Int, Char];
    MergeThreeStep(TL([Int]), Other([Char]), TL([Char]));
    assert [Int] + [Char] + [Char] == [Int, Char, Char];
    MergeThreeStep(TL([Int, Double]), Other([Char]), TL([Char]));
    assert [Int, Double] + [Char] + [Char] == [Int, Double, Char, Char];
  }

  /** The filters that reject every element. */
  lemma FilterRejectExamples()
    ensures Equal(Filter(IsSigned, TL([])), TL([]))
    ensures Equal(Filter(IsSigned, TL([Unsigned])), TL([]))
    ensures Equal(Filter(IsSigned, TL([Unsigned, UnsignedLong])), TL([]))
    ensures Equal(Filter(IsSigned, TL([Unsigned, UnsignedLong, UnsignedChar])), TL([]))
  {
    assert Filtered(IsSigned, [Atom("unsigned")]) == [];
    assert Filtered(IsSigned, [Atom("unsigned"), Atom("unsigned long")]) == [];
    assert Filtered(IsSigned, [Atom("unsigned"), Atom("unsigned long"), Atom("unsigned char")]) == [];
  }

  /** The filters that keep some element. */
  lemma FilterExamples()
    ensures Equal(Filter(IsSigned, TL([Int])), TL([Int]))
    ensures Equal(Filter(IsSigned, TL([Int, Long])), TL([Int, Long]))
    ensures Equal(Filter(IsSigned, TL([Int, Long, SignedChar])), TL([Int, Long, SignedChar]))
    ensures Equal(Filter(IsSigned, TL([Unsigned, Int, UnsignedLong, Long, UnsignedChar, SignedChar])),
                  TL([Int, Long, SignedChar]))
  {
    assert Filtered(IsSigned, [Atom("int")]) == [Atom("int")];
    assert Filtered(IsSigned, [Atom("int"), Atom("long")]) == [Atom("int"), Atom("long")];
    assert Filtered(IsSigned, [Atom("int"), Atom("long"), Atom("signed char")])
        == [Atom("int"), Atom("long"), Atom("signed char")];
    assert Filtered(IsSigned, [Atom("unsigned"), Atom("int"), Atom("unsigned long"), Atom("long"),
                               Atom("unsigned char"), Atom("signed char")])
        == [Atom("int"), Atom("long"), Atom("signed char")];
  }

  lemma ContainsExamples()
    ensures !Contains(Int, TL([]))
    ensures !Contains(Int, TL([Char]))
    ensures Contains(Int, TL([Char, Int]))
    ensures Contains(Int, TL([Int, Char]))
    ensures Contains(Int, TL([Int, Char, Int]))
  {
  }

  /** One step of `remove_duplicates_impl` on a list written as first element and rest. */
  lemma RemoveDuplicatesStep(acc: Ty, t: string, x: Ty, xs: seq<Ty>)
    requires IsList(acc)
    ensures RemoveDuplicatesImpl(acc, Inst(t, [x] + xs))
         == if x in acc.args then RemoveDuplicatesImpl(Inst(t, acc.args), Inst(t, xs))
            else RemoveDuplicatesImpl(Inst(t, acc.args + [x]), Inst(t, xs))
  {
  }

  lemma RemoveDuplicatesShortExamples()
    ensures Equal(RemoveDuplicates(TL([])), TL([]))
    ensures Equal(RemoveDuplicates(TL([Int])), TL([Int]))
    ensures Equal(RemoveDuplicates(TL([Int, Int])), TL([Int]))
    ensures Equal(RemoveDuplicates(TL([Int, Int, Int])), TL([Int]))
  {
    assert [] + [Int] == [Int] && [Int] + [] == [Int];
    RemoveDuplicatesStep(TL([]), TypeListTmpl, Int, []);
    RemoveDuplicatesStep(TL([Int]), TypeListTmpl, Int, []);
    RemoveDuplicatesStep(TL([]), TypeListTmpl, Int, [Int]);
    assert [Int] + [Int] == [Int, Int];
    RemoveDuplicatesStep(TL([Int]), TypeListTmpl, Int, [Int]);
    RemoveDuplicatesStep(TL([]), TypeListTmpl, Int, [Int, Int]);
    assert [Int] + [Int, Int] == [Int, Int, Int];
  }

  /** The last four steps of the long example below. */
  lemma RemoveDuplicatesLongExampleTail()
    ensures RemoveDuplicatesImpl(TL([Int, Char, Double]), TL([Char, Int, Double, Char])) == TL([Int, Char, Double])
  {
    var acc := TL([Int, Char, Double]);
    RemoveDuplicatesStep(acc, TypeListTmpl, Char, [Int, Double, Char]);
    assert [Char] + [Int, Double, Char] == [Char, Int, Double, Char];
    RemoveDuplicatesStep(acc, TypeListTmpl, Int, [Double, Char]);
    assert [Int] + [Double, Char] == [Int, Double, Char];
    RemoveDuplicatesStep(acc, TypeListTmpl, Double, [Char]);
    assert [Double] + [Char] == [Double, Char];
    RemoveDuplicatesStep(acc, TypeListTmpl, Char, []);
    assert [Char] + [] == [Char];
  }

  /** The fourth step of the long example below. */
  lemma RemoveDuplicatesLongExampleFourth()
    ensures RemoveDuplicatesImpl(TL([Int, Char]), TL([Double, Char, Int, Double, Char])) == TL([Int, Char, Double])
  {
    assert Double !in [Int, Char];
    RemoveDuplicatesStep(TL([Int, Char]), TypeListTmpl, Double, [Char, Int, Double, Char]);
    assert [Double] + [Char, Int, Double, Char] == [Double, Char, Int, Double, Char];
    assert [Int, Char] + [Double] == [Int, Char, Double];
    RemoveDuplicatesLongExampleTail();
  }

  /** The third step of the long example below. */
  lemma RemoveDuplicatesLongExampleThird()
    ensures RemoveDuplicatesImpl(TL([Int]), TL([Char, Double, Char, Int, Double, Char])) == TL([Int, Char, Double])
  {
    assert Char !in [Int];
    RemoveDuplicatesStep(TL([Int]), TypeListTmpl, Char, [Double, Char, Int, Double, Char]);
    assert [Char] + [Double, Char, Int, Double, Char] == [Char, Double, Char, Int, Double, Char];
    assert [Int] + [Char] == [Int, Char] && [Int] + [] == [Int] && [] + [Char] == [Char];
    RemoveDuplicatesLongExampleFourth();
  }

  /** The second step of the long example below. */
  lemma RemoveDuplicatesLongExampleSecond()
    ensures RemoveDuplicatesImpl(TL([Int]), TL([Int, Char, Double, Char, Int, Double, Char])) == TL([Int, Char, Double])
  {
    RemoveDuplicatesStep(TL([Int]), TypeListTmpl, Int, [Char, Double, Char, Int, Double, Char]);
    assert [Int] + [Char, Double, Char, Int, Double, Char] == [Int, Char, Double, Char, Int, Double, Char];
    RemoveDuplicatesLongExampleThird();
  }

  lemma RemoveDuplicatesLongExample()
    ensures Equal(RemoveDuplicates(TL([Int, Int, Char, Double, Char, Int, Double, Char])),
                  TL([Int, Char, Double]))
  {
    RemoveDuplicatesStep(TL([]), TypeListTmpl, Int, [Int, Char, Double, Char, Int, Double, Char]);
    assert [Int] + [Int, Char, Double, Char, Int, Double, Char] == [Int, Int, Char, Double, Char, Int, Double, Char];
    assert [] + [Int] == [Int];
    RemoveDuplicatesLongExampleSecond();
  }
}
