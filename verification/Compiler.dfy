/** Compiles a declared format into a memory layout. */
module Compiler {
  import opened Wrappers
  import opened Layouts
  import opened Packing
  import opened Sequences

  datatype Format =
    | PrimitiveFormat(scalar: Scalar)
    | BufferFormat
    | StringFormat
    | ArrayFormat(element: Format, length: nat)
    | ConstantFormat(constant: Value)
    | EnumFormat(values: seq<Value>)
    | OptionalFormat(element: Format, uninitialized: Value)
    | StructFormat(members: seq<Field>, inherit: Option<Format>, variant: Option<Tag>)
    | VariantFormat(alternatives: seq<Format>)
    | VectorFormat(element: Format)

  datatype Field = Field(key: string, format: Format)
  datatype FormatError = DequeNotImplemented
  datatype LayoutAndTraits = LayoutAndTraits(layout: Layout, traits: Traits)

  predicate DistinctFields(members: seq<Field>) {
    forall i, j :: 0 <= i < j < |members| ==> members[i].key != members[j].key
  }

  /** getLayout */
  function Compile(format: Format): (r: Result<LayoutAndTraits, FormatError>)
    ensures r.Success? ==> IsAlign(r.value.traits.align)
    decreases format, 1
  {
    match format
    case PrimitiveFormat(s) => Success(LayoutAndTraits(Primitive(s), Traits(s.Width(), s.Width(), true)))
    case BufferFormat => Success(LayoutAndTraits(Buffer, Traits(POINTER_SIZE, POINTER_SIZE * 2, false)))
    case StringFormat => Success(LayoutAndTraits(String, Traits(POINTER_SIZE, POINTER_SIZE * 2, false)))
    case ArrayFormat(e, n) =>
      var c :- Compile(e);
      if !c.traits.fixed then Failure(DequeNotImplemented) else Success(ArrayOf(c, n))
    case ConstantFormat(x) => Success(LayoutAndTraits(Constant(x), Traits(1, 0, true)))
    case EnumFormat(values) => Success(LayoutAndTraits(Enum(values), Traits(1, 1, true)))
    case OptionalFormat(e, u) =>
      var c :- Compile(e);
      Success(
        if c.traits.size <= POINTER_SIZE * 2 then
          LayoutAndTraits(Optional(c.layout, c.traits.size, u), Traits(c.traits.align, c.traits.size + 1, c.traits.fixed))
        else
          LayoutAndTraits(Pointer(c.layout, c.traits.align, c.traits.size, u), Traits(POINTER_SIZE, POINTER_SIZE, false)))
    case StructFormat(members, inherit, variant) =>
      var entries :- CompileFields(members);
      if inherit.None? then Success(Assemble(entries, None, variant))
      else
        var base :- Compile(inherit.value);
        Success(Assemble(entries, Some(base), variant))
    case VariantFormat(alternatives) =>
      var compiled :- CompileAlternatives(alternatives);
      Success(LayoutAndTraits(Variant(compiled), Traits(POINTER_SIZE, POINTER_SIZE + 1, false)))
    case VectorFormat(e) =>
      var c :- Compile(e);
      Success(
        if c.traits.fixed then
          LayoutAndTraits(Vector(c.layout, c.traits.align, c.traits.size, c.traits.Stride()), Traits(POINTER_SIZE, POINTER_SIZE * 2, false))
        else
          LayoutAndTraits(List(c.layout, c.traits.align, c.traits.size), Traits(POINTER_SIZE, POINTER_SIZE, false)))
  }

  /** No elements have size 0, in the formats that are sane. */
  function ArraySize(t: Traits, n: nat): nat
    requires IsAlign(t.align)
  {
    if n == 0 then 0 else AlignTo(t.size, t.align) * (n - 1) + t.size
  }

  function ArrayOf(c: LayoutAndTraits, n: nat): (r: LayoutAndTraits)
    requires IsAlign(c.traits.align)
    ensures IsAlign(r.traits.align)
  {
    LayoutAndTraits(Array(c.layout, n, c.traits.Stride()), Traits(c.traits.align, ArraySize(c.traits, n), true))
  }

  /** An array needs an element unless elements are bytes, as far as alignment goes: see module EmptyArrays. */
  predicate EmptyIsSafe(element: Format) {
    var c := Compile(element);
    c.Success? ==> c.value.traits.align == 1
  }

  /** What declarations have to obey; of these, only the size of an enumeration is checked by the source. */
  predicate Sane(format: Format) {
    match format
    case PrimitiveFormat(_) | BufferFormat | StringFormat | ConstantFormat(_) => true
    case ArrayFormat(e, n) => Sane(e) && (n >= 1 || EmptyIsSafe(e))
    case EnumFormat(values) => |values| <= 256
    case OptionalFormat(e, u) => Nullish(u) && Sane(e)
    case StructFormat(members, inherit, _) =>
      && DistinctFields(members)
      && (forall i :: 0 <= i < |members| ==> Sane(members[i].format))
      && (inherit.Some? ==> inherit.value.StructFormat? && Sane(inherit.value))
    case VariantFormat(alternatives) =>
      forall i :: 0 <= i < |alternatives| ==> alternatives[i].StructFormat? && Sane(alternatives[i])
    case VectorFormat(e) => Sane(e)
  }

  // Failing

  /** Somewhere in the format, there is an array of elements without a stride. */
  predicate HasDeque(format: Format) {
    match format
    case ArrayFormat(e, _) => HasDeque(e) || (Compile(e).Success? && !Compile(e).value.traits.fixed)
    case OptionalFormat(e, _) => HasDeque(e)
    case VectorFormat(e) => HasDeque(e)
    case StructFormat(members, inherit, _) =>
      || (exists i :: 0 <= i < |members| && HasDeque(members[i].format))
      || (inherit.Some? && HasDeque(inherit.value))
    case VariantFormat(alternatives) => exists i :: 0 <= i < |alternatives| && HasDeque(alternatives[i])
    case _ => false
  }

  /** Compiling fails exactly on these. */
  lemma {:induction false} CompileFailsIff(format: Format)
    ensures Compile(format).Failure? <==> HasDeque(format)
    decreases format, 1
  {
    hide Assemble, ArrayOf;
    match format
    case ArrayFormat(e, _) => CompileFailsIff(e);
    case OptionalFormat(e, _) => CompileFailsIff(e);
    case VectorFormat(e) => CompileFailsIff(e);
    case StructFormat(members, inherit, _) =>
      FieldsFailIff(members);
      if inherit.Some? { CompileFailsIff(inherit.value); }
    case VariantFormat(alternatives) => AlternativesFailIff(alternatives);
    case _ =>
  }

  lemma {:induction false} FieldsFailIff(members: seq<Field>)
    ensures CompileFields(members).Failure? <==> exists i :: 0 <= i < |members| && HasDeque(members[i].format)
    decreases members, 0
  {
    hide Compile, HasDeque;
    if |members| > 0 {
      var front, m := members[..|members| - 1], members[|members| - 1];
      FieldsFailIff(front);
      CompileFailsIff(m.format);
      assert forall i :: 0 <= i < |front| ==> front[i] == members[i];
    }
  }

  lemma {:induction false} AlternativesFailIff(alternatives: seq<Format>)
    ensures CompileAlternatives(alternatives).Failure? <==> exists i :: 0 <= i < |alternatives| && HasDeque(alternatives[i])
    decreases alternatives, 0
  {
    hide Compile, HasDeque;
    if |alternatives| > 0 {
      var front, a := alternatives[..|alternatives| - 1], alternatives[|alternatives| - 1];
      AlternativesFailIff(front);
      CompileFailsIff(a);
      assert forall i :: 0 <= i < |front| ==> front[i] == alternatives[i];
    }
  }

  predicate AlignsAreSound(entries: seq<Entry>)
    ensures AlignsAreSound(entries) ==> Aligned(entries)
  {
    forall i :: 0 <= i < |entries| ==> IsAlign(entries[i].traits.align)
  }

  function CompileFields(members: seq<Field>): (r: Result<seq<Entry>, FormatError>)
    ensures r.Success? ==> |r.value| == |members| && AlignsAreSound(r.value) && forall i :: 0 <= i < |members| ==> r.value[i].key == members[i].key
    decreases members, 0
  {
    if |members| == 0 then Success([])
    else
      var rest :- CompileFields(members[..|members| - 1]);
      var m := members[|members| - 1];
      var c :- Compile(m.format);
      Success(rest + [Entry(m.key, c.layout, c.traits)])
  }

  function CompileAlternatives(alternatives: seq<Format>): (r: Result<seq<Alternative>, FormatError>)
    ensures r.Success? ==> |r.value| == |alternatives|
    decreases alternatives, 0
  {
    if |alternatives| == 0 then Success([])
    else
      var rest :- CompileAlternatives(alternatives[..|alternatives| - 1]);
      var c :- Compile(alternatives[|alternatives| - 1]);
      Success(rest + [Alternative(c.layout, c.traits.align, c.traits.size)])
  }

  /** Sorts and packs the members behind the inherited struct. */
  function Assemble(entries: seq<Entry>, base: Option<LayoutAndTraits>, variant: Option<Tag>): (r: LayoutAndTraits)
    requires AlignsAreSound(entries) && (base.Some? ==> IsAlign(base.value.traits.align))
    ensures IsAlign(r.traits.align)
  {
    SortedKeepsEntries(entries);
    AssembleSorted(Sorted(entries), base, variant)
  }

  function AssembleSorted(sorted: seq<Entry>, base: Option<LayoutAndTraits>, variant: Option<Tag>): (r: LayoutAndTraits)
    requires AlignsAreSound(sorted) && (base.Some? ==> IsAlign(base.value.traits.align))
    ensures IsAlign(r.traits.align)
  {
    var start := if base.Some? then base.value.traits else Traits(1, 0, true);
    var packed := Packed(sorted, start.size);
    var fixed := start.fixed && forall i :: 0 <= i < |sorted| ==> sorted[i].traits.fixed;
    var t := Traits(LargestAlign(sorted, start.align), packed.1, fixed);
    LayoutAndTraits(Struct(packed.0, if base.Some? then Some(base.value.layout) else None, variant, t), t)
  }

  lemma SortedKeepsEntries(entries: seq<Entry>)
    ensures |Sorted(entries)| == |entries|
    ensures forall e :: e in Sorted(entries) <==> e in entries
    ensures AlignsAreSound(entries) ==> AlignsAreSound(Sorted(entries))
  {
    var sorted := Sorted(entries);
    assert |multiset(sorted)| == |multiset(entries)|;
    forall e ensures e in sorted <==> e in entries {
      assert e in sorted <==> e in multiset(sorted);
      assert e in entries <==> e in multiset(entries);
    }
    if AlignsAreSound(entries) {
      forall i | 0 <= i < |sorted| ensures IsAlign(sorted[i].traits.align) {
        assert sorted[i] in entries;
      }
    }
  }

  /** Math.max over the alignments of the members. */
  function LargestAlign(entries: seq<Entry>, least: nat): (r: nat)
    requires IsAlign(least) && AlignsAreSound(entries)
    ensures IsAlign(r) && r >= least
    ensures forall i :: 0 <= i < |entries| ==> entries[i].traits.align <= r
    ensures r == least || exists i :: 0 <= i < |entries| && r == entries[i].traits.align
  {
    if |entries| == 0 then least
    else
      var front := entries[..|entries| - 1];
      var r := LargestAlign(front, least);
      assert forall i :: 0 <= i < |front| ==> front[i] == entries[i];
      var last := entries[|entries| - 1].traits.align;
      if last > r then last else r
  }

  predicate Compiled(c: LayoutAndTraits) {
    WellFormed(c.layout) && c.traits == TraitsOf(c.layout)
  }

  /** Whatever compiles is well formed, and its traits describe its layout. */
  lemma {:induction false} CompileIsWellFormed(format: Format)
    requires Sane(format) && Compile(format).Success?
    ensures Compiled(Compile(format).value)
    ensures format.StructFormat? ==> Compile(format).value.layout.Struct?
    decreases format, 1
  {
    hide WellFormed, TraitsOf, Assemble, ArrayOf, AlignTo;
    match format
    case ArrayFormat(e, n) =>
      CompileIsWellFormed(e);
      ArrayIsWellFormed(Compile(e).value, n);
    case OptionalFormat(e, u) =>
      CompileIsWellFormed(e);
      OptionalIsWellFormed(Compile(e).value, u);
    case VectorFormat(e) =>
      CompileIsWellFormed(e);
      VectorIsWellFormed(Compile(e).value);
    case VariantFormat(alternatives) =>
      AlternativesAreWellFormed(alternatives);
      VariantIsWellFormed(CompileAlternatives(alternatives).value);
    case StructFormat(members, inherit, variant) =>
      StructFormatIsWellFormed(members, inherit, variant);
    case _ => LeafIsWellFormed(format);
  }

  lemma LeafIsWellFormed(format: Format)
    requires Sane(format)
    requires format.PrimitiveFormat? || format.BufferFormat? || format.StringFormat? || format.ConstantFormat? || format.EnumFormat?
    ensures Compiled(Compile(format).value)
  {
  }

  lemma ArrayIsWellFormed(c: LayoutAndTraits, n: nat)
    requires IsAlign(c.traits.align) && (n >= 1 || c.traits.align == 1) && c.traits.fixed && Compiled(c)
    ensures Compiled(ArrayOf(c, n))
  {
    hide AlignTo, Steps;
    if n >= 1 {
      StepsAreProduct(c.traits.Stride(), n - 1);
    }
  }

  /** `layout` is well formed and has these traits. */
  predicate Has(layout: Layout, t: Traits) {
    WellFormed(layout) && TraitsOf(layout) == t
  }

  lemma OptionalIsWellFormed(c: LayoutAndTraits, u: Value)
    requires IsAlign(c.traits.align) && Nullish(u) && Compiled(c)
    ensures c.traits.size <= 2 * POINTER_SIZE ==>
      Has(Optional(c.layout, c.traits.size, u), Traits(c.traits.align, c.traits.size + 1, c.traits.fixed))
    ensures Has(Pointer(c.layout, c.traits.align, c.traits.size, u), Traits(POINTER_SIZE, POINTER_SIZE, false))
  {
  }

  lemma VectorIsWellFormed(c: LayoutAndTraits)
    requires IsAlign(c.traits.align) && Compiled(c)
    ensures c.traits.fixed ==>
      Has(Vector(c.layout, c.traits.align, c.traits.size, c.traits.Stride()), Traits(POINTER_SIZE, POINTER_SIZE * 2, false))
    ensures !c.traits.fixed ==>
      Has(List(c.layout, c.traits.align, c.traits.size), Traits(POINTER_SIZE, POINTER_SIZE, false))
  {
    hide AlignTo;
  }

  lemma VariantIsWellFormed(alternatives: seq<Alternative>)
    requires forall i :: 0 <= i < |alternatives| ==> GoodAlternative(alternatives[i])
    ensures Has(Variant(alternatives), Traits(POINTER_SIZE, POINTER_SIZE + 1, false))
  {
  }

  predicate GoodAlternative(a: Alternative) {
    a.layout.Struct? && WellFormed(a.layout) && a.align == TraitsOf(a.layout).align && a.size == TraitsOf(a.layout).size
  }

  lemma {:induction false} StructFormatIsWellFormed(members: seq<Field>, inherit: Option<Format>, variant: Option<Tag>)
    requires Sane(StructFormat(members, inherit, variant)) && Compile(StructFormat(members, inherit, variant)).Success?
    ensures Compiled(Compile(StructFormat(members, inherit, variant)).value)
    ensures Compile(StructFormat(members, inherit, variant)).value.layout.Struct?
    decreases StructFormat(members, inherit, variant), 0
  {
    hide WellFormed, TraitsOf, Assemble, AlignTo;
    FieldsAreWellFormed(members);
    var entries := CompileFields(members).value;
    if inherit.Some? {
      CompileIsWellFormed(inherit.value);
      StructIsWellFormed(entries, Some(Compile(inherit.value).value), variant);
    } else {
      StructIsWellFormed(entries, None, variant);
    }
  }

  lemma {:induction false} AlternativesAreWellFormed(alternatives: seq<Format>)
    requires forall i :: 0 <= i < |alternatives| ==> Sane(alternatives[i]) && alternatives[i].StructFormat?
    requires CompileAlternatives(alternatives).Success?
    ensures forall i :: 0 <= i < |alternatives| ==> GoodAlternative(CompileAlternatives(alternatives).value[i])
    decreases alternatives, 0
  {
    hide WellFormed, TraitsOf;
    if |alternatives| > 0 {
      AlternativesAreWellFormed(alternatives[..|alternatives| - 1]);
      CompileIsWellFormed(alternatives[|alternatives| - 1]);
    }
  }

  lemma {:induction false} FieldsAreWellFormed(members: seq<Field>)
    requires forall i :: 0 <= i < |members| ==> Sane(members[i].format)
    requires CompileFields(members).Success?
    ensures GoodEntries(CompileFields(members).value)
    decreases members, 0
  {
    hide WellFormed, TraitsOf;
    if |members| > 0 {
      FieldsAreWellFormed(members[..|members| - 1]);
      CompileIsWellFormed(members[|members| - 1].format);
    }
  }

  lemma StructIsWellFormed(entries: seq<Entry>, base: Option<LayoutAndTraits>, variant: Option<Tag>)
    requires AlignsAreSound(entries) && GoodEntries(entries) && DistinctKeys(entries)
    requires base.Some? ==> IsAlign(base.value.traits.align) && Compiled(base.value) && base.value.layout.Struct?
    ensures Compiled(Assemble(entries, base, variant)) && Assemble(entries, base, variant).layout.Struct?
  {
    hide WellFormed, TraitsOf, Sorted, Before;
    SortedKeepsEntries(entries);
    var sorted := Sorted(entries);
    SortedAscends(entries);
    SortedKeepsKeysDistinct(entries);
    assert GoodEntries(sorted) by {
      forall e | e in sorted ensures GoodEntry(e) {
        assert e in entries;
      }
    }
    SortedStructIsWellFormed(sorted, base, variant);
  }

  lemma SortedKeepsKeysDistinct(entries: seq<Entry>)
    requires Packing.DistinctKeys(entries)
    ensures Packing.DistinctKeys(Sorted(entries))
  {
    hide Sorted;
    var sorted := Sorted(entries);
    SortedAscends(entries);
    SortedKeepsEntries(entries);
    forall i, j | 0 <= i < j < |sorted| ensures sorted[i].key != sorted[j].key {
      assert sorted[i] in entries && sorted[j] in entries;
      assert Before(sorted[i], sorted[j]);
      BeforeIsAsymmetric(sorted[i], sorted[i]);
    }
  }

  /** The part of well-formedness that speaks of one member. */
  lemma MembersAreWellFormed(sorted: seq<Entry>, start: Traits, fixed: bool)
    requires AlignsAreSound(sorted) && GoodEntries(sorted) && IsAlign(start.align)
    ensures var ms := Packed(sorted, start.size).0; var end := Packed(sorted, start.size).1;
      && start.size <= end
      && (forall i :: 0 <= i < |ms| ==> WellFormed(ms[i].layout))
      && (forall i :: 0 <= i < |ms| ==> IsAlign(TraitsOf(ms[i].layout).align))
      && forall i :: 0 <= i < |ms| ==>
           FitsMember(ms[i].offset, TraitsOf(ms[i].layout), start.size, Traits(LargestAlign(sorted, start.align), end, fixed))
  {
    hide WellFormed, TraitsOf, AlignTo, Packed;
    var ms := Packed(sorted, start.size).0;
    PackedIsInOrder(sorted, start.size);
    forall i | 0 <= i < |ms|
      ensures WellFormed(ms[i].layout) && TraitsOf(ms[i].layout).align <= LargestAlign(sorted, start.align)
    {
      var e := EntryOfMember(sorted, start.size, ms[i]);
      assert GoodEntry(e);
    }
  }

  /** A struct is of fixed size exactly when all of its parts are. */
  lemma FixedWhenAllAre(sorted: seq<Entry>, start: nat)
    requires AlignsAreSound(sorted) && GoodEntries(sorted)
    ensures (forall i :: 0 <= i < |sorted| ==> sorted[i].traits.fixed)
       <==> forall i :: 0 <= i < |Packed(sorted, start).0| ==> TraitsOf(Packed(sorted, start).0[i].layout).fixed
  {
    hide WellFormed, TraitsOf, AlignTo, Packed;
    var ms := Packed(sorted, start).0;
    if forall i :: 0 <= i < |sorted| ==> sorted[i].traits.fixed {
      forall i | 0 <= i < |ms| ensures TraitsOf(ms[i].layout).fixed {
        var e := EntryOfMember(sorted, start, ms[i]);
        assert GoodEntry(e);
      }
    } else {
      var j :| 0 <= j < |sorted| && !sorted[j].traits.fixed;
      var m := MemberOfEntry(sorted, start, sorted[j]);
      assert GoodEntry(sorted[j]);
    }
  }

  /** A struct of size zero has nothing to align. */
  lemma EmptyStructIsUnaligned(sorted: seq<Entry>, start: Traits)
    requires AlignsAreSound(sorted) && GoodEntries(sorted) && IsAlign(start.align) && (start.size == 0 ==> start.align == 1)
    ensures Packed(sorted, start.size).1 == 0 ==> LargestAlign(sorted, start.align) == 1
  {
    hide WellFormed, TraitsOf, AlignTo, Packed;
    PackedIsInOrder(sorted, start.size);
    if Packed(sorted, start.size).1 == 0 {
      forall i | 0 <= i < |sorted| ensures sorted[i].traits.align == 1 {
        var m := MemberOfEntry(sorted, start.size, sorted[i]);
        assert GoodEntry(sorted[i]);
        TraitsAreSound(sorted[i].layout);
      }
    }
  }

  lemma SortedStructIsWellFormed(sorted: seq<Entry>, base: Option<LayoutAndTraits>, variant: Option<Tag>)
    requires AlignsAreSound(sorted) && GoodEntries(sorted) && Packing.DistinctKeys(sorted)
    requires base.Some? ==> IsAlign(base.value.traits.align) && Compiled(base.value) && base.value.layout.Struct?
    ensures Compiled(AssembleSorted(sorted, base, variant))
  {
    hide AlignTo, Packed, LargestAlign, Apart, InOrder, Inside, FitsMember, TraitsOf;
    var start := if base.Some? then base.value.traits else Traits(1, 0, true);
    if base.Some? {
      TraitsAreSound(base.value.layout);
      StructTraits(base.value.layout);
    }
    MembersAreWellFormed(sorted, start, AssembleSorted(sorted, base, variant).traits.fixed);
    FixedWhenAllAre(sorted, start.size);
    EmptyStructIsUnaligned(sorted, start);
    PackedKeepsKeysDistinct(sorted, start.size);
    PackedIsInOrder(sorted, start.size);
    OrderedIsApart(Packed(sorted, start.size).0, start.size, Packed(sorted, start.size).1);
    var r := AssembleSorted(sorted, base, variant);
    assert WellFormed(r.layout);
    StructTraits(r.layout);
  }

  lemma StructTraits(layout: Layout)
    requires layout.Struct?
    ensures TraitsOf(layout) == layout.traits
  {
  }

  lemma OrderedIsApart(members: seq<Member>, offset: nat, end: nat)
    requires InOrder(members, offset, end)
    ensures forall i, j :: 0 <= i < j < |members| ==>
      Apart(members[i].offset, TraitsOf(members[i].layout).size, members[j].offset, TraitsOf(members[j].layout).size)
  {
    hide TraitsOf, Inside;
  }

  function EntryOf(f: Field): Option<Entry>
    requires Sane(f.format)
  {
    match Compile(f.format)
    case Success(c) => Some(Entry(f.key, c.layout, c.traits))
    case Failure(_) => None
  }

  predicate SaneFields(fields: seq<Field>) {
    forall i :: 0 <= i < |fields| ==> Sane(fields[i].format)
  }

  /** Compiling fields is compiling one of them and the others. */
  lemma {:induction false} CompileFieldsSplit(b: seq<Field>, k: nat)
    requires SaneFields(b) && k < |b|
    ensures var rest := b[..k] + b[k + 1..];
      && SaneFields(rest)
      && (CompileFields(b).Success? <==> CompileFields(rest).Success? && EntryOf(b[k]).Some?)
      && (CompileFields(b).Success? ==>
            multiset(CompileFields(b).value) == multiset(CompileFields(rest).value) + multiset{EntryOf(b[k]).value})
    decreases |b|
  {
    hide Sane, Compile, EntryOf, CompileFields;
    var n := |b| - 1;
    var rest := b[..k] + b[k + 1..];
    CompileFieldsStep(b);
    if k == n {
      assert rest == b[..n];
    } else {
      CompileFieldsSplit(b[..n], k);
      CompileFieldsStep(rest);
      assert rest[..n - 1] == b[..n][..k] + b[..n][k + 1..];
      assert rest[n - 1] == b[n];
    }
  }

  lemma CompileFieldsStep(b: seq<Field>)
    requires SaneFields(b) && |b| > 0
    ensures var n := |b| - 1;
      && SaneFields(b[..n]) && Sane(b[n].format)
      && (CompileFields(b).Success? <==> CompileFields(b[..n]).Success? && EntryOf(b[n]).Some?)
      && (CompileFields(b).Success? ==> CompileFields(b).value == CompileFields(b[..n]).value + [EntryOf(b[n]).value])
  {
    hide Sane, Compile;
  }

  lemma {:induction false} FieldsIgnoreOrder(a: seq<Field>, b: seq<Field>)
    requires SaneFields(a) && SaneFields(b) && multiset(a) == multiset(b)
    ensures CompileFields(a).Success? <==> CompileFields(b).Success?
    ensures CompileFields(a).Success? ==> multiset(CompileFields(a).value) == multiset(CompileFields(b).value)
    decreases |a|
  {
    hide Sane, Compile, EntryOf, CompileFields;
    if |a| > 0 {
      var restA, restB, m := SplitSame(a, b);
      FieldsIgnoreOrder(restA, restB);
    } else {
      NoneIsSame(a, b);
    }
  }

  /** Fields compile if one of them and the rest do. */
  ghost predicate SplitsInto(b: seq<Field>, rest: seq<Field>, m: Field)
    requires SaneFields(b) && SaneFields(rest) && Sane(m.format)
  {
    && (CompileFields(b).Success? <==> CompileFields(rest).Success? && EntryOf(m).Some?)
    && (CompileFields(b).Success? ==>
          multiset(CompileFields(b).value) == multiset(CompileFields(rest).value) + multiset{EntryOf(m).value})
  }

  lemma SplitSame(a: seq<Field>, b: seq<Field>) returns (restA: seq<Field>, restB: seq<Field>, m: Field)
    requires SaneFields(a) && SaneFields(b) && multiset(a) == multiset(b) && |a| > 0
    ensures |restA| < |a| && SaneFields(restA) && SaneFields(restB) && Sane(m.format)
    ensures multiset(restA) == multiset(restB)
    ensures SplitsInto(a, restA, m) && SplitsInto(b, restB, m)
  {
    hide Sane, Compile, EntryOf, CompileFields;
    var k := FindSame(a, b);
    RemovingSame(a, 0, b, k);
    CompileFieldsSplit(a, 0);
    CompileFieldsSplit(b, k);
    restA, restB, m := a[..0] + a[1..], b[..k] + b[k + 1..], a[0];
  }

  lemma FindSame(a: seq<Field>, b: seq<Field>) returns (k: nat)
    requires |a| > 0 && multiset(a) == multiset(b)
    ensures k < |b| && b[k] == a[0]
  {
    SameElements(a, b, a[0]);
    k :| 0 <= k < |b| && b[k] == a[0];
  }

  lemma NoneIsSame(a: seq<Field>, b: seq<Field>)
    requires |a| == 0 && multiset(a) == multiset(b)
    ensures a == b
  {
    assert |multiset(b)| == 0;
  }

  /** The order in which the members of a struct are declared does not matter. */
  lemma DeclarationOrderIsIrrelevant(a: seq<Field>, b: seq<Field>, inherit: Option<Format>, variant: Option<Tag>)
    requires Sane(StructFormat(a, inherit, variant)) && Sane(StructFormat(b, inherit, variant))
    requires multiset(a) == multiset(b)
    ensures Compile(StructFormat(a, inherit, variant)) == Compile(StructFormat(b, inherit, variant))
  {
    hide Packed, AssembleSorted, Sorted, CompileFields;
    assert CompileFields(a).Failure? ==> CompileFields(a).error == DequeNotImplemented;
    assert CompileFields(b).Failure? ==> CompileFields(b).error == DequeNotImplemented;
    FieldsIgnoreOrder(a, b);
    if CompileFields(a).Success? {
      SortedIgnoresOrder(CompileFields(a).value, CompileFields(b).value);
    }
  }
}
