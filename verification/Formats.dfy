/** The values a format stands for, and that its compiled layout stands for the same ones. */
module Formats {
  import opened Wrappers
  import opened Layouts
  import opened Values
  import opened Packing
  import opened Compiler

  function FormatTag(format: Format): Option<Tag> {
    if format.StructFormat? then format.variant else None
  }

  /** Of several alternatives with one tag, the last counts. */
  predicate Chosen(alternatives: seq<Format>, tag: Option<Tag>, k: nat) {
    k < |alternatives| && FormatTag(alternatives[k]) == tag
    && forall i :: k < i < |alternatives| ==> FormatTag(alternatives[i]) != tag
  }

  /** ShapeOf: the values a format declares. */
  ghost predicate Accepts(format: Format, v: Value) {
    match format
    case PrimitiveFormat(s) => Typed(Primitive(s), v)
    case BufferFormat => v.Blob?
    case StringFormat => v.Text?
    case ArrayFormat(e, n) => v.Items? && |v.items| >= n && forall i :: 0 <= i < n ==> Accepts(e, v.items[i])
    case ConstantFormat(_) => true
    case EnumFormat(values) => v in values
    case OptionalFormat(e, u) => v == u || Accepts(e, v)
    case StructFormat(members, inherit, _) =>
      && v.Object?
      && (inherit.Some? ==> Accepts(inherit.value, v))
      && forall i :: 0 <= i < |members| ==> Accepts(members[i].format, Property(v, members[i].key))
    case VariantFormat(alternatives) =>
      v.Object? && exists k: nat :: Chosen(alternatives, v.tag, k) && IndexFits(k) && Accepts(alternatives[k], v)
    case VectorFormat(e) => v.Items? && |v.items| < INT32_LIMIT && forall i :: 0 <= i < |v.items| ==> Accepts(e, v.items[i])
  }

  /** The layout of a format describes exactly the values of the format. */
  lemma {:induction false} CompilePreservesValues(format: Format, v: Value)
    requires Sane(format) && Compile(format).Success?
    ensures Typed(Compile(format).value.layout, v) <==> Accepts(format, v)
    decreases format, 2
  {
    hide Sane, Typed, Accepts, Compile;
    match format
    case ArrayFormat(_, _) => ArrayPreserved(format, v);
    case OptionalFormat(_, _) => OptionalPreserved(format, v);
    case VectorFormat(_) => VectorPreserved(format, v);
    case VariantFormat(_) => VariantPreserved(format, v);
    case StructFormat(members, inherit, variant) => StructPreserved(members, inherit, variant, v);
    case _ => LeafPreserved(format, v);
  }

  lemma LeafPreserved(format: Format, v: Value)
    requires Sane(format)
    requires format.PrimitiveFormat? || format.BufferFormat? || format.StringFormat? || format.ConstantFormat? || format.EnumFormat?
    ensures Typed(Compile(format).value.layout, v) <==> Accepts(format, v)
  {
  }

  lemma {:induction false} ArrayPreserved(format: Format, v: Value)
    requires format.ArrayFormat? && Sane(format) && Compile(format).Success?
    ensures Typed(Compile(format).value.layout, v) <==> Accepts(format, v)
    decreases format, 1
  {
    hide AlignTo, TraitsOf;
    if v.Items? && |v.items| >= format.length {
      ItemsPreserved(format.element, v.items[..format.length]);
      assert forall i :: 0 <= i < format.length ==> v.items[..format.length][i] == v.items[i];
    }
  }

  lemma {:induction false} OptionalPreserved(format: Format, v: Value)
    requires format.OptionalFormat? && Sane(format) && Compile(format).Success?
    ensures Typed(Compile(format).value.layout, v) <==> Accepts(format, v)
    decreases format, 1
  {
    hide AlignTo, TraitsOf;
    CompilePreservesValues(format.element, v);
  }

  lemma VectorShape(e: Format)
    requires Sane(VectorFormat(e)) && Compile(VectorFormat(e)).Success?
    ensures Sane(e) && Compile(e).Success?
    ensures var layout := Compile(VectorFormat(e)).value.layout;
      (layout.List? || layout.Vector?) && layout.element == Compile(e).value.layout
  {
    hide AlignTo;
  }

  lemma {:induction false} VectorPreserved(format: Format, v: Value)
    requires format.VectorFormat? && Sane(format) && Compile(format).Success?
    ensures Typed(Compile(format).value.layout, v) <==> Accepts(format, v)
    decreases format, 1
  {
    hide Compile, Sane;
    VectorShape(format.element);
    if v.Items? {
      ItemsPreserved(format.element, v.items);
    }
  }

  lemma {:induction false} VariantPreserved(format: Format, v: Value)
    requires format.VariantFormat? && Sane(format) && Compile(format).Success?
    ensures Typed(Compile(format).value.layout, v) <==> Accepts(format, v)
    decreases format, 1
  {
    hide AlignTo, TraitsOf, Selected, CompileAlternatives, Chosen;
    if v.Object? {
      AlternativesPreserved(format.alternatives, v);
    }
  }

  lemma {:induction false} ItemsPreserved(e: Format, items: seq<Value>)
    requires Sane(e) && Compile(e).Success?
    ensures forall i :: 0 <= i < |items| ==> (Typed(Compile(e).value.layout, items[i]) <==> Accepts(e, items[i]))
    decreases e, 3
  {
    hide Sane, Compile, Typed, Accepts;
    forall i | 0 <= i < |items| ensures Typed(Compile(e).value.layout, items[i]) <==> Accepts(e, items[i]) {
      CompilePreservesValues(e, items[i]);
    }
  }

  /** Compiled alternatives, one by one. */
  lemma {:induction false} AlternativeAt(alternatives: seq<Format>, k: nat)
    requires forall i :: 0 <= i < |alternatives| ==> Sane(alternatives[i])
    requires CompileAlternatives(alternatives).Success? && k < |alternatives|
    ensures Compile(alternatives[k]).Success?
    ensures CompileAlternatives(alternatives).value[k].layout == Compile(alternatives[k]).value.layout
    decreases alternatives
  {
    hide Sane, Compile;
    var n := |alternatives| - 1;
    if k < n {
      AlternativeAt(alternatives[..n], k);
    }
  }

  lemma CompiledTag(format: Format)
    requires Sane(format) && Compile(format).Success? && format.StructFormat?
    ensures TagOf(Compile(format).value.layout) == FormatTag(format)
  {
    hide Sane, CompileFields, Sorted, Packed, LargestAlign;
  }

  lemma {:induction false} AlternativesPreserved(alternatives: seq<Format>, v: Value)
    requires forall i :: 0 <= i < |alternatives| ==> Sane(alternatives[i]) && alternatives[i].StructFormat?
    requires CompileAlternatives(alternatives).Success? && v.Object?
    ensures var compiled := CompileAlternatives(alternatives).value; var k := Selected(compiled, v.tag);
      (k.Some? && IndexFits(k.value) && Typed(compiled[k.value].layout, v))
      <==> exists k: nat :: Chosen(alternatives, v.tag, k) && IndexFits(k) && Accepts(alternatives[k], v)
    decreases alternatives, 1
  {
    hide Sane, Compile, CompileAlternatives, Typed, Accepts, TagOf, FormatTag;
    var compiled := CompileAlternatives(alternatives).value;
    var k := Selected(compiled, v.tag);
    forall i | 0 <= i < |alternatives|
      ensures TagOf(compiled[i].layout) == FormatTag(alternatives[i])
      ensures Typed(compiled[i].layout, v) <==> Accepts(alternatives[i], v)
    {
      AlternativeAt(alternatives, i);
      CompiledTag(alternatives[i]);
      CompilePreservesValues(alternatives[i], v);
    }
    if k.Some? {
      assert Chosen(alternatives, v.tag, k.value);
      forall j: nat | Chosen(alternatives, v.tag, j) ensures j == k.value {
      }
    }
  }

  /** Compiled fields, one by one. */
  lemma {:induction false} FieldAt(members: seq<Field>, k: nat)
    requires SaneFields(members) && CompileFields(members).Success? && k < |members|
    ensures Compile(members[k].format).Success?
    ensures CompileFields(members).value[k] == Entry(members[k].key, Compile(members[k].format).value.layout, Compile(members[k].format).value.traits)
    decreases members
  {
    hide Sane, Compile;
    var n := |members| - 1;
    if k < n {
      FieldAt(members[..n], k);
    }
  }

  lemma {:induction false} StructPreserved(members: seq<Field>, inherit: Option<Format>, variant: Option<Tag>, v: Value)
    requires Sane(StructFormat(members, inherit, variant)) && Compile(StructFormat(members, inherit, variant)).Success?
    ensures Typed(Compile(StructFormat(members, inherit, variant)).value.layout, v) <==> Accepts(StructFormat(members, inherit, variant), v)
    decreases StructFormat(members, inherit, variant), 1
  {
    hide AlignTo, Packed, Sorted, CompileFields, LargestAlign;
    var entries := CompileFields(members).value;
    SortedKeepsEntries(entries);
    FieldsPreserved(members, if inherit.Some? then Compile(inherit.value).value.traits.size else 0, v);
    if inherit.Some? {
      CompilePreservesValues(inherit.value, v);
    }
  }

  predicate MembersTyped(ms: seq<Member>, v: Value) {
    forall i :: 0 <= i < |ms| ==> Typed(ms[i].layout, Property(v, ms[i].key))
  }

  ghost predicate FieldsAccepted(members: seq<Field>, v: Value) {
    forall i :: 0 <= i < |members| ==> Accepts(members[i].format, Property(v, members[i].key))
  }

  /** Packing permutes members, so all placed members are typed when all declared ones are. */
  lemma {:induction false} FieldsPreserved(members: seq<Field>, start: nat, v: Value)
    requires SaneFields(members) && CompileFields(members).Success?
    requires Aligned(Sorted(CompileFields(members).value))
    ensures MembersTyped(Packed(Sorted(CompileFields(members).value), start).0, v) <==> FieldsAccepted(members, v)
    decreases members, 0
  {
    hide AlignTo, Packed, Sorted, CompileFields, Compile, Sane, Typed, Accepts;
    var entries := CompileFields(members).value;
    var ms := Packed(Sorted(entries), start).0;
    SortedKeepsEntries(entries);
    forall k | 0 <= k < |members|
      ensures Typed(entries[k].layout, Property(v, entries[k].key)) <==> Accepts(members[k].format, Property(v, members[k].key))
    {
      FieldAt(members, k);
      CompilePreservesValues(members[k].format, Property(v, members[k].key));
    }
    if FieldsAccepted(members, v) {
      forall i | 0 <= i < |ms| ensures Typed(ms[i].layout, Property(v, ms[i].key)) {
        var e := EntryOfMember(Sorted(entries), start, ms[i]);
        var k :| 0 <= k < |entries| && entries[k] == e;
      }
    }
    if MembersTyped(ms, v) {
      forall k | 0 <= k < |members| ensures Accepts(members[k].format, Property(v, members[k].key)) {
        assert entries[k] in Sorted(entries);
        var m := MemberOfEntry(Sorted(entries), start, entries[k]);
      }
    }
  }
}
