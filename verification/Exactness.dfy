/** Which values of a declared format come back as they were, whatever its layout. */
module Exactness {
  import opened Wrappers
  import opened Bytes
  import opened Layouts
  import opened Values
  import opened Fidelity
  import opened Packing
  import opened Compiler
  import opened Formats
  import Sizes

  /** The values of a primitive. A double is a word of 64 bits. */
  predicate IsScalar(scalar: Scalar, v: Value) {
    match scalar
    case Bool => v.Boolean?
    case Int8 => v.Number? && -128 <= v.n <= 127
    case Int16 => v.Number? && -32768 <= v.n <= 32767
    case Int32 => v.Number? && -2147483648 <= v.n <= 2147483647
    case Uint8 => v.Number? && 0 <= v.n <= 255
    case Uint16 => v.Number? && 0 <= v.n <= 65535
    case Uint32 => v.Number? && 0 <= v.n <= 4294967295
    case Double => v.DoubleWord? && v.bits <= 18446744073709551615
  }

  function KeysOfFields(members: seq<Field>): set<string> {
    set i | 0 <= i < |members| :: members[i].key
  }

  function DeclaredKeys(format: Format): set<string>
    requires format.StructFormat?
  {
    KeysOfFields(format.members)
    + if format.inherit.Some? && format.inherit.value.StructFormat? then DeclaredKeys(format.inherit.value) else {}
  }

  /**
   * Numbers in the range of their type, constants as declared, arrays of the declared length, objects with
   * exactly the declared properties, and the tag of the struct if that is truthy and none otherwise.
   */
  ghost predicate Exact(format: Format, v: Value)
    decreases format, 1
  {
    match format
    case PrimitiveFormat(s) => IsScalar(s, v)
    case BufferFormat => v.Blob?
    case StringFormat => v.Text?
    case ArrayFormat(e, n) => v.Items? && v.sized && |v.items| == n && forall i :: 0 <= i < n ==> Exact(e, v.items[i])
    case ConstantFormat(c) => v == c
    case EnumFormat(values) => v in values
    case OptionalFormat(e, u) => v == u || Exact(e, v)
    case StructFormat(_, _, variant) =>
      && v.Object? && v.tag == (if variant.Some? && variant.value.Truthy() then variant else None)
      && v.fields.Keys == DeclaredKeys(format)
      && ExactFields(format, v, {})
    case VariantFormat(alternatives) =>
      v.Object? && exists k: nat :: Chosen(alternatives, v.tag, k) && IndexFits(k) && Exact(alternatives[k], v)
    case VectorFormat(e) =>
      v.Items? && v.sized && |v.items| < 0x8000_0000 && forall i :: 0 <= i < |v.items| ==> Exact(e, v.items[i])
  }

  /** The fields that are not hidden are exact; own fields hide inherited ones of the same name. */
  ghost predicate ExactFields(format: Format, v: Value, hidden: set<string>)
    requires format.StructFormat?
    decreases format, 0
  {
    && ExactMembers(format, v, hidden)
    && (format.inherit.Some? && format.inherit.value.StructFormat? ==>
          ExactFields(format.inherit.value, v, hidden + KeysOfFields(format.members)))
  }

  ghost predicate ExactMembers(format: Format, v: Value, hidden: set<string>)
    requires format.StructFormat?
    decreases format, 0, 0
  {
    forall i :: 0 <= i < |format.members| && format.members[i].key !in hidden ==>
      Exact(format.members[i].format, Property(v, format.members[i].key))
  }

  predicate Compiles(format: Format) {
    Sane(format) && Compile(format).Success?
  }

  function LayoutOf(format: Format): Layout
    requires Compiles(format)
  {
    Compile(format).value.layout
  }

  /** What is faithful to the compiled layout is exactly what the format says. */
  lemma {:induction false} FaithfulIffExact(format: Format, v: Value)
    requires Compiles(format) && Accepts(format, v)
    ensures Typed(LayoutOf(format), v) && (Faithful(LayoutOf(format), v) <==> Exact(format, v))
    decreases format, 2
  {
    hide Compiles, LayoutOf, Typed, Faithful, Accepts, Exact;
    match format
    case ArrayFormat(_, _) => ArrayExact(format, v);
    case OptionalFormat(_, _) => OptionalExact(format, v);
    case VectorFormat(_) => VectorExact(format, v);
    case VariantFormat(_) => VariantExact(format, v);
    case StructFormat(_, _, _) => StructExact(format, v);
    case _ => LeafExact(format, v);
  }

  lemma LeafExact(format: Format, v: Value)
    requires Compiles(format) && Accepts(format, v)
    requires format.PrimitiveFormat? || format.BufferFormat? || format.StringFormat? || format.ConstantFormat? || format.EnumFormat?
    ensures Typed(LayoutOf(format), v) && (Faithful(LayoutOf(format), v) <==> Exact(format, v))
  {
    Widths();
  }

  lemma {:induction false} ItemsExact(e: Format, items: seq<Value>)
    requires Compiles(e) && forall i :: 0 <= i < |items| ==> Accepts(e, items[i])
    ensures forall i :: 0 <= i < |items| ==> Typed(LayoutOf(e), items[i]) && (Faithful(LayoutOf(e), items[i]) <==> Exact(e, items[i]))
    decreases e, 3
  {
    hide Compiles, LayoutOf, Typed, Faithful, Accepts, Exact;
    forall i | 0 <= i < |items|
      ensures Typed(LayoutOf(e), items[i]) && (Faithful(LayoutOf(e), items[i]) <==> Exact(e, items[i]))
    {
      FaithfulIffExact(e, items[i]);
    }
  }

  lemma ArrayLayout(e: Format, n: nat)
    requires Compiles(ArrayFormat(e, n))
    ensures Compiles(e)
    ensures var layout := LayoutOf(ArrayFormat(e, n)); layout.Array? && layout.element == LayoutOf(e) && layout.length == n
  {
    hide Compile;
    Sizes.ArrayCompiles(e, n);
  }

  lemma {:induction false} ArrayExact(format: Format, v: Value)
    requires format.ArrayFormat? && Compiles(format) && Accepts(format, v)
    ensures Typed(LayoutOf(format), v) && (Faithful(LayoutOf(format), v) <==> Exact(format, v))
    decreases format, 1
  {
    hide Compiles, LayoutOf;
    ArrayLayout(format.element, format.length);
    var items := v.items[..format.length];
    ItemsExact(format.element, items);
    assert forall i :: 0 <= i < format.length ==> items[i] == v.items[i];
  }

  lemma OptionalLayout(e: Format, u: Value)
    requires Compiles(OptionalFormat(e, u))
    ensures Compiles(e)
    ensures var layout := LayoutOf(OptionalFormat(e, u));
      (layout.Optional? || layout.Pointer?) && layout.element == LayoutOf(e) && layout.uninitialized == u
  {
    hide Compile;
    Sizes.OptionalSizes(e, u);
  }

  lemma {:induction false} OptionalExact(format: Format, v: Value)
    requires format.OptionalFormat? && Compiles(format) && Accepts(format, v)
    ensures Typed(LayoutOf(format), v) && (Faithful(LayoutOf(format), v) <==> Exact(format, v))
    decreases format, 1
  {
    hide Compiles, LayoutOf;
    OptionalLayout(format.element, format.uninitialized);
    if v != format.uninitialized {
      FaithfulIffExact(format.element, v);
    }
  }

  lemma {:induction false} VectorExact(format: Format, v: Value)
    requires format.VectorFormat? && Compiles(format) && Accepts(format, v)
    ensures Typed(LayoutOf(format), v) && (Faithful(LayoutOf(format), v) <==> Exact(format, v))
    decreases format, 1
  {
    hide Sane, Compile;
    VectorShape(format.element);
    ItemsExact(format.element, v.items);
  }

  // Variants

  lemma VariantLayout(alternatives: seq<Format>, k: nat)
    requires Compiles(VariantFormat(alternatives)) && k < |alternatives|
    ensures Compiles(alternatives[k]) && alternatives[k].StructFormat?
    ensures var layout := LayoutOf(VariantFormat(alternatives));
      && layout.Variant? && |layout.alternatives| == |alternatives|
      && layout.alternatives[k].layout == LayoutOf(alternatives[k]) && TagOf(layout.alternatives[k].layout) == FormatTag(alternatives[k])
  {
    hide AlignTo, CompileAlternatives;
    AlternativeAt(alternatives, k);
    CompiledTag(alternatives[k]);
  }

  lemma {:induction false} VariantExact(format: Format, v: Value)
    requires format.VariantFormat? && Compiles(format) && Accepts(format, v)
    ensures Typed(LayoutOf(format), v) && (Faithful(LayoutOf(format), v) <==> Exact(format, v))
    decreases format, 1
  {
    hide Compiles, LayoutOf, TagOf, FormatTag, Selected;
    var alternatives, layout := format.alternatives, LayoutOf(format);
    var k: nat :| Chosen(alternatives, v.tag, k) && IndexFits(k) && Accepts(alternatives[k], v);
    VariantLayout(alternatives, k);
    ChosenIsSelected(alternatives, v.tag, k);
    FaithfulIffExact(alternatives[k], v);
    forall j: nat | Chosen(alternatives, v.tag, j) ensures j == k {
    }
  }

  lemma ChosenIsSelected(alternatives: seq<Format>, tag: Option<Tag>, k: nat)
    requires Compiles(VariantFormat(alternatives)) && Chosen(alternatives, tag, k)
    ensures var layout := LayoutOf(VariantFormat(alternatives));
      layout.Variant? && Selected(layout.alternatives, tag) == Some(k)
  {
    hide Compiles, LayoutOf, TagOf, FormatTag, Selected;
    var layout := LayoutOf(VariantFormat(alternatives));
    forall i: nat | i < |alternatives|
      ensures layout.Variant? && |layout.alternatives| == |alternatives|
      ensures TagOf(layout.alternatives[i].layout) == FormatTag(alternatives[i])
    {
      VariantLayout(alternatives, i);
    }
  }

  // Structs

  lemma StructLayout(format: Format)
    requires format.StructFormat? && Compiles(format)
    ensures LayoutOf(format).Struct? && LayoutOf(format).variant == format.variant
    ensures format.inherit.Some? ==>
      && format.inherit.value.StructFormat? && Compiles(format.inherit.value)
      && LayoutOf(format).inherit == Some(LayoutOf(format.inherit.value)) && LayoutOf(format.inherit.value).Struct?
    ensures format.inherit.None? ==> LayoutOf(format).inherit.None?
  {
    hide AlignTo, Packed, Sorted, LargestAlign;
    if format.inherit.Some? {
      CompileIsWellFormed(format.inherit.value);
    }
  }

  /** Each member is that of a field, and each field has one. */
  lemma FieldOfMember(format: Format, i: nat) returns (k: nat)
    requires format.StructFormat? && Compiles(format) && LayoutOf(format).Struct? && i < |LayoutOf(format).members|
    ensures k < |format.members| && Compiles(format.members[k].format)
    ensures var m := LayoutOf(format).members[i]; m.key == format.members[k].key && m.layout == LayoutOf(format.members[k].format)
  {
    hide AlignTo, Packed, Sorted, LargestAlign, CompileFields;
    var entries := CompileFields(format.members).value;
    SortedKeepsEntries(entries);
    var start := if format.inherit.Some? then Compile(format.inherit.value).value.traits.size else 0;
    var e := EntryOfMember(Sorted(entries), start, LayoutOf(format).members[i]);
    k :| 0 <= k < |entries| && entries[k] == e;
    FieldAt(format.members, k);
  }

  lemma MemberOfField(format: Format, k: nat) returns (i: nat)
    requires format.StructFormat? && Compiles(format) && LayoutOf(format).Struct? && k < |format.members|
    ensures i < |LayoutOf(format).members| && Compiles(format.members[k].format)
    ensures var m := LayoutOf(format).members[i]; m.key == format.members[k].key && m.layout == LayoutOf(format.members[k].format)
  {
    hide AlignTo, Packed, Sorted, LargestAlign, CompileFields;
    var entries := CompileFields(format.members).value;
    SortedKeepsEntries(entries);
    FieldAt(format.members, k);
    var start := if format.inherit.Some? then Compile(format.inherit.value).value.traits.size else 0;
    assert entries[k] in Sorted(entries);
    var m := MemberOfEntry(Sorted(entries), start, entries[k]);
    i :| 0 <= i < |LayoutOf(format).members| && LayoutOf(format).members[i] == m;
  }

  lemma OwnKeysAreOfFields(format: Format)
    requires format.StructFormat? && Compiles(format) && LayoutOf(format).Struct?
    ensures OwnKeys(LayoutOf(format)) == KeysOfFields(format.members)
  {
    hide Compiles, LayoutOf;
    var ms := LayoutOf(format).members;
    KeysAreOfMembers(ms, |ms|);
    forall key | key in OwnKeys(LayoutOf(format)) ensures key in KeysOfFields(format.members) {
      var i :| 0 <= i < |ms| && ms[i].key == key;
      var k := FieldOfMember(format, i);
    }
    forall key | key in KeysOfFields(format.members) ensures key in OwnKeys(LayoutOf(format)) {
      var k :| 0 <= k < |format.members| && format.members[k].key == key;
      var i := MemberOfField(format, k);
    }
  }

  lemma {:induction false} AllKeysAreDeclared(format: Format)
    requires format.StructFormat? && Compiles(format) && LayoutOf(format).Struct?
    ensures AllKeys(LayoutOf(format)) == DeclaredKeys(format)
  {
    hide Compiles, LayoutOf;
    StructLayout(format);
    OwnKeysAreOfFields(format);
    if format.inherit.Some? {
      AllKeysAreDeclared(format.inherit.value);
    }
  }

  /** What a struct accepts, of its fields and of what it inherits. */
  lemma StructAccepts(format: Format, v: Value)
    requires format.StructFormat? && Accepts(format, v)
    ensures v.Object? && (format.inherit.Some? ==> Accepts(format.inherit.value, v))
    ensures forall i :: 0 <= i < |format.members| ==> Accepts(format.members[i].format, Property(v, format.members[i].key))
  {
  }

  lemma StructTypes(layout: Layout, v: Value)
    requires layout.Struct? && Typed(layout, v)
    ensures layout.inherit.Some? ==> Typed(layout.inherit.value, v)
    ensures forall i :: 0 <= i < |layout.members| ==> Typed(layout.members[i].layout, Property(v, layout.members[i].key))
  {
  }

  lemma {:induction false} FieldsExact(format: Format, v: Value, hidden: set<string>)
    requires format.StructFormat? && Compiles(format) && Accepts(format, v) && LayoutOf(format).Struct?
    requires Typed(LayoutOf(format), v)
    ensures FaithfulFields(LayoutOf(format), v, hidden) <==> ExactFields(format, v, hidden)
    decreases format, 0
  {
    hide Compiles, LayoutOf, Accepts, Typed, Faithful, Exact, ExactMembers, KeysOfFields, OwnKeys;
    var layout := LayoutOf(format);
    StructLayout(format);
    StructAccepts(format, v);
    StructTypes(layout, v);
    OwnKeysAreOfFields(format);
    MembersExact(format, v, hidden);
    if format.inherit.Some? {
      FieldsExact(format.inherit.value, v, hidden + KeysOfFields(format.members));
    }
  }

  lemma {:induction false} MembersExact(format: Format, v: Value, hidden: set<string>)
    requires format.StructFormat? && Compiles(format) && Accepts(format, v) && LayoutOf(format).Struct?
    requires Typed(LayoutOf(format), v)
    requires forall i :: 0 <= i < |LayoutOf(format).members| ==> Typed(LayoutOf(format).members[i].layout, Property(v, LayoutOf(format).members[i].key))
    ensures (forall i :: 0 <= i < |LayoutOf(format).members| && LayoutOf(format).members[i].key !in hidden ==>
        Faithful(LayoutOf(format).members[i].layout, Property(v, LayoutOf(format).members[i].key)))
      <==> ExactMembers(format, v, hidden)
    decreases format, 0, 0
  {
    hide Compiles, LayoutOf, Accepts, Typed, Faithful, Exact;
    var ms := LayoutOf(format).members;
    StructAccepts(format, v);
    if ExactMembers(format, v, hidden) {
      forall i | 0 <= i < |ms| && ms[i].key !in hidden ensures Faithful(ms[i].layout, Property(v, ms[i].key)) {
        var k := FieldOfMember(format, i);
        FaithfulIffExact(format.members[k].format, Property(v, format.members[k].key));
      }
    }
    if forall i :: 0 <= i < |ms| && ms[i].key !in hidden ==> Faithful(ms[i].layout, Property(v, ms[i].key)) {
      forall k | 0 <= k < |format.members| && format.members[k].key !in hidden
        ensures Exact(format.members[k].format, Property(v, format.members[k].key))
      {
        var i := MemberOfField(format, k);
        FaithfulIffExact(format.members[k].format, Property(v, format.members[k].key));
      }
    }
  }

  lemma {:induction false} StructExact(format: Format, v: Value)
    requires format.StructFormat? && Compiles(format) && Accepts(format, v)
    ensures Typed(LayoutOf(format), v) && (Faithful(LayoutOf(format), v) <==> Exact(format, v))
    decreases format, 1
  {
    hide Accepts, Typed, FaithfulFields, ExactFields, AllKeys, DeclaredKeys, Sane, Compile;
    CompilePreservesValues(format, v);
    StructLayout(format);
    StructAccepts(format, v);
    AllKeysAreDeclared(format);
    FieldsExact(format, v, {});
  }
}
