/** Where compiled layouts put things, in numbers. */
module Sizes {
  import opened Wrappers
  import opened Strings
  import opened Bytes
  import opened Layouts
  import opened Values
  import opened Scanner
  import opened Packing
  import opened Compiler

  /** Size and alignment of each primitive, in bytes. */
  function BytesOf(scalar: Scalar): nat {
    match scalar
    case Bool => 1
    case Int8 => 1
    case Int16 => 2
    case Int32 => 4
    case Uint8 => 1
    case Uint16 => 2
    case Uint32 => 4
    case Double => 8
  }

  predicate HasTraits(t: Traits, align: nat, size: nat) {
    t.align == align && t.size == size
  }

  /** Without structs and arrays, whose sizes follow from their parts. */
  lemma LeafSizes(format: Format)
    requires Compile(format).Success?
    ensures var t := Compile(format).value.traits;
      && (format.PrimitiveFormat? ==> HasTraits(t, BytesOf(format.scalar), BytesOf(format.scalar)) && t.fixed)
      && (format.BufferFormat? || format.StringFormat? ==> HasTraits(t, 4, 8) && !t.fixed)
      && (format.ConstantFormat? ==> HasTraits(t, 1, 0) && t.fixed)
      && (format.EnumFormat? ==> HasTraits(t, 1, 1) && t.fixed)
      && (format.VariantFormat? ==> HasTraits(t, 4, 5) && !t.fixed)
  {
    hide AlignTo, Assemble, CompileFields, CompileAlternatives;
  }

  /** Values of up to 8 bytes are optional in place, with a byte behind them, larger ones through a pointer. */
  lemma OptionalSizes(e: Format, u: Value)
    requires Compile(OptionalFormat(e, u)).Success?
    ensures Compile(e).Success?
    ensures var c, o := Compile(e).value, Compile(OptionalFormat(e, u)).value;
      if c.traits.size <= 8 then
        o.layout == Optional(c.layout, c.traits.size, u) && o.traits == Traits(c.traits.align, c.traits.size + 1, c.traits.fixed)
      else o.layout == Pointer(c.layout, c.traits.align, c.traits.size, u) && o.traits == Traits(4, 4, false)
  {
    hide AlignTo, Assemble, CompileFields, CompileAlternatives, ArrayOf;
  }

  /** The least multiple of `align` from `size` on. */
  predicate IsStride(stride: nat, size: nat, align: nat)
    requires align > 0
  {
    size <= stride < size + align && stride % align == 0
  }

  /** Vectors of elements that take no heap are laid out by stride, others are linked. */
  predicate SizedAsVector(c: LayoutAndTraits, v: LayoutAndTraits) {
    && c.traits.align > 0
    && if c.traits.fixed then
         && v.layout.Vector? && v.layout.element == c.layout && v.layout.align == c.traits.align && v.layout.size == c.traits.size
         && IsStride(v.layout.stride, c.traits.size, c.traits.align) && v.traits == Traits(4, 8, false)
       else v.layout == List(c.layout, c.traits.align, c.traits.size) && v.traits == Traits(4, 4, false)
  }

  lemma VectorSizes(e: Format)
    requires Compile(VectorFormat(e)).Success?
    ensures Compile(e).Success? && SizedAsVector(Compile(e).value, Compile(VectorFormat(e)).value)
  {
    hide Compile, IsStride, Traits.Stride;
    VectorCompiles(e);
    StrideIsLeast(Compile(e).value.traits);
  }

  lemma VectorCompiles(e: Format)
    requires Compile(VectorFormat(e)).Success?
    ensures Compile(e).Success? && IsAlign(Compile(e).value.traits.align)
    ensures var c, v := Compile(e).value, Compile(VectorFormat(e)).value;
      v == if c.traits.fixed then
             LayoutAndTraits(Vector(c.layout, c.traits.align, c.traits.size, c.traits.Stride()), Traits(4, 8, false))
           else
             LayoutAndTraits(List(c.layout, c.traits.align, c.traits.size), Traits(4, 4, false))
  {
    hide Traits.Stride;
  }

  lemma StrideIsLeast(t: Traits)
    requires IsAlign(t.align)
    ensures IsStride(t.Stride(), t.size, t.align)
  {
    hide AlignTo;
  }

  /** All elements of an array but the last are padded. */
  predicate SizedAsArray(c: LayoutAndTraits, a: LayoutAndTraits, n: nat) {
    && c.traits.align > 0 && n > 0
    && a.layout.Array? && a.layout.element == c.layout && a.layout.length == n
    && IsStride(a.layout.stride, c.traits.size, c.traits.align)
    && a.traits == Traits(c.traits.align, a.layout.stride * (n - 1) + c.traits.size, true)
  }

  lemma ArraySizes(e: Format, n: nat)
    requires Compile(ArrayFormat(e, n)).Success? && n > 0
    ensures Compile(e).Success? && SizedAsArray(Compile(e).value, Compile(ArrayFormat(e, n)).value, n)
  {
    hide Compile, ArrayOf, IsStride, Traits.Stride;
    ArrayCompiles(e, n);
    ArrayOfElements(Compile(e).value, n);
  }

  lemma ArrayCompiles(e: Format, n: nat)
    requires Compile(ArrayFormat(e, n)).Success?
    ensures Compile(e).Success? && Compile(ArrayFormat(e, n)).value == ArrayOf(Compile(e).value, n)
  {
    hide ArrayOf;
  }

  lemma ArrayOfElements(c: LayoutAndTraits, n: nat)
    requires IsAlign(c.traits.align) && n > 0
    ensures ArrayOf(c, n) == LayoutAndTraits(Array(c.layout, n, c.traits.Stride()),
                                             Traits(c.traits.align, c.traits.Stride() * (n - 1) + c.traits.size, true))
    ensures IsStride(c.traits.Stride(), c.traits.size, c.traits.align)
  {
    hide AlignTo;
  }

  // Addresses

  /** An address rounded up is the least aligned one that is not below. */
  lemma LeastAligned(address: nat, align: nat, p: nat)
    requires IsAlign(align) && address <= p && p % align == 0
    ensures AlignTo(address, align) <= p
  {
    hide AlignTo;
    var r := AlignTo(address, align);
    if p < r {
      assert r < p + align;
      NoMultipleBetween(p, r, align);
    }
  }

  lemma NoMultipleBetween(p: nat, r: nat, align: nat)
    requires IsAlign(align) && p % align == 0 && r % align == 0 && p < r
    ensures p + align <= r
  {
  }

  /** A list element lies at the least address that leaves 4 bytes for its link and suits both. */
  lemma ElementIsClosest(layout: Layout, items: seq<Value>, k: nat, heap: nat, p: nat)
    requires WellFormed(layout) && layout.List? && k < |items| && forall i :: 0 <= i < |items| ==> Typed(layout.element, items[i])
    requires IsAlign(layout.align) && ScanList(layout, items, k, heap) + 4 <= p && p % 4 == 0 && p % layout.align == 0
    ensures ElementAt(layout, items, k, heap) <= p
  {
    hide WellFormed, Typed, ScanList, AlignTo;
    LeastAligned(ScanList(layout, items, k, heap) + 4, ListAlign(layout), p);
  }

  /** A vector ends behind its last element, without padding; an empty one takes nothing. */
  lemma VectorEndInNumbers(count: nat, sized: bool, align: nat, size: nat, stride: nat, heap: nat)
    requires align > 0 && size <= stride
    ensures count == 0 ==> VectorEnd(count, sized, align, size, stride, heap) == heap
    ensures count > 0 && stride > 0 ==>
      VectorEnd(count, sized, align, size, stride, heap) == AlignTo(heap, align) + stride * (count - 1) + size
  {
    hide AlignTo, Steps;
    StepsAreProduct(stride, count);
    if count > 0 {
      OneStrideLess(stride, count);
    }
  }

  lemma OneStrideLess(stride: nat, count: nat)
    requires count > 0
    ensures stride * count == stride * (count - 1) + stride
  {
  }

  /** A string takes a byte for each unit below 256 if all are, else two bytes for each, from an even address on. */
  lemma TextBytes(v: Value, heap: nat)
    requires v.Text?
    ensures (forall i :: 0 <= i < |v.units| ==> v.units[i] < 256) ==> Scan(String, v, heap) == heap + |v.units|
    ensures (exists i :: 0 <= i < |v.units| && v.units[i] >= 256) ==> Scan(String, v, heap) == heap + heap % 2 + 2 * |v.units|
  {
  }

  // Structs

  /** With members placed up to `offset`, the next one needs the least padding, then is smaller, less aligned, or first by key. */
  predicate IsNext(offset: nat, next: Member, other: Member) {
    var a, b := TraitsOf(next.layout), TraitsOf(other.layout);
    && IsAlign(a.align) && IsAlign(b.align) && next.offset == AlignTo(offset, a.align)
    && var wasted, would := next.offset - offset, AlignTo(offset, b.align) - offset;
       || wasted < would
       || (wasted == would
           && (a.size < b.size || (a.size == b.size && (a.align < b.align || (a.align == b.align && StringLess(next.key, other.key))))))
  }

  /** Where the members before member `i` end. */
  function EndBefore(ms: seq<Member>, start: nat, i: nat): nat
    requires i <= |ms|
  {
    if i == 0 then start else ms[i - 1].offset + TraitsOf(ms[i - 1].layout).size
  }

  predicate PlacedByNeed(ms: seq<Member>, start: nat) {
    forall i, j :: 0 <= i < j < |ms| ==> IsNext(EndBefore(ms, start, i), ms[i], ms[j])
  }

  lemma BestIsNext(entries: seq<Entry>, offset: nat, e: Entry)
    requires |entries| > 0 && Aligned(entries) && GoodEntries(entries) && Ascending(entries)
    requires e in Without(entries, Best(entries, offset))
    ensures var b := entries[Best(entries, offset)];
      GoodEntry(b) && IsNext(offset, Member(b.key, AlignTo(offset, b.traits.align), b.layout), Member(e.key, 0, e.layout))
  {
    hide AlignTo, TraitsOf, WellFormed, Best;
    var k := Best(entries, offset);
    assert entries[k] in entries && GoodEntry(entries[k]) && GoodEntry(e);
    var i :| 0 <= i < |entries| && entries[i] == e && i != k;
    if k < i { assert Before(entries[k], entries[i]); }
  }

  lemma WithoutAscends(entries: seq<Entry>, k: nat)
    requires k < |entries| && Ascending(entries)
    ensures Ascending(Without(entries, k))
  {
    hide Before;
  }

  lemma IsNextOfSame(offset: nat, next: Member, a: Member, b: Member)
    requires IsNext(offset, next, a) && a.key == b.key && a.layout == b.layout
    ensures IsNext(offset, next, b)
  {
    hide AlignTo, TraitsOf;
  }

  lemma {:induction false} PackedByNeed(entries: seq<Entry>, start: nat)
    requires Aligned(entries) && GoodEntries(entries) && Ascending(entries)
    ensures PlacedByNeed(Packed(entries, start).0, start)
    decreases |entries|
  {
    hide AlignTo, TraitsOf, WellFormed, Best, Packed, Ascending, IsNext, Without;
    PackedStep(entries, start);
    if |entries| > 0 {
      var k := Best(entries, start);
      var rest, b := Without(entries, k), entries[k];
      var at := AlignTo(start, b.traits.align);
      var first, ms := Member(b.key, at, b.layout), Packed(rest, at + b.traits.size).0;
      assert b in entries && GoodEntry(b);
      WithoutAscends(entries, k);
      PackedByNeed(rest, at + b.traits.size);
      var all := [first] + ms;
      forall i, j | 0 <= i < j < |all| ensures IsNext(EndBefore(all, start, i), all[i], all[j]) {
        if i == 0 {
          var e := EntryOfMember(rest, at + b.traits.size, ms[j - 1]);
          BestIsNext(entries, start, e);
          IsNextOfSame(start, first, Member(e.key, 0, e.layout), ms[j - 1]);
        } else {
          assert EndBefore(all, start, i) == EndBefore(ms, at + b.traits.size, i - 1);
        }
      }
    }
  }

  /** The members of a compiled struct, behind those it inherits. */
  lemma StructPlacement(members: seq<Field>, inherit: Option<Format>, variant: Option<Tag>)
    requires var format := StructFormat(members, inherit, variant); Sane(format) && Compile(format).Success?
    ensures inherit.Some? ==> Compile(inherit.value).Success?
    ensures var c := Compile(StructFormat(members, inherit, variant)).value;
      var start := if inherit.Some? then Compile(inherit.value).value.traits.size else 0;
      && c.layout.Struct? && PlacedByNeed(c.layout.members, start)
      && c.traits.size == EndBefore(c.layout.members, start, |c.layout.members|)
      && IsLargestAlign(c.layout.members, if inherit.Some? then Compile(inherit.value).value.traits.align else 1, c.traits.align)
  {
    hide AlignTo, TraitsOf, WellFormed, Packed, Sorted, CompileFields, Sane, IsNext, LargestAlign, Ascending;
    StructParts(members, inherit, variant);
    var entries := CompileFields(members).value;
    var start := if inherit.Some? then Compile(inherit.value).value.traits.size else 0;
    FieldsAreWellFormed(members);
    SortedKeepsEntries(entries);
    var sorted := Sorted(entries);
    Packing.SortedAscends(entries);
    assert GoodEntries(sorted);
    PackedByNeed(sorted, start);
    PackedEnd(sorted, start);
    LargestOfPacked(sorted, start, if inherit.Some? then Compile(inherit.value).value.traits.align else 1);
  }

  /** The largest alignment of the members, or that of the inherited struct. */
  predicate IsLargestAlign(ms: seq<Member>, least: nat, align: nat) {
    && least <= align && (forall i :: 0 <= i < |ms| ==> TraitsOf(ms[i].layout).align <= align)
    && (align == least || exists i :: 0 <= i < |ms| && TraitsOf(ms[i].layout).align == align)
  }

  lemma LargestOfPacked(entries: seq<Entry>, start: nat, least: nat)
    requires AlignsAreSound(entries) && GoodEntries(entries) && IsAlign(least)
    ensures IsLargestAlign(Packed(entries, start).0, least, LargestAlign(entries, least))
  {
    hide AlignTo, TraitsOf, WellFormed, Packed;
    var ms, align := Packed(entries, start).0, LargestAlign(entries, least);
    forall i | 0 <= i < |ms| ensures TraitsOf(ms[i].layout).align <= align {
      var e := EntryOfMember(entries, start, ms[i]);
      assert GoodEntry(e);
    }
    if align != least {
      var j :| 0 <= j < |entries| && align == entries[j].traits.align;
      var m := MemberOfEntry(entries, start, entries[j]);
      assert GoodEntry(entries[j]);
    }
  }

  lemma StructParts(members: seq<Field>, inherit: Option<Format>, variant: Option<Tag>)
    requires var format := StructFormat(members, inherit, variant); Sane(format) && Compile(format).Success?
    ensures CompileFields(members).Success? && (inherit.Some? ==> Compile(inherit.value).Success?)
    ensures forall i :: 0 <= i < |members| ==> Sane(members[i].format)
    ensures DistinctKeys(CompileFields(members).value) && Aligned(Sorted(CompileFields(members).value))
    ensures var sorted := Sorted(CompileFields(members).value);
      var start := if inherit.Some? then Compile(inherit.value).value.traits.size else 0;
      var c := Compile(StructFormat(members, inherit, variant)).value;
      c.layout.Struct? && c.layout.members == Packed(sorted, start).0 && c.traits.size == Packed(sorted, start).1
    ensures var least := if inherit.Some? then Compile(inherit.value).value.traits.align else 1;
      && AlignsAreSound(Sorted(CompileFields(members).value)) && IsAlign(least)
      && Compile(StructFormat(members, inherit, variant)).value.traits.align == LargestAlign(Sorted(CompileFields(members).value), least)
  {
    hide AlignTo, Packed, Sorted, LargestAlign;
    SortedKeepsEntries(CompileFields(members).value);
  }
}
