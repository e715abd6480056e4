/** What it means for a buffer to hold a value: the wire format, independent of who writes or reads it. */
module Wire {
  import opened Wrappers
  import opened Bytes
  import opened Layouts
  import opened Values
  import opened Scanner

  /** The word that a primitive value is stored as. */
  function Bits(scalar: Scalar, v: Value): (w: nat)
    requires Typed(Primitive(scalar), v)
    ensures w < Radix(scalar.Width())
  {
    match scalar
    case Bool => Widths(); if v.b then 1 else 0
    case Double => v.bits
    case _ => Wrap(v.n, scalar.Width())
  }

  predicate HoldsBytes(mem: seq<byte>, at: nat, bytes: seq<byte>) {
    (|bytes| > 0 ==> at + |bytes| <= |mem|) && forall i :: 0 <= i < |bytes| ==> mem[at + i] == bytes[i]
  }

  predicate HoldsUnits(mem: seq<byte>, at: nat, units: seq<unit>) {
    forall i :: 0 <= i < |units| ==> Holds(mem, at + 2 * i, 2, units[i])
  }

  predicate HoldsLatin1(mem: seq<byte>, at: nat, units: seq<unit>) {
    (|units| > 0 ==> at + |units| <= |mem|) && forall i :: 0 <= i < |units| ==> mem[at + i] == units[i]
  }

  /** A string slot: where the characters are, and their number, negated for UTF-16. */
  predicate HoldsText(mem: seq<byte>, at: nat, heap: nat, units: seq<unit>) {
    if Wide(units) then
      && Holds(mem, at, 4, AlignTo(heap, 2))
      && Holds(mem, at + 4, 4, Wrap(-|units|, 4))
      && HoldsUnits(mem, AlignTo(heap, 2), units)
    else
      && Holds(mem, at, 4, heap)
      && Holds(mem, at + 4, 4, |units|)
      && HoldsLatin1(mem, heap, units)
  }

  /** `mem` holds `v` in the slot at `at`, with its variable part in the heap from `heap` to Scan(layout, v, heap). */
  predicate Encodes(layout: Layout, v: Value, mem: seq<byte>, at: nat, heap: nat)
    requires WellFormed(layout) && Typed(layout, v)
    decreases layout, 1
  {
    TraitsAreSound(layout);
    match layout
    case Primitive(s) => Holds(mem, at, s.Width(), Bits(s, v))
    case Buffer => Holds(mem, at, 4, heap) && Holds(mem, at + 4, 4, |v.bytes|) && HoldsBytes(mem, heap, v.bytes)
    case String => HoldsText(mem, at, heap, v.units)
    case Array(e, n, stride) => EncodesItems(e, v.items[..n], stride, mem, at)
    case Constant(_) => true
    case Enum(values) => exists k :: 0 <= k < |values| && values[k] == v && Holds(mem, at, 1, k)
    case Optional(e, size, u) =>
      Holds(mem, at + size, 1, if v == u then 0 else 1) && (v != u ==> Encodes(e, v, mem, at, heap))
    case Pointer(e, align, size, u) =>
      TraitsAreSound(e);
      if v == u then Holds(mem, at, 4, 0)
      else
        var payload := AlignTo(heap, align);
        Holds(mem, at, 4, payload) && Encodes(e, v, mem, payload, payload + size)
    case Struct(members, inherit, _, _) =>
      && (inherit.Some? ==> Encodes(inherit.value, v, mem, at, heap))
      && forall i :: 0 <= i < |members| ==> EncodesMember(layout, v, i, mem, at, heap)
    case Variant(alternatives) =>
      var k := Selected(alternatives, v.tag).value;
      var a := alternatives[k];
      TraitsAreSound(a.layout);
      var payload := AlignTo(heap, a.align);
      && Holds(mem, at, 4, payload) && Holds(mem, at + 4, 1, k)
      && Encodes(a.layout, v, mem, payload, payload + a.size)
    case List(_, _, _) =>
      && (forall k :: 0 <= k < |v.items| ==> EncodesElement(layout, v.items, k, mem, at, heap))
      && Holds(mem, LinkAt(layout, v.items, |v.items|, at, heap), 4, 0)
    case Vector(e, align, _, stride) =>
      TraitsAreSound(e);
      var start := AlignTo(heap, align);
      && Holds(mem, at, 4, start) && Holds(mem, at + 4, 4, |v.items|)
      && EncodesItems(e, v.items, stride, mem, start)
  }

  /** Consecutive elements of a fixed stride, none of which has a heap. */
  predicate EncodesItems(element: Layout, items: seq<Value>, stride: nat, mem: seq<byte>, at: nat)
    requires WellFormed(element) && forall i :: 0 <= i < |items| ==> Typed(element, items[i])
    decreases element, 2
  {
    forall i :: 0 <= i < |items| ==> Encodes(element, items[i], mem, at + Steps(stride, i), 0)
  }

  predicate EncodesMember(layout: Layout, v: Value, i: nat, mem: seq<byte>, at: nat, heap: nat)
    requires WellFormed(layout) && Typed(layout, v) && layout.Struct? && i < |layout.members|
    decreases layout, 0
  {
    var m := layout.members[i];
    Encodes(m.layout, Property(v, m.key), mem, at + m.offset, ScanMembers(layout, v, i, heap))
  }

  /** The address of the link to element `k`: the slot itself, or just before the previous element. */
  function LinkAt(layout: Layout, items: seq<Value>, k: nat, at: nat, heap: nat): nat
    requires WellFormed(layout) && layout.List? && k <= |items|
    requires forall i :: 0 <= i < |items| ==> Typed(layout.element, items[i])
  {
    if k == 0 then at else ElementAt(layout, items, k - 1, heap) - POINTER_SIZE
  }

  predicate EncodesElement(layout: Layout, items: seq<Value>, k: nat, mem: seq<byte>, at: nat, heap: nat)
    requires WellFormed(layout) && layout.List? && k < |items|
    requires forall i :: 0 <= i < |items| ==> Typed(layout.element, items[i])
    decreases layout, 0
  {
    var here := ElementAt(layout, items, k, heap);
    && Holds(mem, LinkAt(layout, items, k, at, heap), 4, here)
    && Encodes(layout.element, items[k], mem, here, here + layout.size)
  }

  // Frames: a value stays encoded while its slot and its heap are left alone.

  lemma HoldsFrame(m: seq<byte>, m': seq<byte>, at: nat, width: nat, w: nat)
    requires width > 0 && Holds(m, at, width, w) && Agree(m, m', at, at + width)
    ensures Holds(m', at, width, w)
  {
    WordFrame(m, m', at, width);
  }

  lemma {:induction false} TextFrame(m: seq<byte>, m': seq<byte>, at: nat, heap: nat, units: seq<unit>)
    requires HoldsText(m, at, heap, units)
    requires Agree(m, m', at, at + 8)
    requires Agree(m, m', heap, if Wide(units) then AlignTo(heap, 2) + |units| * 2 else heap + |units|)
    ensures HoldsText(m', at, heap, units)
  {
    hide Holds, HoldsUnits, HoldsLatin1, AlignTo, Wrap, Agree;
    AgreeWithin(m, m', at, at + 8, at, at + 4);
    AgreeWithin(m, m', at, at + 8, at + 4, at + 8);
    if Wide(units) {
      var start := AlignTo(heap, 2);
      HoldsFrame(m, m', at, 4, start);
      HoldsFrame(m, m', at + 4, 4, Wrap(-|units|, 4));
      AgreeWithin(m, m', heap, start + |units| * 2, start, start + |units| * 2);
      UnitsFrame(m, m', start, units);
    } else {
      HoldsFrame(m, m', at, 4, heap);
      HoldsFrame(m, m', at + 4, 4, |units|);
      Latin1Frame(m, m', heap, units);
    }
  }

  lemma UnitsFrame(m: seq<byte>, m': seq<byte>, start: nat, units: seq<unit>)
    requires HoldsUnits(m, start, units) && Agree(m, m', start, start + |units| * 2)
    ensures HoldsUnits(m', start, units)
  {
    hide Holds, Agree;
    forall i | 0 <= i < |units| ensures Holds(m', start + 2 * i, 2, units[i]) {
      AgreeWithin(m, m', start, start + |units| * 2, start + 2 * i, start + 2 * i + 2);
      HoldsFrame(m, m', start + 2 * i, 2, units[i]);
    }
  }

  lemma Latin1Frame(m: seq<byte>, m': seq<byte>, start: nat, units: seq<unit>)
    requires HoldsLatin1(m, start, units) && Agree(m, m', start, start + |units|)
    ensures HoldsLatin1(m', start, units)
  {
  }

  lemma {:induction false} EncodesFrame(layout: Layout, v: Value, m: seq<byte>, m': seq<byte>, at: nat, heap: nat)
    requires WellFormed(layout) && Typed(layout, v)
    requires Encodes(layout, v, m, at, heap)
    requires Agree(m, m', at, at + TraitsOf(layout).size)
    requires Agree(m, m', heap, Scan(layout, v, heap))
    ensures Encodes(layout, v, m', at, heap)
    decreases layout, 5
  {
    hide WellFormed, Typed, Encodes, TraitsOf, Scan;
    match layout
    case Array(_, _, _) => ArrayFrame(layout, v, m, m', at, heap);
    case Optional(_, _, _) => OptionalFrame(layout, v, m, m', at, heap);
    case Pointer(_, _, _, _) => PointerFrame(layout, v, m, m', at, heap);
    case Struct(_, _, _, _) => StructFrame(layout, v, m, m', at, heap);
    case Variant(_) => VariantFrame(layout, v, m, m', at, heap);
    case List(_, _, _) => ListFrame(layout, v, m, m', at, heap);
    case Vector(_, _, _, _) => VectorFrame(layout, v, m, m', at, heap);
    case _ => LeafFrame(layout, v, m, m', at, heap);
  }

  predicate IsLeaf(layout: Layout) {
    layout.Primitive? || layout.Buffer? || layout.String? || layout.Constant? || layout.Enum?
  }

  lemma LeafFrame(layout: Layout, v: Value, m: seq<byte>, m': seq<byte>, at: nat, heap: nat)
    requires IsLeaf(layout)
    requires WellFormed(layout) && Typed(layout, v) && Encodes(layout, v, m, at, heap)
    requires Agree(m, m', at, at + TraitsOf(layout).size)
    requires Agree(m, m', heap, Scan(layout, v, heap))
    ensures Encodes(layout, v, m', at, heap)
  {
    hide HoldsText, Wide, Bits, Word;
    match layout
    case Primitive(s) => HoldsFrame(m, m', at, s.Width(), Bits(s, v));
    case Buffer =>
      HoldsFrame(m, m', at, 4, heap);
      HoldsFrame(m, m', at + 4, 4, |v.bytes|);
    case String => TextFrame(m, m', at, heap, v.units);
    case Constant(_) =>
    case Enum(values) =>
      var k :| 0 <= k < |values| && values[k] == v && Holds(m, at, 1, k);
      HoldsFrame(m, m', at, 1, k);
  }

  lemma {:induction false} ArrayFrame(layout: Layout, v: Value, m: seq<byte>, m': seq<byte>, at: nat, heap: nat)
    requires layout.Array?
    requires WellFormed(layout) && Typed(layout, v) && Encodes(layout, v, m, at, heap)
    requires Agree(m, m', at, at + TraitsOf(layout).size)
    ensures Encodes(layout, v, m', at, heap)
    decreases layout, 4
  {
    hide EncodesItems, Scan, Steps, Holds, HoldsText, Bits, AlignTo;
    ItemsFrame(layout.element, v.items[..layout.length], layout.stride, m, m', at);
  }

  lemma {:induction false} OptionalFrame(layout: Layout, v: Value, m: seq<byte>, m': seq<byte>, at: nat, heap: nat)
    requires layout.Optional?
    requires WellFormed(layout) && Typed(layout, v) && Encodes(layout, v, m, at, heap)
    requires Agree(m, m', at, at + TraitsOf(layout).size)
    requires Agree(m, m', heap, Scan(layout, v, heap))
    ensures Encodes(layout, v, m', at, heap)
    decreases layout, 4
  {
    hide Holds, WellFormed, Typed, Encodes, TraitsOf, Scan;
    OptionalMeans(layout, v, m, at, heap);
    HoldsFrame(m, m', at + layout.size, 1, if v == layout.uninitialized then 0 else 1);
    if v != layout.uninitialized {
      EncodesFrame(layout.element, v, m, m', at, heap);
    }
    OptionalMeans(layout, v, m', at, heap);
  }

  /** An optional in terms of its element. */
  lemma OptionalMeans(layout: Layout, v: Value, mem: seq<byte>, at: nat, heap: nat)
    requires layout.Optional? && WellFormed(layout) && Typed(layout, v)
    ensures WellFormed(layout.element) && TraitsOf(layout).size == layout.size + 1
    ensures TraitsOf(layout.element).size == layout.size
    ensures v != layout.uninitialized ==> Typed(layout.element, v) && Scan(layout, v, heap) == Scan(layout.element, v, heap)
    ensures Encodes(layout, v, mem, at, heap) <==>
      && Holds(mem, at + layout.size, 1, if v == layout.uninitialized then 0 else 1)
      && (v != layout.uninitialized ==> Encodes(layout.element, v, mem, at, heap))
  {
    hide Holds, HoldsText, HoldsBytes, EncodesItems, EncodesMember, EncodesElement, ScanMembers, ScanList, VectorEnd,
         Bits, Selected, AlignTo, Steps, Extent;
  }

  lemma {:induction false} PointerFrame(layout: Layout, v: Value, m: seq<byte>, m': seq<byte>, at: nat, heap: nat)
    requires layout.Pointer?
    requires WellFormed(layout) && Typed(layout, v) && Encodes(layout, v, m, at, heap)
    requires Agree(m, m', at, at + TraitsOf(layout).size)
    requires Agree(m, m', heap, Scan(layout, v, heap))
    ensures Encodes(layout, v, m', at, heap)
    decreases layout, 4
  {
    hide Holds, WellFormed, Typed, Encodes, TraitsOf, Scan;
    PointerMeans(layout, v, m, at, heap);
    if v == layout.uninitialized {
      HoldsFrame(m, m', at, 4, 0);
    } else {
      HoldsFrame(m, m', at, 4, AlignTo(heap, layout.align));
      PayloadFrame(layout.element, v, m, m', layout.align, heap);
    }
    PointerMeans(layout, v, m', at, heap);
  }

  /** A pointer in terms of what it points to. */
  lemma PointerMeans(layout: Layout, v: Value, mem: seq<byte>, at: nat, heap: nat)
    requires layout.Pointer? && WellFormed(layout) && Typed(layout, v)
    ensures layout.align > 0 && TraitsOf(layout).size == POINTER_SIZE
    ensures WellFormed(layout.element) && TraitsOf(layout.element).size == layout.size
    ensures v == layout.uninitialized ==> (Encodes(layout, v, mem, at, heap) <==> Holds(mem, at, 4, 0))
    ensures v != layout.uninitialized ==>
      var payload := AlignTo(heap, layout.align);
      && Typed(layout.element, v) && Scan(layout, v, heap) == Scan(layout.element, v, payload + layout.size)
      && (Encodes(layout, v, mem, at, heap) <==>
            Holds(mem, at, 4, payload) && Encodes(layout.element, v, mem, payload, payload + layout.size))
  {
    hide Holds, HoldsText, HoldsBytes, EncodesItems, EncodesMember, EncodesElement, ScanMembers, ScanList, VectorEnd,
         Bits, Selected, AlignTo, Steps, Extent;
    TraitsAreSound(layout.element);
  }

  lemma {:induction false} VariantFrame(layout: Layout, v: Value, m: seq<byte>, m': seq<byte>, at: nat, heap: nat)
    requires layout.Variant?
    requires WellFormed(layout) && Typed(layout, v) && Encodes(layout, v, m, at, heap)
    requires Agree(m, m', at, at + TraitsOf(layout).size)
    requires Agree(m, m', heap, Scan(layout, v, heap))
    ensures Encodes(layout, v, m', at, heap)
    decreases layout, 4
  {
    hide Holds, Selected;
    var k := Selected(layout.alternatives, v.tag).value;
    var a := layout.alternatives[k];
    TraitsAreSound(a.layout);
    HoldsFrame(m, m', at, 4, AlignTo(heap, a.align));
    HoldsFrame(m, m', at + 4, 1, k);
    PayloadFrame(a.layout, v, m, m', a.align, heap);
  }

  lemma {:induction false} VectorFrame(layout: Layout, v: Value, m: seq<byte>, m': seq<byte>, at: nat, heap: nat)
    requires layout.Vector?
    requires WellFormed(layout) && Typed(layout, v) && Encodes(layout, v, m, at, heap)
    requires Agree(m, m', at, at + TraitsOf(layout).size)
    requires Agree(m, m', heap, Scan(layout, v, heap))
    ensures Encodes(layout, v, m', at, heap)
    decreases layout, 4
  {
    hide Holds, EncodesItems, Steps, VectorEnd, AlignTo, HoldsText, HoldsBytes, Extent;
    var start := AlignTo(heap, layout.align);
    VectorScansExtent(layout, v, heap);
    HoldsFrame(m, m', at, 4, start);
    HoldsFrame(m, m', at + 4, 4, |v.items|);
    ItemsFrame(layout.element, v.items, layout.stride, m, m', start);
  }

  lemma {:induction false} PayloadFrame(layout: Layout, v: Value, m: seq<byte>, m': seq<byte>, align: nat, heap: nat)
    requires WellFormed(layout) && Typed(layout, v) && align > 0
    requires var p, size := AlignTo(heap, align), TraitsOf(layout).size;
      && Encodes(layout, v, m, p, p + size)
      && Agree(m, m', heap, Scan(layout, v, p + size))
    ensures var p, size := AlignTo(heap, align), TraitsOf(layout).size;
      Encodes(layout, v, m', p, p + size)
    decreases layout, 6
  {
    hide Encodes, Scan, WellFormed, Typed, TraitsOf;
    var p, size := AlignTo(heap, align), TraitsOf(layout).size;
    HeapGrows(layout, v, p + size);
    EncodesFrame(layout, v, m, m', p, p + size);
  }

  lemma {:induction false} ItemsFrame(element: Layout, items: seq<Value>, stride: nat, m: seq<byte>, m': seq<byte>,
      at: nat)
    requires WellFormed(element) && TraitsOf(element).fixed && forall i :: 0 <= i < |items| ==> Typed(element, items[i])
    requires EncodesItems(element, items, stride, m, at)
    requires |items| > 0 ==> Agree(m, m', at, at + Extent(|items|, TraitsOf(element).size, stride))
    ensures EncodesItems(element, items, stride, m', at)
    decreases element, 6
  {
    hide Encodes, Scan, WellFormed, Typed, TraitsOf;
    forall i | 0 <= i < |items| ensures Encodes(element, items[i], m', at + Steps(stride, i), 0) {
      StepsMonotone(stride, i, |items| - 1);
      FixedLeavesHeap(element, items[i], 0);
      EncodesFrame(element, items[i], m, m', at + Steps(stride, i), 0);
    }
  }

  lemma {:induction false} StructFrame(layout: Layout, v: Value, m: seq<byte>, m': seq<byte>, at: nat, heap: nat)
    requires WellFormed(layout) && Typed(layout, v) && layout.Struct?
    requires Encodes(layout, v, m, at, heap)
    requires Agree(m, m', at, at + TraitsOf(layout).size)
    requires Agree(m, m', heap, Scan(layout, v, heap))
    ensures Encodes(layout, v, m', at, heap)
    decreases layout, 4
  {
    hide WellFormed, Typed, EncodesMember, ScanMembers;
    InheritedFrame(layout, v, m, m', at, heap);
    forall i | 0 <= i < |layout.members| ensures EncodesMember(layout, v, i, m', at, heap) {
      MemberFrame(layout, v, i, m, m', at, heap);
    }
  }

  lemma {:induction false} InheritedFrame(layout: Layout, v: Value, m: seq<byte>, m': seq<byte>, at: nat, heap: nat)
    requires WellFormed(layout) && Typed(layout, v) && layout.Struct?
    requires Encodes(layout, v, m, at, heap)
    requires Agree(m, m', at, at + layout.traits.size)
    requires Agree(m, m', heap, ScanMembers(layout, v, |layout.members|, heap))
    ensures layout.inherit.Some? ==>
      && WellFormed(layout.inherit.value) && Typed(layout.inherit.value, v)
      && Encodes(layout.inherit.value, v, m', at, heap)
    decreases layout, 3
  {
    hide WellFormed, Typed, Encodes, TraitsOf, Scan, ScanMembers, Agree;
    if layout.inherit.Some? {
      InheritedMeans(layout, v, m, at, heap);
      MembersGrow(layout, v, 0, |layout.members|, heap);
      AgreeWithin(m, m', at, at + layout.traits.size, at, at + TraitsOf(layout.inherit.value).size);
      AgreeWithin(m, m', heap, ScanMembers(layout, v, |layout.members|, heap), heap, ScanMembers(layout, v, 0, heap));
      EncodesFrame(layout.inherit.value, v, m, m', at, heap);
    }
  }

  /** A struct that inherits another holds it too. */
  lemma InheritedMeans(layout: Layout, v: Value, mem: seq<byte>, at: nat, heap: nat)
    requires WellFormed(layout) && Typed(layout, v) && layout.Struct? && layout.inherit.Some?
    ensures var base := layout.inherit.value;
      && WellFormed(base) && Typed(base, v) && TraitsOf(base).size <= layout.traits.size
      && ScanMembers(layout, v, 0, heap) == Scan(base, v, heap)
      && (Encodes(layout, v, mem, at, heap) ==> Encodes(base, v, mem, at, heap))
  {
    hide EncodesMember, EncodesElement, EncodesItems, Apart, ScanList, VectorEnd, Holds, HoldsText, HoldsBytes,
         Steps, Bits, AlignTo, Selected, FitsMember, DistinctMembers, Extent;
  }

  lemma {:induction false} MemberFrame(layout: Layout, v: Value, i: nat, m: seq<byte>, m': seq<byte>, at: nat,
      heap: nat)
    requires WellFormed(layout) && Typed(layout, v) && layout.Struct? && i < |layout.members|
    requires EncodesMember(layout, v, i, m, at, heap)
    requires Agree(m, m', at, at + layout.traits.size)
    requires Agree(m, m', heap, ScanMembers(layout, v, |layout.members|, heap))
    ensures EncodesMember(layout, v, i, m', at, heap)
    decreases layout, 0
  {
    hide WellFormed, Typed, TraitsOf, Encodes, Scan, ScanMembers, Agree;
    var member := layout.members[i];
    MemberBounds(layout, v, i, heap);
    var lo, hi := ScanMembers(layout, v, i, heap), ScanMembers(layout, v, i + 1, heap);
    AgreeWithin(m, m', at, at + layout.traits.size, at + member.offset, at + member.offset + TraitsOf(member.layout).size);
    AgreeWithin(m, m', heap, ScanMembers(layout, v, |layout.members|, heap), lo, hi);
    EncodesFrame(member.layout, Property(v, member.key), m, m', at + member.offset, ScanMembers(layout, v, i, heap));
  }

  lemma {:induction false} ListFrame(layout: Layout, v: Value, m: seq<byte>, m': seq<byte>, at: nat, heap: nat)
    requires layout.List?
    requires WellFormed(layout) && Typed(layout, v) && Encodes(layout, v, m, at, heap)
    requires Agree(m, m', at, at + TraitsOf(layout).size)
    requires Agree(m, m', heap, Scan(layout, v, heap))
    ensures Encodes(layout, v, m', at, heap)
    decreases layout, 4
  {
    hide WellFormed, EncodesElement, LinkAt, Holds, ScanList;
    var items := v.items;
    forall k | 0 <= k < |items| ensures EncodesElement(layout, items, k, m', at, heap) {
      ElementFrame(layout, items, k, m, m', at, heap);
    }
    LinkFrame(layout, items, |items|, m, m', at, heap);
    HoldsFrame(m, m', LinkAt(layout, items, |items|, at, heap), 4, 0);
  }

  /** A link lies in the slot or in the heap part already laid out. */
  lemma LinkFrame(layout: Layout, items: seq<Value>, k: nat, m: seq<byte>, m': seq<byte>, at: nat, heap: nat)
    requires WellFormed(layout) && layout.List? && forall i :: 0 <= i < |items| ==> Typed(layout.element, items[i])
    requires k <= |items|
    requires Agree(m, m', at, at + POINTER_SIZE)
    requires Agree(m, m', heap, ScanList(layout, items, k, heap))
    ensures var link := LinkAt(layout, items, k, at, heap); Agree(m, m', link, link + POINTER_SIZE)
  {
    hide WellFormed, Typed, ScanList, ElementAt;
    if k > 0 {
      ListGrows(layout, items, 0, k - 1, heap);
      ElementGrows(layout, items, k - 1, heap);
    }
  }

  lemma ListMeans(layout: Layout)
    requires WellFormed(layout) && layout.List?
    ensures WellFormed(layout.element) && TraitsOf(layout.element).size == layout.size
    ensures layout.align == TraitsOf(layout.element).align
  {
  }

  lemma {:induction false} ElementFrame(layout: Layout, items: seq<Value>, k: nat, m: seq<byte>, m': seq<byte>,
      at: nat, heap: nat)
    requires WellFormed(layout) && layout.List? && forall i :: 0 <= i < |items| ==> Typed(layout.element, items[i])
    requires k < |items| && EncodesElement(layout, items, k, m, at, heap)
    requires Agree(m, m', at, at + POINTER_SIZE)
    requires Agree(m, m', heap, ScanList(layout, items, |items|, heap))
    ensures EncodesElement(layout, items, k, m', at, heap)
    decreases layout, 0
  {
    hide WellFormed, Typed, Encodes, Scan, TraitsOf, LinkAt, ElementAt, Holds;
    ListMeans(layout);
    var here := ElementAt(layout, items, k, heap);
    ListGrows(layout, items, 0, k, heap);
    ElementGrows(layout, items, k, heap);
    ListGrows(layout, items, k + 1, |items|, heap);
    LinkFrame(layout, items, k, m, m', at, heap);
    HoldsFrame(m, m', LinkAt(layout, items, k, at, heap), 4, here);
    EncodesFrame(layout.element, items[k], m, m', here, here + layout.size);
  }
}
