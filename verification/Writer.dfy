/** Serializes a value into a fixed slot and a growing heap of one shared buffer. */
module Writer {
  import opened Wrappers
  import opened Bytes
  import opened BufferViews
  import opened Layouts
  import opened Values
  import opened Scanner
  import opened Wire
  import opened Placement

  /** m' differs from m only inside a slot and inside a part of the heap. */
  predicate OnlyIn(m: seq<byte>, m': seq<byte>, at: nat, size: nat, heap: nat, end: nat) {
    |m| == |m'| && forall i :: 0 <= i < |m| && !(at <= i < at + size) && !(heap <= i < end) ==> m[i] == m'[i]
  }

  lemma OnlyInAgrees(m: seq<byte>, m': seq<byte>, at: nat, size: nat, heap: nat, end: nat, lo: nat, hi: nat)
    requires OnlyIn(m, m', at, size, heap, end)
    requires (hi <= at || at + size <= lo) && (hi <= heap || end <= lo || end <= heap)
    ensures Agree(m, m', lo, hi)
  {
  }

  /** Assignment to one view element at an aligned address. */
  method Store(view: BufferView, width: nat, at: nat, value: int)
    requires width > 0 && at % width == 0
    modifies view.uint8
    ensures OnlyIn(old(view.uint8[..]), view.uint8[..], at, width, 0, 0)
    ensures at + width <= view.uint8.Length ==> Holds(view.uint8[..], at, width, Wrap(value, width))
  {
    AlignedIndex(at, width);
    view.Set(width, at / width, value);
  }

  /** view.uint8[at] = value */
  method StoreByte(view: BufferView, at: nat, value: byte)
    modifies view.uint8
    ensures view.uint8[..] == if at < view.uint8.Length then old(view.uint8[..])[at := value] else old(view.uint8[..])
  {
    Widths();
    view.Set(1, at, value);
    if at < view.uint8.Length {
      assert Word(view.uint8[..], 1 * at, 1) == view.uint8[at] + 256 * Word(view.uint8[..], at + 1, 0);
    }
  }

  /** view.uint8.set(bytes, at) */
  method StoreBytes(view: BufferView, at: nat, bytes: seq<byte>)
    modifies view.uint8
    ensures OnlyIn(old(view.uint8[..]), view.uint8[..], 0, 0, at, at + |bytes|)
    ensures at + |bytes| <= view.uint8.Length ==> HoldsBytes(view.uint8[..], at, bytes)
  {
    if at + |bytes| <= view.uint8.Length {
      for i := 0 to |bytes|
        invariant OnlyIn(old(view.uint8[..]), view.uint8[..], 0, 0, at, at + i)
        invariant HoldsBytes(view.uint8[..], at, bytes[..i])
      {
        view.uint8[at + i] := bytes[i];
      }
      assert bytes[..|bytes|] == bytes;
    }
  }

  /** Latin-1 while the characters allow it, and UTF-16 from the start otherwise. */
  method WriteText(view: BufferView, units: seq<unit>, at: nat, heap: nat) returns (end: nat)
    requires at % 4 == 0 && at + 8 <= heap
    requires (if Wide(units) then AlignTo(heap, 2) + |units| * 2 else heap + |units|) < ADDRESS_LIMIT
    modifies view.uint8
    ensures end == if Wide(units) then AlignTo(heap, 2) + |units| * 2 else heap + |units|
    ensures OnlyIn(old(view.uint8[..]), view.uint8[..], at, 8, heap, end)
    ensures end <= view.uint8.Length ==> HoldsText(view.uint8[..], at, heap, units)
  {
    hide AlignTo, Holds;
    Widths();
    Store(view, 4, at, heap);
    ghost var m := view.uint8[..];
    for i := 0 to |units|
      invariant OnlyIn(m, view.uint8[..], 0, 0, heap, heap + i)
      invariant forall j :: 0 <= j < i ==> units[j] < 0x100
      invariant heap + |units| <= view.uint8.Length ==> forall j :: 0 <= j < i ==> view.uint8[heap + j] == units[j]
    {
      if units[i] < 0x100 {
        StoreByte(view, heap + i, units[i]);
      } else {
        end := WriteWide(view, units, at, heap);
        return;
      }
    }
    Store(view, 4, at + 4, |units|);
    end := heap + |units|;
    if end <= view.uint8.Length {
      HoldsFrame(m, view.uint8[..], at, 4, heap);
    }
  }

  method WriteWide(view: BufferView, units: seq<unit>, at: nat, heap: nat) returns (end: nat)
    requires at % 4 == 0 && at + 8 <= heap
    requires AlignTo(heap, 2) + |units| * 2 < ADDRESS_LIMIT
    modifies view.uint8
    ensures end == AlignTo(heap, 2) + |units| * 2
    ensures OnlyIn(old(view.uint8[..]), view.uint8[..], at, 8, heap, end)
    ensures end <= view.uint8.Length ==>
      && Holds(view.uint8[..], at, 4, AlignTo(heap, 2))
      && Holds(view.uint8[..], at + 4, 4, Wrap(-|units|, 4))
      && HoldsUnits(view.uint8[..], AlignTo(heap, 2), units)
  {
    hide AlignTo, HoldsUnits, Holds;
    Widths();
    var heap16 := AlignTo(heap, 2);
    Store(view, 4, at, heap16);
    ghost var m := view.uint8[..];
    StoreUnits(view, heap16, units);
    ghost var before := view.uint8[..];
    Store(view, 4, at + 4, -|units|);
    end := heap16 + |units| * 2;
    if end <= view.uint8.Length {
      HoldsFrame(m, view.uint8[..], at, 4, heap16);
      UnitsFrame(before, view.uint8[..], heap16, units);
    }
  }

  method StoreUnits(view: BufferView, at: nat, units: seq<unit>)
    requires at % 2 == 0
    modifies view.uint8
    ensures OnlyIn(old(view.uint8[..]), view.uint8[..], 0, 0, at, at + 2 * |units|)
    ensures at + 2 * |units| <= view.uint8.Length ==> HoldsUnits(view.uint8[..], at, units)
  {
    Widths();
    AlignedIndex(at, 2);
    var start := at / 2;
    for i := 0 to |units|
      invariant OnlyIn(old(view.uint8[..]), view.uint8[..], 0, 0, at, at + 2 * i)
      invariant at + 2 * i <= view.uint8.Length ==> HoldsUnits(view.uint8[..], at, units[..i])
    {
      ghost var before := view.uint8[..];
      view.Set(2, start + i, units[i]);
      if at + 2 * i + 2 <= view.uint8.Length {
        UnitsExtend(before, view.uint8[..], at, units, i);
      }
    }
    assert units[..|units|] == units;
  }

  lemma UnitsExtend(m: seq<byte>, m': seq<byte>, at: nat, units: seq<unit>, i: nat)
    requires i < |units| && HoldsUnits(m, at, units[..i])
    requires Agree(m, m', at, at + 2 * i) && Holds(m', at + 2 * i, 2, units[i])
    ensures HoldsUnits(m', at, units[..i + 1])
  {
    UnitsFrame(m, m', at, units[..i]);
    forall j | 0 <= j < i + 1 ensures Holds(m', at + 2 * j, 2, units[..i + 1][j]) {
      if j < i {
        assert units[..i + 1][j] == units[..i][j];
      }
    }
  }

  /** enumMap.get(value): a Map built from a list keeps the last index of a key. */
  function LastIndex(values: seq<Value>, v: Value): (k: nat)
    requires v in values
    ensures k < |values| && values[k] == v
  {
    if values[|values| - 1] == v then |values| - 1 else LastIndex(values[..|values| - 1], v)
  }

  /** Writes any value of any layout. The result is where its heap ends. */
  method Write(view: BufferView, layout: Layout, v: Value, at: nat, heap: nat) returns (end: nat)
    requires WellFormed(layout) && Typed(layout, v) && Placed(layout, at, heap)
    requires Scan(layout, v, heap) < ADDRESS_LIMIT && at + TraitsOf(layout).size < ADDRESS_LIMIT
    modifies view.uint8
    ensures end == Scan(layout, v, heap)
    ensures OnlyIn(old(view.uint8[..]), view.uint8[..], at, TraitsOf(layout).size, heap, end)
    ensures at + TraitsOf(layout).size <= view.uint8.Length && end <= view.uint8.Length
      ==> Encodes(layout, v, view.uint8[..], at, heap)
    decreases layout, 3
  {
    match layout
    case Array(_, _, _) => end := WriteArray(view, layout, v, at, heap);
    case Optional(_, _, _) => end := WriteOptional(view, layout, v, at, heap);
    case Pointer(_, _, _, _) => end := WritePointer(view, layout, v, at, heap);
    case Struct(_, _, _, _) => end := WriteMembers(view, layout, v, at, heap);
    case Variant(_) => end := WriteVariant(view, layout, v, at, heap);
    case List(_, _, _) => end := WriteList(view, layout, v, at, heap);
    case Vector(_, _, _, _) => end := WriteVector(view, layout, v, at, heap);
    case _ => end := WriteLeaf(view, layout, v, at, heap);
  }

  method WriteLeaf(view: BufferView, layout: Layout, v: Value, at: nat, heap: nat) returns (end: nat)
    requires IsLeaf(layout)
    requires WellFormed(layout) && Typed(layout, v) && Placed(layout, at, heap)
    requires Scan(layout, v, heap) < ADDRESS_LIMIT && at + TraitsOf(layout).size < ADDRESS_LIMIT
    modifies view.uint8
    ensures end == Scan(layout, v, heap)
    ensures OnlyIn(old(view.uint8[..]), view.uint8[..], at, TraitsOf(layout).size, heap, end)
    ensures at + TraitsOf(layout).size <= view.uint8.Length && end <= view.uint8.Length
      ==> Encodes(layout, v, view.uint8[..], at, heap)
  {
    match layout
    case Primitive(s) =>
      WritePrimitive(view, s, v, at);
      end := heap;
    case Buffer => end := WriteBuffer(view, v.bytes, at, heap);
    case String => end := WriteText(view, v.units, at, heap);
    case Constant(_) => end := heap;
    case Enum(values) =>
      Widths();
      Store(view, 1, at, LastIndex(values, v));
      end := heap;
  }

  method WritePrimitive(view: BufferView, scalar: Scalar, v: Value, at: nat)
    requires Typed(Primitive(scalar), v) && at % scalar.Width() == 0
    modifies view.uint8
    ensures OnlyIn(old(view.uint8[..]), view.uint8[..], at, scalar.Width(), 0, 0)
    ensures at + scalar.Width() <= view.uint8.Length ==> Holds(view.uint8[..], at, scalar.Width(), Bits(scalar, v))
  {
    Widths();
    match scalar
    case Bool => Store(view, 1, at, if v.b then 1 else 0);
    case Double => Store(view, 8, at, v.bits);
    case _ => Store(view, scalar.Width(), at, v.n);
  }

  method WriteBuffer(view: BufferView, bytes: seq<byte>, at: nat, heap: nat) returns (end: nat)
    requires at % 4 == 0 && at + 8 <= heap && heap + |bytes| < ADDRESS_LIMIT
    modifies view.uint8
    ensures end == heap + |bytes|
    ensures OnlyIn(old(view.uint8[..]), view.uint8[..], at, 8, heap, end)
    ensures end <= view.uint8.Length ==>
      && Holds(view.uint8[..], at, 4, heap) && Holds(view.uint8[..], at + 4, 4, |bytes|)
      && HoldsBytes(view.uint8[..], heap, bytes)
  {
    Widths();
    Store(view, 4, at, heap);
    ghost var m1 := view.uint8[..];
    Store(view, 4, at + 4, |bytes|);
    ghost var m2 := view.uint8[..];
    StoreBytes(view, heap, bytes);
    end := heap + |bytes|;
    if end <= view.uint8.Length {
      HoldsFrame(m1, m2, at, 4, heap);
      HoldsFrame(m2, view.uint8[..], at, 4, heap);
      HoldsFrame(m2, view.uint8[..], at + 4, 4, |bytes|);
    }
  }

  /** The loop shared by arrays and vectors: an address stepped over the elements, which get no heap. */
  method WriteItems(view: BufferView, element: Layout, items: seq<Value>, stride: nat, at: nat) returns (past: nat)
    requires WellFormed(element) && TraitsOf(element).fixed && forall i :: 0 <= i < |items| ==> Typed(element, items[i])
    requires stride == TraitsOf(element).Stride() && TraitsOf(element).align > 0 && at % TraitsOf(element).align == 0
    requires |items| > 0 ==> at + Extent(|items|, TraitsOf(element).size, stride) < ADDRESS_LIMIT
    modifies view.uint8
    ensures past == at + Steps(stride, |items|)
    ensures OnlyIn(old(view.uint8[..]), view.uint8[..], at, Extent(|items|, TraitsOf(element).size, stride), 0, 0)
    ensures at + Extent(|items|, TraitsOf(element).size, stride) <= view.uint8.Length
      ==> EncodesItems(element, items, stride, view.uint8[..], at)
    decreases element, 4
  {
    hide WellFormed, Typed, Encodes, TraitsOf, Scan;
    var size := TraitsOf(element).size;
    past := at;
    for i := 0 to |items|
      invariant past == at + Steps(stride, i)
      invariant OnlyIn(old(view.uint8[..]), view.uint8[..], at, Extent(i, size, stride), 0, 0)
      invariant at + Extent(i, size, stride) <= view.uint8.Length
        ==> EncodesItems(element, items[..i], stride, view.uint8[..], at)
    {
      ghost var before := view.uint8[..];
      ItemPlace(element, i, |items|, stride, at);
      FixedLeavesHeap(element, items[i], 0);
      var end := Write(view, element, items[i], past, 0);
      if past + size <= view.uint8.Length {
        ItemsExtend(element, items[..i], items[i], stride, size, before, view.uint8[..], at, past);
        assert items[..i + 1] == items[..i] + [items[i]];
      }
      past := past + stride;
    }
    assert items[..|items|] == items;
  }

  lemma ItemsExtend(element: Layout, front: seq<Value>, item: Value, stride: nat, size: nat, m: seq<byte>,
      m': seq<byte>,
      at: nat, past: nat)
    requires WellFormed(element) && TraitsOf(element).fixed && TraitsOf(element).size == size
    requires (forall j :: 0 <= j < |front| ==> Typed(element, front[j])) && Typed(element, item)
    requires past == at + Steps(stride, |front|) && at + Extent(|front|, size, stride) <= past
    requires EncodesItems(element, front, stride, m, at)
    requires OnlyIn(m, m', past, size, 0, 0) && Encodes(element, item, m', past, 0)
    ensures forall j :: 0 <= j < |front + [item]| ==> Typed(element, (front + [item])[j])
    ensures EncodesItems(element, front + [item], stride, m', at)
  {
    hide WellFormed, Typed, Encodes, TraitsOf, Scan;
    ItemsFrame(element, front, stride, m, m', at);
    var items := front + [item];
    forall j | 0 <= j < |items| ensures Encodes(element, items[j], m', at + Steps(stride, j), 0) {
      if j < |front| {
        assert items[j] == front[j];
      }
    }
  }

  lemma ArrayEncodes(layout: Layout, v: Value, mem: seq<byte>, at: nat, heap: nat)
    requires WellFormed(layout) && Typed(layout, v) && layout.Array? && v.Items? && |v.items| >= layout.length
    requires WellFormed(layout.element) && forall i :: 0 <= i < layout.length ==> Typed(layout.element, v.items[i])
    requires EncodesItems(layout.element, v.items[..layout.length], layout.stride, mem, at)
    ensures Encodes(layout, v, mem, at, heap)
  {
    hide Holds, WellFormed, Typed, EncodesItems;
  }

  method WriteArray(view: BufferView, layout: Layout, v: Value, at: nat, heap: nat) returns (end: nat)
    requires layout.Array?
    requires WellFormed(layout) && Typed(layout, v) && Placed(layout, at, heap)
    requires Scan(layout, v, heap) < ADDRESS_LIMIT && at + TraitsOf(layout).size < ADDRESS_LIMIT
    modifies view.uint8
    ensures end == Scan(layout, v, heap)
    ensures OnlyIn(old(view.uint8[..]), view.uint8[..], at, TraitsOf(layout).size, heap, end)
    ensures at + TraitsOf(layout).size <= view.uint8.Length && end <= view.uint8.Length
      ==> Encodes(layout, v, view.uint8[..], at, heap)
    decreases layout, 2
  {
    hide WellFormed, Typed, TraitsOf, EncodesItems, Encodes, Scan, Steps, Extent;
    ArrayPlace(layout, at, heap);
    ArrayTyped(layout, v);
    FixedLeavesHeap(layout, v, heap);
    var past := WriteItems(view, layout.element, v.items[..layout.length], layout.stride, at);
    end := heap;
    if at + TraitsOf(layout).size <= view.uint8.Length {
      ArrayEncodes(layout, v, view.uint8[..], at, heap);
    }
  }

  lemma VectorEncodes(layout: Layout, v: Value, mem: seq<byte>, at: nat, heap: nat)
    requires WellFormed(layout) && Typed(layout, v) && layout.Vector? && v.Items? && layout.align > 0
    requires WellFormed(layout.element) && forall i :: 0 <= i < |v.items| ==> Typed(layout.element, v.items[i])
    requires Holds(mem, at, 4, AlignTo(heap, layout.align)) && Holds(mem, at + 4, 4, |v.items|)
    requires EncodesItems(layout.element, v.items, layout.stride, mem, AlignTo(heap, layout.align))
    ensures Encodes(layout, v, mem, at, heap)
  {
    hide Holds, WellFormed, Typed, EncodesItems;
  }

  lemma TailPadding(count: nat, size: nat, stride: nat)
    requires count > 0
    ensures Steps(stride, count) - (stride - size) == Extent(count, size, stride)
  {
  }

  method WriteVector(view: BufferView, layout: Layout, v: Value, at: nat, heap: nat) returns (end: nat)
    requires layout.Vector?
    requires WellFormed(layout) && Typed(layout, v) && Placed(layout, at, heap)
    requires Scan(layout, v, heap) < ADDRESS_LIMIT && at + TraitsOf(layout).size < ADDRESS_LIMIT
    modifies view.uint8
    ensures end == Scan(layout, v, heap)
    ensures OnlyIn(old(view.uint8[..]), view.uint8[..], at, TraitsOf(layout).size, heap, end)
    ensures at + TraitsOf(layout).size <= view.uint8.Length && end <= view.uint8.Length
      ==> Encodes(layout, v, view.uint8[..], at, heap)
    decreases layout, 2
  {
    hide WellFormed, Typed, TraitsOf, EncodesItems, Encodes, Holds, Scan, Steps, Extent, AlignTo;
    Widths();
    VectorPlace(layout, v, at, heap);
    VectorScansExtent(layout, v, heap);
    end := StoreVector(view, layout.element, v.items, layout.stride, at, heap, AlignTo(heap, layout.align));
    if end <= view.uint8.Length {
      VectorEncodes(layout, v, view.uint8[..], at, heap);
    }
  }

  method StoreVector(view: BufferView, element: Layout, items: seq<Value>, stride: nat, at: nat, heap: nat, start: nat)
    returns (end: nat)
    requires WellFormed(element) && TraitsOf(element).fixed && forall i :: 0 <= i < |items| ==> Typed(element, items[i])
    requires stride == TraitsOf(element).Stride() && TraitsOf(element).align > 0 && start % TraitsOf(element).align == 0
    requires at % 4 == 0 && at + 8 <= heap <= start < Radix(4) && |items| < Radix(4)
    requires |items| > 0 ==> start + Extent(|items|, TraitsOf(element).size, stride) < ADDRESS_LIMIT
    modifies view.uint8
    ensures end == if |items| == 0 then heap else start + Extent(|items|, TraitsOf(element).size, stride)
    ensures OnlyIn(old(view.uint8[..]), view.uint8[..], at, 8, heap, end)
    ensures end <= view.uint8.Length ==>
      && Holds(view.uint8[..], at, 4, start) && Holds(view.uint8[..], at + 4, 4, |items|)
      && EncodesItems(element, items, stride, view.uint8[..], start)
    decreases element, 5
  {
    hide WellFormed, Typed, TraitsOf, Encodes, Holds, Steps, Scan, AlignTo, Radix;
    var size := TraitsOf(element).size;
    Store(view, 4, at, start);
    ghost var m1 := view.uint8[..];
    var past := WriteItems(view, element, items, stride, start);
    ghost var m2 := view.uint8[..];
    var length := |items|;
    Store(view, 4, at + 4, length);
    if length == 0 {
      end := heap;
    } else {
      TailPadding(length, size, stride);
      end := past - (stride - size);
    }
    if end <= view.uint8.Length {
      HoldsFrame(m1, view.uint8[..], at, 4, start);
      ItemsFrame(element, items, stride, m2, view.uint8[..], start);
    }
  }

  lemma OptionalEncodes(layout: Layout, v: Value, mem: seq<byte>, at: nat, heap: nat)
    requires WellFormed(layout) && Typed(layout, v) && layout.Optional?
    requires Holds(mem, at + layout.size, 1, if v == layout.uninitialized then 0 else 1)
    requires v != layout.uninitialized ==>
      WellFormed(layout.element) && Typed(layout.element, v) && Encodes(layout.element, v, mem, at, heap)
    ensures Encodes(layout, v, mem, at, heap)
  {
    hide Holds, WellFormed, Typed;
  }

  method WriteOptional(view: BufferView, layout: Layout, v: Value, at: nat, heap: nat) returns (end: nat)
    requires layout.Optional?
    requires WellFormed(layout) && Typed(layout, v) && Placed(layout, at, heap)
    requires Scan(layout, v, heap) < ADDRESS_LIMIT && at + TraitsOf(layout).size < ADDRESS_LIMIT
    modifies view.uint8
    ensures end == Scan(layout, v, heap)
    ensures OnlyIn(old(view.uint8[..]), view.uint8[..], at, TraitsOf(layout).size, heap, end)
    ensures at + TraitsOf(layout).size <= view.uint8.Length && end <= view.uint8.Length
      ==> Encodes(layout, v, view.uint8[..], at, heap)
    decreases layout, 2
  {
    hide WellFormed, Typed, TraitsOf, Holds, Scan, Encodes, Placed;
    Widths();
    OptionalPlace(layout, v, at, heap);
    if v == layout.uninitialized {
      Store(view, 1, at + layout.size, 0);
      end := heap;
    } else {
      Store(view, 1, at + layout.size, 1);
      ghost var m := view.uint8[..];
      end := Write(view, layout.element, v, at, heap);
      if at + TraitsOf(layout).size <= view.uint8.Length {
        HoldsFrame(m, view.uint8[..], at + layout.size, 1, 1);
      }
    }
    if at + TraitsOf(layout).size <= view.uint8.Length && end <= view.uint8.Length {
      OptionalEncodes(layout, v, view.uint8[..], at, heap);
    }
  }

  lemma PointerEncodes(layout: Layout, v: Value, mem: seq<byte>, at: nat, heap: nat)
    requires WellFormed(layout) && Typed(layout, v) && layout.Pointer?
    requires v == layout.uninitialized ==> Holds(mem, at, 4, 0)
    requires v != layout.uninitialized ==> WellFormed(layout.element) && Typed(layout.element, v) && layout.align > 0
    requires v != layout.uninitialized ==>
      var payload := AlignTo(heap, layout.align);
      Holds(mem, at, 4, payload) && Encodes(layout.element, v, mem, payload, payload + layout.size)
    ensures Encodes(layout, v, mem, at, heap)
  {
    hide Holds, WellFormed, Typed;
  }

  method WritePointer(view: BufferView, layout: Layout, v: Value, at: nat, heap: nat) returns (end: nat)
    requires layout.Pointer?
    requires WellFormed(layout) && Typed(layout, v) && Placed(layout, at, heap)
    requires Scan(layout, v, heap) < ADDRESS_LIMIT && at + TraitsOf(layout).size < ADDRESS_LIMIT
    modifies view.uint8
    ensures end == Scan(layout, v, heap)
    ensures OnlyIn(old(view.uint8[..]), view.uint8[..], at, TraitsOf(layout).size, heap, end)
    ensures at + TraitsOf(layout).size <= view.uint8.Length && end <= view.uint8.Length
      ==> Encodes(layout, v, view.uint8[..], at, heap)
    decreases layout, 2
  {
    hide WellFormed, Typed, TraitsOf, Holds, Scan, Encodes, Placed;
    Widths();
    PointerPlace(layout, v, at, heap);
    if v == layout.uninitialized {
      Store(view, 4, at, 0);
      end := heap;
    } else {
      var payload := AlignTo(heap, layout.align);
      Store(view, 4, at, payload);
      ghost var m := view.uint8[..];
      end := Write(view, layout.element, v, payload, payload + layout.size);
      if end <= view.uint8.Length {
        HoldsFrame(m, view.uint8[..], at, 4, payload);
      }
    }
    if at + TraitsOf(layout).size <= view.uint8.Length && end <= view.uint8.Length {
      PointerEncodes(layout, v, view.uint8[..], at, heap);
    }
  }

  lemma VariantEncodes(layout: Layout, v: Value, mem: seq<byte>, at: nat, heap: nat)
    requires WellFormed(layout) && Typed(layout, v) && layout.Variant? && v.Object?
    requires Selected(layout.alternatives, v.tag).Some?
    requires var k := Selected(layout.alternatives, v.tag).value; layout.alternatives[k].align > 0
    requires var k := Selected(layout.alternatives, v.tag).value; var a := layout.alternatives[k]; var payload := AlignTo(heap, a.align);
      && Holds(mem, at, 4, payload) && Holds(mem, at + 4, 1, k)
      && WellFormed(a.layout) && Typed(a.layout, v) && Encodes(a.layout, v, mem, payload, payload + a.size)
    ensures Encodes(layout, v, mem, at, heap)
  {
    hide Holds, WellFormed, Typed, Selected;
  }

  /** The byte of a variant holds the index of the selected alternative if and only if that fits. */
  method StoreIndex(view: BufferView, at: nat, ii: nat)
    modifies view.uint8
    ensures OnlyIn(old(view.uint8[..]), view.uint8[..], at, 1, 0, 0)
    ensures at < view.uint8.Length ==> Word(view.uint8[..], at, 1) == ii % 256
    ensures at < view.uint8.Length ==> (Holds(view.uint8[..], at, 1, ii) <==> IndexFits(ii))
  {
    Widths();
    Store(view, 1, at, ii);
    WrapsToByte(ii);
  }

  lemma WrapsToByte(ii: nat)
    ensures Wrap(ii, 1) == ii % 256
  {
  }

  method WriteVariant(view: BufferView, layout: Layout, v: Value, at: nat, heap: nat) returns (end: nat)
    requires layout.Variant?
    requires WellFormed(layout) && Typed(layout, v) && Placed(layout, at, heap)
    requires Scan(layout, v, heap) < ADDRESS_LIMIT && at + TraitsOf(layout).size < ADDRESS_LIMIT
    modifies view.uint8
    ensures end == Scan(layout, v, heap)
    ensures OnlyIn(old(view.uint8[..]), view.uint8[..], at, TraitsOf(layout).size, heap, end)
    ensures at + TraitsOf(layout).size <= view.uint8.Length && end <= view.uint8.Length
      ==> Encodes(layout, v, view.uint8[..], at, heap)
    decreases layout, 2
  {
    hide WellFormed, Typed, TraitsOf, Holds, Scan, Encodes, Placed, Selected;
    Widths();
    VariantPlace(layout, v, at, heap);
    var ii := Selected(layout.alternatives, v.tag).value;
    var a := layout.alternatives[ii];
    var payload := AlignTo(heap, a.align);
    Store(view, 4, at, payload);
    ghost var m1 := view.uint8[..];
    StoreIndex(view, at + POINTER_SIZE, ii);
    ghost var m2 := view.uint8[..];
    end := Write(view, a.layout, v, payload, payload + a.size);
    if end <= view.uint8.Length {
      HoldsFrame(m1, view.uint8[..], at, 4, payload);
      HoldsFrame(m2, view.uint8[..], at + 4, 1, ii);
      VariantEncodes(layout, v, view.uint8[..], at, heap);
    }
  }

  /** What a struct writer has established after the inherited members and the first `count` own ones. */
  predicate EncodesPrefix(layout: Layout, v: Value, count: nat, mem: seq<byte>, at: nat, heap: nat)
    requires WellFormed(layout) && Typed(layout, v) && layout.Struct? && count <= |layout.members|
  {
    && (layout.inherit.Some? ==> Encodes(layout.inherit.value, v, mem, at, heap))
    && forall i :: 0 <= i < count ==> EncodesMember(layout, v, i, mem, at, heap)
  }

  method WriteMembers(view: BufferView, layout: Layout, v: Value, at: nat, heap: nat) returns (end: nat)
    requires layout.Struct?
    requires WellFormed(layout) && Typed(layout, v) && Placed(layout, at, heap)
    requires Scan(layout, v, heap) < ADDRESS_LIMIT && at + TraitsOf(layout).size < ADDRESS_LIMIT
    modifies view.uint8
    ensures end == Scan(layout, v, heap)
    ensures OnlyIn(old(view.uint8[..]), view.uint8[..], at, TraitsOf(layout).size, heap, end)
    ensures at + TraitsOf(layout).size <= view.uint8.Length && end <= view.uint8.Length
      ==> Encodes(layout, v, view.uint8[..], at, heap)
    decreases layout, 2
  {
    hide WellFormed, Typed, Encodes, EncodesPrefix, EncodesMember, TraitsOf, ScanMembers;
    var n := |layout.members|;
    end := WriteInherited(view, layout, v, at, heap);
    for i := 0 to n
      invariant end == ScanMembers(layout, v, i, heap)
      invariant OnlyIn(old(view.uint8[..]), view.uint8[..], at, TraitsOf(layout).size, heap, end)
      invariant at + TraitsOf(layout).size <= view.uint8.Length && end <= view.uint8.Length
        ==> EncodesPrefix(layout, v, i, view.uint8[..], at, heap)
    {
      end := WriteMember(view, layout, v, i, at, heap, end);
    }
    if at + TraitsOf(layout).size <= view.uint8.Length && end <= view.uint8.Length {
      WholePrefix(layout, v, view.uint8[..], at, heap);
    }
  }

  lemma WholePrefix(layout: Layout, v: Value, mem: seq<byte>, at: nat, heap: nat)
    requires WellFormed(layout) && Typed(layout, v) && layout.Struct?
    requires EncodesPrefix(layout, v, |layout.members|, mem, at, heap)
    ensures Encodes(layout, v, mem, at, heap)
  {
    hide EncodesMember;
  }

  method WriteInherited(view: BufferView, layout: Layout, v: Value, at: nat, heap: nat) returns (end: nat)
    requires layout.Struct?
    requires WellFormed(layout) && Typed(layout, v) && Placed(layout, at, heap)
    requires Scan(layout, v, heap) < ADDRESS_LIMIT && at + TraitsOf(layout).size < ADDRESS_LIMIT
    modifies view.uint8
    ensures end == ScanMembers(layout, v, 0, heap)
    ensures OnlyIn(old(view.uint8[..]), view.uint8[..], at, TraitsOf(layout).size, heap, end)
    ensures at + TraitsOf(layout).size <= view.uint8.Length && end <= view.uint8.Length
      ==> EncodesPrefix(layout, v, 0, view.uint8[..], at, heap)
    decreases layout, 1
  {
    hide WellFormed, Typed, Encodes, EncodesMember;
    if layout.inherit.None? {
      end := heap;
    } else {
      InheritedPlace(layout, v, at, heap);
      MembersGrow(layout, v, 0, |layout.members|, heap);
      end := WriteMembers(view, layout.inherit.value, v, at, heap);
    }
  }

  method WriteMember(view: BufferView, layout: Layout, v: Value, i: nat, at: nat, heap: nat, mid: nat)
    returns (end: nat)
    requires layout.Struct? && i < |layout.members|
    requires WellFormed(layout) && Typed(layout, v) && Placed(layout, at, heap)
    requires Scan(layout, v, heap) < ADDRESS_LIMIT && at + TraitsOf(layout).size < ADDRESS_LIMIT
    requires mid == ScanMembers(layout, v, i, heap)
    requires at + TraitsOf(layout).size <= view.uint8.Length && mid <= view.uint8.Length
      ==> EncodesPrefix(layout, v, i, view.uint8[..], at, heap)
    modifies view.uint8
    ensures heap <= mid <= end == ScanMembers(layout, v, i + 1, heap)
    ensures OnlyIn(old(view.uint8[..]), view.uint8[..], at, TraitsOf(layout).size, mid, end)
    ensures at + TraitsOf(layout).size <= view.uint8.Length && end <= view.uint8.Length
      ==> EncodesPrefix(layout, v, i + 1, view.uint8[..], at, heap)
    decreases layout, 1
  {
    hide WellFormed, Typed, Encodes, EncodesPrefix, ScanMembers, Scan;
    var m := layout.members[i];
    ghost var before := view.uint8[..];
    MemberPlace(layout, v, i, at, heap);
    end := Write(view, m.layout, Property(v, m.key), at + m.offset, mid);
    if at + TraitsOf(layout).size <= view.uint8.Length && end <= view.uint8.Length {
      PrefixExtends(layout, v, i, before, view.uint8[..], at, heap);
    }
  }

  /** Writing member `i` disturbs nothing written before it. */
  lemma PrefixExtends(layout: Layout, v: Value, i: nat, m: seq<byte>, m': seq<byte>, at: nat, heap: nat)
    requires WellFormed(layout) && Typed(layout, v) && layout.Struct? && i < |layout.members|
    requires Placed(layout, at, heap)
    requires EncodesPrefix(layout, v, i, m, at, heap)
    requires OnlyIn(m, m', at + layout.members[i].offset, TraitsOf(layout.members[i].layout).size,
                    ScanMembers(layout, v, i, heap), ScanMembers(layout, v, i + 1, heap))
    requires EncodesMember(layout, v, i, m', at, heap)
    ensures EncodesPrefix(layout, v, i + 1, m', at, heap)
  {
    hide WellFormed, Typed, Encodes, EncodesMember, ScanMembers, OnlyIn, Placed, TraitsOf;
    InheritedKept(layout, v, i, m, m', at, heap);
    forall j | 0 <= j < i + 1 ensures EncodesMember(layout, v, j, m', at, heap) {
      if j < i {
        MemberKept(layout, v, i, j, m, m', at, heap);
      }
    }
  }

  lemma InheritedKept(layout: Layout, v: Value, i: nat, m: seq<byte>, m': seq<byte>, at: nat, heap: nat)
    requires WellFormed(layout) && Typed(layout, v) && layout.Struct? && i < |layout.members|
    requires Placed(layout, at, heap)
    requires EncodesPrefix(layout, v, i, m, at, heap)
    requires OnlyIn(m, m', at + layout.members[i].offset, TraitsOf(layout.members[i].layout).size,
                    ScanMembers(layout, v, i, heap), ScanMembers(layout, v, i + 1, heap))
    ensures layout.inherit.Some? ==>
      && WellFormed(layout.inherit.value) && Typed(layout.inherit.value, v)
      && Encodes(layout.inherit.value, v, m', at, heap)
  {
    hide Typed, Encodes, EncodesMember, ScanMembers, Scan, Apart;
    if layout.inherit.Some? {
      InheritedPlace(layout, v, at, heap);
      MemberPlace(layout, v, i, at, heap);
      MembersGrow(layout, v, 0, i, heap);
      HeapIsApart(layout, v, i, at, heap);
      EncodesFrame(layout.inherit.value, v, m, m', at, heap);
    }
  }

  /** A slot lies below the heap of its members, unless they have none. */
  lemma HeapIsApart(layout: Layout, v: Value, i: nat, at: nat, heap: nat)
    requires WellFormed(layout) && Typed(layout, v) && layout.Struct? && i < |layout.members|
    requires Placed(layout, at, heap)
    ensures var lo, hi := ScanMembers(layout, v, i, heap), ScanMembers(layout, v, i + 1, heap);
      heap <= lo <= hi && (at + layout.traits.size <= heap || heap == lo == hi)
  {
    hide WellFormed, Typed, Scan, ScanMembers;
    InheritedGrow(layout, v, heap);
    MembersGrow(layout, v, 0, i, heap);
    MembersGrow(layout, v, i, i + 1, heap);
    if layout.traits.fixed {
      FixedMembersLeaveHeap(layout, v, i, heap);
      FixedMembersLeaveHeap(layout, v, i + 1, heap);
    }
  }

  lemma MembersApart(layout: Layout, i: nat, j: nat)
    requires WellFormed(layout) && layout.Struct? && j < i < |layout.members|
    ensures var a, b := layout.members[j], layout.members[i];
      Apart(a.offset, TraitsOf(a.layout).size, b.offset, TraitsOf(b.layout).size)
  {
    hide Apart, TraitsOf;
  }

  lemma MemberKept(layout: Layout, v: Value, i: nat, j: nat, m: seq<byte>, m': seq<byte>, at: nat, heap: nat)
    requires WellFormed(layout) && Typed(layout, v) && layout.Struct? && j < i < |layout.members|
    requires Placed(layout, at, heap)
    requires EncodesMember(layout, v, j, m, at, heap)
    requires OnlyIn(m, m', at + layout.members[i].offset, TraitsOf(layout.members[i].layout).size,
                    ScanMembers(layout, v, i, heap), ScanMembers(layout, v, i + 1, heap))
    ensures EncodesMember(layout, v, j, m', at, heap)
  {
    hide WellFormed, Typed, Encodes, ScanMembers, Scan;
    var mj := layout.members[j];
    MemberPlace(layout, v, i, at, heap);
    MemberPlace(layout, v, j, at, heap);
    MembersGrow(layout, v, j + 1, i, heap);
    MembersApart(layout, i, j);
    HeapIsApart(layout, v, i, at, heap);
    HeapIsApart(layout, v, j, at, heap);
    EncodesFrame(mj.layout, Property(v, mj.key), m, m', at + mj.offset, ScanMembers(layout, v, j, heap));
  }

  /** What a list writer has established after `count` elements, before the next link is known. */
  predicate EncodesListPrefix(layout: Layout, items: seq<Value>, count: nat, mem: seq<byte>, at: nat, heap: nat)
    requires WellFormed(layout) && layout.List? && forall i :: 0 <= i < |items| ==> Typed(layout.element, items[i])
    requires count <= |items|
  {
    forall k :: 0 <= k < count ==> EncodesElement(layout, items, k, mem, at, heap)
  }

  /** Setting link `k` and writing beyond the first `k` elements disturbs none of them. */
  lemma ListPrefixKept(layout: Layout, items: seq<Value>, k: nat, m: seq<byte>, m': seq<byte>, at: nat, heap: nat,
      end: nat)
    requires WellFormed(layout) && layout.List? && k <= |items|
    requires forall i :: 0 <= i < |items| ==> Typed(layout.element, items[i])
    requires at % 4 == 0 && at + 4 <= heap
    requires EncodesListPrefix(layout, items, k, m, at, heap)
    requires OnlyIn(m, m', LinkAt(layout, items, k, at, heap), 4, ScanList(layout, items, k, heap), end)
    ensures EncodesListPrefix(layout, items, k, m', at, heap)
  {
    hide Typed, AlignTo, TraitsOf, WellFormed, Scan, ElementAt, ScanList, LinkAt, Encodes, EncodesElement, OnlyIn;
    forall j | 0 <= j < k ensures EncodesElement(layout, items, j, m', at, heap) {
      ElementKept(layout, items, j, k, m, m', at, heap, end);
    }
  }

  lemma ElementKept(layout: Layout, items: seq<Value>, j: nat, k: nat, m: seq<byte>, m': seq<byte>, at: nat,
      heap: nat, end: nat)
    requires WellFormed(layout) && layout.List? && j < k <= |items|
    requires forall i :: 0 <= i < |items| ==> Typed(layout.element, items[i])
    requires at % 4 == 0 && at + 4 <= heap
    requires EncodesElement(layout, items, j, m, at, heap)
    requires OnlyIn(m, m', LinkAt(layout, items, k, at, heap), 4, ScanList(layout, items, k, heap), end)
    ensures EncodesElement(layout, items, j, m', at, heap)
  {
    hide Typed, AlignTo, TraitsOf, WellFormed, Scan, ElementAt, ScanList, LinkAt, Encodes, Agree, OnlyIn;
    var here := ElementAt(layout, items, j, heap);
    LinkPlace(layout, items, j, at, heap);
    LinkPlace(layout, items, k, at, heap);
    ElementPlace(layout, items, j, heap);
    ListGrows(layout, items, j + 1, k, heap);
    if j + 1 < k {
      ListGrows(layout, items, j + 1, k - 1, heap);
    }
    var link, mid := LinkAt(layout, items, k, at, heap), ScanList(layout, items, k, heap);
    OnlyInAgrees(m, m', link, 4, mid, end, LinkAt(layout, items, j, at, heap), LinkAt(layout, items, j, at, heap) + 4);
    OnlyInAgrees(m, m', link, 4, mid, end, here, here + layout.size);
    OnlyInAgrees(m, m', link, 4, mid, end, here + layout.size, ScanList(layout, items, j + 1, heap));
    HoldsFrame(m, m', LinkAt(layout, items, j, at, heap), 4, here);
    EncodesFrame(layout.element, items[j], m, m', here, here + layout.size);
  }

  method WriteList(view: BufferView, layout: Layout, v: Value, at: nat, heap: nat) returns (end: nat)
    requires layout.List?
    requires WellFormed(layout) && Typed(layout, v) && Placed(layout, at, heap)
    requires Scan(layout, v, heap) < ADDRESS_LIMIT && at + TraitsOf(layout).size < ADDRESS_LIMIT
    modifies view.uint8
    ensures end == Scan(layout, v, heap)
    ensures OnlyIn(old(view.uint8[..]), view.uint8[..], at, TraitsOf(layout).size, heap, end)
    ensures at + TraitsOf(layout).size <= view.uint8.Length && end <= view.uint8.Length
      ==> Encodes(layout, v, view.uint8[..], at, heap)
    decreases layout, 2
  {
    hide WellFormed, Typed, Encodes, EncodesListPrefix, EncodesElement, ScanList, ElementAt, AlignTo, Holds;
    ListTyped(layout, v);
    end := StoreList(view, layout, v.items, at, heap);
    if end <= view.uint8.Length {
      ListEncodes(layout, v, view.uint8[..], at, heap);
    }
  }

  lemma ListEncodes(layout: Layout, v: Value, mem: seq<byte>, at: nat, heap: nat)
    requires WellFormed(layout) && Typed(layout, v) && layout.List?
    requires v.Items? && forall i :: 0 <= i < |v.items| ==> Typed(layout.element, v.items[i])
    requires EncodesListPrefix(layout, v.items, |v.items|, mem, at, heap)
    requires Holds(mem, LinkAt(layout, v.items, |v.items|, at, heap), 4, 0)
    ensures Encodes(layout, v, mem, at, heap)
  {
    hide WellFormed, Typed, EncodesElement, LinkAt, Holds;
  }

  method StoreList(view: BufferView, layout: Layout, items: seq<Value>, at: nat, heap: nat) returns (end: nat)
    requires WellFormed(layout) && layout.List? && forall i :: 0 <= i < |items| ==> Typed(layout.element, items[i])
    requires at % 4 == 0 && at + 4 <= heap
    requires ScanList(layout, items, |items|, heap) < ADDRESS_LIMIT
    modifies view.uint8
    ensures end == ScanList(layout, items, |items|, heap)
    ensures OnlyIn(old(view.uint8[..]), view.uint8[..], at, 4, heap, end)
    ensures end <= view.uint8.Length ==>
      && EncodesListPrefix(layout, items, |items|, view.uint8[..], at, heap)
      && Holds(view.uint8[..], LinkAt(layout, items, |items|, at, heap), 4, 0)
    decreases layout, 1
  {
    hide WellFormed, Typed, Encodes, EncodesListPrefix, EncodesElement, ScanList, ElementAt, AlignTo, LinkAt, Holds;
    var prevOffset := at + POINTER_SIZE;
    end := heap;
    NoElements(layout, items, view.uint8[..], at, heap);
    for k := 0 to |items|
      invariant prevOffset == LinkAt(layout, items, k, at, heap) + 4
      invariant end == ScanList(layout, items, k, heap)
      invariant OnlyIn(old(view.uint8[..]), view.uint8[..], at, 4, heap, end)
      invariant end <= view.uint8.Length ==> EncodesListPrefix(layout, items, k, view.uint8[..], at, heap)
    {
      prevOffset, end := WriteElement(view, layout, items, k, at, heap, prevOffset, end);
    }
    ghost var m := view.uint8[..];
    LinkPlace(layout, items, |items|, at, heap);
    Widths();
    Store(view, 4, prevOffset - POINTER_SIZE, 0);
    if end <= view.uint8.Length {
      ListPrefixKept(layout, items, |items|, m, view.uint8[..], at, heap, end);
    }
  }

  lemma NoElements(layout: Layout, items: seq<Value>, mem: seq<byte>, at: nat, heap: nat)
    requires WellFormed(layout) && layout.List? && forall i :: 0 <= i < |items| ==> Typed(layout.element, items[i])
    ensures LinkAt(layout, items, 0, at, heap) == at && ScanList(layout, items, 0, heap) == heap
    ensures EncodesListPrefix(layout, items, 0, mem, at, heap)
  {
  }

  /** One turn of the list loop: link the element to its predecessor and write it. */
  method WriteElement(view: BufferView, layout: Layout, items: seq<Value>, k: nat, at: nat, heap: nat,
      prevOffset: nat, mid: nat)
    returns (currentOffset: nat, end: nat)
    requires WellFormed(layout) && layout.List? && forall i :: 0 <= i < |items| ==> Typed(layout.element, items[i])
    requires at % 4 == 0 && at + 4 <= heap && k < |items|
    requires ScanList(layout, items, |items|, heap) < ADDRESS_LIMIT
    requires prevOffset == LinkAt(layout, items, k, at, heap) + 4
    requires mid == ScanList(layout, items, k, heap)
    requires mid <= view.uint8.Length ==> EncodesListPrefix(layout, items, k, view.uint8[..], at, heap)
    modifies view.uint8
    ensures currentOffset == LinkAt(layout, items, k + 1, at, heap) + 4
    ensures heap <= mid <= end == ScanList(layout, items, k + 1, heap)
    ensures OnlyIn(old(view.uint8[..]), view.uint8[..], at, 4, heap, end)
    ensures end <= view.uint8.Length ==> EncodesListPrefix(layout, items, k + 1, view.uint8[..], at, heap)
    decreases layout, 0
  {
    hide WellFormed, Typed, Encodes, EncodesListPrefix, EncodesElement, ScanList, ElementAt, ListAlign, AlignTo,
         LinkAt, Holds, TraitsOf, Scan, OnlyIn;
    Widths();
    ghost var m0 := view.uint8[..];
    ElementPlace(layout, items, k, heap);
    LinkPlace(layout, items, k, at, heap);
    LinkPlace(layout, items, k + 1, at, heap);
    currentOffset := AlignTo(mid + POINTER_SIZE, ListAlign(layout));
    Store(view, 4, prevOffset - POINTER_SIZE, currentOffset);
    ghost var m1 := view.uint8[..];
    end := Write(view, layout.element, items[k], currentOffset, currentOffset + layout.size);
    LinkedOnlyIn(m0, m1, view.uint8[..], prevOffset - 4, mid, currentOffset, layout.size, end, at, heap);
    if end <= view.uint8.Length {
      ElementWritten(layout, items, k, m0, m1, view.uint8[..], at, heap, prevOffset - 4, currentOffset, end);
    }
  }

  /** Behind the elements written before, a link and another element. */
  lemma ElementWritten(layout: Layout, items: seq<Value>, k: nat, m0: seq<byte>, m1: seq<byte>, m2: seq<byte>, at: nat,
      heap: nat, link: nat, here: nat, end: nat)
    requires WellFormed(layout) && layout.List? && k < |items| && WellFormed(layout.element)
    requires forall i :: 0 <= i < |items| ==> Typed(layout.element, items[i])
    requires at % 4 == 0 && at + 4 <= heap && EncodesListPrefix(layout, items, k, m0, at, heap)
    requires link == LinkAt(layout, items, k, at, heap) && here == ElementAt(layout, items, k, heap) && link + 4 <= here
    requires OnlyIn(m1, m2, here, layout.size, here + layout.size, end) && Holds(m1, link, 4, here)
    requires OnlyIn(m0, m2, link, 4, ScanList(layout, items, k, heap), end)
    requires Encodes(layout.element, items[k], m2, here, here + layout.size)
    ensures EncodesListPrefix(layout, items, k + 1, m2, at, heap)
  {
    hide WellFormed, Typed, Encodes, EncodesListPrefix, ScanList, ElementAt, LinkAt, Holds, OnlyIn;
    LinkSurvives(m1, m2, link, here, layout.size, end);
    ListPrefixKept(layout, items, k, m0, m2, at, heap, end);
    ListPrefixGrows(layout, items, k, m2, at, heap);
  }

  lemma LinkedOnlyIn(m0: seq<byte>, m1: seq<byte>, m2: seq<byte>, link: nat, mid: nat, here: nat, size: nat,
      end: nat, at: nat, heap: nat)
    requires OnlyIn(m0, m1, link, 4, 0, 0) && OnlyIn(m1, m2, here, size, here + size, end)
    requires heap <= mid <= here && here + size <= end
    requires link == at || heap <= link <= link + 4 <= mid
    ensures OnlyIn(m0, m2, link, 4, mid, end) && OnlyIn(m0, m2, at, 4, heap, end)
  {
  }

  lemma LinkSurvives(m: seq<byte>, m': seq<byte>, link: nat, here: nat, size: nat, end: nat)
    requires Holds(m, link, 4, here) && link + 4 <= here && OnlyIn(m, m', here, size, here + size, end)
    ensures Holds(m', link, 4, here)
  {
    hide Holds;
    HoldsFrame(m, m', link, 4, here);
  }

  lemma ListPrefixGrows(layout: Layout, items: seq<Value>, k: nat, mem: seq<byte>, at: nat, heap: nat)
    requires WellFormed(layout) && layout.List? && k < |items|
    requires forall i :: 0 <= i < |items| ==> Typed(layout.element, items[i])
    requires EncodesListPrefix(layout, items, k, mem, at, heap)
    requires var here := ElementAt(layout, items, k, heap);
      && Holds(mem, LinkAt(layout, items, k, at, heap), 4, here)
      && WellFormed(layout.element) && Encodes(layout.element, items[k], mem, here, here + layout.size)
    ensures EncodesListPrefix(layout, items, k + 1, mem, at, heap)
  {
    hide WellFormed, Typed, Encodes, Holds, ElementAt, LinkAt;
  }
}
