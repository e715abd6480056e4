/** Where each part of a value goes: the addresses that its writer and its reader both compute. */
module Placement {
  import opened Wrappers
  import opened Layouts
  import opened Values
  import opened Scanner
  import opened Wire

  /** A slot is written below its heap; a layout that never touches the heap needs none. */
  predicate Placed(layout: Layout, at: nat, heap: nat) {
    && TraitsOf(layout).align > 0 && at % TraitsOf(layout).align == 0
    && (TraitsOf(layout).fixed || at + TraitsOf(layout).size <= heap)
  }

  /** Element index of an aligned address in the view of its width. */
  lemma AlignedIndex(at: nat, width: nat)
    requires width > 0 && at % width == 0
    ensures width * (at / width) == at
    ensures width * (at / width + 1) == at + width
  {
  }

  /** Element `i` of `count` is aligned, after the ones before it and inside the extent of all. */
  lemma ItemPlace(element: Layout, i: nat, count: nat, stride: nat, at: nat)
    requires WellFormed(element) && i < count
    requires stride == TraitsOf(element).Stride() && TraitsOf(element).align > 0 && at % TraitsOf(element).align == 0
    ensures (at + Steps(stride, i)) % TraitsOf(element).align == 0
    ensures var size := TraitsOf(element).size;
      Extent(i, size, stride) <= Steps(stride, i) && Steps(stride, i) + size == Extent(i + 1, size, stride) <= Extent(count, size, stride)
  {
    hide WellFormed, TraitsOf;
    TraitsAreSound(element);
    StepsAreAligned(stride, i, TraitsOf(element).align);
    AlignsSum(at, Steps(stride, i), TraitsOf(element).align);
    StepsMonotone(stride, i, count - 1);
  }

  lemma ArrayPlace(layout: Layout, at: nat, heap: nat)
    requires WellFormed(layout) && layout.Array? && Placed(layout, at, heap)
    ensures var e := layout.element;
      && WellFormed(e) && TraitsOf(e).fixed && TraitsOf(e).Stride() == layout.stride
      && TraitsOf(e).align > 0 && at % TraitsOf(e).align == 0
    ensures TraitsOf(layout).fixed
    ensures TraitsOf(layout).size == Extent(layout.length, TraitsOf(layout.element).size, layout.stride)
  {
    hide Steps, AlignTo;
  }

  lemma ArrayTyped(layout: Layout, v: Value)
    requires Typed(layout, v) && layout.Array?
    ensures v.Items? && |v.items| >= layout.length && forall i :: 0 <= i < layout.length ==> Typed(layout.element, v.items[i])
  {
  }

  lemma VectorPlace(layout: Layout, v: Value, at: nat, heap: nat)
    requires WellFormed(layout) && Typed(layout, v) && layout.Vector? && Placed(layout, at, heap)
    ensures var e := layout.element;
      && WellFormed(e) && TraitsOf(e).fixed && TraitsOf(e).Stride() == layout.stride && TraitsOf(e).align == layout.align && IsAlign(layout.align)
      && TraitsOf(e).size == layout.size <= layout.stride
      && v.Items? && |v.items| < INT32_LIMIT && (forall i :: 0 <= i < |v.items| ==> Typed(e, v.items[i]))
      && at % 4 == 0 && TraitsOf(layout).size == 8 && at + 8 <= heap
  {
    TraitsAreSound(layout.element);
  }

  lemma OptionalPlace(layout: Layout, v: Value, at: nat, heap: nat)
    requires WellFormed(layout) && Typed(layout, v) && layout.Optional? && Placed(layout, at, heap)
    ensures TraitsOf(layout).size == layout.size + 1
    ensures v == layout.uninitialized ==> Scan(layout, v, heap) == heap
    ensures v != layout.uninitialized ==> var e := layout.element;
      && WellFormed(e) && Typed(e, v) && Placed(e, at, heap) && TraitsOf(e).size == layout.size
      && Scan(layout, v, heap) == Scan(e, v, heap) && heap <= Scan(e, v, heap)
      && (at + layout.size < heap || Scan(e, v, heap) == heap)
  {
    hide HoldsText, EncodesItems, ScanMembers, ScanList, VectorEnd, Selected;
    if v != layout.uninitialized {
      HeapGrows(layout.element, v, heap);
      if TraitsOf(layout).fixed {
        FixedLeavesHeap(layout.element, v, heap);
      }
    }
  }

  lemma PointerPlace(layout: Layout, v: Value, at: nat, heap: nat)
    requires WellFormed(layout) && Typed(layout, v) && layout.Pointer? && Placed(layout, at, heap)
    ensures at % 4 == 0 && TraitsOf(layout).size == 4 && at + 4 <= heap
    ensures v == layout.uninitialized ==> Scan(layout, v, heap) == heap
    ensures v != layout.uninitialized ==> layout.align > 0
    ensures v != layout.uninitialized ==>
      var e := layout.element; var payload := AlignTo(heap, layout.align);
      && WellFormed(e) && Typed(e, v) && Placed(e, payload, payload + layout.size) && TraitsOf(e).size == layout.size
      && Scan(layout, v, heap) == Scan(e, v, payload + layout.size) >= payload + layout.size
  {
    hide HoldsText, EncodesItems, ScanMembers, ScanList, VectorEnd, Selected;
    if v != layout.uninitialized {
      TraitsAreSound(layout.element);
      HeapGrows(layout.element, v, AlignTo(heap, layout.align) + layout.size);
    }
  }

  lemma VariantPlace(layout: Layout, v: Value, at: nat, heap: nat)
    requires WellFormed(layout) && Typed(layout, v) && layout.Variant? && Placed(layout, at, heap)
    ensures at % 4 == 0 && TraitsOf(layout).size == 5 && at + 5 <= heap
    ensures v.Object? && Selected(layout.alternatives, v.tag).Some?
    ensures var k := Selected(layout.alternatives, v.tag).value; var a := layout.alternatives[k];
      && k < 256 && a.align > 0
      && WellFormed(a.layout) && Typed(a.layout, v)
    ensures var k := Selected(layout.alternatives, v.tag).value; var a := layout.alternatives[k]; var payload := AlignTo(heap, a.align);
      && WellFormed(a.layout) && Typed(a.layout, v) && Placed(a.layout, payload, payload + a.size) && TraitsOf(a.layout).size == a.size
      && Scan(layout, v, heap) == Scan(a.layout, v, payload + a.size) >= payload + a.size
  {
    hide HoldsText, EncodesItems, ScanMembers, ScanList, VectorEnd, Selected;
    var a := layout.alternatives[Selected(layout.alternatives, v.tag).value];
    TraitsAreSound(a.layout);
    HeapGrows(a.layout, v, AlignTo(heap, a.align) + a.size);
  }

  /** Where the inherited part goes. */
  lemma InheritedPlace(layout: Layout, v: Value, at: nat, heap: nat)
    requires WellFormed(layout) && Typed(layout, v) && layout.Struct? && layout.inherit.Some?
    requires Placed(layout, at, heap)
    ensures var base := layout.inherit.value;
      && WellFormed(base) && Typed(base, v) && base.Struct? && Placed(base, at, heap)
      && base.traits.size <= layout.traits.size
      && ScanMembers(layout, v, 0, heap) == Scan(base, v, heap)
  {
    hide Apart;
    TraitsAreSound(layout);
    TraitsAreSound(layout.inherit.value);
    AlignsWithin(at, layout.traits.align, layout.inherit.value.traits.align);
  }

  lemma MemberAligned(layout: Layout, i: nat, at: nat)
    requires WellFormed(layout) && layout.Struct? && i < |layout.members| && at % layout.traits.align == 0
    ensures var m := layout.members[i];
      WellFormed(m.layout) && TraitsOf(m.layout).align > 0 && (at + m.offset) % TraitsOf(m.layout).align == 0
  {
    hide Apart, TraitsOf;
    var m := layout.members[i];
    AlignsWithin(at, layout.traits.align, TraitsOf(m.layout).align);
    AlignsSum(at, m.offset, TraitsOf(m.layout).align);
  }

  /** Where member `i` goes: inside the slot, apart from the other members, its heap after theirs. */
  lemma MemberPlace(layout: Layout, v: Value, i: nat, at: nat, heap: nat)
    requires WellFormed(layout) && Typed(layout, v) && layout.Struct? && i < |layout.members|
    requires Placed(layout, at, heap)
    ensures var m := layout.members[i]; var mid := ScanMembers(layout, v, i, heap);
      && WellFormed(m.layout) && Typed(m.layout, Property(v, m.key)) && Placed(m.layout, at + m.offset, mid)
      && m.offset + TraitsOf(m.layout).size <= layout.traits.size
      && heap <= mid <= ScanMembers(layout, v, i + 1, heap) <= Scan(layout, v, heap)
      && ScanMembers(layout, v, i + 1, heap) == Scan(m.layout, Property(v, m.key), mid)
  {
    hide WellFormed, Typed, ScanMembers, AlignTo;
    MemberAligned(layout, i, at);
    MemberBounds(layout, v, i, heap);
    if layout.traits.fixed {
      MemberFixed(layout, i);
    }
  }

  lemma MemberFixed(layout: Layout, i: nat)
    requires WellFormed(layout) && layout.Struct? && i < |layout.members| && layout.traits.fixed
    ensures TraitsOf(layout.members[i].layout).fixed
  {
    hide TraitsOf, Apart;
  }

  lemma ListTyped(layout: Layout, v: Value)
    requires Typed(layout, v) && layout.List?
    ensures v.Items? && forall i :: 0 <= i < |v.items| ==> Typed(layout.element, v.items[i])
  {
  }

  lemma ListPlace(layout: Layout, at: nat, heap: nat)
    requires layout.List? && Placed(layout, at, heap)
    ensures at % 4 == 0 && at + 4 <= heap && TraitsOf(layout).size == 4
  {
  }

  lemma ElementAligned(layout: Layout, items: seq<Value>, k: nat, heap: nat)
    requires WellFormed(layout) && layout.List? && k < |items|
    requires forall i :: 0 <= i < |items| ==> Typed(layout.element, items[i])
    ensures var here := ElementAt(layout, items, k, heap); var e := layout.element;
      && here % 4 == 0
      && WellFormed(e) && TraitsOf(e).size == layout.size && TraitsOf(e).align > 0 && here % TraitsOf(e).align == 0
  {
    hide Typed, ScanList, AlignTo, TraitsOf;
    TraitsAreSound(layout.element);
    AlignsWithin(ElementAt(layout, items, k, heap), ListAlign(layout), 4);
    AlignsWithin(ElementAt(layout, items, k, heap), ListAlign(layout), TraitsOf(layout.element).align);
  }

  /** Where element `k` goes: after its link, which is in the slot or right before the previous element. */
  lemma ElementPlace(layout: Layout, items: seq<Value>, k: nat, heap: nat)
    requires WellFormed(layout) && layout.List? && k < |items|
    requires forall i :: 0 <= i < |items| ==> Typed(layout.element, items[i])
    ensures var here := ElementAt(layout, items, k, heap); var e := layout.element;
      && here == AlignTo(ScanList(layout, items, k, heap) + POINTER_SIZE, ListAlign(layout))
      && WellFormed(e) && Placed(e, here, here + layout.size) && TraitsOf(e).size == layout.size
      && heap <= ScanList(layout, items, k, heap) <= here - 4
      && here + layout.size <= ScanList(layout, items, k + 1, heap) <= ScanList(layout, items, |items|, heap)
      && ScanList(layout, items, k + 1, heap) == Scan(e, items[k], here + layout.size)
  {
    hide Typed, AlignTo, TraitsOf, WellFormed, Scan, ListAlign;
    ElementAligned(layout, items, k, heap);
    ElementGrows(layout, items, k, heap);
    ListGrows(layout, items, 0, k, heap);
    ListGrows(layout, items, k + 1, |items|, heap);
  }

  lemma LinkPlace(layout: Layout, items: seq<Value>, k: nat, at: nat, heap: nat)
    requires WellFormed(layout) && layout.List? && k <= |items|
    requires forall i :: 0 <= i < |items| ==> Typed(layout.element, items[i])
    requires at % 4 == 0
    ensures var link := LinkAt(layout, items, k, at, heap);
      && link % 4 == 0 && (k == 0 ==> link == at)
      && (k > 0 ==> heap <= ScanList(layout, items, k - 1, heap) <= link
                    && link + 4 == ElementAt(layout, items, k - 1, heap) <= ScanList(layout, items, k, heap))
    ensures heap <= ScanList(layout, items, k, heap) <= ScanList(layout, items, |items|, heap)
  {
    hide Typed, AlignTo, TraitsOf, WellFormed, Scan, ElementAt, ScanList;
    ListGrows(layout, items, 0, k, heap);
    ListGrows(layout, items, k, |items|, heap);
    if k > 0 {
      ElementPlace(layout, items, k - 1, heap);
      ElementAligned(layout, items, k - 1, heap);
      AlignsWithin(ElementAt(layout, items, k - 1, heap) - 4, 4, 4);
    }
  }
}
