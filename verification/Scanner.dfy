/** Predicts where the heap of a value ends, without writing it. */
module Scanner {
  import opened Wrappers
  import opened Layouts
  import opened Values

  /** Layouts for which a scanner is made at all. */
  predicate HasScanner(layout: Layout) {
    match layout
    case Primitive(_) | Array(_, _, _) | Constant(_) | Enum(_) => false
    case Buffer | String | Pointer(_, _, _, _) | Variant(_) | List(_, _, _) | Vector(_, _, _, _) => true
    case Optional(e, _, _) => HasScanner(e)
    case Struct(members, inherit, _, _) =>
      (inherit.Some? && HasScanner(inherit.value)) || exists i :: 0 <= i < |members| && HasScanner(members[i].layout)
  }

  /** The end of the heap after `v`, whose own heap starts at or after `heap`. */
  function Scan(layout: Layout, v: Value, heap: nat): (end: nat)
    requires WellFormed(layout) && Typed(layout, v)
    decreases layout, 1
  {
    TraitsAreSound(layout);
    match layout
    case Primitive(_) | Array(_, _, _) | Constant(_) | Enum(_) => heap
    case Buffer => heap + |v.bytes|
    case String => if Wide(v.units) then AlignTo(heap, 2) + |v.units| * 2 else heap + |v.units|
    case Optional(e, _, u) => if v == u then heap else Scan(e, v, heap)
    case Pointer(e, align, size, u) =>
      TraitsAreSound(e);
      if v == u then heap else Scan(e, v, AlignTo(heap, align) + size)
    case Struct(members, _, _, _) => ScanMembers(layout, v, |members|, heap)
    case Variant(alternatives) =>
      var a := alternatives[Selected(alternatives, v.tag).value];
      TraitsAreSound(a.layout);
      Scan(a.layout, v, AlignTo(heap, a.align) + a.size)
    case List(e, _, _) => ScanList(layout, v.items, |v.items|, heap)
    case Vector(e, align, size, stride) =>
      TraitsAreSound(e);
      VectorEnd(|v.items|, v.sized, align, size, stride, heap)
  }

  /**
   * A vector of `count` elements takes `count` strides less the padding of the last one. A value
   * without a length is counted by stepping an address over it.
   */
  function VectorEnd(count: nat, sized: bool, align: nat, size: nat, stride: nat, heap: nat): (end: nat)
    requires align > 0 && size <= stride
    ensures heap <= end
  {
    var start := AlignTo(heap, align);
    var end := start + Steps(stride, count);
    if sized then
      if count == 0 then heap else end - (stride - size)
    else if end == start then heap
    else end - (stride - size)
  }

  /** The bytes from the start of the first element to the end of the last. */
  function Extent(count: nat, size: nat, stride: nat): nat {
    if count == 0 then 0 else Steps(stride, count - 1) + size
  }

  /** Both ways of counting agree with the address reached by laying the elements out. */
  lemma {:induction false} VectorEndIsExtent(count: nat, sized: bool, align: nat, size: nat, stride: nat, heap: nat)
    requires align > 0 && size <= stride < size + align && (size == 0 ==> align == 1)
    ensures VectorEnd(count, sized, align, size, stride, heap)
         == if count == 0 then heap else AlignTo(heap, align) + Extent(count, size, stride)
  {
  }

  lemma VectorScansExtent(layout: Layout, v: Value, heap: nat)
    requires WellFormed(layout) && layout.Vector? && Typed(layout, v)
    ensures layout.align > 0
    ensures Scan(layout, v, heap)
         == if |v.items| == 0 then heap else AlignTo(heap, layout.align) + Extent(|v.items|, layout.size, layout.stride)
  {
    TraitsAreSound(layout.element);
    VectorEndIsExtent(|v.items|, v.sized, layout.align, layout.size, layout.stride, heap);
  }

  /** The heap after the inherited members and the first `count` own ones. */
  function ScanMembers(layout: Layout, v: Value, count: nat, heap: nat): (end: nat)
    requires WellFormed(layout) && Typed(layout, v) && layout.Struct? && count <= |layout.members|
    decreases layout, 0, count
  {
    if count == 0 then
      if layout.inherit.None? then heap
      else ScanMembers(layout.inherit.value, v, |layout.inherit.value.members|, heap)
    else
      var m := layout.members[count - 1];
      Scan(m.layout, Property(v, m.key), ScanMembers(layout, v, count - 1, heap))
  }

  /** The alignment of list elements, which leaves room for the link before each. */
  function ListAlign(layout: Layout): nat
    requires layout.List?
  {
    if layout.align > POINTER_SIZE then layout.align else POINTER_SIZE
  }

  /** The heap after the first `count` elements of a list. */
  function ScanList(layout: Layout, items: seq<Value>, count: nat, heap: nat): (end: nat)
    requires WellFormed(layout) && layout.List? && count <= |items|
    requires forall i :: 0 <= i < |items| ==> Typed(layout.element, items[i])
    decreases layout, 0, count, 0
  {
    if count == 0 then heap
    else Scan(layout.element, items[count - 1], ElementAt(layout, items, count - 1, heap) + layout.size)
  }

  /** Where element `k` of a list goes. */
  function ElementAt(layout: Layout, items: seq<Value>, k: nat, heap: nat): nat
    requires WellFormed(layout) && layout.List? && k < |items|
    requires forall i :: 0 <= i < |items| ==> Typed(layout.element, items[i])
    decreases layout, 0, k, 1
  {
    AlignTo(ScanList(layout, items, k, heap) + POINTER_SIZE, ListAlign(layout))
  }

  /** A layout has no scanner exactly when it has a defined stride. */
  lemma {:induction false} ScannerIffNotFixed(layout: Layout)
    requires WellFormed(layout)
    ensures HasScanner(layout) <==> !TraitsOf(layout).fixed
  {
    match layout
    case Optional(e, _, _) => ScannerIffNotFixed(e);
    case Struct(members, inherit, _, _) =>
      if inherit.Some? { ScannerIffNotFixed(inherit.value); }
      forall i | 0 <= i < |members| ensures HasScanner(members[i].layout) <==> !TraitsOf(members[i].layout).fixed {
        ScannerIffNotFixed(members[i].layout);
      }
    case _ =>
  }

  /** A layout with a defined stride leaves the heap where it is: passing heap 0 to its writer is sound. */
  lemma {:induction false} FixedLeavesHeap(layout: Layout, v: Value, heap: nat)
    requires WellFormed(layout) && Typed(layout, v) && TraitsOf(layout).fixed
    ensures Scan(layout, v, heap) == heap
    decreases layout, 1
  {
    if layout.Optional? && v != layout.uninitialized {
      FixedLeavesHeap(layout.element, v, heap);
    } else if layout.Struct? {
      FixedMembersLeaveHeap(layout, v, |layout.members|, heap);
    }
  }

  lemma {:induction false} FixedMembersLeaveHeap(layout: Layout, v: Value, count: nat, heap: nat)
    requires WellFormed(layout) && Typed(layout, v) && layout.Struct? && layout.traits.fixed
    requires count <= |layout.members|
    ensures ScanMembers(layout, v, count, heap) == heap
    decreases layout, 0, count
  {
    hide Scan, Apart, TraitsOf;
    if count == 0 {
      if layout.inherit.Some? {
        FixedMembersLeaveHeap(layout.inherit.value, v, |layout.inherit.value.members|, heap);
      }
    } else {
      FixedMembersLeaveHeap(layout, v, count - 1, heap);
      FixedMemberLeavesHeap(layout, v, count - 1, heap);
    }
  }

  lemma {:induction false} FixedMemberLeavesHeap(layout: Layout, v: Value, i: nat, heap: nat)
    requires WellFormed(layout) && Typed(layout, v) && layout.Struct? && layout.traits.fixed && i < |layout.members|
    ensures Scan(layout.members[i].layout, Property(v, layout.members[i].key), heap) == heap
    decreases layout, 0, i
  {
    hide Scan, Apart;
    FixedLeavesHeap(layout.members[i].layout, Property(v, layout.members[i].key), heap);
  }

  /** The heap only grows. */
  lemma {:induction false} HeapGrows(layout: Layout, v: Value, heap: nat)
    requires WellFormed(layout) && Typed(layout, v)
    ensures heap <= Scan(layout, v, heap)
    decreases layout, 1
  {
    hide TraitsOf, ScanMembers, ScanList, Steps, AlignTo, VectorEnd, Selected;
    match layout
    case Optional(e, _, u) => if v != u { HeapGrows(e, v, heap); }
    case Pointer(e, align, size, u) =>
      TraitsAreSound(e);
      if v != u { PayloadGrows(e, v, align, size, heap); }
    case Struct(members, _, _, _) =>
      InheritedGrow(layout, v, heap);
      MembersGrow(layout, v, 0, |members|, heap);
    case Variant(alternatives) =>
      var a := alternatives[Selected(alternatives, v.tag).value];
      TraitsAreSound(a.layout);
      PayloadGrows(a.layout, v, a.align, a.size, heap);
    case List(_, _, _) => ListGrows(layout, v.items, 0, |v.items|, heap);
    case Vector(e, _, _, _) => TraitsAreSound(e);
    case _ =>
  }

  /** Member `i` lies inside the struct, and its heap inside the heap of the struct. */
  lemma MemberMeans(layout: Layout, v: Value, i: nat, heap: nat)
    requires WellFormed(layout) && Typed(layout, v) && layout.Struct? && i < |layout.members|
    ensures var m := layout.members[i];
      && WellFormed(m.layout) && Typed(m.layout, Property(v, m.key))
      && m.offset + TraitsOf(m.layout).size <= layout.traits.size
      && ScanMembers(layout, v, i + 1, heap) == Scan(m.layout, Property(v, m.key), ScanMembers(layout, v, i, heap))
  {
    hide Apart, Steps, Scan, TraitsOf, AlignTo, DistinctMembers;
  }

  lemma MemberBounds(layout: Layout, v: Value, i: nat, heap: nat)
    requires WellFormed(layout) && Typed(layout, v) && layout.Struct? && i < |layout.members|
    ensures var m := layout.members[i]; var mid := ScanMembers(layout, v, i, heap);
      && WellFormed(m.layout) && Typed(m.layout, Property(v, m.key))
      && m.offset + TraitsOf(m.layout).size <= layout.traits.size
      && heap <= mid <= ScanMembers(layout, v, i + 1, heap) <= ScanMembers(layout, v, |layout.members|, heap)
      && ScanMembers(layout, v, i + 1, heap) == Scan(m.layout, Property(v, m.key), mid)
  {
    hide WellFormed, Typed, ScanMembers, Scan, TraitsOf;
    MemberMeans(layout, v, i, heap);
    InheritedGrow(layout, v, heap);
    MembersGrow(layout, v, 0, i, heap);
    MembersGrow(layout, v, i, i + 1, heap);
    MembersGrow(layout, v, i + 1, |layout.members|, heap);
  }

  lemma {:induction false} PayloadGrows(layout: Layout, v: Value, align: nat, size: nat, heap: nat)
    requires WellFormed(layout) && Typed(layout, v) && align > 0
    ensures heap <= AlignTo(heap, align) + size <= Scan(layout, v, AlignTo(heap, align) + size)
    decreases layout, 2
  {
    hide *;
    HeapGrows(layout, v, AlignTo(heap, align) + size);
  }

  lemma {:induction false} MembersGrow(layout: Layout, v: Value, i: nat, j: nat, heap: nat)
    requires WellFormed(layout) && Typed(layout, v) && layout.Struct? && i <= j <= |layout.members|
    ensures ScanMembers(layout, v, i, heap) <= ScanMembers(layout, v, j, heap)
    decreases layout, 0, j, 1
  {
    hide *;
    if i < j {
      MembersGrow(layout, v, i, j - 1, heap);
      MemberGrows(layout, v, j - 1, heap);
    }
  }

  lemma {:induction false} MemberGrows(layout: Layout, v: Value, i: nat, heap: nat)
    requires WellFormed(layout) && Typed(layout, v) && layout.Struct? && i < |layout.members|
    ensures ScanMembers(layout, v, i, heap) <= ScanMembers(layout, v, i + 1, heap)
    decreases layout, 0, i + 1, 0
  {
    var m := layout.members[i];
    HeapGrows(m.layout, Property(v, m.key), ScanMembers(layout, v, i, heap));
  }

  lemma {:induction false} InheritedGrow(layout: Layout, v: Value, heap: nat)
    requires WellFormed(layout) && Typed(layout, v) && layout.Struct?
    ensures heap <= ScanMembers(layout, v, 0, heap)
    decreases layout, 0, 0, 0
  {
    if layout.inherit.Some? {
      InheritedGrow(layout.inherit.value, v, heap);
      MembersGrow(layout.inherit.value, v, 0, |layout.inherit.value.members|, heap);
    }
  }

  /** Each element lies after a link and before the heap of the next. */
  lemma {:induction false} ElementGrows(layout: Layout, items: seq<Value>, k: nat, heap: nat)
    requires WellFormed(layout) && layout.List? && k < |items|
    requires forall i :: 0 <= i < |items| ==> Typed(layout.element, items[i])
    ensures ScanList(layout, items, k, heap) + POINTER_SIZE <= ElementAt(layout, items, k, heap)
    ensures ElementAt(layout, items, k, heap) + layout.size <= ScanList(layout, items, k + 1, heap)
    ensures ScanList(layout, items, k, heap) <= ScanList(layout, items, k + 1, heap)
    decreases layout, 0, k
  {
    hide Typed, Scan;
    HeapGrows(layout.element, items[k], ElementAt(layout, items, k, heap) + layout.size);
  }

  lemma {:induction false} ListGrows(layout: Layout, items: seq<Value>, i: nat, j: nat, heap: nat)
    requires WellFormed(layout) && layout.List? && i <= j <= |items|
    requires forall k :: 0 <= k < |items| ==> Typed(layout.element, items[k])
    ensures ScanList(layout, items, 0, heap) == heap
    ensures ScanList(layout, items, i, heap) <= ScanList(layout, items, j, heap)
    decreases layout, 0, j
  {
    hide Typed, Scan, WellFormed, ElementAt, TraitsOf;
    if i < j {
      ListGrows(layout, items, i, j - 1, heap);
      ElementGrows(layout, items, j - 1, heap);
    }
  }
}
