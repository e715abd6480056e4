/**
 * Reads a value back out of a buffer. The ghost arguments say which value the buffer holds and where
 * its heap is: no code depends on them, and they bound the pointer chains that a reader follows.
 */
module Reader {
  import opened Wrappers
  import opened Bytes
  import opened BufferViews
  import opened Layouts
  import opened Values
  import opened Scanner
  import opened Wire
  import opened Placement

  /** view.uintN[at / N] at an aligned address. */
  method Load(view: BufferView, width: nat, at: nat) returns (w: nat)
    requires width > 0 && at % width == 0 && at + width <= view.uint8.Length
    ensures w == Word(view.uint8[..], at, width)
  {
    AlignedIndex(at, width);
    w := view.Get(width, at / width);
  }

  /** view.int32[at >>> 2] */
  method LoadInt32(view: BufferView, at: nat) returns (n: int)
    requires at % 4 == 0 && at + 4 <= view.uint8.Length
    ensures n == Signed(Word(view.uint8[..], at, 4), 4)
    ensures Word(view.uint8[..], at, 4) < INT32_LIMIT ==> n == Word(view.uint8[..], at, 4)
  {
    Widths();
    var w := Load(view, 4, at);
    n := Signed(w, 4);
  }

  method Read(view: BufferView, layout: Layout, at: nat, ghost v: Value, ghost heap: nat) returns (r: Value)
    requires WellFormed(layout) && Typed(layout, v) && Placed(layout, at, heap)
    requires Scan(layout, v, heap) < ADDRESS_LIMIT
    requires Encodes(layout, v, view.uint8[..], at, heap)
    ensures r == ReadBack(layout, v)
    decreases layout, 3
  {
    hide WellFormed, Typed, Encodes, Scan, ReadBack, Placed;
    match layout
    case Array(_, _, _) => r := ReadArray(view, layout, at, v, heap);
    case Optional(_, _, _) => r := ReadOptional(view, layout, at, v, heap);
    case Pointer(_, _, _, _) => r := ReadPointer(view, layout, at, v, heap);
    case Struct(_, _, _, _) => r := ReadStruct(view, layout, at, v, heap);
    case Variant(_) => r := ReadVariant(view, layout, at, v, heap);
    case List(_, _, _) => r := ReadList(view, layout, at, v, heap);
    case Vector(_, _, _, _) => r := ReadVector(view, layout, at, v, heap);
    case _ => r := ReadLeaf(view, layout, at, v, heap);
  }

  method ReadLeaf(view: BufferView, layout: Layout, at: nat, ghost v: Value, ghost heap: nat) returns (r: Value)
    requires IsLeaf(layout)
    requires WellFormed(layout) && Typed(layout, v) && Placed(layout, at, heap)
    requires Scan(layout, v, heap) < ADDRESS_LIMIT
    requires Encodes(layout, v, view.uint8[..], at, heap)
    ensures r == ReadBack(layout, v)
  {
    hide Word, Wide, HoldsText, HoldsBytes;
    match layout
    case Primitive(s) => r := ReadPrimitive(view, s, at, v);
    case Buffer => r := ReadBuffer(view, at, v, heap);
    case String => r := ReadText(view, at, v, heap);
    case Constant(c) => r := c;
    case Enum(values) =>
      var k := Load(view, 1, at);
      r := values[k];
  }

  method ReadPrimitive(view: BufferView, scalar: Scalar, at: nat, ghost v: Value) returns (r: Value)
    requires Typed(Primitive(scalar), v) && at % scalar.Width() == 0
    requires Holds(view.uint8[..], at, scalar.Width(), Bits(scalar, v))
    ensures r == ReadBack(Primitive(scalar), v)
  {
    Widths();
    var w := Load(view, scalar.Width(), at);
    match scalar
    case Bool => r := Boolean(w != 0);
    case Double => r := DoubleWord(w);
    case Int8 | Int16 | Int32 => r := Number(Signed(w, scalar.Width()));
    case Uint8 | Uint16 | Uint32 => r := Number(w);
  }

  method ReadBuffer(view: BufferView, at: nat, ghost v: Value, ghost heap: nat) returns (r: Value)
    requires v.Blob? && at % 4 == 0 && heap + |v.bytes| < ADDRESS_LIMIT
    requires Holds(view.uint8[..], at, 4, heap) && Holds(view.uint8[..], at + 4, 4, |v.bytes|)
    requires HoldsBytes(view.uint8[..], heap, v.bytes)
    ensures r == v
  {
    AlignsSum(at, 4, 4);
    var start := LoadInt32(view, at);
    var length := LoadInt32(view, at + 4);
    r := Blob(Subarray(view.uint8[..], start, start + length));
    assert r.bytes == v.bytes;
  }

  /** view.uint8.subarray(start, end), which clamps its bounds. */
  function Subarray(mem: seq<byte>, start: nat, end: nat): seq<byte>
    requires start <= end
  {
    var hi := if end <= |mem| then end else |mem|;
    if start <= hi then mem[start..hi] else []
  }

  method ReadText(view: BufferView, at: nat, ghost v: Value, ghost heap: nat) returns (r: Value)
    requires v.Text? && at % 4 == 0
    requires (if Wide(v.units) then AlignTo(heap, 2) + |v.units| * 2 else heap + |v.units|) < ADDRESS_LIMIT
    requires HoldsText(view.uint8[..], at, heap, v.units)
    ensures r == v
  {
    hide Word;
    Widths();
    AlignsSum(at, 4, 4);
    var stringOffset := LoadInt32(view, at);
    var length := LoadInt32(view, at + 4);
    if Wide(v.units) {
      SignedOfWrap(-|v.units|, 4);
    }
    if length > 0 {
      var units := LoadLatin1(view, stringOffset, length, v.units);
      r := Text(units);
    } else if length < 0 {
      var units := LoadUnits(view, stringOffset, -length, v.units);
      r := Text(units);
    } else {
      r := Text([]);
    }
  }

  method LoadLatin1(view: BufferView, start: nat, length: nat, ghost expected: seq<unit>) returns (units: seq<unit>)
    requires length == |expected| && HoldsLatin1(view.uint8[..], start, expected)
    ensures units == expected
  {
    units := [];
    for i := 0 to length
      invariant units == expected[..i]
    {
      units := units + [view.uint8[start + i]];
    }
  }

  method LoadUnits(view: BufferView, start: nat, length: nat, ghost expected: seq<unit>) returns (units: seq<unit>)
    requires length == |expected| && start % 2 == 0 && HoldsUnits(view.uint8[..], start, expected)
    ensures units == expected
  {
    Widths();
    AlignedIndex(start, 2);
    var start16 := start / 2;
    units := [];
    for i := 0 to length
      invariant units == expected[..i]
    {
      assert Holds(view.uint8[..], start + 2 * i, 2, expected[i]);
      units := units + [view.Get(2, start16 + i)];
    }
  }

  method ReadItems(view: BufferView, element: Layout, count: nat, stride: nat, at: nat, ghost items: seq<Value>)
    returns (r: seq<Value>)
    requires WellFormed(element) && TraitsOf(element).fixed && forall i :: 0 <= i < |items| ==> Typed(element, items[i])
    requires stride == TraitsOf(element).Stride() && TraitsOf(element).align > 0 && at % TraitsOf(element).align == 0
    requires count == |items| && EncodesItems(element, items, stride, view.uint8[..], at)
    ensures r == ReadBackAll(element, items)
    decreases element, 4
  {
    hide WellFormed, Typed, Encodes, TraitsOf, Scan, ReadBack, ReadBackAll;
    r := [];
    var currentOffset := at;
    for i := 0 to count
      invariant currentOffset == at + Steps(stride, i)
      invariant |r| == i && forall j :: 0 <= j < i ==> r[j] == ReadBack(element, items[j])
    {
      ItemPlace(element, i, count, stride, at);
      FixedLeavesHeap(element, items[i], 0);
      var x := Read(view, element, currentOffset, items[i], 0);
      r := r + [x];
      currentOffset := currentOffset + stride;
    }
  }

  lemma ArrayTyped(layout: Layout, v: Value)
    requires WellFormed(layout) && Typed(layout, v) && layout.Array?
    ensures v.Items? && |v.items| >= layout.length && WellFormed(layout.element)
    ensures forall i :: 0 <= i < layout.length ==> Typed(layout.element, v.items[i])
  {
    hide TraitsOf;
  }

  lemma ArrayDecodes(layout: Layout, v: Value, mem: seq<byte>, at: nat, heap: nat)
    requires WellFormed(layout) && Typed(layout, v) && layout.Array? && Encodes(layout, v, mem, at, heap)
    requires v.Items? && |v.items| >= layout.length && WellFormed(layout.element)
    requires forall i :: 0 <= i < layout.length ==> Typed(layout.element, v.items[i])
    ensures EncodesItems(layout.element, v.items[..layout.length], layout.stride, mem, at)
    ensures ReadBack(layout, v) == Items(ReadBackAll(layout.element, v.items[..layout.length]), true)
  {
    hide EncodesItems, AlignTo, Holds, HoldsText, ReadBackAll;
  }

  method ReadArray(view: BufferView, layout: Layout, at: nat, ghost v: Value, ghost heap: nat) returns (r: Value)
    requires layout.Array?
    requires WellFormed(layout) && Typed(layout, v) && Placed(layout, at, heap)
    requires Scan(layout, v, heap) < ADDRESS_LIMIT
    requires Encodes(layout, v, view.uint8[..], at, heap)
    ensures r == ReadBack(layout, v)
    decreases layout, 2
  {
    hide WellFormed, Typed, Encodes, EncodesItems, Scan, ReadBack, ReadBackAll, TraitsOf, AlignTo;
    ArrayPlace(layout, at, heap);
    ArrayTyped(layout, v);
    ArrayDecodes(layout, v, view.uint8[..], at, heap);
    var items := ReadItems(view, layout.element, layout.length, layout.stride, at, v.items[..layout.length]);
    r := Items(items, true);
  }

  lemma VectorDecodes(layout: Layout, v: Value, mem: seq<byte>, at: nat, heap: nat)
    requires WellFormed(layout) && Typed(layout, v) && layout.Vector? && Encodes(layout, v, mem, at, heap)
    requires layout.align > 0 && v.Items? && WellFormed(layout.element)
    requires forall i :: 0 <= i < |v.items| ==> Typed(layout.element, v.items[i])
    ensures Holds(mem, at, 4, AlignTo(heap, layout.align)) && Holds(mem, at + 4, 4, |v.items|)
    ensures EncodesItems(layout.element, v.items, layout.stride, mem, AlignTo(heap, layout.align))
    ensures ReadBack(layout, v) == Items(ReadBackAll(layout.element, v.items), true)
  {
    hide EncodesItems, AlignTo, Holds, HoldsText, ReadBackAll;
  }

  method ReadVector(view: BufferView, layout: Layout, at: nat, ghost v: Value, ghost heap: nat) returns (r: Value)
    requires layout.Vector?
    requires WellFormed(layout) && Typed(layout, v) && Placed(layout, at, heap)
    requires Scan(layout, v, heap) < ADDRESS_LIMIT
    requires Encodes(layout, v, view.uint8[..], at, heap)
    ensures r == ReadBack(layout, v)
    decreases layout, 2
  {
    hide WellFormed, Typed, Encodes, EncodesItems, Scan, ReadBack, ReadBackAll, TraitsOf, AlignTo, Word;
    Widths();
    VectorPlace(layout, v, at, heap);
    VectorScansExtent(layout, v, heap);
    VectorDecodes(layout, v, view.uint8[..], at, heap);
    AlignsSum(at, 4, 4);
    var start := LoadInt32(view, at);
    var length := LoadInt32(view, at + 4);
    var items := ReadItems(view, layout.element, length, layout.stride, start, v.items);
    r := Items(items, true);
  }

  lemma OptionalDecodes(layout: Layout, v: Value, mem: seq<byte>, at: nat, heap: nat)
    requires WellFormed(layout) && Typed(layout, v) && layout.Optional? && Encodes(layout, v, mem, at, heap)
    ensures Holds(mem, at + layout.size, 1, if v == layout.uninitialized then 0 else 1)
    ensures v == layout.uninitialized ==> ReadBack(layout, v) == v
    ensures v != layout.uninitialized ==> WellFormed(layout.element) && Typed(layout.element, v)
    ensures v != layout.uninitialized ==> Encodes(layout.element, v, mem, at, heap) && ReadBack(layout, v) == ReadBack(layout.element, v)
  {
    hide AlignTo, Holds, HoldsText;
  }

  method ReadOptional(view: BufferView, layout: Layout, at: nat, ghost v: Value, ghost heap: nat) returns (r: Value)
    requires layout.Optional?
    requires WellFormed(layout) && Typed(layout, v) && Placed(layout, at, heap)
    requires Scan(layout, v, heap) < ADDRESS_LIMIT
    requires Encodes(layout, v, view.uint8[..], at, heap)
    ensures r == ReadBack(layout, v)
    decreases layout, 2
  {
    hide WellFormed, Typed, Encodes, Scan, ReadBack, TraitsOf, Placed, Word;
    OptionalPlace(layout, v, at, heap);
    OptionalDecodes(layout, v, view.uint8[..], at, heap);
    var flag := Load(view, 1, at + layout.size);
    if flag != 0 {
      r := Read(view, layout.element, at, v, heap);
    } else {
      r := layout.uninitialized;
    }
  }

  lemma PointerDecodes(layout: Layout, v: Value, mem: seq<byte>, at: nat, heap: nat)
    requires WellFormed(layout) && Typed(layout, v) && layout.Pointer? && Encodes(layout, v, mem, at, heap)
    ensures v == layout.uninitialized ==> Holds(mem, at, 4, 0) && ReadBack(layout, v) == v
    ensures v != layout.uninitialized ==> WellFormed(layout.element) && Typed(layout.element, v) && layout.align > 0
    ensures v != layout.uninitialized ==>
      var payload := AlignTo(heap, layout.align);
      && Holds(mem, at, 4, payload) && Encodes(layout.element, v, mem, payload, payload + layout.size)
      && ReadBack(layout, v) == ReadBack(layout.element, v)
  {
    hide AlignTo, Holds, HoldsText;
    TraitsAreSound(layout.element);
  }

  method ReadPointer(view: BufferView, layout: Layout, at: nat, ghost v: Value, ghost heap: nat) returns (r: Value)
    requires layout.Pointer?
    requires WellFormed(layout) && Typed(layout, v) && Placed(layout, at, heap)
    requires Scan(layout, v, heap) < ADDRESS_LIMIT
    requires Encodes(layout, v, view.uint8[..], at, heap)
    ensures r == ReadBack(layout, v)
    decreases layout, 2
  {
    hide WellFormed, Typed, Encodes, Scan, ReadBack, TraitsOf, Placed, Word, AlignTo;
    PointerPlace(layout, v, at, heap);
    PointerDecodes(layout, v, view.uint8[..], at, heap);
    var payloadOffset := LoadInt32(view, at);
    if payloadOffset == 0 {
      r := layout.uninitialized;
    } else {
      r := Read(view, layout.element, payloadOffset, v, payloadOffset + layout.size);
    }
  }

  lemma VariantDecodes(layout: Layout, v: Value, mem: seq<byte>, at: nat, heap: nat)
    requires WellFormed(layout) && Typed(layout, v) && layout.Variant? && Encodes(layout, v, mem, at, heap)
    ensures v.Object? && Selected(layout.alternatives, v.tag).Some?
    ensures var k := Selected(layout.alternatives, v.tag).value; var a := layout.alternatives[k];
      a.align > 0 && WellFormed(a.layout) && Typed(a.layout, v)
    ensures var k := Selected(layout.alternatives, v.tag).value; var a := layout.alternatives[k];
      var payload := AlignTo(heap, a.align);
      && Holds(mem, at, 4, payload) && Holds(mem, at + 4, 1, k)
      && Encodes(a.layout, v, mem, payload, payload + a.size)
      && ReadBack(layout, v) == ReadBack(a.layout, v)
  {
    hide AlignTo, Holds, HoldsText, Selected;
    TraitsAreSound(layout.alternatives[Selected(layout.alternatives, v.tag).value].layout);
  }

  method ReadVariant(view: BufferView, layout: Layout, at: nat, ghost v: Value, ghost heap: nat) returns (r: Value)
    requires layout.Variant?
    requires WellFormed(layout) && Typed(layout, v) && Placed(layout, at, heap)
    requires Scan(layout, v, heap) < ADDRESS_LIMIT
    requires Encodes(layout, v, view.uint8[..], at, heap)
    ensures r == ReadBack(layout, v)
    decreases layout, 2
  {
    hide WellFormed, Typed, Encodes, Scan, ReadBack, TraitsOf, Placed, Word, AlignTo, Selected;
    VariantPlace(layout, v, at, heap);
    VariantDecodes(layout, v, view.uint8[..], at, heap);
    var ii := Load(view, 1, at + POINTER_SIZE);
    var payloadOffset := LoadInt32(view, at);
    var a := layout.alternatives[ii];
    r := Read(view, a.layout, payloadOffset, v, payloadOffset + a.size);
  }

  method ReadStruct(view: BufferView, layout: Layout, at: nat, ghost v: Value, ghost heap: nat) returns (r: Value)
    requires layout.Struct?
    requires WellFormed(layout) && Typed(layout, v) && Placed(layout, at, heap)
    requires Scan(layout, v, heap) < ADDRESS_LIMIT
    requires Encodes(layout, v, view.uint8[..], at, heap)
    ensures r == ReadBack(layout, v)
    decreases layout, 2
  {
    hide WellFormed, Typed, Encodes, Scan, ReadBackFields, TraitsOf, Placed;
    var fields := ReadFields(view, layout, at, map[], v, heap);
    assert map[] + ReadBackFields(layout, v) == ReadBackFields(layout, v);
    r := Object(if layout.variant.Some? && layout.variant.value.Truthy() then layout.variant else None, fields);
  }

  lemma StructDecodes(layout: Layout, v: Value, mem: seq<byte>, at: nat, heap: nat)
    requires WellFormed(layout) && Typed(layout, v) && layout.Struct? && Encodes(layout, v, mem, at, heap)
    ensures layout.inherit.Some? ==>
      && WellFormed(layout.inherit.value) && Typed(layout.inherit.value, v) && layout.inherit.value.Struct?
      && Encodes(layout.inherit.value, v, mem, at, heap)
    ensures forall i :: 0 <= i < |layout.members| ==> EncodesMember(layout, v, i, mem, at, heap)
  {
    hide EncodesMember, AlignTo, Holds;
  }

  /** Sets the fields of one object, the inherited ones before the own ones. */
  method ReadFields(view: BufferView, layout: Layout, at: nat, value: map<string, Value>, ghost v: Value,
      ghost heap: nat)
    returns (fields: map<string, Value>)
    requires layout.Struct?
    requires WellFormed(layout) && Typed(layout, v) && Placed(layout, at, heap)
    requires Scan(layout, v, heap) < ADDRESS_LIMIT
    requires Encodes(layout, v, view.uint8[..], at, heap)
    ensures fields == value + ReadBackFields(layout, v)
    decreases layout, 1
  {
    hide WellFormed, Typed, Encodes, EncodesMember, Scan, ReadBack, TraitsOf, Placed, ScanMembers, ReadBackMembers;
    StructDecodes(layout, v, view.uint8[..], at, heap);
    NoMembersRead(layout, v, InheritedFields(layout, v));
    fields := ReadInherited(view, layout, at, value, v, heap);
    for i := 0 to |layout.members|
      invariant fields == value + ReadBackMembers(layout, v, i, InheritedFields(layout, v))
    {
      var m := layout.members[i];
      MemberPlace(layout, v, i, at, heap);
      MemberDecodes(layout, v, i, view.uint8[..], at, heap);
      var x := Read(view, m.layout, at + m.offset, Property(v, m.key), ScanMembers(layout, v, i, heap));
      fields := fields[m.key := x];
      OneMemberRead(layout, v, i, InheritedFields(layout, v));
    }
  }

  method ReadInherited(view: BufferView, layout: Layout, at: nat, value: map<string, Value>, ghost v: Value,
      ghost heap: nat)
    returns (fields: map<string, Value>)
    requires layout.Struct?
    requires WellFormed(layout) && Typed(layout, v) && Placed(layout, at, heap)
    requires Scan(layout, v, heap) < ADDRESS_LIMIT
    requires Encodes(layout, v, view.uint8[..], at, heap)
    ensures fields == value + InheritedFields(layout, v)
    decreases layout, 0
  {
    hide WellFormed, Typed, Encodes, EncodesMember, Scan, ReadBackFields, TraitsOf, Placed, ScanMembers;
    fields := value;
    if layout.inherit.Some? {
      StructDecodes(layout, v, view.uint8[..], at, heap);
      InheritedPlace(layout, v, at, heap);
      MembersGrow(layout, v, 0, |layout.members|, heap);
      ScanStruct(layout, v, heap);
      fields := ReadFields(view, layout.inherit.value, at, value, v, heap);
    }
  }

  lemma ScanStruct(layout: Layout, v: Value, heap: nat)
    requires WellFormed(layout) && Typed(layout, v) && layout.Struct?
    ensures Scan(layout, v, heap) == ScanMembers(layout, v, |layout.members|, heap)
  {
    hide ScanMembers;
  }

  lemma MemberDecodes(layout: Layout, v: Value, i: nat, mem: seq<byte>, at: nat, heap: nat)
    requires WellFormed(layout) && Typed(layout, v) && layout.Struct? && i < |layout.members|
    requires EncodesMember(layout, v, i, mem, at, heap)
    ensures var m := layout.members[i];
      && WellFormed(m.layout) && Typed(m.layout, Property(v, m.key))
      && Encodes(m.layout, Property(v, m.key), mem, at + m.offset, ScanMembers(layout, v, i, heap))
  {
    hide ScanMembers, Encodes;
  }

  lemma ListDecodes(layout: Layout, v: Value, mem: seq<byte>, at: nat, heap: nat)
    requires WellFormed(layout) && Typed(layout, v) && layout.List? && Encodes(layout, v, mem, at, heap)
    requires v.Items? && forall i :: 0 <= i < |v.items| ==> Typed(layout.element, v.items[i])
    ensures forall k :: 0 <= k < |v.items| ==> EncodesElement(layout, v.items, k, mem, at, heap)
    ensures Holds(mem, LinkAt(layout, v.items, |v.items|, at, heap), 4, 0)
    ensures ReadBack(layout, v) == Items(ReadBackAll(layout.element, v.items), true)
    ensures Scan(layout, v, heap) == ScanList(layout, v.items, |v.items|, heap)
  {
    hide EncodesElement, LinkAt, Holds, AlignTo, ReadBackAll, ScanList;
  }

  /** What a link reads as: the next element, or zero after the last. */
  function Next(layout: Layout, items: seq<Value>, k: nat, heap: nat): nat
    requires WellFormed(layout) && layout.List? && k <= |items|
    requires forall i :: 0 <= i < |items| ==> Typed(layout.element, items[i])
  {
    if k < |items| then ElementAt(layout, items, k, heap) else 0
  }

  method ReadLink(view: BufferView, layout: Layout, ghost items: seq<Value>, ghost k: nat, link: nat, ghost at: nat,
      ghost heap: nat)
    returns (currentOffset: nat)
    requires WellFormed(layout) && layout.List? && forall i :: 0 <= i < |items| ==> Typed(layout.element, items[i])
    requires at % 4 == 0 && at + 4 <= heap && k <= |items| && ScanList(layout, items, |items|, heap) < ADDRESS_LIMIT
    requires forall k :: 0 <= k < |items| ==> EncodesElement(layout, items, k, view.uint8[..], at, heap)
    requires Holds(view.uint8[..], LinkAt(layout, items, |items|, at, heap), 4, 0)
    requires link == LinkAt(layout, items, k, at, heap)
    ensures currentOffset == Next(layout, items, k, heap)
    ensures currentOffset == 0 <==> k == |items|
  {
    hide WellFormed, Typed, Encodes, Scan, ScanList, TraitsOf, AlignTo, ElementAt, LinkAt, Word;
    LinkPlace(layout, items, k, at, heap);
    if k < |items| {
      ElementPlace(layout, items, k, heap);
      assert EncodesElement(layout, items, k, view.uint8[..], at, heap);
    }
    currentOffset := LoadInt32(view, link);
  }

  method ReadList(view: BufferView, layout: Layout, at: nat, ghost v: Value, ghost heap: nat) returns (r: Value)
    requires layout.List?
    requires WellFormed(layout) && Typed(layout, v) && Placed(layout, at, heap)
    requires Scan(layout, v, heap) < ADDRESS_LIMIT
    requires Encodes(layout, v, view.uint8[..], at, heap)
    ensures r == ReadBack(layout, v)
    decreases layout, 2
  {
    hide WellFormed, Typed, Encodes, EncodesElement, Scan, ScanList, ReadBack, TraitsOf, AlignTo, Holds, ElementAt;
    ListTyped(layout, v);
    ListPlace(layout, at, heap);
    ListDecodes(layout, v, view.uint8[..], at, heap);
    var value: seq<Value> := [];
    ghost var k := 0;
    var currentOffset := ReadLink(view, layout, v.items, 0, at, at, heap);
    while currentOffset != 0
      invariant k == |value| <= |v.items|
      invariant currentOffset == Next(layout, v.items, k, heap)
      invariant currentOffset == 0 <==> k == |v.items|
      invariant forall j :: 0 <= j < k ==> value[j] == ReadBack(layout.element, v.items[j])
      decreases |v.items| - k
    {
      ElementPlace(layout, v.items, k, heap);
      ElementDecodes(layout, v.items, k, view.uint8[..], at, heap);
      var x := Read(view, layout.element, currentOffset, v.items[k], currentOffset + layout.size);
      value := value + [x];
      k := k + 1;
      currentOffset := ReadLink(view, layout, v.items, k, currentOffset - POINTER_SIZE, at, heap);
    }
    r := Items(value, true);
  }

  lemma ElementDecodes(layout: Layout, items: seq<Value>, k: nat, mem: seq<byte>, at: nat, heap: nat)
    requires WellFormed(layout) && layout.List? && k < |items|
    requires forall i :: 0 <= i < |items| ==> Typed(layout.element, items[i])
    requires EncodesElement(layout, items, k, mem, at, heap)
    ensures var here := ElementAt(layout, items, k, heap);
      WellFormed(layout.element) && Encodes(layout.element, items[k], mem, here, here + layout.size)
  {
    hide ElementAt, Encodes, LinkAt;
  }
}
