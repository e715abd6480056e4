/** The wire format, byte by byte. */
module WireBytes {
  import opened Wrappers
  import opened Bytes
  import opened Layouts
  import opened Values
  import opened Scanner
  import opened Wire
  import opened Blobs

  /** Two and four bytes, the lowest first. */
  predicate Has2(mem: seq<byte>, at: nat, n: int) {
    at + 2 <= |mem| && mem[at] as int + 0x100 * (mem[at + 1] as int) == n
  }

  predicate Has4(mem: seq<byte>, at: nat, n: int) {
    at + 4 <= |mem| && mem[at] as int + 0x100 * (mem[at + 1] as int) + 0x1_0000 * (mem[at + 2] as int) + 0x100_0000 * (mem[at + 3] as int) == n
  }

  lemma WordOfTwo(mem: seq<byte>, at: nat, n: nat)
    requires Holds(mem, at, 2, n)
    ensures Has2(mem, at, n)
  {
    assert Word(mem, at + 1, 1) == mem[at + 1] as int + 256 * Word(mem, at + 2, 0);
  }

  lemma WordOfFour(mem: seq<byte>, at: nat, n: nat)
    requires Holds(mem, at, 4, n)
    ensures Has4(mem, at, n)
  {
    assert Word(mem, at + 3, 1) == mem[at + 3] as int + 256 * Word(mem, at + 4, 0);
    assert Word(mem, at + 2, 2) == mem[at + 2] as int + 256 * Word(mem, at + 3, 1);
    assert Word(mem, at + 1, 3) == mem[at + 1] as int + 256 * Word(mem, at + 2, 2);
  }

  lemma WordOfOne(mem: seq<byte>, at: nat, n: nat)
    requires Holds(mem, at, 1, n)
    ensures at < |mem| && mem[at] == n
  {
    assert Word(mem, at, 1) == mem[at] as int + 256 * Word(mem, at + 1, 0);
  }

  /** The first 16 bytes are magic, version, length and zero; the root follows, and behind it its heap. */
  lemma BlobBytes(info: Package, value: Value, blob: seq<byte>)
    requires Usable(info) && Typed(info.layout, value) && IsBlob(info, value, blob) && 0 <= info.version < 0x1_0000_0000
    ensures Has4(blob, 0, 0x00fff35a) && Has4(blob, 4, info.version) && Has4(blob, 8, |blob|) && Has4(blob, 12, 0)
    ensures Encodes(info.layout, value, blob, 16, 16 + TraitsOf(info.layout).size)
  {
    hide Encodes, WellFormed, Typed, TraitsOf, Holds, Scan;
    VersionMatchesIff(info);
    WordOfFour(blob, 0, 0x00fff35a);
    WordOfFour(blob, 4, info.version);
    WordOfFour(blob, 8, |blob|);
    WordOfFour(blob, 12, 0);
  }

  /** Integers and booleans are stored in the bytes of their slot, modulo the range. */
  lemma PrimitiveBytes(scalar: Scalar, v: Value, mem: seq<byte>, at: nat, heap: nat)
    requires Typed(Primitive(scalar), v) && Encodes(Primitive(scalar), v, mem, at, heap)
    ensures scalar == Bool ==> at < |mem| && mem[at] == if v.b then 1 else 0
    ensures scalar == Int8 || scalar == Uint8 ==> at < |mem| && mem[at] == v.n % 0x100
    ensures scalar == Int16 || scalar == Uint16 ==> Has2(mem, at, v.n % 0x1_0000)
    ensures scalar == Int32 || scalar == Uint32 ==> Has4(mem, at, v.n % 0x1_0000_0000)
  {
    hide Holds, Has2, Has4;
    Widths();
    var w := Bits(scalar, v);
    if scalar.Width() == 1 {
      WordOfOne(mem, at, w);
    } else if scalar.Width() == 2 {
      WordOfTwo(mem, at, w);
    } else if scalar.Width() == 4 {
      WordOfFour(mem, at, w);
    }
  }

  /** Of bytes, the slot holds address and number. */
  lemma BufferBytes(v: Value, mem: seq<byte>, at: nat, heap: nat)
    requires v.Blob? && Encodes(Buffer, v, mem, at, heap)
    ensures Has4(mem, at, heap) && Has4(mem, at + 4, |v.bytes|)
    ensures forall i :: 0 <= i < |v.bytes| ==> heap + i < |mem| && mem[heap + i] == v.bytes[i]
  {
    hide Holds, Has4;
    WordOfFour(mem, at, heap);
    WordOfFour(mem, at + 4, |v.bytes|);
  }

  /** Of a string, too; the number is negated if it takes two bytes a unit. */
  lemma TextIsStored(v: Value, mem: seq<byte>, at: nat, heap: nat)
    requires v.Text? && Encodes(String, v, mem, at, heap) && |v.units| < 0x8000_0000
    ensures (forall i :: 0 <= i < |v.units| ==> v.units[i] < 256) ==>
      && Has4(mem, at, heap) && Has4(mem, at + 4, |v.units|)
      && forall i :: 0 <= i < |v.units| ==> heap + i < |mem| && mem[heap + i] == v.units[i]
    ensures (exists i :: 0 <= i < |v.units| && v.units[i] >= 256) ==>
      && Has4(mem, at, heap + heap % 2) && Has4(mem, at + 4, 0x1_0000_0000 - |v.units|)
      && forall i :: 0 <= i < |v.units| ==> Has2(mem, heap + heap % 2 + 2 * i, v.units[i])
  {
    hide Holds, Has4, Has2, AlignTo;
    if Wide(v.units) {
      WideIsStored(v, mem, at, heap);
    } else {
      WordOfFour(mem, at, heap);
      WordOfFour(mem, at + 4, |v.units|);
    }
  }

  lemma WideIsStored(v: Value, mem: seq<byte>, at: nat, heap: nat)
    requires v.Text? && Encodes(String, v, mem, at, heap) && |v.units| < 0x8000_0000 && Wide(v.units)
    ensures Has4(mem, at, heap + heap % 2) && Has4(mem, at + 4, 0x1_0000_0000 - |v.units|)
    ensures forall i :: 0 <= i < |v.units| ==> Has2(mem, heap + heap % 2 + 2 * i, v.units[i])
  {
    hide Holds, Has4, Has2;
    var start := AlignTo(heap, 2);
    assert start == heap + heap % 2;
    Widths();
    assert |v.units| > 0;
    assert Wrap(-|v.units|, 4) == 0x1_0000_0000 - |v.units|;
    WordOfFour(mem, at, start);
    WordOfFour(mem, at + 4, 0x1_0000_0000 - |v.units|);
    forall i | 0 <= i < |v.units| ensures Has2(mem, start + 2 * i, v.units[i]) {
      WordOfTwo(mem, start + 2 * i, v.units[i]);
    }
  }

  /** An enumeration is stored as a place of its value; a constant is not stored. */
  lemma EnumBytes(values: seq<Value>, v: Value, mem: seq<byte>, at: nat, heap: nat)
    requires v in values && |values| <= 256 && Encodes(Enum(values), v, mem, at, heap)
    ensures at < |mem| && mem[at] < |values| && values[mem[at]] == v
  {
    hide Holds;
    var k :| 0 <= k < |values| && values[k] == v && Holds(mem, at, 1, k);
    WordOfOne(mem, at, k);
  }

  /** Behind an optional there is a 1 if it is present, else a 0. */
  lemma OptionalBytes(layout: Layout, v: Value, mem: seq<byte>, at: nat, heap: nat)
    requires layout.Optional? && WellFormed(layout) && Typed(layout, v) && Encodes(layout, v, mem, at, heap)
    ensures at + layout.size < |mem| && mem[at + layout.size] == if v == layout.uninitialized then 0 else 1
    ensures WellFormed(layout.element)
    ensures v != layout.uninitialized ==> Typed(layout.element, v) && Encodes(layout.element, v, mem, at, heap)
  {
    hide Holds, WellFormed, Typed, Encodes, TraitsOf, Scan;
    OptionalMeans(layout, v, mem, at, heap);
    WordOfOne(mem, at + layout.size, if v == layout.uninitialized then 0 else 1);
  }

  /** A pointer is 0 if nothing is there, else the aligned address of the payload in the heap. */
  lemma PointerBytes(layout: Layout, v: Value, mem: seq<byte>, at: nat, heap: nat)
    requires layout.Pointer? && WellFormed(layout) && Typed(layout, v) && Encodes(layout, v, mem, at, heap)
    ensures WellFormed(layout.element) && layout.align > 0
    ensures v == layout.uninitialized ==> Has4(mem, at, 0)
    ensures v != layout.uninitialized ==>
      var payload := AlignTo(heap, layout.align);
      Has4(mem, at, payload) && Typed(layout.element, v) && Encodes(layout.element, v, mem, payload, payload + layout.size)
  {
    hide Holds, Has4, WellFormed, Typed, Encodes, TraitsOf, Scan, AlignTo;
    PointerMeans(layout, v, mem, at, heap);
    WordOfFour(mem, at, if v == layout.uninitialized then 0 else AlignTo(heap, layout.align));
  }

  /** Of a variant, the slot holds the address of the payload and the place of the alternative. */
  lemma VariantBytes(layout: Layout, v: Value, mem: seq<byte>, at: nat, heap: nat)
    requires layout.Variant? && WellFormed(layout) && Typed(layout, v) && Encodes(layout, v, mem, at, heap)
    ensures var k := Selected(layout.alternatives, v.tag);
      && k.Some? && at + 4 < |mem| && mem[at + 4] == k.value
      && layout.alternatives[k.value].align > 0 && Has4(mem, at, AlignTo(heap, layout.alternatives[k.value].align))
  {
    hide Holds, Has4, Selected, EncodesMember, EncodesElement, EncodesItems, ScanMembers, ScanList, AlignTo;
    var k := Selected(layout.alternatives, v.tag).value;
    TraitsAreSound(layout.alternatives[k].layout);
    WordOfFour(mem, at, AlignTo(heap, layout.alternatives[k].align));
    WordOfOne(mem, at + 4, k);
  }

  /** Of a vector, the slot holds the aligned address of the first element and their number. */
  lemma VectorBytes(layout: Layout, v: Value, mem: seq<byte>, at: nat, heap: nat)
    requires layout.Vector? && WellFormed(layout) && Typed(layout, v) && Encodes(layout, v, mem, at, heap)
    ensures v.Items? && layout.align > 0 && WellFormed(layout.element)
    ensures Has4(mem, at, AlignTo(heap, layout.align)) && Has4(mem, at + 4, |v.items|)
    ensures forall i :: 0 <= i < |v.items| ==> Typed(layout.element, v.items[i])
    ensures forall i :: 0 <= i < |v.items| ==>
      Encodes(layout.element, v.items[i], mem, AlignTo(heap, layout.align) + Steps(layout.stride, i), 0)
  {
    hide Holds, Has4, EncodesMember, EncodesElement, ScanMembers, ScanList, AlignTo, Selected, Steps;
    TraitsAreSound(layout.element);
    WordOfFour(mem, at, AlignTo(heap, layout.align));
    WordOfFour(mem, at + 4, |v.items|);
  }

  /** In front of each list element there is the address of the next, or 0 in front of the last. The slot is the first link. */
  lemma ListBytes(layout: Layout, v: Value, mem: seq<byte>, at: nat, heap: nat, k: nat)
    requires layout.List? && WellFormed(layout) && Typed(layout, v) && Encodes(layout, v, mem, at, heap)
    requires k <= |v.items|
    ensures forall i :: 0 <= i < |v.items| ==> Typed(layout.element, v.items[i])
    ensures var link := if k == 0 then at else ElementAt(layout, v.items, k - 1, heap) - 4;
      link >= 0 && Has4(mem, link, if k < |v.items| then ElementAt(layout, v.items, k, heap) else 0)
  {
    hide Holds, Has4, EncodesMember, ScanMembers, ScanList, AlignTo, Selected, Steps, ElementAt, EncodesItems;
    if k < |v.items| {
      assert EncodesElement(layout, v.items, k, mem, at, heap);
      WordOfFour(mem, LinkAt(layout, v.items, k, at, heap), ElementAt(layout, v.items, k, heap));
    } else {
      WordOfFour(mem, LinkAt(layout, v.items, k, at, heap), 0);
    }
  }
}
