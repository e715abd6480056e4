/**
 * Arrays declared with no elements. The source computes a size and a stride for them that go below zero, or
 * leave the alignment behind: what then becomes of struct members and vectors, and when nothing does.
 */
module EmptyArrays {
  import opened Bytes
  import opened Layouts
  import opened Packing
  import opened Scanner
  import opened Compiler

  /** alignTo, on negative addresses too. */
  function RoundUp(address: int, align: nat): int
    requires align > 0
  {
    var past := address + align - 1;
    past - past % align
  }

  lemma RoundUpIsAlignTo(address: nat, align: nat)
    requires align > 0
    ensures RoundUp(address, align) == AlignTo(address, align)
  {
  }

  /** Alignment and size as the source has them. */
  datatype Slot = Slot(align: nat, size: int) {
    function Stride(): int
      requires align > 0
    {
      RoundUp(size, align)
    }
  }

  /** An array of `length` elements. */
  function ArraySlot(t: Traits, length: nat): (s: Slot)
    requires IsAlign(t.align)
    ensures s.align == t.align
  {
    Slot(t.align, RoundUp(t.size, t.align) * (length - 1) + t.size)
  }

  lemma ArraySlotIsCompiled(t: Traits, length: nat)
    requires IsAlign(t.align) && length > 0
    ensures ArraySlot(t, length).size == ArraySize(t, length)
  {
    RoundUpIsAlignTo(t.size, t.align);
  }

  /** With no elements there is no stride, and the size is what elements are padded with, below zero. */
  lemma NoElements(t: Traits)
    requires IsAlign(t.align)
    ensures var s := ArraySlot(t, 0);
      s.size == t.size - AlignTo(t.size, t.align) && -(s.align as int) < s.size <= 0 && s.Stride() == 0
    ensures ArraySlot(t, 0).size == 0 <==> t.size % t.align == 0
  {
    RoundUpIsAlignTo(t.size, t.align);
    var padding := AlignTo(t.size, t.align) - t.size;
    assert 0 <= padding < t.align;
    if t.size % t.align == 0 { AlreadyAligned(t.size, t.align); }
    RoundsToZero(padding, t.align);
  }

  lemma AlreadyAligned(address: nat, align: nat)
    requires IsAlign(align) && address % align == 0
    ensures AlignTo(address, align) == address
  {
    var r := AlignTo(address, align);
    assert r - address == align * (r / align - address / align);
    MultipleBelow(align, r / align - address / align);
  }

  lemma RoundsToZero(padding: nat, align: nat)
    requires IsAlign(align) && padding < align
    ensures RoundUp(0 - padding, align) == 0
  {
  }

  // Members of structs

  predicate Slots(slots: seq<Slot>) {
    forall i :: 0 <= i < |slots| ==> slots[i].align > 0
  }

  function PaddingFor(offset: int, s: Slot): int
    requires s.align > 0
  {
    RoundUp(offset, s.align) - offset
  }

  /** The first slot with the least padding. */
  function BestSlot(slots: seq<Slot>, offset: int): (k: nat)
    requires |slots| > 0 && Slots(slots)
    ensures k < |slots|
  {
    var last := |slots| - 1;
    if last == 0 then 0
    else
      var k := BestSlot(slots[..last], offset);
      if PaddingFor(offset, slots[k]) > PaddingFor(offset, slots[last]) then last else k
  }

  /** A slot at its offset. */
  datatype Placed = Placed(slot: Slot, offset: int)

  /** The packing loop, on any sizes. */
  function Place(slots: seq<Slot>, offset: int): (seq<Placed>, int)
    requires Slots(slots)
    decreases |slots|
  {
    if |slots| == 0 then ([], offset)
    else
      var k := BestSlot(slots, offset);
      var at := RoundUp(offset, slots[k].align);
      var rest := Place(slots[..k] + slots[k + 1..], at + slots[k].size);
      ([Placed(slots[k], at)] + rest.0, rest.1)
  }

  function SlotOf(e: Entry): Slot {
    Slot(e.traits.align, e.traits.size)
  }

  function SlotsOf(entries: seq<Entry>): (r: seq<Slot>)
    ensures |r| == |entries| && forall i :: 0 <= i < |r| ==> r[i] == SlotOf(entries[i])
  {
    seq(|entries|, i requires 0 <= i < |entries| => SlotOf(entries[i]))
  }

  lemma SamePadding(offset: nat, e: Entry)
    requires e.traits.align > 0
    ensures PaddingFor(offset, SlotOf(e)) == Padding(offset, e)
  {
    RoundUpIsAlignTo(offset, e.traits.align);
  }

  lemma {:induction false} BestSlotIsBest(entries: seq<Entry>, offset: nat)
    requires |entries| > 0 && Aligned(entries)
    ensures Slots(SlotsOf(entries)) && BestSlot(SlotsOf(entries), offset) == Best(entries, offset)
    decreases |entries|
  {
    hide PaddingFor, Padding, SlotOf, SlotsOf;
    SlotsAreAligned(entries);
    var last := |entries| - 1;
    if last > 0 {
      SlotsAreAligned(entries[..last]);
      BestSlotIsBest(entries[..last], offset);
      assert SlotsOf(entries)[..last] == SlotsOf(entries[..last]);
      var k := Best(entries[..last], offset);
      SamePadding(offset, entries[k]);
      SamePadding(offset, entries[last]);
    }
  }

  lemma SlotsAreAligned(entries: seq<Entry>)
    requires Aligned(entries)
    ensures Slots(SlotsOf(entries))
  {
  }

  /** Where no size is below zero, this is how members are packed. */
  lemma {:induction false} PlaceIsPacked(entries: seq<Entry>, offset: nat)
    requires Aligned(entries)
    ensures Slots(SlotsOf(entries))
    ensures var (placed, end) := Place(SlotsOf(entries), offset); var (members, past) := Packed(entries, offset);
      && end == past && |placed| == |members|
      && forall i :: 0 <= i < |members| ==> placed[i].offset == members[i].offset
    decreases |entries|
  {
    hide AlignTo, RoundUp, BestSlot, Best, Place, Packed, SlotsOf;
    SlotsAreAligned(entries);
    PackedStep(entries, offset);
    PlaceStep(SlotsOf(entries), offset);
    if |entries| > 0 {
      var k := Best(entries, offset);
      BestSlotIsBest(entries, offset);
      RoundUpIsAlignTo(offset, entries[k].traits.align);
      PlaceIsPacked(Without(entries, k), AlignTo(offset, entries[k].traits.align) + entries[k].traits.size);
      assert SlotsOf(Without(entries, k)) == SlotsOf(entries)[..k] + SlotsOf(entries)[k + 1..];
    }
  }

  lemma PlaceStep(slots: seq<Slot>, offset: int)
    requires Slots(slots)
    ensures |slots| == 0 ==> Place(slots, offset) == ([], offset)
    ensures |slots| > 0 ==> Slots(Rest(slots, offset)) && PlacesFirst(slots, offset)
  {
    hide RoundUp, BestSlot;
  }

  function Rest(slots: seq<Slot>, offset: int): seq<Slot>
    requires |slots| > 0 && Slots(slots)
  {
    var k := BestSlot(slots, offset);
    slots[..k] + slots[k + 1..]
  }

  predicate PlacesFirst(slots: seq<Slot>, offset: int)
    requires |slots| > 0 && Slots(slots) && Slots(Rest(slots, offset))
  {
    var s := slots[BestSlot(slots, offset)];
    var at := RoundUp(offset, s.align);
    var rest := Place(Rest(slots, offset), at + s.size);
    Place(slots, offset) == ([Placed(s, at)] + rest.0, rest.1)
  }

  /** Behind the inherited struct, before the end of the struct, and none over another. */
  predicate Fits(placed: seq<Placed>, base: int, end: int) {
    && (forall i :: 0 <= i < |placed| ==> base <= placed[i].offset && placed[i].offset + placed[i].slot.size <= end)
    && forall i, j :: 0 <= i < j < |placed| ==> ApartOf(placed[i], placed[j])
  }

  predicate ApartOf(a: Placed, b: Placed) {
    a.offset + a.slot.size <= b.offset || b.offset + b.slot.size <= a.offset
  }

  /** A struct of an array without elements and a byte, in the order of their sizes, behind an inherited struct. */
  function Pair(t: Traits): (slots: seq<Slot>)
    requires IsAlign(t.align)
    ensures Slots(slots)
  {
    [ArraySlot(t, 0), Slot(1, 1)]
  }

  ghost predicate FitsBehindAny(t: Traits)
    requires IsAlign(t.align)
  {
    forall base: nat :: PairFits(t, base)
  }

  predicate PairFits(t: Traits, base: nat)
    requires IsAlign(t.align)
  {
    var (placed, end) := Place(Pair(t), base);
    Fits(placed, base, end)
  }

  /** It can be packed exactly if elements are not padded: else the byte may come to lie in front of the struct. */
  lemma EmptyMemberFitsIff(t: Traits)
    requires IsAlign(t.align)
    ensures FitsBehindAny(t) <==> t.size % t.align == 0
    ensures t.size % t.align != 0 ==> exists placed: Placed :: placed in Place(Pair(t), 0).0 && placed.slot == Slot(1, 1) && placed.offset < 0
  {
    hide ArraySlot, RoundUp, Place, Pair;
    NoElements(t);
    if t.size % t.align == 0 {
      forall base: nat ensures PairFits(t, base) {
        PairPlaced(t, base);
        RoundUpIsAlignTo(base + 1, t.align);
      }
    } else {
      PairPlaced(t, 0);
      var placed := Place(Pair(t), 0).0;
      assert placed[1] in placed && placed[1].slot == Slot(1, 1) && placed[1].offset < 0;
      assert !PairFits(t, 0);
    }
  }

  /** Whichever of the two needs less padding goes first. */
  lemma PairPlaced(t: Traits, base: nat)
    requires IsAlign(t.align)
    ensures var (placed, end) := Place(Pair(t), base); var empty, byte := ArraySlot(t, 0), Slot(1, 1);
      if base % t.align == 0 then
        placed == [Placed(empty, base), Placed(byte, base + empty.size)] && end == base + empty.size + 1
      else
        var at := RoundUp(base + 1, t.align);
        placed == [Placed(byte, base), Placed(empty, at)] && end == at + empty.size
  {
    hide ArraySlot, RoundUp, Place;
    var empty, byte := ArraySlot(t, 0), Slot(1, 1);
    var slots := Pair(t);
    OneByOne(base);
    PlaceStep(slots, base);
    BestOfPair(t, base);
    RoundUpIsAlignTo(base, t.align);
    if base % t.align == 0 {
      AlreadyAligned(base, t.align);
      assert Rest(slots, base) == [byte];
      PlaceOne(byte, base + empty.size);
      OneByOne(base + empty.size);
    } else {
      assert Rest(slots, base) == [empty];
      PlaceOne(empty, base + 1);
    }
  }

  lemma OneByOne(offset: int)
    ensures RoundUp(offset, 1) == offset
  {
  }

  lemma BestOfPair(t: Traits, base: nat)
    requires IsAlign(t.align)
    ensures BestSlot(Pair(t), base) == if base % t.align == 0 then 0 else 1
  {
    hide RoundUp;
    var slots := Pair(t);
    assert slots[..1] == [slots[0]] && BestSlot([slots[0]], base) == 0;
    OneByOne(base);
    RoundUpIsAlignTo(base, t.align);
    if base % t.align == 0 { AlreadyAligned(base, t.align); }
  }

  lemma PlaceOne(s: Slot, offset: int)
    requires s.align > 0
    ensures Place([s], offset) == ([Placed(s, RoundUp(offset, s.align))], RoundUp(offset, s.align) + s.size)
  {
    hide RoundUp, Place;
    PlaceStep([s], offset);
    assert BestSlot([s], offset) == 0 && [s][0] == s;
    assert Rest([s], offset) == [];
    assert [Placed(s, RoundUp(offset, s.align))] + [] == [Placed(s, RoundUp(offset, s.align))];
    PlaceStep([], RoundUp(offset, s.align) + s.size);
  }

  // Elements of vectors

  /** Where a vector of such elements ends, for the scanner. */
  function ScannedEnd(count: nat, sized: bool, s: Slot, heap: int): int
    requires s.align > 0
  {
    var start, tailPadding := RoundUp(heap, s.align), s.Stride() - s.size;
    if sized then if count == 0 then heap else start + count * s.Stride() - tailPadding
    else
      var end := start + count * s.Stride();
      if end == start then heap else end - tailPadding
  }

  /** And for the writer. */
  function WrittenEnd(count: nat, s: Slot, heap: int): int
    requires s.align > 0
  {
    var tailPadding := s.Stride() - s.size;
    if count == 0 then heap else RoundUp(heap, s.align) + count * s.Stride() - tailPadding
  }

  /** For sizes that are not negative this is what the scanner and the writer of the other modules say. */
  lemma EndsAreVectorEnds(count: nat, sized: bool, align: nat, size: nat, heap: nat)
    requires IsAlign(align)
    ensures ScannedEnd(count, sized, Slot(align, size), heap) == VectorEnd(count, sized, align, size, AlignTo(size, align), heap)
    ensures WrittenEnd(count, Slot(align, size), heap) == VectorEnd(count, true, align, size, AlignTo(size, align), heap)
  {
    hide AlignTo, RoundUp, Steps;
    RoundUpIsAlignTo(size, align);
    RoundUpIsAlignTo(heap, align);
    StepsAreProduct(AlignTo(size, align), count);
  }

  predicate EndsAgree(s: Slot, count: nat, sized: bool, heap: nat)
    requires s.align > 0
  {
    ScannedEnd(count, sized, s, heap) == WrittenEnd(count, s, heap)
  }

  ghost predicate ScannerAgrees(s: Slot)
    requires s.align > 0
  {
    forall count: nat, sized: bool, heap: nat :: EndsAgree(s, count, sized, heap)
  }

  /**
   * The scanner agrees with the writer on all vectors of arrays without elements exactly if those are aligned
   * like bytes. Else it misjudges iterables without a length, and the buffer has the wrong size for the value.
   */
  lemma EmptyElementsScanIff(t: Traits)
    requires IsAlign(t.align)
    ensures ScannerAgrees(ArraySlot(t, 0)) <==> t.align == 1
  {
    hide ArraySlot;
    NoElements(t);
    var s := ArraySlot(t, 0);
    if t.align == 1 {
      forall count: nat, sized: bool, heap: nat ensures EndsAgree(s, count, sized, heap) {
        OneByOne(heap);
        assert t.size % 1 == 0;
      }
    } else if s.size == 0 {
      assert RoundUp(1, t.align) == t.align;
      assert !EndsAgree(s, 1, false, 1);
    } else {
      assert RoundUp(0, t.align) == 0;
      assert !EndsAgree(s, 1, false, 0);
    }
  }

  lemma OneOfNothing(s: Slot, heap: int)
    requires s.align > 0 && s.size == 0 && s.Stride() == 0
    ensures ScannedEnd(1, false, s, heap) == heap && WrittenEnd(1, s, heap) == RoundUp(heap, s.align)
  {
    hide RoundUp, Slot.Stride;
  }

  /** A vector, given as an iterable without a length, of one array of no elements that need no padding. */
  lemma OneEmptyMisjudged(t: Traits, heap: int)
    requires IsAlign(t.align) && t.size % t.align == 0
    ensures ScannedEnd(1, false, ArraySlot(t, 0), heap) == heap
    ensures WrittenEnd(1, ArraySlot(t, 0), heap) == RoundUp(heap, t.align)
  {
    hide ArraySlot, RoundUp, ScannedEnd, WrittenEnd, Slot.Stride;
    NoElements(t);
    OneOfNothing(ArraySlot(t, 0), heap);
  }

  /** With 32-bit words, behind one byte of the heap, the scanner allows for 1 byte where the writer takes 4. */
  lemma NoWordsMisjudged(word: Traits, heap: int)
    requires word == Traits(4, 4, true) && heap == 1
    ensures ScannedEnd(1, false, ArraySlot(word, 0), heap) == 1 && WrittenEnd(1, ArraySlot(word, 0), heap) == 4
  {
    hide ArraySlot, RoundUp, ScannedEnd, WrittenEnd, Slot.Stride;
    OneEmptyMisjudged(word, heap);
    OneRoundsToFour(heap);
  }

  lemma OneRoundsToFour(heap: int)
    requires heap == 1
    ensures RoundUp(heap, 4) == 4
  {
  }

  /** Nothing goes wrong, in structs or in vectors, exactly with what is sane. */
  lemma EmptyIsSafeIff(element: Format)
    requires Compile(element).Success?
    ensures var t := Compile(element).value.traits;
      EmptyIsSafe(element) <==> FitsBehindAny(t) && ScannerAgrees(ArraySlot(t, 0))
  {
    hide Compile, FitsBehindAny, ScannerAgrees;
    var t := Compile(element).value.traits;
    EmptyMemberFitsIff(t);
    EmptyElementsScanIff(t);
    if t.align == 1 { assert t.size % 1 == 0; }
  }
}
