/** The shared buffer behind the typed-array views. */
module BufferViews {
  import opened Bytes

  lemma {:induction false} EarlierEndsBefore(width: nat, i: nat, j: nat)
    requires i < j
    ensures width * i + width <= width * j
    decreases j
  {
    var k := j - 1;
    if i < k { EarlierEndsBefore(width, i, k); }
    assert width * j == width * k + width;
  }

  /** Elements of one width do not overlap. */
  lemma ElementFrame(before: seq<byte>, after: seq<byte>, width: nat, index: nat, i: nat)
    requires |before| == |after| && width * i + width <= |after| && i != index
    requires Agree(before, after, 0, width * index) && Agree(before, after, width * index + width, |after|)
    ensures Word(after, width * i, width) == Word(before, width * i, width)
  {
    hide Word, Agree;
    var at := width * i;
    if i < index {
      EarlierEndsBefore(width, i, index);
      AgreeWithin(before, after, 0, width * index, at, at + width);
    } else {
      EarlierEndsBefore(width, index, i);
      AgreeWithin(before, after, width * index + width, |after|, at, at + width);
    }
    WordFrame(before, after, at, width);
  }

  class BufferView {
    const uint8: array<byte>

    constructor (length: nat)
      ensures fresh(uint8) && uint8.Length == length
      ensures forall i :: 0 <= i < length ==> uint8[i] == 0
    {
      uint8 := new byte[length](_ => 0);
    }

    /** BufferView.fromTypedArray */
    constructor FromTypedArray(buffer: array<byte>)
      ensures uint8 == buffer
    {
      uint8 := buffer;
    }

    /**
     * view.intN[index] = value. The element is stored modulo its range, and an assignment past the
     * end of the view is dropped, as typed arrays do.
     */
    method Set(width: nat, index: nat, value: int)
      requires width > 0
      modifies uint8
      ensures width * index + width <= uint8.Length ==> Holds(uint8[..], width * index, width, Wrap(value, width))
      ensures Agree(old(uint8[..]), uint8[..], 0, width * index)
      ensures Agree(old(uint8[..]), uint8[..], width * index + width, uint8.Length)
      ensures width * index + width > uint8.Length ==> uint8[..] == old(uint8[..])
      ensures forall i: nat | width * i + width <= uint8.Length ::
        Get(width, i) == if i == index then Wrap(value, width) else old(Get(width, i))
    {
      if width * index + width <= uint8.Length {
        StoreDigits(width * index, width, value);
        forall i: nat | i != index && width * i + width <= uint8.Length ensures Get(width, i) == old(Get(width, i)) {
          ElementFrame(old(uint8[..]), uint8[..], width, index, i);
        }
      }
    }

    method StoreDigits(at: nat, width: nat, value: int)
      requires at + width <= uint8.Length
      modifies uint8
      ensures Word(uint8[..], at, width) == Wrap(value, width)
      ensures Agree(old(uint8[..]), uint8[..], 0, at)
      ensures Agree(old(uint8[..]), uint8[..], at + width, uint8.Length)
      decreases width
    {
      if width > 0 {
        uint8[at] := value % 256;
        StoreDigits(at + 1, width - 1, value / 256);
        WordUnfold(uint8[..], at, width, value);
      }
    }

    /** view.uintN[index] */
    function Get(width: nat, index: nat): nat
      requires width * index + width <= uint8.Length
      reads uint8
    {
      Word(uint8[..], width * index, width)
    }
  }
}
