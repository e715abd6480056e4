/** Memory layouts, the values they describe, and what a well-formed layout is. */
module Layouts {
  import opened Wrappers
  import opened Bytes
  import opened Bitwise

  const POINTER_SIZE := 4
  const HEADER_SIZE := 16
  const MAGIC := 0x00fff35a

  /** Addresses and counts are stored in signed words. */
  const INT32_LIMIT := 0x8000_0000

  /** Below this, an address still fits a signed word after it was rounded up. */
  const ADDRESS_LIMIT := 0x7fff_fff8

  /** Addresses are rounded up with masks; ClearsLowBits ties this to the bit trick. */
  function AlignTo(address: nat, align: nat): (r: nat)
    requires align > 0
    ensures address <= r < address + align
    ensures r % align == 0
  {
    var past := address + align - 1;
    assert (past - past % align) % align == 0 by {
      assert past - past % align == align * (past / align);
      DivModUnique(past - past % align, align, past / align, 0);
    }
    past - past % align
  }

  /** The bit trick rounds up, as long as the sum fits a signed word. */
  lemma ClearsLowBits(address: nat, align: nat)
    requires IsAlign(align) && address + align - 1 < INT32_LIMIT
    ensures BitAnd(BitNot(align - 1, 32), address + align - 1, 32) == AlignTo(address, align)
  {
    hide BitAnd, BitNot;
    var k := if align == 1 then 0 else if align == 2 then 1 else if align == 4 then 2 else 3;
    assert Power(0) == 1 && Power(1) == 2 && Power(2) == 4 && Power(3) == 8;
    assert Power(32) == 0x1_0000_0000 by { PowerOf32(); }
    MaskClears(address + align - 1, k, 32);
  }

  datatype Scalar = Bool | Int8 | Int16 | Int32 | Uint8 | Uint16 | Uint32 | Double {
    function Width(): (w: nat)
      ensures IsAlign(w)
    {
      match this
      case Bool | Int8 | Uint8 => 1
      case Int16 | Uint16 => 2
      case Int32 | Uint32 => 4
      case Double => 8
    }

    predicate Signed() {
      Int8? || Int16? || Int32?
    }
  }

  /** The discriminator of a struct inside a variant: a number or a string. */
  datatype Tag = NumberTag(n: int) | StringTag(s: string) {
    /** JavaScript truthiness, which the struct reader tests. */
    predicate Truthy() {
      match this
      case NumberTag(n) => n != 0
      case StringTag(s) => s != ""
    }
  }

  type unit = x: int | 0 <= x < 0x1_0000

  /** JavaScript values that a layout can describe. */
  datatype Value =
    | Undefined
    | Null
    | Boolean(b: bool)
    | Number(n: int)
    | DoubleWord(bits: nat)
    | Blob(bytes: seq<byte>)
    | Text(units: seq<unit>)
    | Items(items: seq<Value>, sized: bool)
    | Object(tag: Option<Tag>, fields: map<string, Value>)

  datatype Layout =
    | Primitive(scalar: Scalar)
    | Buffer
    | String
    | Array(element: Layout, length: nat, stride: nat)
    | Constant(constant: Value)
    | Enum(values: seq<Value>)
    | Optional(element: Layout, size: nat, uninitialized: Value)
    | Pointer(element: Layout, align: nat, size: nat, uninitialized: Value)
    | Struct(members: seq<Member>, inherit: Option<Layout>, variant: Option<Tag>, traits: Traits)
    | Variant(alternatives: seq<Alternative>)
    | List(element: Layout, align: nat, size: nat)
    | Vector(element: Layout, align: nat, size: nat, stride: nat)

  datatype Member = Member(key: string, offset: nat, layout: Layout)
  datatype Alternative = Alternative(layout: Layout, align: nat, size: nat)

  /** `fixed` stands for a defined stride, which is always the size rounded up to the alignment. */
  datatype Traits = Traits(align: nat, size: nat, fixed: bool) {
    function Stride(): nat {
      if align == 0 then size else AlignTo(size, align)
    }
  }

  predicate DistinctMembers(members: seq<Member>) {
    forall i, j :: 0 <= i < j < |members| ==> members[i].key != members[j].key
  }

  predicate IsAlign(align: nat) {
    align == 1 || align == 2 || align == 4 || align == 8
  }

  /** The traits computed next to each layout. */
  function TraitsOf(layout: Layout): (t: Traits) {
    match layout
    case Primitive(s) => Traits(s.Width(), s.Width(), true)
    case Buffer | String => Traits(POINTER_SIZE, POINTER_SIZE * 2, false)
    case Array(e, n, stride) =>
      var t := TraitsOf(e);
      Traits(t.align, if n == 0 then 0 else Steps(stride, n - 1) + t.size, true)
    case Constant(_) => Traits(1, 0, true)
    case Enum(_) => Traits(1, 1, true)
    case Optional(e, _, _) => var t := TraitsOf(e); Traits(t.align, t.size + 1, t.fixed)
    case Pointer(_, _, _, _) => Traits(POINTER_SIZE, POINTER_SIZE, false)
    case Struct(_, _, _, t) => t
    case Variant(_) => Traits(POINTER_SIZE, POINTER_SIZE + 1, false)
    case List(_, _, _) => Traits(POINTER_SIZE, POINTER_SIZE, false)
    case Vector(_, _, _, _) => Traits(POINTER_SIZE, POINTER_SIZE * 2, false)
  }

  /** The distance covered by `count` strides, as a loop adding them up sees it. */
  function Steps(stride: nat, count: nat): nat {
    if count == 0 then 0 else Steps(stride, count - 1) + stride
  }

  lemma {:induction false} StepsMonotone(stride: nat, i: nat, j: nat)
    requires i <= j
    ensures Steps(stride, i) <= Steps(stride, j)
    ensures i < j ==> Steps(stride, i) + stride <= Steps(stride, j)
    decreases j
  {
    if i < j {
      StepsMonotone(stride, i, j - 1);
    }
  }

  lemma {:induction false} StepsAreAligned(stride: nat, count: nat, align: nat)
    requires IsAlign(align) && stride % align == 0
    ensures Steps(stride, count) % align == 0
  {
    if count > 0 {
      StepsAreAligned(stride, count - 1, align);
      AlignsSum(Steps(stride, count - 1), stride, align);
    }
  }

  lemma {:induction false} StepsAreProduct(stride: nat, count: nat)
    ensures Steps(stride, count) == stride * count
  {
    if count > 0 {
      StepsAreProduct(stride, count - 1);
    }
  }

  predicate Nullish(v: Value) {
    v.Undefined? || v.Null?
  }

  /** The invariant every layout produced by the compiler has, see Compiler.CompileIsWellFormed. */
  predicate WellFormed(layout: Layout) {
    match layout
    case Primitive(_) | Buffer | String | Constant(_) => true
    case Array(e, n, stride) =>
      WellFormed(e) && var t := TraitsOf(e); t.fixed && (n >= 1 || t.align == 1) && stride == t.Stride()
    case Enum(values) => |values| <= 256
    case Optional(e, size, u) =>
      WellFormed(e) && size == TraitsOf(e).size <= 2 * POINTER_SIZE && Nullish(u)
    case Pointer(e, align, size, u) =>
      WellFormed(e) && align == TraitsOf(e).align && size == TraitsOf(e).size && Nullish(u)
    case Struct(members, inherit, _, t) =>
      && IsAlign(t.align)
      && (t.size == 0 ==> t.align == 1)
      && (inherit.Some? ==> inherit.value.Struct? && WellFormed(inherit.value) && FitsBase(inherit.value.traits, t))
      && (forall i :: 0 <= i < |members| ==> WellFormed(members[i].layout))
      && (forall i :: 0 <= i < |members| ==> IsAlign(TraitsOf(members[i].layout).align))
      && (forall i :: 0 <= i < |members| ==> FitsMember(members[i].offset, TraitsOf(members[i].layout), BaseSize(layout), t))
      && DistinctMembers(members)
      && (forall i, j :: 0 <= i < j < |members| ==>
            Apart(members[i].offset, TraitsOf(members[i].layout).size, members[j].offset, TraitsOf(members[j].layout).size))
      && (t.fixed <==> (inherit.Some? ==> inherit.value.traits.fixed)
                       && forall i :: 0 <= i < |members| ==> TraitsOf(members[i].layout).fixed)
    case Variant(alternatives) =>
      forall i :: 0 <= i < |alternatives| ==>
        && alternatives[i].layout.Struct? && WellFormed(alternatives[i].layout)
        && alternatives[i].align == TraitsOf(alternatives[i].layout).align
        && alternatives[i].size == TraitsOf(alternatives[i].layout).size
    case List(e, align, size) =>
      WellFormed(e) && var t := TraitsOf(e); !t.fixed && align == t.align && size == t.size
    case Vector(e, align, size, stride) =>
      WellFormed(e) && var t := TraitsOf(e); t.fixed && align == t.align && size == t.size && stride == t.Stride()
  }

  lemma {:induction false} TraitsAreSound(layout: Layout)
    requires WellFormed(layout)
    ensures IsAlign(TraitsOf(layout).align)
    ensures TraitsOf(layout).size == 0 ==> TraitsOf(layout).align == 1
  {
    if layout.Array? || layout.Optional? {
      TraitsAreSound(layout.element);
    }
  }

  /** An inherited struct occupies the front of the derived one. */
  predicate FitsBase(base: Traits, t: Traits) {
    base.size <= t.size && base.align <= t.align
  }

  /** A member is aligned and lies between the inherited struct and the end. */
  predicate FitsMember(offset: nat, m: Traits, base: nat, t: Traits)
    requires m.align > 0
  {
    offset % m.align == 0 && base <= offset && offset + m.size <= t.size && m.align <= t.align
  }

  predicate Apart(a: nat, aSize: nat, b: nat, bSize: nat) {
    a + aSize <= b || b + bSize <= a
  }

  function BaseSize(layout: Layout): nat
    requires layout.Struct?
  {
    if layout.inherit.Some? && layout.inherit.value.Struct? then layout.inherit.value.traits.size else 0
  }

  /** A smaller alignment divides a larger one, so alignment is inherited by members. */
  lemma AlignsWithin(at: nat, outer: nat, inner: nat)
    requires IsAlign(outer) && IsAlign(inner) && inner <= outer
    requires at % outer == 0
    ensures at % inner == 0
  {
    var factor := if outer == inner then 1 else if outer == 2 * inner then 2 else if outer == 4 * inner then 4 else 8;
    assert at == outer * (at / outer);
    DivModUnique(at, inner, factor * (at / outer), 0);
  }

  lemma AlignsSum(at: nat, offset: nat, align: nat)
    requires IsAlign(align) && at % align == 0 && offset % align == 0
    ensures (at + offset) % align == 0
  {
    assert at == align * (at / align) && offset == align * (offset / align);
    DivModUnique(at + offset, align, at / align + offset / align, 0);
  }
}
