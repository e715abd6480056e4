/** Which values a layout accepts, and what a value looks like once it has been written and read back. */
module Values {
  import opened Wrappers
  import opened Bytes
  import opened Layouts

  /** v[key], which is undefined for a missing key. */
  function Property(v: Value, key: string): Value {
    if v.Object? && key in v.fields then v.fields[key] else Undefined
  }

  /** A string that has a code unit outside Latin-1 is stored as UTF-16. */
  predicate Wide(units: seq<unit>) {
    exists i :: 0 <= i < |units| && units[i] >= 0x100
  }

  /** The alternative a tag selects: a Map built from a list keeps the last entry of a key. */
  function Selected(alternatives: seq<Alternative>, tag: Option<Tag>): (r: Option<nat>)
    ensures r.Some? ==>
      && r.value < |alternatives| && TagOf(alternatives[r.value].layout) == tag
      && forall i :: r.value < i < |alternatives| ==> TagOf(alternatives[i].layout) != tag
    ensures r.None? ==> forall i :: 0 <= i < |alternatives| ==> TagOf(alternatives[i].layout) != tag
  {
    if |alternatives| == 0 then None
    else
      var last := |alternatives| - 1;
      if TagOf(alternatives[last].layout) == tag then Some(last)
      else
        var r := Selected(alternatives[..last], tag);
        assert forall i :: 0 <= i < last ==> alternatives[..last][i] == alternatives[i];
        r
  }

  /** The index of an alternative is stored in one byte. */
  predicate IndexFits(k: nat) {
    k < 256
  }

  function TagOf(layout: Layout): Option<Tag> {
    if layout.Struct? then layout.variant else None
  }

  /** The static type a format gives to its values; of a variant, only alternatives whose index fits its byte. */
  predicate Typed(layout: Layout, v: Value) {
    match layout
    case Primitive(s) => (match s case Bool => v.Boolean? case Double => v.DoubleWord? && v.bits < Radix(8) case _ => v.Number?)
    case Buffer => v.Blob?
    case String => v.Text?
    case Array(e, n, _) => v.Items? && |v.items| >= n && forall i :: 0 <= i < n ==> Typed(e, v.items[i])
    case Constant(_) => true
    case Enum(values) => v in values
    case Optional(e, _, u) => v == u || Typed(e, v)
    case Pointer(e, _, _, u) => v == u || Typed(e, v)
    case Struct(members, inherit, _, _) =>
      && v.Object?
      && (inherit.Some? ==> Typed(inherit.value, v))
      && forall i :: 0 <= i < |members| ==> Typed(members[i].layout, Property(v, members[i].key))
    case Variant(alternatives) =>
      v.Object? && var k := Selected(alternatives, v.tag); k.Some? && IndexFits(k.value) && Typed(alternatives[k.value].layout, v)
    case List(e, _, _) => v.Items? && |v.items| < INT32_LIMIT && forall i :: 0 <= i < |v.items| ==> Typed(e, v.items[i])
    case Vector(e, _, _, _) => v.Items? && |v.items| < INT32_LIMIT && forall i :: 0 <= i < |v.items| ==> Typed(e, v.items[i])
  }

  /** The value that reading returns after `v` was written. */
  function ReadBack(layout: Layout, v: Value): Value
    requires Typed(layout, v)
    decreases layout, 1
  {
    match layout
    case Primitive(s) =>
      (match s
       case Bool | Double => v
       case Int8 | Int16 | Int32 => Number(Signed(Wrap(v.n, s.Width()), s.Width()))
       case Uint8 | Uint16 | Uint32 => Number(Wrap(v.n, s.Width())))
    case Buffer | String | Enum(_) => v
    case Array(e, n, _) => Items(ReadBackAll(e, v.items[..n]), true)
    case Constant(c) => c
    case Optional(e, _, u) => if v == u then u else ReadBack(e, v)
    case Pointer(e, _, _, u) => if v == u then u else ReadBack(e, v)
    case Struct(_, _, variant, _) =>
      Object(if variant.Some? && variant.value.Truthy() then variant else None, ReadBackFields(layout, v))
    case Variant(alternatives) => ReadBack(alternatives[Selected(alternatives, v.tag).value].layout, v)
    case List(e, _, _) => Items(ReadBackAll(e, v.items), true)
    case Vector(e, _, _, _) => Items(ReadBackAll(e, v.items), true)
  }

  function ReadBackAll(element: Layout, items: seq<Value>): (r: seq<Value>)
    requires forall i :: 0 <= i < |items| ==> Typed(element, items[i])
    ensures |r| == |items|
    ensures forall i :: 0 <= i < |items| ==> r[i] == ReadBack(element, items[i])
    decreases element, 2
  {
    seq(|items|, i requires 0 <= i < |items| => ReadBack(element, items[i]))
  }

  /** Inherited fields first, own fields over them. */
  function ReadBackFields(layout: Layout, v: Value): map<string, Value>
    requires layout.Struct? && Typed(layout, v)
    decreases layout, 0, |layout.members| + 2
  {
    ReadBackMembers(layout, v, |layout.members|, InheritedFields(layout, v))
  }

  function InheritedFields(layout: Layout, v: Value): map<string, Value>
    requires layout.Struct? && Typed(layout, v)
    decreases layout, 0, |layout.members| + 1
  {
    if layout.inherit.Some? && layout.inherit.value.Struct? then ReadBackFields(layout.inherit.value, v) else map[]
  }

  function ReadBackMembers(layout: Layout, v: Value, count: nat, base: map<string, Value>): map<string, Value>
    requires layout.Struct? && Typed(layout, v) && count <= |layout.members|
    decreases layout, 0, count
  {
    if count == 0 then base
    else
      var m := layout.members[count - 1];
      ReadBackMembers(layout, v, count - 1, base)[m.key := ReadBack(m.layout, Property(v, m.key))]
  }

  lemma NoMembersRead(layout: Layout, v: Value, base: map<string, Value>)
    requires layout.Struct? && Typed(layout, v)
    ensures ReadBackMembers(layout, v, 0, base) == base
  {
    hide Typed;
  }

  lemma OneMemberRead(layout: Layout, v: Value, i: nat, base: map<string, Value>)
    requires layout.Struct? && Typed(layout, v) && i < |layout.members|
    ensures var m := layout.members[i];
      && Typed(m.layout, Property(v, m.key))
      && ReadBackMembers(layout, v, i + 1, base) == ReadBackMembers(layout, v, i, base)[m.key := ReadBack(m.layout, Property(v, m.key))]
  {
    hide ReadBack;
  }
}
