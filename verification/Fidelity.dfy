/** Exactly which values come back as they were written. */
module Fidelity {
  import opened Wrappers
  import opened Bytes
  import opened Layouts
  import opened Values

  predicate InRange(scalar: Scalar, n: int) {
    var radix := Radix(scalar.Width());
    if scalar.Signed() then 0 <= 2 * n + radix && 2 * n < radix else 0 <= n < radix
  }

  function OwnKeys(layout: Layout): set<string>
    requires layout.Struct?
  {
    KeysOf(layout.members, |layout.members|)
  }

  /** The keys of the first `count` members. */
  function KeysOf(members: seq<Member>, count: nat): set<string>
    requires count <= |members|
  {
    if count == 0 then {} else KeysOf(members, count - 1) + {members[count - 1].key}
  }

  lemma {:induction false} KeysAreOfMembers(members: seq<Member>, count: nat)
    requires count <= |members|
    ensures forall i :: 0 <= i < count ==> members[i].key in KeysOf(members, count)
    ensures forall k :: k in KeysOf(members, count) ==> exists i :: 0 <= i < count && members[i].key == k
  {
    if count > 0 {
      KeysAreOfMembers(members, count - 1);
    }
  }

  function AllKeys(layout: Layout): set<string>
    requires layout.Struct?
  {
    OwnKeys(layout)
    + if layout.inherit.Some? && layout.inherit.value.Struct? then AllKeys(layout.inherit.value) else {}
  }

  /**
   * Integers in range, constants as declared, arrays of the declared length, no extra properties, and
   * the tag of the struct if that is truthy and none otherwise.
   */
  predicate Faithful(layout: Layout, v: Value)
    requires Typed(layout, v)
    decreases layout, 1
  {
    match layout
    case Primitive(s) => (match s case Bool | Double => true case _ => InRange(s, v.n))
    case Buffer | String | Enum(_) => true
    case Array(e, n, _) => v.sized && |v.items| == n && forall i :: 0 <= i < n ==> Faithful(e, v.items[i])
    case Constant(c) => v == c
    case Optional(e, _, u) => v == u || Faithful(e, v)
    case Pointer(e, _, _, u) => v == u || Faithful(e, v)
    case Struct(_, _, variant, _) =>
      && v.tag == (if variant.Some? && variant.value.Truthy() then variant else None)
      && v.fields.Keys == AllKeys(layout)
      && FaithfulFields(layout, v, {})
    case Variant(alternatives) => Faithful(alternatives[Selected(alternatives, v.tag).value].layout, v)
    case List(e, _, _) => v.sized && forall i :: 0 <= i < |v.items| ==> Faithful(e, v.items[i])
    case Vector(e, _, _, _) => v.sized && forall i :: 0 <= i < |v.items| ==> Faithful(e, v.items[i])
  }

  /** The fields other than the hidden ones are faithful; own fields hide inherited ones of the same name. */
  predicate FaithfulFields(layout: Layout, v: Value, hidden: set<string>)
    requires layout.Struct? && Typed(layout, v)
    decreases layout, 0
  {
    && (forall i :: 0 <= i < |layout.members| && layout.members[i].key !in hidden ==>
          Faithful(layout.members[i].layout, Property(v, layout.members[i].key)))
    && (layout.inherit.Some? && layout.inherit.value.Struct? ==>
          FaithfulFields(layout.inherit.value, v, hidden + OwnKeys(layout)))
  }

  /** A value survives writing and reading if and only if it is faithful to its layout. */
  lemma {:induction false} ReadsBackIffFaithful(layout: Layout, v: Value)
    requires WellFormed(layout) && Typed(layout, v)
    ensures ReadBack(layout, v) == v <==> Faithful(layout, v)
    decreases layout, 2
  {
    match layout
    case Primitive(s) => PrimitiveReadsBack(s, v);
    case Array(e, n, _) =>
      ItemsReadBack(e, v.items[..n]);
      if |v.items| == n { assert v.items[..n] == v.items; }
    case Optional(e, _, u) => if v != u { ReadsBackIffFaithful(e, v); }
    case Pointer(e, _, _, u) => if v != u { ReadsBackIffFaithful(e, v); }
    case Struct(_, _, _, _) => StructReadsBack(layout, v);
    case Variant(alternatives) => ReadsBackIffFaithful(alternatives[Selected(alternatives, v.tag).value].layout, v);
    case List(e, _, _) => ItemsReadBack(e, v.items);
    case Vector(e, _, _, _) => ItemsReadBack(e, v.items);
    case _ =>
  }

  /** A number out of range comes back modulo the range, a struct without the tag that is not truthy. */
  lemma NotAllSurvive()
    ensures var layout, v := Primitive(Uint8), Number(300);
      WellFormed(layout) && Typed(layout, v) && ReadBack(layout, v) == Number(44) && !Faithful(layout, v)
    ensures var layout, v := EmptyStruct(Some(StringTag(""))), Object(Some(StringTag("")), map[]);
      WellFormed(layout) && Typed(layout, v) && ReadBack(layout, v) == Object(None, map[]) && !Faithful(layout, v)
  {
    Widths();
    assert 300 % 256 == 44;
  }

  function EmptyStruct(tag: Option<Tag>): Layout {
    Struct([], None, tag, Traits(1, 0, true))
  }

  lemma PrimitiveReadsBack(scalar: Scalar, v: Value)
    requires Typed(Primitive(scalar), v)
    ensures ReadBack(Primitive(scalar), v) == v <==> Faithful(Primitive(scalar), v)
  {
    Widths();
    if !scalar.Bool? && !scalar.Double? && InRange(scalar, v.n) && scalar.Signed() {
      SignedOfWrap(v.n, scalar.Width());
    }
  }

  lemma {:induction false} ItemsReadBack(element: Layout, items: seq<Value>)
    requires WellFormed(element) && forall i :: 0 <= i < |items| ==> Typed(element, items[i])
    ensures ReadBackAll(element, items) == items <==> forall i :: 0 <= i < |items| ==> Faithful(element, items[i])
    decreases element, 3
  {
    hide WellFormed, Typed, ReadBack, Faithful;
    forall i | 0 <= i < |items| ensures ReadBack(element, items[i]) == items[i] <==> Faithful(element, items[i]) {
      ReadsBackIffFaithful(element, items[i]);
    }
  }

  lemma {:induction false} StructReadsBack(layout: Layout, v: Value)
    requires WellFormed(layout) && Typed(layout, v) && layout.Struct?
    ensures ReadBack(layout, v) == v <==> Faithful(layout, v)
    decreases layout, 1
  {
    hide WellFormed, Typed, ReadBackFields, FaithfulFields, AllKeys;
    FieldKeys(layout, v);
    FieldsReadBack(layout, v, {});
    var fields := ReadBackFields(layout, v);
    StructTyped(layout, v);
    if fields.Keys == v.fields.Keys {
      assert fields == v.fields <==> forall k :: k in fields ==> fields[k] == v.fields[k];
    }
  }

  lemma StructTyped(layout: Layout, v: Value)
    requires Typed(layout, v) && layout.Struct?
    ensures v.Object?
  {
  }

  /** Reading a struct yields exactly the declared keys. */
  lemma {:induction false} FieldKeys(layout: Layout, v: Value)
    requires WellFormed(layout) && Typed(layout, v) && layout.Struct?
    ensures ReadBackFields(layout, v).Keys == AllKeys(layout)
  {
    hide ReadBack;
    if layout.inherit.Some? {
      FieldKeys(layout.inherit.value, v);
    }
    MemberKeys(layout, v, |layout.members|, InheritedFields(layout, v));
  }

  lemma {:induction false} MemberKeys(layout: Layout, v: Value, count: nat, base: map<string, Value>)
    requires layout.Struct? && Typed(layout, v) && count <= |layout.members|
    ensures ReadBackMembers(layout, v, count, base).Keys == base.Keys + KeysOf(layout.members, count)
    decreases count
  {
    hide ReadBack;
    if count > 0 {
      MemberKeys(layout, v, count - 1, base);
    }
  }

  /** The own member of a key decides its field. */
  lemma {:induction false} OwnField(layout: Layout, v: Value, count: nat, base: map<string, Value>, i: nat)
    requires layout.Struct? && Typed(layout, v) && i < count <= |layout.members| && DistinctMembers(layout.members)
    ensures var m := layout.members[i]; var r := ReadBackMembers(layout, v, count, base);
      m.key in r && Typed(m.layout, Property(v, m.key)) && r[m.key] == ReadBack(m.layout, Property(v, m.key))
    decreases count
  {
    hide ReadBack, ReadBackMembers, Typed;
    OneMemberRead(layout, v, count - 1, base);
    if i < count - 1 {
      OwnField(layout, v, count - 1, base, i);
    }
  }

  /** Without an own member of its name, an inherited field stays. */
  lemma {:induction false} InheritedField(layout: Layout, v: Value, count: nat, base: map<string, Value>, k: string)
    requires layout.Struct? && Typed(layout, v) && count <= |layout.members|
    requires k in base && k !in OwnKeys(layout)
    ensures var r := ReadBackMembers(layout, v, count, base); k in r && r[k] == base[k]
    decreases count
  {
    hide ReadBack, ReadBackMembers, Typed;
    if count > 0 {
      OneMemberRead(layout, v, count - 1, base);
      KeysAreOfMembers(layout.members, |layout.members|);
      InheritedField(layout, v, count - 1, base, k);
    } else {
      NoMembersRead(layout, v, base);
    }
  }

  predicate Unchanged(fields: map<string, Value>, v: Value, hidden: set<string>) {
    forall k :: k in fields && k !in hidden ==> fields[k] == Property(v, k)
  }

  /** Fields are faithful, apart from hidden ones, when every key reads back as the property it had. */
  lemma {:induction false} FieldsReadBack(layout: Layout, v: Value, hidden: set<string>)
    requires WellFormed(layout) && Typed(layout, v) && layout.Struct?
    ensures FaithfulFields(layout, v, hidden) <==> Unchanged(ReadBackFields(layout, v), v, hidden)
    decreases layout, 0
  {
    hide ReadBack, Apart, TraitsOf, Faithful, AlignTo, ReadBackMembers, FitsMember;
    if layout.inherit.Some? {
      FieldsReadBack(layout.inherit.value, v, hidden + OwnKeys(layout));
    }
    forall i | 0 <= i < |layout.members|
      ensures var m := layout.members[i]; ReadBack(m.layout, Property(v, m.key)) == Property(v, m.key) <==> Faithful(m.layout, Property(v, m.key))
    {
      ReadsBackIffFaithful(layout.members[i].layout, Property(v, layout.members[i].key));
    }
    FieldsSplit(layout, v, hidden);
  }

  /** All fields are unchanged when the own members are and the inherited fields not hidden by them are. */
  lemma FieldsSplit(layout: Layout, v: Value, hidden: set<string>)
    requires Typed(layout, v) && layout.Struct? && DistinctMembers(layout.members)
    ensures Unchanged(ReadBackFields(layout, v), v, hidden) <==>
      && (forall i :: 0 <= i < |layout.members| && layout.members[i].key !in hidden ==>
            ReadBack(layout.members[i].layout, Property(v, layout.members[i].key)) == Property(v, layout.members[i].key))
      && Unchanged(InheritedFields(layout, v), v, hidden + OwnKeys(layout))
  {
    hide ReadBack, ReadBackMembers, InheritedFields;
    var base, n := InheritedFields(layout, v), |layout.members|;
    var r := ReadBackFields(layout, v);
    MemberKeys(layout, v, n, base);
    KeysAreOfMembers(layout.members, n);
    forall i | 0 <= i < n ensures var m := layout.members[i]; m.key in r && r[m.key] == ReadBack(m.layout, Property(v, m.key)) {
      OwnField(layout, v, n, base, i);
    }
    forall k | k in base && k !in OwnKeys(layout) ensures k in r && r[k] == base[k] {
      InheritedField(layout, v, n, base, k);
    }
  }
}
