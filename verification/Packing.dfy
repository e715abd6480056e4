/** Orders the members of a struct and packs them greedily. */
module Packing {
  import opened Sequences
  import opened Strings
  import opened Bytes
  import opened Layouts

  /** A member whose layout is known and whose offset is not. */
  datatype Entry = Entry(key: string, layout: Layout, traits: Traits)

  // Comparison

  /** Smaller members first, then less aligned ones, then by key. */
  predicate Before(a: Entry, b: Entry) {
    || a.traits.size < b.traits.size
    || (a.traits.size == b.traits.size
        && (a.traits.align < b.traits.align || (a.traits.align == b.traits.align && StringLess(a.key, b.key))))
  }

  lemma BeforeIsTransitive(a: Entry, b: Entry, c: Entry)
    requires Before(a, b) && Before(b, c)
    ensures Before(a, c)
  {
    if a.traits == b.traits == c.traits || (StringLess(a.key, b.key) && StringLess(b.key, c.key)) {
      if StringLess(a.key, b.key) && StringLess(b.key, c.key) {
        StringLessIsTransitive(a.key, b.key, c.key);
      }
    }
  }

  // Sorting

  /** entries.sort(...) */
  function Sorted(entries: seq<Entry>): (r: seq<Entry>)
    ensures multiset(r) == multiset(entries)
  {
    if |entries| == 0 then []
    else
      assert entries == entries[..|entries| - 1] + [entries[|entries| - 1]];
      Insert(Sorted(entries[..|entries| - 1]), entries[|entries| - 1])
  }

  function Insert(sorted: seq<Entry>, e: Entry): (r: seq<Entry>)
    ensures multiset(r) == multiset(sorted) + multiset{e}
  {
    if |sorted| == 0 then [e]
    else if Before(e, sorted[0]) then [e] + sorted
    else
      assert sorted == [sorted[0]] + sorted[1..];
      [sorted[0]] + Insert(sorted[1..], e)
  }

  predicate DistinctKeys(entries: seq<Entry>) {
    forall i, j :: 0 <= i < j < |entries| ==> entries[i].key != entries[j].key
  }

  predicate Ascending(entries: seq<Entry>) {
    forall i, j :: 0 <= i < j < |entries| ==> Before(entries[i], entries[j])
  }

  lemma {:induction false} InsertAscends(sorted: seq<Entry>, e: Entry)
    requires Ascending(sorted) && forall x :: x in sorted ==> x.key != e.key
    ensures Ascending(Insert(sorted, e))
  {
    if |sorted| > 0 {
      StringLessIsTotal(e.key, sorted[0].key);
      if Before(e, sorted[0]) {
        forall j | 0 <= j < |sorted| ensures Before(e, sorted[j]) {
          if j > 0 { BeforeIsTransitive(e, sorted[0], sorted[j]); }
        }
      } else {
        assert Before(sorted[0], e);
        InsertAscends(sorted[1..], e);
        var r := Insert(sorted[1..], e);
        forall x | x in r ensures Before(sorted[0], x) {
          assert x in multiset(r);
          assert x in sorted[1..] || x == e;
        }
      }
    }
  }

  lemma {:induction false} SortedAscends(entries: seq<Entry>)
    requires DistinctKeys(entries)
    ensures Ascending(Sorted(entries))
  {
    if |entries| > 0 {
      var front, e := entries[..|entries| - 1], entries[|entries| - 1];
      SortedAscends(front);
      forall x | x in Sorted(front) ensures x.key != e.key {
        assert x in multiset(Sorted(front));
        assert x in front;
      }
      InsertAscends(Sorted(front), e);
    }
  }

  /** There is one ascending arrangement of a multiset. */
  lemma {:induction false} AscendingIsUnique(a: seq<Entry>, b: seq<Entry>)
    requires Ascending(a) && Ascending(b) && multiset(a) == multiset(b)
    ensures a == b
  {
    hide Before, Ascending;
    SameLength(a, b);
    if |a| > 0 {
      HeadsAgree(a, b);
      TailsAgree(a, b);
      AscendingTail(a);
      AscendingTail(b);
      AscendingIsUnique(a[1..], b[1..]);
      SameHeadAndTail(a, b);
    }
  }

  lemma HeadsAgree(a: seq<Entry>, b: seq<Entry>)
    requires Ascending(a) && Ascending(b) && multiset(a) == multiset(b) && |a| > 0
    ensures |b| > 0 && a[0] == b[0]
  {
    hide Before, Ascending;
    SameElements(a, b, a[0]);
    SameElements(a, b, b[0]);
    FirstIsLeast(a, b[0]);
    FirstIsLeast(b, a[0]);
    BeforeIsAsymmetric(a[0], b[0]);
  }

  lemma SameLength(a: seq<Entry>, b: seq<Entry>)
    requires multiset(a) == multiset(b)
    ensures |a| == |b|
  {
    assert |multiset(a)| == |multiset(b)|;
  }

  lemma SameHeadAndTail(a: seq<Entry>, b: seq<Entry>)
    requires |a| > 0 && |b| > 0 && a[0] == b[0] && a[1..] == b[1..]
    ensures a == b
  {
    assert a == [a[0]] + a[1..] && b == [b[0]] + b[1..];
  }

  lemma AscendingTail(a: seq<Entry>)
    requires |a| > 0 && Ascending(a)
    ensures Ascending(a[1..])
  {
    hide Before;
  }

  lemma FirstIsLeast(a: seq<Entry>, x: Entry)
    requires Ascending(a) && x in a
    ensures x == a[0] || Before(a[0], x)
  {
  }

  lemma BeforeIsAsymmetric(a: Entry, b: Entry)
    ensures !(Before(a, b) && Before(b, a))
  {
    StringLessIsTotal(a.key, b.key);
  }

  /** The order in which members are declared does not matter. */
  lemma SortedIgnoresOrder(a: seq<Entry>, b: seq<Entry>)
    requires DistinctKeys(a) && DistinctKeys(b) && multiset(a) == multiset(b)
    ensures Sorted(a) == Sorted(b)
  {
    SortedAscends(a);
    SortedAscends(b);
    AscendingIsUnique(Sorted(a), Sorted(b));
  }

  // Packing

  function Padding(offset: nat, e: Entry): nat
    requires e.traits.align > 0
  {
    AlignTo(offset, e.traits.align) - offset
  }

  predicate Aligned(entries: seq<Entry>) {
    forall i :: 0 <= i < |entries| ==> entries[i].traits.align > 0
  }

  /** The first entry with the least padding. */
  function Best(entries: seq<Entry>, offset: nat): (k: nat)
    requires |entries| > 0 && Aligned(entries)
    ensures k < |entries|
    ensures forall i :: 0 <= i < |entries| ==> Padding(offset, entries[k]) <= Padding(offset, entries[i])
    ensures forall i :: 0 <= i < k ==> Padding(offset, entries[k]) < Padding(offset, entries[i])
  {
    var last := |entries| - 1;
    if last == 0 then 0
    else
      var front := entries[..last];
      var k := Best(front, offset);
      assert forall i :: 0 <= i < last ==> front[i] == entries[i];
      if Padding(offset, front[k]) > Padding(offset, entries[last]) then last else k
  }

  /** splice(k, 1) */
  function Without(entries: seq<Entry>, k: nat): (rest: seq<Entry>)
    requires k < |entries|
    ensures |rest| == |entries| - 1
    ensures forall e :: e in rest ==> e in entries
  {
    entries[..k] + entries[k + 1..]
  }

  /** The members in the order they are placed, and the offset after the last. */
  function Packed(entries: seq<Entry>, offset: nat): (r: (seq<Member>, nat))
    requires Aligned(entries)
    decreases |entries|
  {
    if |entries| == 0 then ([], offset)
    else
      var k := Best(entries, offset);
      var e := entries[k];
      var at := AlignTo(offset, e.traits.align);
      var rest := Packed(Without(entries, k), at + e.traits.size);
      ([Member(e.key, at, e.layout)] + rest.0, rest.1)
  }

  /** The packing loop: take the entry with the least padding, place it, advance. */
  method Pack(all: seq<Entry>, start: nat) returns (members: seq<Member>, offset: nat)
    requires Aligned(all)
    ensures (members, offset) == Packed(all, start)
  {
    hide AlignTo, Padding, Packed;
    var entries := all;
    offset := start;
    members := [];
    assert members + Packed(all, start).0 == Packed(all, start).0;
    while |entries| != 0
      invariant Aligned(entries)
      invariant Packed(all, start) == (members + Packed(entries, offset).0, Packed(entries, offset).1)
      decreases |entries|
    {
      PackedStep(entries, offset);
      var minimum := Best(entries, offset);
      var member := entries[minimum];
      entries := Without(entries, minimum);
      offset := AlignTo(offset, member.traits.align);
      var placed := Member(member.key, offset, member.layout);
      ghost var rest := Packed(entries, offset + member.traits.size).0;
      assert members + ([placed] + rest) == members + [placed] + rest;
      members := members + [placed];
      offset := offset + member.traits.size;
    }
    PackedStep(entries, offset);
    assert members + [] == members;
  }

  lemma PackedStep(entries: seq<Entry>, offset: nat)
    requires Aligned(entries)
    ensures |entries| == 0 ==> Packed(entries, offset) == ([], offset)
    ensures |entries| > 0 ==>
      var k := Best(entries, offset);
      var at := AlignTo(offset, entries[k].traits.align);
      Aligned(Without(entries, k))
      && var rest := Packed(Without(entries, k), at + entries[k].traits.size);
      Packed(entries, offset) == ([Member(entries[k].key, at, entries[k].layout)] + rest.0, rest.1)
  {
    hide AlignTo, Padding, Best;
  }

  predicate GoodEntry(e: Entry) {
    WellFormed(e.layout) && e.traits == TraitsOf(e.layout) && IsAlign(e.traits.align)
  }

  predicate GoodEntries(entries: seq<Entry>) {
    forall e :: e in entries ==> GoodEntry(e)
  }

  function Names(members: seq<Member>): (r: seq<(string, Layout)>)
    ensures |r| == |members| && forall i :: 0 <= i < |r| ==> r[i] == (members[i].key, members[i].layout)
  {
    seq(|members|, i requires 0 <= i < |members| => (members[i].key, members[i].layout))
  }

  function EntryNames(entries: seq<Entry>): (r: seq<(string, Layout)>)
    ensures |r| == |entries| && forall i :: 0 <= i < |r| ==> r[i] == (entries[i].key, entries[i].layout)
  {
    seq(|entries|, i requires 0 <= i < |entries| => (entries[i].key, entries[i].layout))
  }

  /** Every member is placed once. */
  lemma {:induction false} PackedIsPermutation(entries: seq<Entry>, offset: nat)
    requires Aligned(entries)
    ensures multiset(Names(Packed(entries, offset).0)) == multiset(EntryNames(entries))
    decreases |entries|
  {
    hide AlignTo, Padding, Best, Packed, Names, EntryNames;
    PackedStep(entries, offset);
    if |entries| > 0 {
      var k := Best(entries, offset);
      var e := entries[k];
      var at := AlignTo(offset, e.traits.align);
      PackedIsPermutation(Without(entries, k), at + e.traits.size);
      NamesOfCons(Member(e.key, at, e.layout), Packed(Without(entries, k), at + e.traits.size).0);
      NamesWithout(entries, k);
    } else {
      assert Names([]) == [] == EntryNames(entries);
    }
  }

  lemma NamesOfCons(m: Member, ms: seq<Member>)
    ensures multiset(Names([m] + ms)) == multiset{(m.key, m.layout)} + multiset(Names(ms))
  {
    assert Names([m] + ms) == [(m.key, m.layout)] + Names(ms);
  }

  lemma NamesWithout(entries: seq<Entry>, k: nat)
    requires k < |entries|
    ensures multiset(EntryNames(entries)) == multiset{(entries[k].key, entries[k].layout)} + multiset(EntryNames(Without(entries, k)))
  {
    var names := EntryNames(entries);
    assert names == names[..k] + [names[k]] + names[k + 1..];
    assert EntryNames(Without(entries, k)) == names[..k] + names[k + 1..];
  }

  /** Member `i` is aligned and lies between `offset` and `end`. */
  predicate Inside(m: Member, offset: nat, end: nat) {
    var t := TraitsOf(m.layout);
    IsAlign(t.align) && m.offset % t.align == 0 && offset <= m.offset && m.offset + t.size <= end
  }

  /** What packing promises of the members placed from `offset` to `end`. */
  predicate InOrder(members: seq<Member>, offset: nat, end: nat) {
    && offset <= end
    && (forall i :: 0 <= i < |members| ==> Inside(members[i], offset, end))
    && forall i, j :: 0 <= i < j < |members| ==> members[i].offset + TraitsOf(members[i].layout).size <= members[j].offset
  }

  lemma InOrderCons(m: Member, ms: seq<Member>, offset: nat, mid: nat, end: nat)
    requires Inside(m, offset, mid) && InOrder(ms, mid, end)
    ensures InOrder([m] + ms, offset, end)
  {
    hide TraitsOf;
  }

  /** Members are aligned, apart from each other, after the start and before the end. */
  lemma {:induction false} PackedIsInOrder(entries: seq<Entry>, offset: nat)
    requires Aligned(entries) && GoodEntries(entries)
    ensures InOrder(Packed(entries, offset).0, offset, Packed(entries, offset).1)
    decreases |entries|
  {
    hide TraitsOf, WellFormed, AlignTo, Best, Packed;
    PackedStep(entries, offset);
    if |entries| > 0 {
      var k := Best(entries, offset);
      var e := entries[k];
      assert GoodEntry(e);
      var at := AlignTo(offset, e.traits.align);
      PackedIsInOrder(Without(entries, k), at + e.traits.size);
      var rest := Packed(Without(entries, k), at + e.traits.size);
      InOrderCons(Member(e.key, at, e.layout), rest.0, offset, at + e.traits.size, rest.1);
    }
  }

  /** The sizes of the entries, and for each one byte less of padding than its alignment. */
  function Room(entries: seq<Entry>): nat
    requires Aligned(entries)
  {
    if |entries| == 0 then 0
    else
      var e := entries[|entries| - 1];
      Room(entries[..|entries| - 1]) + e.traits.size + (e.traits.align - 1)
  }

  lemma {:induction false} RoomWithout(entries: seq<Entry>, k: nat)
    requires Aligned(entries) && k < |entries|
    ensures Room(entries) == Room(Without(entries, k)) + entries[k].traits.size + (entries[k].traits.align - 1)
    decreases |entries|
  {
    var last := |entries| - 1;
    if k < last {
      RoomWithout(entries[..last], k);
      var rest := Without(entries, k);
      assert rest[..last - 1] == Without(entries[..last], k) && rest[last - 1] == entries[last];
    } else {
      assert Without(entries, k) == entries[..last];
    }
  }

  /** Packing wastes less than its alignment on each member. */
  lemma {:induction false} PackedIsTight(entries: seq<Entry>, offset: nat)
    requires Aligned(entries)
    ensures Packed(entries, offset).1 <= offset + Room(entries)
    decreases |entries|
  {
    hide AlignTo, Best, Packed, Room;
    PackedStep(entries, offset);
    if |entries| > 0 {
      var k := Best(entries, offset);
      var e := entries[k];
      var at := AlignTo(offset, e.traits.align);
      PackedIsTight(Without(entries, k), at + e.traits.size);
      RoomWithout(entries, k);
    }
  }

  /** The struct ends where its last member does. */
  lemma {:induction false} PackedEnd(entries: seq<Entry>, offset: nat)
    requires Aligned(entries) && GoodEntries(entries)
    ensures var r := Packed(entries, offset);
      r.1 == if |r.0| == 0 then offset else r.0[|r.0| - 1].offset + TraitsOf(r.0[|r.0| - 1].layout).size
    decreases |entries|
  {
    hide TraitsOf, WellFormed, AlignTo, Best, Packed;
    PackedStep(entries, offset);
    if |entries| > 0 {
      var k := Best(entries, offset);
      var e := entries[k];
      assert GoodEntry(e);
      PackedEnd(Without(entries, k), AlignTo(offset, e.traits.align) + e.traits.size);
    }
  }

  predicate IsPlacementOf(m: Member, e: Entry) {
    m.key == e.key && m.layout == e.layout
  }

  /** Every placed member comes from an entry. */
  lemma EntryOfMember(entries: seq<Entry>, offset: nat, m: Member) returns (e: Entry)
    requires Aligned(entries) && m in Packed(entries, offset).0
    ensures e in entries && IsPlacementOf(m, e)
  {
    hide AlignTo, Padding, Best, Packed, Without;
    PackedIsPermutation(entries, offset);
    var ms := Packed(entries, offset).0;
    var i :| 0 <= i < |ms| && ms[i] == m;
    SameElements(Names(ms), EntryNames(entries), Names(ms)[i]);
    var j :| 0 <= j < |entries| && EntryNames(entries)[j] == Names(ms)[i];
    e := entries[j];
  }

  /** Every entry is placed. */
  lemma MemberOfEntry(entries: seq<Entry>, offset: nat, e: Entry) returns (m: Member)
    requires Aligned(entries) && e in entries
    ensures m in Packed(entries, offset).0 && IsPlacementOf(m, e)
  {
    hide AlignTo, Padding, Best, Packed, Without;
    PackedIsPermutation(entries, offset);
    var ms := Packed(entries, offset).0;
    var j :| 0 <= j < |entries| && entries[j] == e;
    SameElements(Names(ms), EntryNames(entries), EntryNames(entries)[j]);
    var i :| 0 <= i < |ms| && Names(ms)[i] == EntryNames(entries)[j];
    m := ms[i];
  }

  lemma {:induction false} PackedKeepsKeysDistinct(entries: seq<Entry>, offset: nat)
    requires Aligned(entries) && DistinctKeys(entries)
    ensures DistinctMembers(Packed(entries, offset).0)
    decreases |entries|
  {
    hide AlignTo, Padding, Best, Packed;
    PackedStep(entries, offset);
    if |entries| > 0 {
      var k := Best(entries, offset);
      var next := AlignTo(offset, entries[k].traits.align) + entries[k].traits.size;
      var rest := Without(entries, k);
      PackedKeepsKeysDistinct(rest, next);
      forall m | m in Packed(rest, next).0 ensures m.key != entries[k].key {
        var e := EntryOfMember(rest, next, m);
      }
    }
  }
}
