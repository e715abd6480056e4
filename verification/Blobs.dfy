/** A whole blob: header, root slot and heap, as makeWriter produces it and makeReader accepts it. */
module Blobs {
  import opened Wrappers
  import opened Bytes
  import opened BufferViews
  import opened Layouts
  import opened Values
  import opened Scanner
  import opened Wire
  import opened Placement
  import opened Writer
  import opened Reader
  import opened Fidelity

  /** A built schema: its layout and the version derived from it, or -1 where no hash function is available. */
  datatype Package = Package(layout: Layout, version: int)

  datatype WriteError = ExceededMemory
  datatype ReadError = CorruptedBlob | TruncatedBlob | UnexpectedVersion

  predicate Usable(info: Package) {
    WellFormed(info.layout)
  }

  /** The version as a header stores it. */
  function StoredVersion(info: Package): nat {
    Wrap(info.version, 4)
  }

  /** A blob is only read under a version that its header can hold: -1 never matches. */
  lemma VersionMatchesIff(info: Package)
    ensures StoredVersion(info) == info.version <==> 0 <= info.version < 0x1_0000_0000
    ensures info.version == -1 ==> StoredVersion(info) == 0xffff_ffff
  {
    Widths();
  }

  /** The root slot follows the header, and the heap follows the root slot. */
  function RootHeap(info: Package): nat {
    TraitsOf(info.layout).size + HEADER_SIZE
  }

  /** The size of the blob of a value, known before it is written. */
  function BlobSize(info: Package, value: Value): nat
    requires Usable(info) && Typed(info.layout, value)
  {
    Scan(info.layout, value, RootHeap(info))
  }

  predicate HasHeader(info: Package, mem: seq<byte>, length: nat) {
    && Holds(mem, 0, 4, MAGIC) && Holds(mem, 4, 4, StoredVersion(info))
    && Holds(mem, 8, 4, length) && Holds(mem, 12, 4, 0)
  }

  /** `blob` is a blob of `value`. */
  predicate IsBlob(info: Package, value: Value, blob: seq<byte>)
    requires Usable(info) && Typed(info.layout, value)
  {
    && |blob| == BlobSize(info, value) && HasHeader(info, blob, |blob|)
    && Encodes(info.layout, value, blob, HEADER_SIZE, RootHeap(info))
  }

  lemma RootPlaced(info: Package, value: Value)
    requires Usable(info) && Typed(info.layout, value)
    ensures Placed(info.layout, HEADER_SIZE, RootHeap(info))
    ensures HEADER_SIZE <= RootHeap(info) <= BlobSize(info, value)
  {
    hide Typed, WellFormed, TraitsOf, Scan;
    TraitsAreSound(info.layout);
    HeapGrows(info.layout, value, RootHeap(info));
    AlignsWithin(HEADER_SIZE, 8, TraitsOf(info.layout).align);
  }

  method WriteHeader(view: BufferView, info: Package, length: nat)
    requires length < ADDRESS_LIMIT
    modifies view.uint8
    ensures OnlyIn(old(view.uint8[..]), view.uint8[..], 0, HEADER_SIZE, 0, 0)
    ensures HEADER_SIZE <= view.uint8.Length ==> HasHeader(info, view.uint8[..], length)
  {
    hide Word;
    Widths();
    view.Set(4, 0, MAGIC);
    ghost var m1 := view.uint8[..];
    view.Set(4, 1, info.version);
    ghost var m2 := view.uint8[..];
    view.Set(4, 2, length);
    ghost var m3 := view.uint8[..];
    view.Set(4, 3, 0);
    if HEADER_SIZE <= view.uint8.Length {
      HoldsFrame(m1, m2, 0, 4, MAGIC);
      HoldsFrame(m2, m3, 0, 4, MAGIC);
      HoldsFrame(m3, view.uint8[..], 0, 4, MAGIC);
      HoldsFrame(m2, m3, 4, 4, StoredVersion(info));
      HoldsFrame(m3, view.uint8[..], 4, 4, StoredVersion(info));
      HoldsFrame(m3, view.uint8[..], 8, 4, length);
    }
  }

  /** Writes root and header. Only a view shorter than the blob misses part of it. */
  method WriteInto(view: BufferView, info: Package, value: Value) returns (length: nat)
    requires Usable(info) && Typed(info.layout, value) && BlobSize(info, value) < ADDRESS_LIMIT
    modifies view.uint8
    ensures length == BlobSize(info, value)
    ensures OnlyIn(old(view.uint8[..]), view.uint8[..], 0, HEADER_SIZE, HEADER_SIZE, length)
    ensures length <= view.uint8.Length ==>
      HasHeader(info, view.uint8[..], length) && Encodes(info.layout, value, view.uint8[..], HEADER_SIZE, RootHeap(info))
  {
    hide Typed, WellFormed, TraitsOf, Scan, Encodes, HasHeader, Placed;
    RootPlaced(info, value);
    length := Write(view, info.layout, value, HEADER_SIZE, RootHeap(info));
    ghost var m := view.uint8[..];
    WriteHeader(view, info, length);
    if length <= view.uint8.Length {
      EncodesFrame(info.layout, value, m, view.uint8[..], HEADER_SIZE, RootHeap(info));
    }
  }

  /**
   * makeWriter. A buffer sized by the scanner is always exactly filled; the shared buffer holds any
   * leftovers on entry and limits the size of what can be written through it.
   */
  method WriteBlob(info: Package, value: Value, scanFirst: bool, cache: BufferView)
    returns (r: Result<array<byte>, WriteError>)
    requires Usable(info) && Typed(info.layout, value) && BlobSize(info, value) < ADDRESS_LIMIT
    modifies cache.uint8
    ensures r.Success? <==> scanFirst || BlobSize(info, value) <= cache.uint8.Length
    ensures r.Success? ==> fresh(r.value) && IsBlob(info, value, r.value[..])
    ensures scanFirst ==> cache.uint8[..] == old(cache.uint8[..])
    ensures OnlyIn(old(cache.uint8[..]), cache.uint8[..], 0, BlobSize(info, value), 0, 0)
  {
    hide Typed, WellFormed, TraitsOf, Scan, Encodes, HasHeader;
    RootPlaced(info, value);
    var length: nat;
    if scanFirst {
      var view := new BufferView(Scan(info.layout, value, RootHeap(info)));
      length := WriteInto(view, info, value);
      if length != view.uint8.Length {
        r := Failure(ExceededMemory);
      } else {
        r := Success(view.uint8);
      }
    } else {
      length := WriteInto(cache, info, value);
      if length > cache.uint8.Length {
        r := Failure(ExceededMemory);
      } else {
        var copy := new byte[length](i requires 0 <= i < length && length <= cache.uint8.Length reads cache.uint8 => cache.uint8[i]);
        BlobPrefix(info, value, cache.uint8[..], copy[..]);
        r := Success(copy);
      }
    }
  }

  lemma BlobPrefix(info: Package, value: Value, mem: seq<byte>, blob: seq<byte>)
    requires Usable(info) && Typed(info.layout, value)
    requires |blob| == BlobSize(info, value) <= |mem| && blob == mem[..|blob|]
    requires HasHeader(info, mem, |blob|) && Encodes(info.layout, value, mem, HEADER_SIZE, RootHeap(info))
    ensures IsBlob(info, value, blob)
  {
    hide Typed, WellFormed, TraitsOf, Scan, Encodes, Word;
    RootPlaced(info, value);
    HoldsFrame(mem, blob, 0, 4, MAGIC);
    HoldsFrame(mem, blob, 4, 4, StoredVersion(info));
    HoldsFrame(mem, blob, 8, 4, |blob|);
    HoldsFrame(mem, blob, 12, 4, 0);
    EncodesFrame(info.layout, value, mem, blob, HEADER_SIZE, RootHeap(info));
  }

  /** initializeView: the checks on a header, in order. */
  method InitializeView(view: BufferView) returns (r: Result<nat, ReadError>)
    ensures var m := view.uint8[..];
      if |m| < HEADER_SIZE || Word(m, 0, 4) != MAGIC || Word(m, 12, 4) != 0 then r == Failure(CorruptedBlob)
      else if Word(m, 8, 4) != |m| then r == Failure(TruncatedBlob)
      else r == Success(Word(m, 4, 4))
  {
    hide Word;
    if view.uint8.Length / 4 * 4 < HEADER_SIZE || view.Get(4, 0) != MAGIC || view.Get(4, 3) != 0 {
      return Failure(CorruptedBlob);
    } else if view.Get(4, 2) != view.uint8.Length {
      return Failure(TruncatedBlob);
    }
    return Success(view.Get(4, 1));
  }

  /**
   * makeReader, on a buffer whose header may be anything and whose body, if the header admits it, was
   * written with the same schema: the only values a reader promises anything about.
   */
  method ReadBlob(info: Package, view: BufferView, ghost value: Value) returns (r: Result<Value, ReadError>)
    requires Usable(info) && Typed(info.layout, value) && BlobSize(info, value) < ADDRESS_LIMIT
    requires HasHeader(info, view.uint8[..], view.uint8.Length)
      ==> Encodes(info.layout, value, view.uint8[..], HEADER_SIZE, RootHeap(info))
    ensures r.Success? <==> HasHeader(info, view.uint8[..], view.uint8.Length) && StoredVersion(info) == info.version
    ensures r.Success? ==> r.value == ReadBack(info.layout, value)
    ensures HasHeader(info, view.uint8[..], view.uint8.Length) && StoredVersion(info) != info.version
      ==> r == Failure(UnexpectedVersion)
  {
    hide Typed, WellFormed, TraitsOf, Scan, Encodes, ReadBack, Word, Placed;
    RootPlaced(info, value);
    VersionMatchesIff(info);
    var version :- InitializeView(view);
    if version != info.version {
      return Failure(UnexpectedVersion);
    }
    var result := Read(view, info.layout, HEADER_SIZE, value, RootHeap(info));
    return Success(result);
  }

  datatype BlobError = NotWritten(written: WriteError) | NotRead(read: ReadError)

  /**
   * read(write(value)): every value comes back, however it is written and whatever the shared buffer held,
   * if the version fits the header.
   */
  method Reconstruct(info: Package, value: Value, scanFirst: bool, cache: BufferView)
    returns (r: Result<Value, BlobError>)
    requires Usable(info) && Typed(info.layout, value) && BlobSize(info, value) < ADDRESS_LIMIT
    modifies cache.uint8
    ensures r.Failure? && r.error.NotWritten? <==> !scanFirst && BlobSize(info, value) > cache.uint8.Length
    ensures r.Success? <==>
      (scanFirst || BlobSize(info, value) <= cache.uint8.Length) && 0 <= info.version < 0x1_0000_0000
    ensures r.Success? ==> r.value == ReadBack(info.layout, value)
    ensures r.Success? ==> (r.value == value <==> Faithful(info.layout, value))
  {
    hide Typed, WellFormed, TraitsOf, Scan, Encodes, HasHeader, ReadBack, Faithful, StoredVersion;
    VersionMatchesIff(info);
    var buffer := WriteBlob(info, value, scanFirst, cache);
    if buffer.Failure? {
      return Failure(NotWritten(buffer.error));
    }
    var view := new BufferView.FromTypedArray(buffer.value);
    var result := ReadBlob(info, view, value);
    if result.Failure? {
      return Failure(NotRead(result.error));
    }
    ReadsBackIffFaithful(info.layout, value);
    return Success(result.value);
  }
}
