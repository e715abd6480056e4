/** From a declared format to values that survive: compiler, writer and reader together. */
module Schemas {
  import opened Wrappers
  import opened BufferViews
  import opened Layouts
  import opened Values
  import opened Fidelity
  import opened Compiler
  import opened Formats
  import opened Exactness
  import opened Blobs

  /** Every declaration that compiles makes a schema that can be written and read. */
  lemma CompiledIsUsable(format: Format, version: int, value: Value)
    requires Sane(format) && Compile(format).Success?
    ensures var info := Package(Compile(format).value.layout, version);
      Usable(info) && (Typed(info.layout, value) <==> Accepts(format, value))
  {
    hide Sane, Compile, Accepts, WellFormed, Typed;
    CompileIsWellFormed(format);
    CompilePreservesValues(format, value);
  }

  /**
   * A value that the format accepts is written, if there is room, and read back; it comes back as it was
   * if and only if it is what the format says, exactly.
   */
  method Survive(format: Format, version: int, value: Value, scanFirst: bool, cache: BufferView)
    returns (r: Result<Value, BlobError>)
    requires Sane(format) && Compile(format).Success? && Accepts(format, value)
    requires var info := Package(Compile(format).value.layout, version);
      Usable(info) && Typed(info.layout, value) ==> BlobSize(info, value) < ADDRESS_LIMIT
    modifies cache.uint8
    ensures var info := Package(Compile(format).value.layout, version);
      && Usable(info) && Typed(info.layout, value)
      && (r.Success? <==>
            (scanFirst || BlobSize(info, value) <= cache.uint8.Length) && 0 <= version < 0x1_0000_0000)
      && (r.Success? ==> r.value == ReadBack(info.layout, value))
    ensures r.Success? ==> (r.value == value <==> Exact(format, value))
  {
    hide Sane, Compile, Accepts, WellFormed, Typed, ReadBack, Faithful, Exact;
    CompiledIsUsable(format, version, value);
    FaithfulIffExact(format, value);
    r := Reconstruct(Package(Compile(format).value.layout, version), value, scanFirst, cache);
  }
}
