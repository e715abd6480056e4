/** Cost matrices of players: one byte a tile, column by column, and what a search finds in them. */
module CostMatrices {
  import opened Bytes
  import Positions
  import Terrain
  import TerrainWriters

  const TILES := 2500
  const WORDS := 625

  class CostMatrix {
    const bits: array<byte>

    constructor ()
      ensures fresh(bits) && bits.Length == TILES && forall i :: 0 <= i < TILES ==> bits[i] == 0
    {
      bits := new byte[TILES](_ => 0);
    }

    /** Of the words of a matrix that was serialized, or of any other numbers. */
    constructor Deserialize(data: seq<int>)
      ensures fresh(bits) && bits.Length == 4 * |data|
      ensures forall i :: 0 <= i < |data| ==> Words(bits[..])[i] == Wrap(data[i], 4)
    {
      bits := new byte[4 * |data|](i requires 0 <= i => ByteOf(if i / 4 < |data| then Wrap(data[i / 4], 4) else 0, i % 4));
      new;
      forall i | 0 <= i < |data| ensures Word(bits[..], 4 * i, 4) == Wrap(data[i], 4) {
        WordOfBytes(bits[..], 4 * i, Wrap(data[i], 4));
      }
    }

    /** Entries are stored modulo 256. There is no entry past the last tile, but there may be one past the last row. */
    method Set(xx: int, yy: int, value: int)
      requires bits.Length == TILES
      modifies bits
      ensures forall x: nat, y: nat | x < 50 && y < 50 ::
        Entry(bits[..], x, y) == if x * 50 + y == xx * 50 + yy then Modulo(value, 256) else Entry(old(bits[..]), x, y)
    {
      var index := xx * 50 + yy;
      if 0 <= index < TILES {
        bits[index] := value % 256;
      }
    }

    method Serialize() returns (data: seq<nat>)
      requires bits.Length == TILES
      ensures data == Words(bits[..])
    {
      data := [];
      for i := 0 to WORDS
        invariant |data| == i && forall k :: 0 <= k < i ==> data[k] == Word(bits[..], 4 * k, 4)
      {
        data := data + [Word(bits[..], 4 * i, 4)];
      }
    }
  }

  /** The entry of a tile. */
  function Entry(bits: seq<byte>, xx: nat, yy: nat): byte
    requires |bits| == TILES && xx < 50 && yy < 50
  {
    bits[xx * 50 + yy]
  }

  /** All bytes, four to a word, the low one first. */
  function Words(bits: seq<byte>): (data: seq<nat>)
    requires |bits| % 4 == 0
    ensures |data| == |bits| / 4
  {
    seq(|bits| / 4, i requires 0 <= i < |bits| / 4 => Word(bits, 4 * i, 4))
  }

  /** Byte `k` of a word. */
  function ByteOf(word: nat, k: nat): byte {
    word / Radix(k) % 256
  }

  lemma WordOfBytes(bits: seq<byte>, at: nat, word: nat)
    requires at + 4 <= |bits| && word < Radix(4)
    requires forall k :: 0 <= k < 4 ==> bits[at + k] == ByteOf(word, k)
    ensures Word(bits, at, 4) == word
  {
    hide ByteOf;
    WordOfFour(bits, at);
    Widths();
    assert Radix(0) == 1 && Radix(3) == 256 * Radix(2);
    FourBytes(word);
    assert bits[at + 0] == ByteOf(word, 0) && bits[at + 1] == ByteOf(word, 1);
    assert bits[at + 2] == ByteOf(word, 2) && bits[at + 3] == ByteOf(word, 3);
  }

  lemma WordOfFour(bits: seq<byte>, at: nat)
    requires at + 4 <= |bits|
    ensures var a: int, b: int, c: int, d: int := bits[at], bits[at + 1], bits[at + 2], bits[at + 3];
      Word(bits, at, 4) == a + 256 * (b + 256 * (c + 256 * d))
  {
    assert Word(bits, at + 3, 1) == bits[at + 3] as int + 256 * Word(bits, at + 4, 0);
    assert Word(bits, at + 2, 2) == bits[at + 2] as int + 256 * Word(bits, at + 3, 1);
    assert Word(bits, at + 1, 3) == bits[at + 1] as int + 256 * Word(bits, at + 2, 2);
  }

  lemma FourBytes(word: nat)
    requires word < 0x1_0000_0000
    ensures var a: int, b: int, c: int, d: int := ByteOf(word, 0), ByteOf(word, 1), ByteOf(word, 2), ByteOf(word, 3);
      word == a + 256 * (b + 256 * (c + 256 * d))
  {
    var x, y := word / 0x100, word / 0x1_0000;
    assert Radix(0) == 1 && Radix(1) == 0x100 && Radix(2) == 0x1_0000;
    assert Radix(3) == 0x100_0000;
    assert word == 256 * x + word % 256;
    assert x == 256 * y + x % 256;
    assert y == 256 * (word / 0x100_0000) + y % 256;
  }

  /** A matrix is determined by its words: what was serialized comes back. */
  lemma {:induction false} RoundTrip(a: seq<byte>, b: seq<byte>)
    requires |a| % 4 == 0 && |b| % 4 == 0 && Words(a) == Words(b)
    ensures a == b
  {
    assert |a| == |b|;
    forall i | 0 <= i < |a| ensures a[i] == b[i] {
      var k := i / 4;
      assert Words(a)[k] == Words(b)[k];
      SameBytes(a, b, 4 * k, 4, i - 4 * k);
    }
  }

  /** Equal words have equal bytes. */
  lemma {:induction false} SameBytes(a: seq<byte>, b: seq<byte>, at: nat, width: nat, k: nat)
    requires at + width <= |a| && at + width <= |b| && k < width && Word(a, at, width) == Word(b, at, width)
    ensures a[at + k] == b[at + k]
    decreases width
  {
    assert a[at] == Word(a, at, width) % 256 && b[at] == Word(b, at, width) % 256;
    if k > 0 {
      SameBytes(a, b, at + 1, width - 1, k - 1);
    }
  }

  /** The entry of a tile decides what it costs: 0 leaves it to the terrain, 255 is an obstacle. */
  lemma EntryDecides(env: Terrain.Env, p: Positions.Pos, bits: seq<byte>)
    requires env.Valid() && p.InWorld() && env.Passable(Positions.RoomOf(p)) && |bits| == TILES
    requires Positions.RoomOf(p) in env.callback && env.callback[Positions.RoomOf(p)] == Terrain.Matrix(bits)
    ensures var entry := Entry(bits, p.xx % 50, p.yy % 50);
      && (entry == 0 ==> TerrainWriters.CostsByType(env, TypeOf(env, p), env.Cost(p)))
      && (entry == 255 ==> env.Cost(p) == 0)
      && (0 < entry < 255 ==> env.Cost(p) == entry)
  {
    hide Terrain.RoomTerrain.TerrainLook, TerrainWriters.CostsByType;
    var t, xx, yy := env.TerrainOf(Positions.RoomOf(p)), p.xx % 50, p.yy % 50;
    LookIsByType(env, p, t, xx, yy);
  }

  function TypeOf(env: Terrain.Env, p: Positions.Pos): nat
    requires env.Valid() && p.InWorld() && Positions.RoomOf(p) in env.terrain
  {
    TerrainWriters.TypeAt(env.terrain[Positions.RoomOf(p)], p.yy % 50 * 50 + p.xx % 50)
  }

  lemma LookIsByType(env: Terrain.Env, p: Positions.Pos, t: Terrain.RoomTerrain, xx: nat, yy: nat)
    requires env.Valid() && p.InWorld() && env.Passable(Positions.RoomOf(p))
    requires t == env.TerrainOf(Positions.RoomOf(p)) && xx == p.xx % 50 && yy == p.yy % 50
    ensures TerrainWriters.CostsByType(env, TypeOf(env, p), t.TerrainLook(env.LookTable(), xx, yy))
  {
  }
}
