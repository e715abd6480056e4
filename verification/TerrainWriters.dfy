/** Terrain is written two bits a tile; the pathfinder finds in each tile what was written there last. */
module TerrainWriters {
  import opened Positions
  import opened Terrain
  import opened Bitwise

  /** The type of tile `index`: plain, wall, swamp, wall. */
  function TypeAt(buffer: seq<byte>, index: nat): (t: nat)
    requires index / 4 < |buffer|
    ensures t < 4
  {
    Field(buffer[index / 4], index % 4)
  }

  function Field(b: nat, k: nat): (t: nat)
    ensures t < 4
  {
    b / Shift(k) % 4
  }

  /** The byte made of four pairs. */
  function Join(a: nat, b: nat, c: nat, d: nat): (r: byte)
    requires a < 4 && b < 4 && c < 4 && d < 4
    ensures r % 4 == a && r / 4 % 4 == b && r / 16 % 4 == c && r / 64 % 4 == d
  {
    a + 4 * b + 16 * c + 64 * d
  }

  lemma Fields(b: byte)
    ensures Field(b, 0) == b % 4 && Field(b, 1) == b / 4 % 4 && Field(b, 2) == b / 16 % 4 && Field(b, 3) == b / 64 % 4
  {
    assert Shift(0) == 1 && Shift(1) == 4 && Shift(2) == 16 && Shift(3) == 64;
  }

  lemma JoinOfFields(b: byte)
    ensures b == Join(Field(b, 0), Field(b, 1), Field(b, 2), Field(b, 3))
  {
    hide Field;
    Fields(b);
    Digits(b);
  }

  lemma Digits(b: byte)
    ensures b == b % 4 + 4 * (b / 4 % 4) + 16 * (b / 16 % 4) + 64 * (b / 64 % 4)
  {
    var x, y, z := b / 4, b / 16, b / 64;
    assert x / 4 == y && y / 4 == z;
    Pair(b);
    Pair(x);
    Pair(y);
  }

  lemma Pair(x: nat)
    ensures x == x % 4 + 4 * (x / 4)
  {
  }

  /** A byte with one pair replaced. */
  function Joined(b: byte, k: nat, v: nat): byte
    requires k < 4 && v < 4
  {
    Join(if k == 0 then v else Field(b, 0), if k == 1 then v else Field(b, 1),
         if k == 2 then v else Field(b, 2), if k == 3 then v else Field(b, 3))
  }

  lemma FieldsOfJoined(b: byte, k: nat, v: nat, j: nat)
    requires k < 4 && v < 4 && j < 4
    ensures Field(Joined(b, k, v), j) == if j == k then v else Field(b, j)
  {
    hide Field;
    Fields(Joined(b, k, v));
  }

  lemma JoinedIsSum(b: byte, k: nat, v: nat)
    requires k < 4 && v < 4
    ensures Joined(b, k, v) == b - Field(b, k) * Shift(k) + v * Shift(k)
  {
    hide Field;
    Shifts();
    JoinOfFields(b);
  }

  /** (b & ~(0x03 << shift)) | ((value & 0x03) << shift), where shift is twice k */
  function WithBits(b: byte, k: nat, value: int): byte
    requires k < 4
  {
    hide BitOr, BitAnd, BitNot, Joined, Shift;
    Replaced(b, k, value % 4);
    BitOr(BitAnd(b, BitNot(3 * Shift(k), 8), 8), value % 4 * Shift(k), 8)
  }

  lemma Replaced(b: byte, k: nat, v: nat)
    requires k < 4 && v < 4
    ensures BitOr(BitAnd(b, BitNot(3 * Shift(k), 8), 8), v * Shift(k), 8) == Joined(b, k, v)
  {
    hide BitOr, BitAnd, BitNot, Joined, Field, Shift;
    assert Power(2 * 4) == 256;
    ClearPair(b, k, 4);
    JoinedIsSum(b, k, 0);
    FieldsOfJoined(b, k, 0, k);
    OrPair(Joined(b, k, 0), v, k, 4);
    JoinedIsSum(b, k, v);
  }

  lemma {:induction false} ClearPair(x: nat, k: nat, n: nat)
    requires k < n <= 4 && x < Power(2 * n)
    ensures BitAnd(x, BitNot(3 * Shift(k), 2 * n), 2 * n) == x - Field(x, k) * Shift(k)
  {
    hide BitAnd, BitNot, Field, Power, Shift;
    var m, w := 3 * Shift(k), 2 * n;
    PairsBelow(x, n);
    if k == 0 {
      FieldBelow(x);
      AndNotPair(x, m, w);
      AndCommutes(x / 4, BitNot(0, w - 2), w - 2);
      MaskOfOnes(x / 4, w - 2);
    } else {
      FieldAbove(x, k);
      AndNotPair(x, m, w);
      ClearPair(x / 4, k - 1, n - 1);
      ClearedAbove(x, Field(x, k), Shift(k - 1));
    }
  }

  lemma PairsBelow(x: nat, n: nat)
    requires 0 < n && x < Power(2 * n)
    ensures x / 4 < Power(2 * n - 2)
  {
    assert Power(2 * n) == 2 * Power(2 * n - 1) == 4 * Power(2 * n - 2);
  }

  lemma FieldBelow(x: nat)
    ensures Shift(0) == 1 && Field(x, 0) == x % 4
  {
  }

  lemma ClearedAbove(x: nat, f: nat, s: nat)
    ensures x % 4 + 4 * (x / 4 - f * s) == x - f * (4 * s)
  {
    assert f * (4 * s) == 4 * (f * s);
  }

  lemma {:induction false} OrPair(x: nat, v: nat, k: nat, n: nat)
    requires k < n <= 4 && x < Power(2 * n) && Field(x, k) == 0 && v < 4
    ensures BitOr(x, v * Shift(k), 2 * n) == x + v * Shift(k)
  {
    hide BitOr, Field, Power, Shift;
    var c, w := v * Shift(k), 2 * n;
    PairsBelow(x, n);
    if k == 0 {
      FieldBelow(x);
      OrPairs(x, c, w);
      OrZero(x / 4, w - 2);
    } else {
      FieldAbove(x, k);
      var rest := v * Shift(k - 1);
      FourTimes(v, Shift(k - 1));
      OrPairs(x, c, w);
      OrPair(x / 4, v, k - 1, n - 1);
    }
  }

  lemma FourTimes(v: nat, s: nat)
    ensures v * (4 * s) == 4 * (v * s)
  {
  }

  /** The lowest pair is cleared or kept. */
  lemma AndNotPair(x: nat, m: nat, width: nat)
    requires width >= 2 && m % 4 in {0, 3}
    ensures BitAnd(x, BitNot(m, width), width)
         == (if m % 4 == 0 then x % 4 else 0) + 4 * BitAnd(x / 4, BitNot(m / 4, width - 2), width - 2)
  {
    hide BitAnd, BitNot;
    AndNotBit(x, m, width);
    AndNotBit(x / 2, m / 2, width - 1);
    assert x / 2 / 2 == x / 4 && m / 2 / 2 == m / 4;
  }

  lemma AndNotBit(x: nat, m: nat, width: nat)
    requires width >= 1
    ensures BitAnd(x, BitNot(m, width), width)
         == (if m % 2 == 0 then x % 2 else 0) + 2 * BitAnd(x / 2, BitNot(m / 2, width - 1), width - 1)
  {
    hide BitAnd;
    var a := BitNot(m, width);
    assert a % 2 == 1 - m % 2 && a / 2 == BitNot(m / 2, width - 1);
    AndBit(x, a, width);
  }

  lemma AndBit(x: nat, a: nat, width: nat)
    requires width >= 1
    ensures BitAnd(x, a, width) == x % 2 * (a % 2) + 2 * BitAnd(x / 2, a / 2, width - 1)
  {
  }

  lemma OrPairs(x: nat, c: nat, width: nat)
    requires width >= 2 && (x % 4 == 0 || c % 4 == 0)
    ensures BitOr(x, c, width) == x % 4 + c % 4 + 4 * BitOr(x / 4, c / 4, width - 2)
  {
    assert BitOr(x / 2, c / 2, width - 1)
        == (if x / 2 % 2 == 1 || c / 2 % 2 == 1 then 1 else 0) + 2 * BitOr(x / 4, c / 4, width - 2);
  }

  lemma FieldAbove(x: nat, k: nat)
    requires 0 < k < 4
    ensures Field(x, k) == Field(x / 4, k - 1) && Shift(k) == 4 * Shift(k - 1)
  {
    Shifts();
    if k == 1 {
    } else if k == 2 {
      assert x / 16 == x / 4 / 4;
    } else {
      assert x / 64 == x / 4 / 16;
    }
  }

  /** Exactly one of the four pairs is replaced. */
  lemma WithBitsSets(b: byte, k: nat, value: int, j: nat)
    requires k < 4 && j < 4
    ensures Field(WithBits(b, k, value), j) == if j == k then value % 4 else Field(b, j)
  {
    hide BitOr, BitAnd, BitNot, Joined, Field;
    Replaced(b, k, value % 4);
    FieldsOfJoined(b, k, value % 4, j);
  }

  class TerrainWriter {
    const buffer: array<byte>

    constructor ()
      ensures fresh(buffer) && buffer.Length == 625 && forall index :: 0 <= index < ROOM_TILES ==> Get(index % 50, index / 50) == 0
    {
      buffer := new byte[625](_ => 0);
      new;
      Shifts();
    }

    function Get(xx: nat, yy: nat): nat
      requires buffer.Length == 625 && yy * 50 + xx < ROOM_TILES
      reads buffer
    {
      TypeAt(buffer[..], yy * 50 + xx)
    }

    /** Writes one tile, and leaves the three others of its byte alone. */
    method Set(xx: int, yy: int, value: int)
      requires buffer.Length == 625
      modifies buffer
      ensures var at := yy * 50 + xx; forall index: nat :: index < ROOM_TILES ==>
        TypeAt(buffer[..], index) == if index == at then value % 4 else TypeAt(old(buffer[..]), index)
    {
      var index := yy * 50 + xx;
      if 0 <= index < ROOM_TILES {
        hide WithBits, Field;
        ghost var b := buffer[index / 4];
        buffer[index / 4] := WithBits(buffer[index / 4], index % 4, value);
        forall j: nat | j < 4
          ensures Field(WithBits(b, index % 4, value), j) == if j == index % 4 then value % 4 else Field(b, j)
        {
          WithBitsSets(b, index % 4, value, j);
        }
      }
    }
  }

  /** The pathfinder looks up the cost of the type that the writer stored. */
  lemma LookFindsType(t: RoomTerrain, costs: seq<nat>, xx: nat, yy: nat)
    requires t.Valid() && |costs| == 4 && xx < 50 && yy < 50 && |t.matrix| == 0
    ensures yy * 50 + xx < ROOM_TILES && t.Look(costs, xx, yy) == costs[TypeAt(t.terrain, yy * 50 + xx)]
  {
  }

  /** What an option says that a tile costs: between 1 and 254 just that, else the nearer of the two. */
  predicate Charges(cost: int, option: int) {
    && (1 <= option <= 254 ==> cost == option)
    && (option < 1 ==> cost == 1)
    && (option > 254 ==> cost == 254)
  }

  /** By its type, a tile costs what the option for plain or for swamp says, or is an obstacle. */
  predicate CostsByType(env: Env, t: nat, cost: int) {
    && (t == 0 ==> Charges(cost, env.plainCost))
    && (t == 2 ==> Charges(cost, env.swampCost))
    && (t == 1 || t == 3 ==> cost == 0)
  }

  /** A room is searched if its terrain is loaded and the callback does not say no. */
  lemma EnteredUnlessRefused(env: Env, r: Room)
    ensures env.Passable(r) <==> r in env.terrain && !(r in env.callback && env.callback[r] == Allowed(false))
  {
  }

  /** Without a matrix of the right size the type decides. */
  lemma CostOfTypes(env: Env, p: Pos)
    requires env.Valid() && p.InWorld() && env.Passable(RoomOf(p))
    requires forall m :: RoomOf(p) in env.callback && env.callback[RoomOf(p)] == Matrix(m) ==> |m| != 2500
    ensures var at := p.yy % 50 * 50 + p.xx % 50; at < ROOM_TILES && var t := TypeAt(env.terrain[RoomOf(p)], at);
      CostsByType(env, t, env.Cost(p))
  {
    LookFindsType(env.TerrainOf(RoomOf(p)), env.LookTable(), p.xx % 50, p.yy % 50);
  }
}
