/**
 * The packed cell id of maze_game/game_utility.js: a channel value below 8 is a
 * three-bit flag set (area, floor, ceil); a value of 8 and above stores
 * `8 + area + 16 * floor + 128 * ceil`.
 */
module CellCodec {
  import Arith

  datatype Region = Flag | Tile

  /** The object `decode_cell_id` returns: its `type` and three sub-ids. */
  datatype CellId = CellId(region: Region, area: int, floor: int, ceil: int)

  /** `(r & bit) ? 1 : 0` for a non-negative r and bit = 2^k, with k given as the divisor. */
  function BitSet(r: nat, bit: nat): (n: int)
    requires bit > 0
  {
    if (r / bit) % 2 == 1 then 1 else 0
  }

  function DecodeCellId(r: nat): (c: CellId)
    ensures r < 8 ==>
      c.region == Flag
      && c.area in {0, 1} && c.floor in {0, 1} && c.ceil in {0, 1}
      && c.area + 2 * c.floor + 4 * c.ceil == r
    ensures r >= 8 ==>
      c.region == Tile
      && 0 <= c.area < 16 && 0 <= c.floor < 8 && c.ceil >= 0
      && 8 + c.area + 16 * c.floor + 128 * c.ceil == r
  {
    if r < 8 then
      CellId(Flag, BitSet(r, 1), BitSet(r, 2), BitSet(r, 4))
    else
      var value := r - 8;
      var c := CellId(Tile, value % 16, (value / 16) % 8, value / 128);
      assert value == c.area + 16 * c.floor + 128 * c.ceil by {
        assert value == 16 * (value / 16) + value % 16;
        assert value / 16 == 8 * (value / 128) + (value / 16) % 8 by {
          DivOfDiv(value);
        }
      }
      c
  }

  lemma DivOfDiv(v: nat)
    ensures (v / 16) / 8 == v / 128
  {
    var q, r := v / 128, v % 128;
    assert v == 128 * q + r;
    Arith.DivUnique(v, 16, 8 * q + r / 16, r % 16);
    Arith.DivUnique(v / 16, 8, q, r / 16);
  }

  /**
   * `encode_cell_id`: three JS truthiness tests pick the flag region, otherwise
   * the tile formula. The flag region is the bitwise OR of 1, 2, 4, which for
   * distinct bits is their sum.
   */
  function EncodeCellId(wall: int, floor: int, ceil: int): (r: int)
    ensures wall == 0 && floor == 0 && ceil == 0 ==> r == 0
    ensures wall <= 1 && floor <= 1 && ceil <= 1 ==> 0 <= r < 8
    ensures wall >= 0 && floor >= 0 && ceil >= 0 ==> r >= 0
    ensures wall >= 0 && floor >= 0 && ceil >= 0 && !(wall <= 1 && floor <= 1 && ceil <= 1) ==> r >= 10
  {
    if wall == 0 && floor == 0 && ceil == 0 then
      0
    else if wall <= 1 && floor <= 1 && ceil <= 1 then
      (if wall != 0 then 1 else 0) + (if floor != 0 then 2 else 0) + (if ceil != 0 then 4 else 0)
    else
      8 + wall + floor * 16 + ceil * 128
  }

  /** Decoding a packed value recovers the three sub-ids it was built from. */
  lemma {:induction false} RoundTrip(wall: int, floor: int, ceil: int)
    requires 0 <= wall < 16 && 0 <= floor < 8 && ceil >= 0
    ensures var c := DecodeCellId(EncodeCellId(wall, floor, ceil));
      c.area == wall && c.floor == floor && c.ceil == ceil
      && c.region == (if wall <= 1 && floor <= 1 && ceil <= 1 then Flag else Tile)
  {
    var r := EncodeCellId(wall, floor, ceil);
    var c := DecodeCellId(r);
    if wall <= 1 && floor <= 1 && ceil <= 1 {
      assert r == wall + 2 * floor + 4 * ceil;
    } else {
      assert r == 8 + wall + 16 * floor + 128 * ceil;
      TileUnique(c.area, c.floor, c.ceil, wall, floor, ceil);
    }
  }

  /** The tile packing is injective on its documented ranges. */
  lemma TileUnique(a: int, f: int, c: int, a': int, f': int, c': int)
    requires 0 <= a < 16 && 0 <= f < 8 && c >= 0
    requires 0 <= a' < 16 && 0 <= f' < 8 && c' >= 0
    requires a + 16 * f + 128 * c == a' + 16 * f' + 128 * c'
    ensures a == a' && f == f' && c == c'
  {
    var v := a + 16 * f + 128 * c;
    Arith.DivUnique(v, 16, f + 8 * c, a);
    Arith.DivUnique(v, 16, f' + 8 * c', a');
    Arith.DivUnique(f + 8 * c, 8, c, f);
    Arith.DivUnique(f' + 8 * c', 8, c', f');
  }

  /**
   * Re-encoding a decoded value gives it back except for the tile values whose
   * sub-ids all fit in one bit (8, 9, 24, 25, 136, 137, 152, 153): those
   * re-encode into the flag region.
   */
  lemma {:induction false} EncodeDecode(r: nat)
    ensures var c := DecodeCellId(r);
      EncodeCellId(c.area, c.floor, c.ceil) == r
      <==> (r < 8 || !(c.area <= 1 && c.floor <= 1 && c.ceil <= 1))
  {
    var c := DecodeCellId(r);
    if r >= 8 && c.area <= 1 && c.floor <= 1 && c.ceil <= 1 {
      assert EncodeCellId(c.area, c.floor, c.ceil) < 8;
    }
  }

  /** Concretely, tile 8 (all sub-ids zero) comes back as flag value 0. */
  lemma TileEightCollapses()
    ensures DecodeCellId(8) == CellId(Tile, 0, 0, 0)
    ensures EncodeCellId(0, 0, 0) == 0
    ensures DecodeCellId(0) == CellId(Flag, 0, 0, 0)
  {
  }
}
