/** The deterministic colour of a city: a 32-bit rolling hash of the name's
    UTF-16 code units, reduced to an index in 0..999. The live map
    (MapView.GetColorfulColor) and the export's cover map (Export.GetColor)
    each compute it with their own loop; both are proved equal to ColorIndex. */
module CityColour {
  import opened Js

  /** One pass of the loop body, as written: `hash = c + ((hash << 5) - hash); hash |= 0;`.
      `hash << 5` is an Int32 shift, the subtraction and addition are exact. */
  function Step(hash: int, c: int): int {
    ToInt32(c + (ShiftLeft(hash, 5) - hash))
  }

  /** The hash after the loop has consumed the code units `u`, starting from 0. */
  function HashUnits(u: seq<int>): int {
    if u == [] then 0 else Step(HashUnits(u[..|u| - 1]), u[|u| - 1])
  }

  function Hash(name: string): int {
    HashUnits(Utf16(name))
  }

  /** `Math.abs(hash) % 1000`, the position on the colour scale before it is divided by 1000. */
  function ColorIndex(name: string): nat {
    Abs(Hash(name)) % 1000
  }

  /** Each step is the rolling hash `31 * hash + c` wrapped to 32 bits. */
  lemma StepIsRolling(hash: int, c: int)
    requires -TwoTo31 <= hash < TwoTo31
    ensures Step(hash, c) == ToInt32(31 * hash + c)
  {
    ToInt32Id(hash);
    assert Pow2(5) == 32;
    var shifted := ShiftLeft(hash, 5);
    assert shifted == ToInt32(hash * 32);
    var k := (hash * 32 - shifted) / TwoTo32;
    assert hash * 32 == shifted + k * TwoTo32;
    ToInt32Congruent(31 * hash + c, c + (shifted - hash), k);
  }

  /** The empty name hashes to 0, and every hash is an Int32. */
  lemma HashRange(name: string)
    ensures name == [] ==> Hash(name) == 0
    ensures -TwoTo31 <= Hash(name) < TwoTo31
  {
  }

  /** The index is in 0..999 for every name, including the one Int32 value,
      -2^31, whose absolute value is not an Int32: it gives 648. */
  lemma ColorIndexRange(name: string)
    ensures 0 <= ColorIndex(name) < 1000
    ensures Hash(name) == -TwoTo31 ==> ColorIndex(name) == 648
  {
    if Hash(name) == -TwoTo31 {
      assert Abs(Hash(name)) == 2147483648;
      assert 2147483648 % 1000 == 648;
    }
  }

  /** Consuming one more code unit is one more step. */
  lemma HashSnoc(u: seq<int>, c: int)
    ensures HashUnits(u + [c]) == Step(HashUnits(u), c)
  {
    assert (u + [c])[..|u|] == u;
  }

  lemma WitnessUnits(name: string)
    requires name == "xfjfxtf"
    ensures Utf16(name) == [120, 102, 106, 102, 120, 116, 102]
  {
    Utf16OfBmp(name);
  }

  /** One step whose wrapped result is known: `31 * hash + c` is `r` plus `k` times 2^32. */
  lemma StepIs(hash: int, c: int, r: int, k: int)
    requires -TwoTo31 <= hash < TwoTo31 && -TwoTo31 <= r < TwoTo31
    requires 31 * hash + c == r + k * TwoTo32
    ensures Step(hash, c) == r
  {
    StepIsRolling(hash, c);
    ToInt32Congruent(31 * hash + c, r, k);
    ToInt32Id(r);
  }

  /** The hash of the code units of "xfjfxtf", one step at a time. */
  lemma WitnessHash(u: seq<int>)
    requires u == [120, 102, 106, 102, 120, 116, 102]
    ensures HashUnits(u) == -TwoTo31
  {
    var p0 := u[..0]; var p1 := u[..1]; var p2 := u[..2]; var p3 := u[..3]; var p4 := u[..4]; var p5 := u[..5]; var p6 := u[..6];
    assert p1 == p0 + [u[0]] && p2 == p1 + [u[1]] && p3 == p2 + [u[2]] && p4 == p3 + [u[3]] && p5 == p4 + [u[4]] && p6 == p5 + [u[5]] && u == p6 + [u[6]];
    HashSnoc(p0, u[0]); StepIs(0, 120, 120, 0);
    HashSnoc(p1, u[1]); StepIs(120, 102, 3822, 0);
    HashSnoc(p2, u[2]); StepIs(3822, 106, 118588, 0);
    HashSnoc(p3, u[3]); StepIs(118588, 102, 3676330, 0);
    HashSnoc(p4, u[4]); StepIs(3676330, 120, 113966350, 0);
    HashSnoc(p5, u[5]); StepIs(113966350, 116, -762010330, 1);
    HashSnoc(p6, u[6]); StepIs(-762010330, 102, -TwoTo31, -5);
  }

  /** The wrap-around case occurs: "xfjfxtf" hashes to exactly -2^31. */
  lemma WrapAroundWitness(name: string)
    requires name == "xfjfxtf"
    ensures Hash(name) == -TwoTo31
    ensures ColorIndex(name) == 648
  {
    var u := Utf16(name);
    WitnessUnits(name);
    WitnessHash(u);
    assert Hash(name) == HashUnits(u);
    ColorIndexRange(name);
  }
}
