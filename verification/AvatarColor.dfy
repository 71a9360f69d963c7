/** getAvatarColor (packages/shared/src/utils.ts): a hash computed with JavaScript's
    32-bit shifts. Strings are sequences of UTF-16 code units. */
module AvatarColor {

  type CodeUnit = c: int | 0 <= c < 0x1_0000

  const TWO31 := 0x8000_0000
  const TWO32 := 0x1_0000_0000
  const TWO53 := 0x20_0000_0000_0000
  const COLORS := 16

  /** ToInt32 (section 7.1.6 of ECMA-262) of an integral Number. */
  function ToInt32(x: int): (r: int)
    ensures -TWO31 <= r < TWO31
  {
    var m := x % TWO32;
    if m >= TWO31 then m - TWO32 else m
  }

  function Abs(x: int): nat {
    if x < 0 then -x else x
  }

  function Power31(n: nat): nat {
    if n == 0 then 1 else 31 * Power31(n - 1)
  }

  /** The sum of id[i] * 31^(n - 1 - i). */
  function Polynomial(id: seq<CodeUnit>): nat {
    if id == [] then 0 else id[0] * Power31(|id| - 1) + Polynomial(id[1..])
  }

  lemma {:induction false} PolynomialSnoc(id: seq<CodeUnit>, c: CodeUnit)
    ensures Polynomial(id + [c]) == 31 * Polynomial(id) + c
  {
    if id == [] {
      assert ([] + [c])[1..] == [];
    } else {
      assert (id + [c])[1..] == id[1..] + [c];
      PolynomialSnoc(id[1..], c);
      assert id[0] * Power31(|id|) == 31 * (id[0] * Power31(|id| - 1));
    }
  }

  /** How far ToInt32 moves a number. */
  lemma Wraps(x: int) returns (k: int)
    ensures ToInt32(x) == x + k * TWO32
  {
    k := -(x / TWO32) - if x % TWO32 >= TWO31 then 1 else 0;
  }

  lemma WrapIgnoresMultiples(x: int, k: int)
    ensures ToInt32(x + k * TWO32) == ToInt32(x)
  {
    var q := x / TWO32;
    assert x + k * TWO32 == (q + k) * TWO32 + x % TWO32;
  }

  /** One iteration on wrapped numbers is one iteration on exact ones; the value in
      between stays below 2^53, where a Number is exact. */
  lemma StepWraps(p: int, c: CodeUnit)
    ensures var h := ToInt32(p); var sum := ToInt32(h * 32) - h + c;
            Abs(sum) < TWO53 && ToInt32(sum) == ToInt32(31 * p + c)
  {
    var h := ToInt32(p);
    var k := Wraps(p);
    var j := Wraps(h * 32);
    assert ToInt32(h * 32) - h + c == 31 * p + c + (31 * k + j) * TWO32;
    WrapIgnoresMultiples(31 * p + c, 31 * k + j);
  }

  function ColorIndex(id: seq<CodeUnit>): nat {
    Abs(ToInt32(Polynomial(id))) % COLORS
  }

  /** Sixteen colours, and each of them is some id's. */
  lemma EveryColorOccurs(k: nat)
    ensures (exists id: seq<CodeUnit> :: ColorIndex(id) == k) <==> k < 16
  {
    if k < 16 {
      var id: seq<CodeUnit> := [k];
      assert Polynomial(id[1..]) == 0 && Power31(0) == 1;
      assert ColorIndex(id) == k;
    }
  }

  lemma InRangeStays(h: int)
    requires -0x8000_0000 <= h < 0x8000_0000
    ensures ToInt32(h) == h
  {
    assert h % TWO32 == if h < 0 then h + TWO32 else h;
  }

  /** The index is the distance from zero of the hash, which is the exact value up to a
      multiple of 2^32 and lies in [-2^31, 2^31). */
  lemma ColorIndexMeaning(id: seq<CodeUnit>, hash: int, k: int)
    requires hash == Polynomial(id) + k * 0x1_0000_0000 && -0x8000_0000 <= hash < 0x8000_0000
    ensures ColorIndex(id) == (if hash < 0 then -hash else hash) % 16
  {
    WrapIgnoresMultiples(Polynomial(id), k);
    InRangeStays(hash);
  }

  /** The loop computes the 32-bit two's-complement value of the polynomial, and the
      index it picks is always a valid one, also for the most negative hash. */
  method GetAvatarColor(id: seq<CodeUnit>) returns (index: nat)
    ensures index == ColorIndex(id) < 16
  {
    var hash := 0;
    for i := 0 to |id|
      invariant hash == ToInt32(Polynomial(id[..i]))
    {
      assert id[..i + 1] == id[..i] + [id[i]];
      PolynomialSnoc(id[..i], id[i]);
      StepWraps(Polynomial(id[..i]), id[i]);
      hash := ToInt32(hash * 32) - hash + id[i];
      hash := ToInt32(hash);
    }
    assert id[..|id|] == id;
    index := Abs(hash) % COLORS;
  }
}
