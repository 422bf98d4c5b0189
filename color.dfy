/**
 * Name-to-colour hashing (src/ui/Color.ts): a djb2 variant that multiplies by
 * 33 and xors in each UTF-16 code unit, a hue taken from the hash, and the CSS
 * `hsl(...)` text built from that hue.
 *
 * In JavaScript `hash` is a signed 32-bit value after the first `^`, so
 * `hash * 33` stays below 2^53 and is exact in a double; `^` then truncates the
 * product to 32 bits. That is a wrapping `bv32` multiply followed by xor, and
 * the closing `>>> 0` reads the 32-bit pattern as unsigned.
 */
module Color {
  import opened Wrappers
  import Decimal

  /** A JavaScript string is a sequence of UTF-16 code units (`charCodeAt`). */
  type CodeUnit = bv16

  const SEED: bv32 := 5381
  const TWO_32: int := 0x1_0000_0000

  /** One loop iteration: `hash = (hash * 33) ^ str.charCodeAt(i)` on 32-bit patterns. */
  function Step(hash: bv32, c: CodeUnit): bv32 {
    (hash * 33) ^ (c as bv32)
  }

  /** The loop run left to right from `hash` over the code units of `s`. */
  function HashFrom(hash: bv32, s: seq<CodeUnit>): bv32
    decreases |s|
  {
    if s == [] then hash else HashFrom(Step(hash, s[0]), s[1..])
  }

  /** The 32-bit pattern `hashCode` ends with. */
  function Djb2Xor(s: seq<CodeUnit>): bv32 {
    HashFrom(SEED, s)
  }

  /** Feeding one more code unit to a finished hash is one more loop step. */
  lemma {:induction false} HashFromSnoc(hash: bv32, s: seq<CodeUnit>, c: CodeUnit)
    ensures HashFrom(hash, s + [c]) == Step(HashFrom(hash, s), c)
    decreases |s|
  {
    if s != [] {
      assert (s + [c])[1..] == s[1..] + [c];
      HashFromSnoc(Step(hash, s[0]), s[1..], c);
    }
  }

  /** `hashCode(str)`: the unsigned reading of the loop's final 32-bit pattern. */
  method HashCode(str: seq<CodeUnit>) returns (h: nat)
    ensures h < TWO_32
    ensures h == Djb2Xor(str) as nat
    ensures str == [] ==> h == 5381
  {
    var hash: bv32 := SEED;
    var i := 0;
    while i < |str|
      invariant 0 <= i <= |str|
      invariant hash == Djb2Xor(str[..i])
    {
      HashFromSnoc(SEED, str[..i], str[i]);
      assert str[..i + 1] == str[..i] + [str[i]];
      hash := Step(hash, str[i]);
      i := i + 1;
    }
    assert str[..i] == str;
    h := hash as nat;
  }

  /** `Math.abs`. */
  function JsAbs(x: int): nat {
    if x < 0 then -x else x
  }

  /** The quotient JavaScript's `%` pairs with: `|a| / |b|`, negative when the signs differ. */
  function JsTruncDiv(a: int, b: int): int
    requires b != 0
  {
    var q := JsAbs(a) / JsAbs(b);
    if (a < 0) != (b < 0) then -q else q
  }

  /** JavaScript's `%`: truncated remainder, carrying the sign of the dividend. */
  function JsRem(a: int, b: int): (r: int)
    requires b != 0
    ensures JsAbs(r) < JsAbs(b)
    ensures a >= 0 ==> r >= 0
    ensures a <= 0 ==> r <= 0
    ensures a >= 0 && b > 0 ==> r == a % b
    ensures a == JsTruncDiv(a, b) * b + r
  {
    TruncatedDivision(a, b);
    var m := JsAbs(a) % JsAbs(b);
    if a < 0 then -m else m
  }

  /** Euclidean division of the magnitudes, signed back, is JavaScript's truncated division. */
  lemma TruncatedDivision(a: int, b: int)
    requires b != 0
    ensures a == JsTruncDiv(a, b) * b + (if a < 0 then -(JsAbs(a) % JsAbs(b)) else JsAbs(a) % JsAbs(b))
  {
    var n, d := JsAbs(a), JsAbs(b);
    var q, m := n / d, n % d;
    assert n == q * d + m;
    if b < 0 {
      assert q * b == -(q * d);
      assert (-q) * b == q * d;
    } else {
      assert (-q) * b == -(q * d);
    }
  }

  /**
   * The hue both `getHslColorHex` and `getHslColor` compute:
   * `Math.abs(hashCode(name) % 1000) % 360`. Because the hash is never
   * negative, neither `Math.abs` nor truncation changes anything.
   */
  function HashHue(name: seq<CodeUnit>): (hue: int)
    ensures 0 <= hue < 360
    ensures hue == ((Djb2Xor(name) as int) % 1000) % 360
  {
    JsRem(JsAbs(JsRem(Djb2Xor(name) as int, 1000)), 360)
  }

  /** `getHslColor(name)`: `hsl(<hue>, 100%, 50%)`. */
  function GetHslColor(name: seq<CodeUnit>): (css: string)
    ensures 17 <= |css| <= 19
    ensures css[..4] == "hsl(" && css[|css| - 12..] == ", 100%, 50%)"
    ensures Decimal.ParseInt(css[4..|css| - 12]) == Some(HashHue(name))
  {
    var digits := Decimal.NatToDecimal(HashHue(name));
    assert |digits| <= 3 by { DecimalLength(HashHue(name)); }
    var css := "hsl(" + digits + ", 100%, 50%)";
    assert css[4..|css| - 12] == digits;
    css
  }

  lemma DecimalLength(n: nat)
    requires n < 1000
    ensures |Decimal.NatToDecimal(n)| <= 3
  {
  }
}
