/** The port a session name hashes to (tools/agent-browse/daemon.js). */
module PortHash {

  const TWO_32 := 0x1_0000_0000
  const TWO_31 := 0x8000_0000

  /** A UTF-16 code unit, as `charCodeAt` returns it. */
  type CodeUnit = x: int | 0 <= x < 0x1_0000

  /** ECMAScript's ToInt32: the signed 32-bit integer congruent to `x`. */
  function ToInt32(x: int): (r: int)
    ensures -TWO_31 <= r < TWO_31
    ensures (r - x) % TWO_32 == 0
  {
    var m := x % TWO_32;
    if m >= TWO_31 then m - TWO_32 else m
  }

  lemma ToInt32Unique(x: int, y: int)
    requires (x - y) % TWO_32 == 0
    ensures ToInt32(x) == ToInt32(y)
  {
    var a, b := ToInt32(x), ToInt32(y);
    CongruentSum(a - x, x - y);
    CongruentSum(a - y, y - b);
    assert (b - y) % TWO_32 == 0 && (y - b) % TWO_32 == 0;
    assert -TWO_32 < a - b < TWO_32;
  }

  lemma CongruentSum(x: int, y: int)
    requires x % TWO_32 == 0 && y % TWO_32 == 0
    ensures (x + y) % TWO_32 == 0
  {}

  lemma CongruentProduct(x: int, k: int)
    requires x % TWO_32 == 0
    ensures (k * x) % TWO_32 == 0
  {
    var q := x / TWO_32;
    assert k * x == (k * q) * TWO_32;
    MultipleOfWord(k * q);
  }

  lemma MultipleOfWord(q: int)
    ensures (q * TWO_32) % TWO_32 == 0
  {}

  function PowerOf31(n: nat): nat {
    if n == 0 then 1 else 31 * PowerOf31(n - 1)
  }

  /** c0 * 31^(n-1) + c1 * 31^(n-2) + ... + c(n-1). */
  function Polynomial(codes: seq<CodeUnit>): nat {
    if codes == [] then 0 else codes[0] * PowerOf31(|codes| - 1) + Polynomial(codes[1..])
  }

  lemma {:induction false} PolynomialSnoc(codes: seq<CodeUnit>, c: CodeUnit)
    ensures Polynomial(codes + [c]) == 31 * Polynomial(codes) + c
  {
    if codes == [] {
      assert [c][1..] == [];
      assert codes + [c] == [c];
    } else {
      PolynomialSnoc(codes[1..], c);
      assert (codes + [c])[1..] == codes[1..] + [c];
      assert PowerOf31(|codes|) == 31 * PowerOf31(|codes| - 1);
      Distribute(codes[0], PowerOf31(|codes| - 1));
    }
  }

  lemma Distribute(c: int, p: int)
    ensures c * (31 * p) == 31 * (c * p)
  {}

  /** One round of the loop on the truncated value is one Horner step on the exact one. */
  lemma RoundIsHorner(p: int, c: CodeUnit)
    ensures var hash := ToInt32(p);
      ToInt32(ToInt32(hash * 32) - hash + c) == ToInt32(31 * p + c)
  {
    var hash := ToInt32(p);
    var shifted := ToInt32(hash * 32);
    CongruentProduct(hash - p, 31);
    CongruentSum(shifted - hash * 32, 31 * (hash - p));
    assert (shifted - hash + c) - (31 * p + c) == (shifted - hash * 32) + 31 * (hash - p);
    ToInt32Unique(shifted - hash + c, 31 * p + c);
  }

  function Abs(x: int): nat { if x < 0 then -x else x }

  function PortOf(codes: seq<CodeUnit>): (port: int)
    ensures 49152 <= port <= 65534
  {
    49152 + Abs(ToInt32(Polynomial(codes))) % 16383
  }

  /**
   `getPortForSession`: the shift-subtract-add loop with 32-bit truncation computes the base-31
   polynomial of the code units, modulo 2^32 and read as a signed integer.
   */
  method GetPortForSession(session: seq<CodeUnit>) returns (port: int)
    ensures port == PortOf(session)
  {
    var hash := 0;
    for i := 0 to |session|
      invariant hash == ToInt32(Polynomial(session[..i]))
    {
      assert session[..i + 1] == session[..i] + [session[i]];
      PolynomialSnoc(session[..i], session[i]);
      RoundIsHorner(Polynomial(session[..i]), session[i]);
      hash := ToInt32(hash * 32) - hash + session[i];
      hash := ToInt32(hash);
    }
    assert session[..|session|] == session;
    port := 49152 + Abs(hash) % 16383;
  }
}
