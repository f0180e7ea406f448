/** Time-based one-time passwords (tools/agent-browse/auth.js) against RFC 4226 and RFC 6238. */
module Totp {
  import opened Text
  import Base32
  import PortHash

  // ---------------------------------------------------------------- bit operators

  /** Bitwise and. */
  function And(a: nat, b: nat): nat {
    if a == 0 || b == 0 then 0 else 2 * And(a / 2, b / 2) + (if a % 2 == 1 && b % 2 == 1 then 1 else 0)
  }

  /** Bitwise or. */
  function Or(a: nat, b: nat): nat {
    if a == 0 then b
    else if b == 0 then a
    else 2 * Or(a / 2, b / 2) + (if a % 2 == 1 || b % 2 == 1 then 1 else 0)
  }

  lemma ModStep(x: nat, p: nat)
    requires p > 0
    ensures x % (2 * p) == 2 * ((x / 2) % p) + x % 2
  {
    var q, r := (x / 2) / p, (x / 2) % p;
    assert x / 2 == q * p + r;
    assert x == q * (2 * p) + (2 * r + x % 2) by {
      assert q * (2 * p) == 2 * (q * p);
    }
    DivisionUnique(x, 2 * p, q, 2 * r + x % 2);
  }

  lemma ProductSign(a: int, d: int)
    requires a >= 0 && d >= 0
    ensures a * d >= 0
  {}

  lemma DivisionUnique(x: int, d: nat, q: int, r: nat)
    requires d > 0 && r < d && x == q * d + r
    ensures x / d == q && x % d == r
  {
    var e := x / d - q;
    assert e * d == r - x % d by {
      assert x == (x / d) * d + x % d;
      assert (x / d) * d == e * d + q * d;
    }
    if e >= 1 {
      ProductSign(e - 1, d);
    } else if e <= -1 {
      ProductSign(-1 - e, d);
    }
  }

  /** And with a mask of low bits is the remainder. */
  lemma {:induction false} MaskIsRemainder(x: nat, k: nat)
    ensures And(x, Base32.Power2(k) - 1) == x % Base32.Power2(k)
    decreases k
  {
    if k > 0 {
      var p := Base32.Power2(k - 1);
      MaskIsRemainder(x / 2, k - 1);
      ModStep(x, p);
      assert (2 * p - 1) / 2 == p - 1;
    }
  }

  lemma OrOfEven(x: nat, b: nat)
    ensures Or(2 * x, b) == 2 * Or(x, b / 2) + b % 2
  {}

  /** Or of a multiple of 2^k with a number below 2^k is their sum. */
  lemma {:induction false} DisjointOr(a: nat, b: nat, k: nat)
    requires b < Base32.Power2(k)
    ensures Or(a * Base32.Power2(k), b) == a * Base32.Power2(k) + b
    decreases k
  {
    if k > 0 {
      var x := a * Base32.Power2(k - 1);
      assert a * Base32.Power2(k) == 2 * x by {
        Doubled(a, Base32.Power2(k - 1));
      }
      hide Or;
      DisjointOr(a, b / 2, k - 1);
      OrOfEven(x, b);
    }
  }

  lemma Doubled(a: int, p: int)
    ensures a * (2 * p) == 2 * (a * p)
  {}

  /** `x << n` on 32-bit integers. */
  function ShiftLeft(x: nat, n: nat): int { PortHash.ToInt32(x * Base32.Power2(n)) }

  // ---------------------------------------------------------------- dynamic truncation

  /** The unsigned number of a byte string, most significant byte first. */
  function BigEndian(bytes: seq<Byte>): nat {
    if bytes == [] then 0 else 256 * BigEndian(bytes[..|bytes| - 1]) + bytes[|bytes| - 1]
  }

  function Offset(hash: seq<Byte>): (o: nat)
    requires |hash| > 0
  {
    And(hash[|hash| - 1], 0x0f)
  }

  /** The number that section 5.3 of RFC 4226 takes from the hash: the low 31 bits of the word at the offset. */
  function Snum(hash: seq<Byte>): nat
    requires |hash| >= 20
  {
    var o := hash[|hash| - 1] % 16;
    BigEndian(hash[o..o + 4]) % 0x8000_0000
  }

  lemma OffsetInBounds(hash: seq<Byte>)
    requires |hash| >= 20
    ensures Offset(hash) == hash[|hash| - 1] % 16 && Offset(hash) + 3 < |hash|
  {
    hide And;
    assert Base32.Power2(4) == 16;
    MaskIsRemainder(hash[|hash| - 1], 4);
  }

  lemma Masks(x: Byte)
    ensures And(x, 0xff) == x && And(x, 0x7f) == x % 128
  {
    hide And;
    assert Base32.Power2(7) == 128;
    assert Base32.Power2(8) == 2 * Base32.Power2(7);
    hide Base32.Power2;
    MaskIsRemainder(x, 8);
    MaskIsRemainder(x, 7);
  }

  /** Four bytes as one number, most significant first. */
  function Joined(a: int, b: int, c: int, d: int): int { 0x100_0000 * a + 0x1_0000 * b + 0x100 * c + d }

  /** Masked, shifted and joined, none of the four parts overlaps another or reaches the sign bit. */
  function Word(a: Byte, b: Byte, c: Byte, d: Byte): (w: nat)
    ensures w == Joined(a % 128, b, c, d)
  {
    Masks(a);
    Masks(b);
    Masks(c);
    Masks(d);
    Powers();
    JoinedWord(a % 128, b, c, d);
    Or(Or(Or(ShiftLeft(And(a, 0x7f), 24), ShiftLeft(And(b, 0xff), 16)), ShiftLeft(And(c, 0xff), 8)), And(d, 0xff))
  }

  lemma Powers()
    ensures Base32.Power2(8) == 0x100 && Base32.Power2(16) == 0x1_0000 && Base32.Power2(24) == 0x100_0000
  {
    assert Base32.Power2(8) == 0x100;
    assert Base32.Power2(16) == 0x100 * Base32.Power2(8);
    assert Base32.Power2(24) == 0x100 * Base32.Power2(16);
  }

  lemma JoinedWord(a: nat, b: Byte, c: Byte, d: Byte)
    requires a < 128
    ensures var high: int, mid: int, low: int := a * 0x100_0000, b as int * 0x1_0000, c as int * 0x100;
      && PortHash.ToInt32(high) == high && PortHash.ToInt32(mid) == mid && PortHash.ToInt32(low) == low
      && Or(Or(Or(high, mid), low), d) == high + mid + low + d
  {
    hide Or, Base32.Power2;
    Powers();
    var x: int, y: int := b, c;
    DisjointOr(a, x * 0x1_0000, 24);
    DisjointOr(a * 0x100 + x, y * 0x100, 16);
    DisjointOr(a * 0x1_0000 + x * 0x100 + y, d, 8);
  }

  /** The truncated number of `generateTOTP`. */
  function Truncated(hash: seq<Byte>): (binary: nat)
    requires |hash| >= 20
  {
    OffsetInBounds(hash);
    var o := Offset(hash);
    Word(hash[o], hash[o + 1], hash[o + 2], hash[o + 3])
  }

  lemma BigEndian4(s: seq<Byte>)
    requires |s| == 4
    ensures BigEndian(s) == Joined(s[0], s[1], s[2], s[3])
  {
    assert s[..3][..2] == s[..2] && s[..2][..1] == s[..1] && s[..1][..0] == [];
    assert BigEndian(s[..1]) == s[0];
    assert BigEndian(s[..2]) == 256 * BigEndian(s[..1]) + s[1];
    assert BigEndian(s[..3]) == 256 * BigEndian(s[..2]) + s[2];
  }

  /** The truncation never reads outside the hash and is the one of section 5.3 of RFC 4226. */
  lemma TruncationIsStandard(hash: seq<Byte>)
    requires |hash| >= 20
    ensures Truncated(hash) == Snum(hash)
  {
    hide Word;
    OffsetInBounds(hash);
    var o := Offset(hash);
    var s := hash[o..o + 4];
    BigEndian4(s);
    var first: int := s[0];
    var low := Joined(first % 128, s[1], s[2], s[3]);
    assert BigEndian(s) == (first / 128) * 0x8000_0000 + low;
    DivisionUnique(BigEndian(s), 0x8000_0000, first / 128, low);
  }

  // ---------------------------------------------------------------- the printed code

  function Otp(hash: seq<Byte>, digits: nat): string
    requires |hash| >= 20
  {
    Base32.PadStart(ShowNat(Truncated(hash) % PowerOfTen(digits)), digits)
  }

  lemma {:induction false} ShownLength(n: nat, d: nat)
    requires d > 0 && n < PowerOfTen(d)
    ensures |ShowNat(n)| <= d
    decreases d
  {
    if n >= 10 {
      assert d > 1;
      ShownLength(n / 10, d - 1);
    }
  }

  lemma {:induction false} LeadingZero(s: string)
    requires AllDigits(s)
    ensures AllDigits(['0'] + s) && ReadNat(['0'] + s) == ReadNat(s)
    decreases |s|
  {
    if s == "" {
      assert ['0'] + s == ['0'] && ['0'][..0] == "";
    } else {
      var init := s[..|s| - 1];
      LeadingZero(init);
      assert (['0'] + s)[..|s|] == ['0'] + init;
    }
  }

  lemma {:induction false} PaddedReads(s: string, n: nat)
    requires AllDigits(s)
    ensures var p := Base32.PadStart(s, n);
      AllDigits(p) && ReadNat(p) == ReadNat(s) && |p| == if |s| < n then n else |s|
    decreases n - |s|
  {
    if |s| < n {
      LeadingZero(s);
      PaddedReads(['0'] + s, n);
    }
  }

  /**
   The code reads as the truncated number modulo 10^digits. It has exactly `digits` characters
   unless zero digits are asked for: then it is still one character.
   */
  lemma CodeIsStandard(hash: seq<Byte>, digits: nat)
    requires |hash| >= 20
    ensures var code := Otp(hash, digits);
      && AllDigits(code) && ReadNat(code) == Snum(hash) % PowerOfTen(digits)
      && (|code| == digits <==> digits >= 1)
      && (digits == 0 ==> code == "0")
  {
    hide Truncated, Snum;
    TruncationIsStandard(hash);
    var n := Truncated(hash) % PowerOfTen(digits);
    ReadShow(n);
    PaddedReads(ShowNat(n), digits);
    if digits >= 1 {
      ShownLength(n, digits);
    } else {
      assert PowerOfTen(0) == 1 && n == 0;
    }
  }

  // ---------------------------------------------------------------- the time step

  /** The counter at a time in milliseconds, computed as a real quotient rounded down. */
  function Counter(timestamp: nat, period: nat): int
    requires period > 0
  {
    (timestamp as real / 1000.0 / period as real).Floor
  }

  /** `getTOTPTimeRemaining` at a time in milliseconds. */
  function TimeRemaining(timestamp: nat, period: nat): int
    requires period > 0
  {
    var now := (timestamp as real / 1000.0).Floor;
    period - now % period
  }

  lemma FloorUnique(x: real, n: int)
    requires n as real <= x < (n + 1) as real
    ensures x.Floor == n
  {}

  lemma RealProductSign(a: real, b: real)
    requires a >= 0.0 && b >= 0.0
    ensures a * b >= 0.0
  {}

  lemma CancelFactor(a: real, b: real, p: real)
    requires p > 0.0 && a * p < b * p
    ensures a < b
  {
    if a >= b {
      RealProductSign(a - b, p);
      assert false;
    }
  }

  lemma DivideBelow(t: real, p: real, q: real)
    requires p > 0.0 && t < q * p
    ensures t / p < q
  {
    CancelFactor(t / p, q, p);
  }

  lemma DivideFrom(t: real, p: real, q: real)
    requires p > 0.0 && q * p <= t
    ensures q <= t / p
  {
    var x := t / p;
    assert x * p == t;
    if x < q {
      ScaleUp(x, q, p);
    }
  }

  lemma ScaleUp(a: real, b: real, p: real)
    requires p > 0.0 && a < b
    ensures a * p < b * p
  {}

  /** Rounding once, after both divisions, is dividing the whole seconds. */
  lemma CounterOfSeconds(timestamp: nat, period: nat)
    requires period > 0
    ensures (timestamp as real / 1000.0).Floor == timestamp / 1000
    ensures Counter(timestamp, period) == timestamp / 1000 / period
  {
    var n := timestamp / 1000;
    var x := timestamp as real / 1000.0;
    FloorUnique(x, n);
    var q := n / period;
    assert n == q * period + n % period;
    assert q * period <= n && n + 1 <= q * period + period;
    assert (q * period) as real == q as real * period as real;
    assert (q + 1) as real * period as real == ((q + 1) * period) as real;
    DivideFrom(x, period as real, q as real);
    DivideBelow(x, period as real, (q + 1) as real);
    FloorUnique(x / period as real, q);
  }

  /**
   The counter (section 4.2 of RFC 6238) stays for precisely the whole seconds reported as
   remaining, between one and the period, and is then the next one.
   */
  lemma CounterStaysForRemaining(timestamp: nat, later: nat, period: nat)
    requires period > 0 && timestamp <= later
    ensures var remaining := TimeRemaining(timestamp, period);
      var elapsed := later / 1000 - timestamp / 1000;
      && 1 <= remaining <= period
      && (Counter(later, period) == Counter(timestamp, period) <==> elapsed < remaining)
      && (remaining <= elapsed < remaining + period <==> Counter(later, period) == Counter(timestamp, period) + 1)
  {
    hide Counter;
    CounterOfSeconds(timestamp, period);
    CounterOfSeconds(later, period);
    SecondsStep(timestamp / 1000, later / 1000, period);
  }

  lemma SecondsStep(m: nat, n: nat, period: nat)
    requires period > 0 && m <= n
    ensures var remaining := period - m % period;
      && 1 <= remaining <= period
      && (n / period == m / period <==> n - m < remaining)
      && (remaining <= n - m < remaining + period <==> n / period == m / period + 1)
  {
    var q, r := m / period, m % period;
    assert m == q * period + r;
    var elapsed := n - m;
    if r + elapsed < period {
      DivisionUnique(n, period, q, r + elapsed);
    } else if r + elapsed < 2 * period {
      assert (q + 1) * period == q * period + period;
      DivisionUnique(n, period, q + 1, r + elapsed - period);
    } else {
      var k := n / period - q;
      assert n == (n / period) * period + n % period;
      assert (n / period) * period == q * period + k * period;
      if k <= 1 {
        ProductSign(1 - k, period);
        assert (1 - k) * period == period - k * period;
      }
    }
  }

  // ---------------------------------------------------------------- generation

  function UpperChar(c: char): char { if 'a' <= c <= 'z' then (c as int - 'a' as int + 'A' as int) as char else c }

  /** The secret without blanks and in capitals. */
  function Clean(secret: string): string {
    if secret == "" then ""
    else (if IsJsSpace(secret[0]) then "" else [UpperChar(secret[0])]) + Clean(secret[1..])
  }

  /** The secret is a spelling of the text: the same characters, with letters in any case and whitespace anywhere. */
  predicate Spells(secret: string, text: string) {
    if secret == "" then text == ""
    else
      || (IsJsSpace(secret[0]) && Spells(secret[1..], text))
      || (text != "" && !IsJsSpace(secret[0]) && Lower([secret[0]]) == Lower([text[0]]) && !('a' <= text[0] <= 'z')
          && Spells(secret[1..], text[1..]))
  }

  lemma SameLetter(c: char, d: char)
    ensures UpperChar(c) == d <==> Lower([c]) == Lower([d]) && !('a' <= d <= 'z')
  {
    assert Lower([c]) == [LowerChar(c)] && Lower([d]) == [LowerChar(d)];
    assert Lower([c]) == Lower([d]) <==> LowerChar(c) == LowerChar(d) by {
      assert Lower([c])[0] == LowerChar(c) && Lower([d])[0] == LowerChar(d);
    }
  }

  lemma {:induction false} CleanIff(secret: string, text: string)
    ensures Clean(secret) == text <==> Spells(secret, text)
    decreases |secret|
  {
    hide IsJsSpace, UpperChar;
    if secret != "" {
      if IsJsSpace(secret[0]) {
        CleanIff(secret[1..], text);
      } else if text != "" {
        CleanIff(secret[1..], text[1..]);
        SameLetter(secret[0], text[0]);
        var clean := [UpperChar(secret[0])] + Clean(secret[1..]);
        assert clean[0] == UpperChar(secret[0]) && clean[1..] == Clean(secret[1..]);
        assert text == [text[0]] + text[1..];
      }
    }
  }

  /** The last `n` bytes of a number, most significant first. */
  function LastBytes(v: nat, n: nat): (s: seq<Byte>)
    ensures |s| == n
  {
    if n == 0 then [] else LastBytes(v / 256, n - 1) + [v % 256]
  }

  function Power256(n: nat): nat { if n == 0 then 1 else 256 * Power256(n - 1) }

  lemma {:induction false} BytesRead(v: nat, n: nat)
    requires v < Power256(n)
    ensures BigEndian(LastBytes(v, n)) == v
  {
    if n > 0 {
      BytesRead(v / 256, n - 1);
      assert LastBytes(v, n)[..n - 1] == LastBytes(v / 256, n - 1);
    }
  }

  const COUNTER_LIMIT := 0x1_0000_0000_0000_0000

  datatype Code = Code(text: string) | BadSecret(symbol: char) | CounterTooLarge

  /** A keyed hash of at least 20 bytes, whatever the algorithm. */
  ghost predicate IsHmac(hmac: (seq<Byte>, seq<Byte>) -> seq<Byte>) { forall k, m :: |hmac(k, m)| >= 20 }

  /** The eight-byte message is the counter itself. */
  ghost predicate IsMessage(message: seq<Byte>, counter: int) { |message| == 8 && BigEndian(message) == counter }

  lemma CounterMessage(counter: nat)
    requires counter < COUNTER_LIMIT
    ensures IsMessage(LastBytes(counter, 8), counter)
  {
    assert Power256(8) == COUNTER_LIMIT by {
      assert Power256(4) == 0x1_0000_0000;
      assert Power256(8) == 0x1_0000_0000 * Power256(4);
    }
    BytesRead(counter, 8);
  }

  /** The code of the key that the secret decodes to, and of the counter as an eight-byte message. */
  ghost predicate IsCode(secret: string, digits: nat, period: nat, timestamp: nat,
                         hmac: (seq<Byte>, seq<Byte>) -> seq<Byte>, code: Code)
    requires period > 0 && IsHmac(hmac)
  {
    exists decoded :: Base32.IsDecoding(Clean(secret), decoded)
      && code == match decoded
                 case Invalid(c) => BadSecret(c)
                 case Bytes(key) => CodeOfKey(key, digits, Counter(timestamp, period), hmac)
  }

  function CodeOfKey(key: seq<Byte>, digits: nat, counter: int, hmac: (seq<Byte>, seq<Byte>) -> seq<Byte>): Code
    requires |hmac(key, LastBytes(if counter < 0 then 0 else counter, 8))| >= 20
  {
    if counter < 0 || counter >= COUNTER_LIMIT then CounterTooLarge
    else Code(Otp(hmac(key, LastBytes(counter, 8)), digits))
  }

  /** `generateTOTP`. */
  method GenerateTotp(secret: string, digits: nat, period: nat, timestamp: nat,
                      hmac: (seq<Byte>, seq<Byte>) -> seq<Byte>)
    returns (code: Code)
    requires period > 0 && IsHmac(hmac)
    ensures IsCode(secret, digits, period, timestamp, hmac, code)
  {
    hide Base32.IsDecoding, Otp, BigEndian, Counter;
    var key := Base32.Base32Decode(Clean(secret));
    if key.Invalid? {
      return BadSecret(key.symbol);
    }
    var counter := Counter(timestamp, period);
    CounterOfSeconds(timestamp, period);
    if counter >= COUNTER_LIMIT {
      return CounterTooLarge;
    }
    var hash := hmac(key.bytes, LastBytes(counter, 8));
    code := Code(Otp(hash, digits));
  }

  /**
   End to end: for a secret that spells the encoding of a key, in any case and with any blanks and
   padding, the code has the asked number of digits and reads as the number the standards derive
   from the keyed hash of the current counter.
   */
  lemma CodeOfSharedSecret(secret: string, key: seq<Byte>, padding: string, digits: nat, period: nat, timestamp: nat,
                           hmac: (seq<Byte>, seq<Byte>) -> seq<Byte>, counter: nat, code: Code)
    requires period > 0 && IsHmac(hmac) && digits >= 1 && counter == timestamp / 1000 / period < COUNTER_LIMIT
    requires Spells(secret, Base32.Encode(key) + padding) && forall i :: 0 <= i < |padding| ==> padding[i] == '='
    requires IsCode(secret, digits, period, timestamp, hmac, code)
    ensures var message := LastBytes(counter, 8);
      && IsMessage(message, counter)
      && code.Code? && |code.text| == digits && AllDigits(code.text)
      && ReadNat(code.text) == Snum(hmac(key, message)) % PowerOfTen(digits)
  {
    CounterOfSeconds(timestamp, period);
    CleanIff(secret, Base32.Encode(key) + padding);
    DecodedCode(secret, key, padding, digits, period, timestamp, hmac, code);
    hide Otp, Snum, PowerOfTen, LastBytes, BigEndian, Clean, Spells, Counter, Base32.Encode, ReadNat, AllDigits;
    CounterMessage(counter);
    CodeIsStandard(hmac(key, LastBytes(counter, 8)), digits);
  }

  lemma DecodedCode(secret: string, key: seq<Byte>, padding: string, digits: nat, period: nat, timestamp: nat,
                    hmac: (seq<Byte>, seq<Byte>) -> seq<Byte>, code: Code)
    requires period > 0 && IsHmac(hmac)
    requires Clean(secret) == Base32.Encode(key) + padding && forall i :: 0 <= i < |padding| ==> padding[i] == '='
    requires IsCode(secret, digits, period, timestamp, hmac, code)
    ensures code == CodeOfKey(key, digits, Counter(timestamp, period), hmac)
  {
    hide Base32.IsDecoding, CodeOfKey, Counter, Clean, LastBytes, Base32.Encode;
    var decoded :| Base32.IsDecoding(Clean(secret), decoded)
      && code == match decoded
                 case Invalid(c) => BadSecret(c)
                 case Bytes(k) => CodeOfKey(k, digits, Counter(timestamp, period), hmac);
    Base32.DecodeEncode(key, padding, decoded);
  }
}
