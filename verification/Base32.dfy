/** Decoding of shared secrets (tools/agent-browse/auth.js) against section 6 of RFC 4648. */
module Base32 {
  import opened Text

  function Alphabet(): (s: string)
    ensures |s| == 32
  {
    "ABCDEFGHIJKLMNOPQRSTUVWXYZ234567"
  }

  // ---------------------------------------------------------------- bit strings

  predicate IsBits(s: string) { forall i :: 0 <= i < |s| ==> s[i] == '0' || s[i] == '1' }

  function Digit(b: nat): (c: char)
    requires b < 2
  {
    if b == 1 then '1' else '0'
  }

  /** `parseInt(s, 2)`. */
  function Value(s: string): nat {
    if s == "" then 0 else 2 * Value(s[..|s| - 1]) + if s[|s| - 1] == '1' then 1 else 0
  }

  /** `v.toString(2)`. */
  function Binary(v: nat): string {
    if v < 2 then [Digit(v)] else Binary(v / 2) + [Digit(v % 2)]
  }

  /** `s.padStart(n, '0')`. */
  function PadStart(s: string, n: nat): string
    decreases n - |s|
  {
    if |s| < n then PadStart(['0'] + s, n) else s
  }

  /** The last `n` binary digits of `v`, most significant first. */
  function Fixed(v: nat, n: nat): (s: string)
    ensures |s| == n && IsBits(s)
  {
    if n == 0 then "" else Fixed(v / 2, n - 1) + [Digit(v % 2)]
  }

  function Power2(n: nat): (p: nat)
    ensures p > 0
  {
    if n == 0 then 1 else 2 * Power2(n - 1)
  }

  lemma {:induction false} ValueFixed(v: nat, n: nat)
    requires v < Power2(n)
    ensures Value(Fixed(v, n)) == v
  {
    if n > 0 {
      ValueFixed(v / 2, n - 1);
      assert Fixed(v, n)[..n - 1] == Fixed(v / 2, n - 1);
    }
  }

  lemma {:induction false} FixedValue(s: string)
    requires IsBits(s)
    ensures Value(s) < Power2(|s|) && Fixed(Value(s), |s|) == s
  {
    if s != "" {
      var init, last := s[..|s| - 1], s[|s| - 1];
      FixedValue(init);
      assert s == init + [last];
    }
  }

  lemma {:induction false} PadSnoc(s: string, d: char, n: nat)
    requires n > 0
    ensures PadStart(s + [d], n) == PadStart(s, n - 1) + [d]
    decreases n - |s|
  {
    if |s| < n - 1 {
      assert ['0'] + (s + [d]) == (['0'] + s) + [d];
      PadSnoc(['0'] + s, d, n);
    }
  }

  lemma {:induction false} PadZero(n: nat)
    ensures PadStart("", n) == Fixed(0, n)
  {
    if n > 0 {
      PadZero(n - 1);
      PadSnoc("", '0', n);
      assert "" + ['0'] == ['0'] + "";
    }
  }

  /** A padded binary numeral is the fixed-width one, when it fits. */
  lemma {:induction false} PaddedIsFixed(v: nat, n: nat)
    requires n > 0 && v < Power2(n)
    ensures PadStart(Binary(v), n) == Fixed(v, n)
    decreases n
  {
    if v < 2 {
      PadZero(n - 1);
      PadSnoc("", Digit(v), n);
      assert "" + [Digit(v)] == [Digit(v)];
    } else {
      assert n > 1;
      PaddedIsFixed(v / 2, n - 1);
      PadSnoc(Binary(v / 2), Digit(v % 2), n);
    }
  }

  /** The five bits of a symbol's place. */
  function Group(v: nat): (s: string)
    ensures |s| == 5 && IsBits(s)
  {
    Fixed(v, 5)
  }

  /** The eight bits of a byte. */
  function Octet(b: Byte): (s: string)
    ensures |s| == 8 && IsBits(s)
  {
    Fixed(b, 8)
  }

  lemma GroupValue(v: nat)
    requires v < 32
    ensures Value(Group(v)) == v && PadStart(Binary(v), 5) == Group(v)
  {
    assert Power2(5) == 32;
    ValueFixed(v, 5);
    PaddedIsFixed(v, 5);
  }

  lemma ValueGroup(s: string)
    requires |s| == 5 && IsBits(s)
    ensures Value(s) < 32 && Group(Value(s)) == s
  {
    assert Power2(5) == 32;
    FixedValue(s);
  }

  lemma OctetValue(b: Byte)
    ensures Value(Octet(b)) == b
  {
    assert Power2(8) == 256;
    ValueFixed(b, 8);
  }

  lemma ValueOctet(s: string)
    requires |s| == 8 && IsBits(s)
    ensures 0 <= Value(s) < 256 && Octet(Value(s)) == s
  {
    assert Power2(8) == 256;
    FixedValue(s);
  }

  // ---------------------------------------------------------------- decoding

  datatype Decoded = Bytes(bytes: seq<Byte>) | Invalid(symbol: char)

  predicate IsSymbol(c: char) { c in Alphabet() }

  predicate AllSymbols(s: string) { forall i :: 0 <= i < |s| ==> IsSymbol(s[i]) }

  /** Five bits for each symbol. */
  function BitsOf(symbols: string): (bits: string)
    requires AllSymbols(symbols)
    ensures |bits| == 5 * |symbols| && IsBits(bits)
  {
    if symbols == "" then ""
    else BitsOf(symbols[..|symbols| - 1]) + Group(IndexOf(Alphabet(), symbols[|symbols| - 1]))
  }

  function ByteValue(s: string): (b: Byte)
    requires |s| == 8 && IsBits(s)
    ensures b == Value(s)
  {
    ValueOctet(s);
    Value(s)
  }

  /** A byte for each full group of eight bits; what is left over is dropped. */
  function BytesOf(bits: string): (bytes: seq<Byte>)
    requires IsBits(bits)
    ensures |bytes| == |bits| / 8
  {
    if |bits| < 8 then [] else [ByteValue(bits[..8])] + BytesOf(bits[8..])
  }

  /** The text without its trailing `=` signs. */
  function Stripped(s: string): (r: string)
    ensures r == "" || r[|r| - 1] != '='
    ensures |r| <= |s| && r == s[..|r|]
    ensures forall i :: |r| <= i < |s| ==> s[i] == '='
  {
    if s != "" && s[|s| - 1] == '=' then Stripped(s[..|s| - 1]) else s
  }

  /** The first symbol outside the alphabet is an error; else the leading bits, byte by byte. */
  ghost predicate IsDecoding(encoded: string, result: Decoded) {
    var s := Stripped(encoded);
    match result
    case Invalid(c) => exists i :: 0 <= i < |s| && s[i] == c && !IsSymbol(c) && forall j :: 0 <= j < i ==> IsSymbol(s[j])
    case Bytes(bytes) => AllSymbols(s) && bytes == BytesOf(BitsOf(s))
  }

  lemma {:induction false} BytesSnoc(bits: string, k: nat)
    requires IsBits(bits) && 8 * k + 8 <= |bits|
    ensures BytesOf(bits[..8 * k + 8]) == BytesOf(bits[..8 * k]) + [ByteValue(bits[8 * k..8 * k + 8])]
    decreases k
  {
    if k == 0 {
      assert bits[..0] == "" && bits[..8][8..] == "";
      assert bits[..8][..8] == bits[..8];
    } else {
      BytesSnoc(bits[8..], k - 1);
      assert bits[..8 * k + 8][8..] == bits[8..][..8 * (k - 1) + 8];
      assert bits[..8 * k][8..] == bits[8..][..8 * (k - 1)];
      assert bits[8 * k..8 * k + 8] == bits[8..][8 * (k - 1)..8 * (k - 1) + 8];
      assert bits[..8 * k + 8][..8] == bits[..8] == bits[..8 * k][..8];
    }
  }

  lemma {:induction false} BytesIgnoreRest(bits: string, n: nat)
    requires IsBits(bits) && n <= |bits| < n + 8 && n % 8 == 0
    ensures BytesOf(bits) == BytesOf(bits[..n])
    decreases n
  {
    if n > 0 {
      BytesIgnoreRest(bits[8..], n - 8);
      assert bits[..n][8..] == bits[8..][..n - 8];
      assert bits[..n][..8] == bits[..8];
    }
  }

  /** `base32Decode`. */
  method Base32Decode(encoded: string) returns (result: Decoded)
    ensures IsDecoding(encoded, result)
  {
    hide Group, Octet, Value, Binary, PadStart, ByteValue, BytesOf, IndexOf, Alphabet, Stripped;
    var cleaned := Stripped(encoded);
    var bits := "";
    for i := 0 to |cleaned|
      invariant forall j :: 0 <= j < i ==> IsSymbol(cleaned[j])
      invariant bits == BitsOf(cleaned[..i])
    {
      var val := IndexOf(Alphabet(), cleaned[i]);
      if val == |Alphabet()| {
        return Invalid(cleaned[i]);
      }
      assert cleaned[..i + 1][..i] == cleaned[..i];
      GroupValue(val);
      bits := bits + PadStart(Binary(val), 5);
    }
    assert cleaned[..|cleaned|] == cleaned;
    var bytes: seq<Byte> := [];
    var i := 0;
    while i + 8 <= |bits|
      invariant 0 <= i <= |bits| && i % 8 == 0
      invariant bytes == BytesOf(bits[..i])
    {
      BytesSnoc(bits, i / 8);
      bytes := bytes + [ByteValue(bits[i..i + 8])];
      i := i + 8;
    }
    BytesIgnoreRest(bits, i);
    result := Bytes(bytes);
  }

  // ---------------------------------------------------------------- the leading bits

  /** Eight bits for each byte. */
  function BitStream(bytes: seq<Byte>): (bits: string)
    ensures |bits| == 8 * |bytes| && IsBits(bits)
  {
    if bytes == [] then "" else Octet(bytes[0]) + BitStream(bytes[1..])
  }

  lemma {:induction false} BytesOfStream(bytes: seq<Byte>, rest: string)
    requires IsBits(rest) && |rest| < 8
    ensures BytesOf(BitStream(bytes) + rest) == bytes
    decreases |bytes|
  {
    hide Octet, Value;
    if bytes == [] {
      assert BitStream(bytes) + rest == rest;
    } else {
      var head, tail := Octet(bytes[0]), BitStream(bytes[1..]);
      assert BitStream(bytes) + rest == head + (tail + rest);
      assert (head + (tail + rest))[..8] == head && (head + (tail + rest))[8..] == tail + rest;
      OctetValue(bytes[0]);
      BytesOfStream(bytes[1..], rest);
    }
  }

  lemma {:induction false} StreamOfBytes(bits: string)
    requires IsBits(bits)
    ensures BitStream(BytesOf(bits)) == bits[..8 * (|bits| / 8)]
    decreases |bits|
  {
    hide Octet, Value;
    if |bits| >= 8 {
      StreamOfBytes(bits[8..]);
      ValueOctet(bits[..8]);
      assert |bits[8..]| / 8 == |bits| / 8 - 1;
      assert bits[..8] + bits[8..][..8 * (|bits| / 8 - 1)] == bits[..8 * (|bits| / 8)];
    }
  }

  /**
   n symbols decode to floor(5n / 8) bytes, which are the leading bits of the stream of five-bit
   groups, most significant first.
   */
  lemma DecodingIsLeadingBits(symbols: string, bytes: seq<Byte>)
    requires IsDecoding(symbols, Bytes(bytes)) && Stripped(symbols) == symbols
    ensures |bytes| == 5 * |symbols| / 8 && BitStream(bytes) == BitsOf(symbols)[..8 * |bytes|]
  {
    StreamOfBytes(BitsOf(symbols));
  }

  // ---------------------------------------------------------------- the standard's encoding

  function Zeros(n: nat): (s: string)
    ensures |s| == n && IsBits(s) && forall i :: 0 <= i < n ==> s[i] == '0'
  {
    seq(n, i => '0')
  }

  /** Zero bits added on the right to fill the last group of five (section 6 of RFC 4648). */
  function Filled(bits: string): (r: string)
    requires IsBits(bits)
    ensures |r| % 5 == 0 && 0 <= |r| - |bits| < 5 && IsBits(r) && r[..|bits|] == bits
  {
    bits + Zeros((5 - |bits| % 5) % 5)
  }

  function SymbolOf(group: string): (c: char)
    requires |group| == 5 && IsBits(group)
    ensures IsSymbol(c)
  {
    ValueGroup(group);
    Alphabet()[Value(group)]
  }

  function SymbolsOf(bits: string): (s: string)
    requires IsBits(bits) && |bits| % 5 == 0
    ensures |s| == |bits| / 5 && AllSymbols(s)
  {
    if bits == "" then ""
    else SymbolsOf(bits[..|bits| - 5]) + [SymbolOf(bits[|bits| - 5..])]
  }

  function Encode(bytes: seq<Byte>): string { SymbolsOf(Filled(BitStream(bytes))) }

  /** The padding that makes the length a multiple of eight. */
  function Padding(n: nat): string { seq((8 - n % 8) % 8, i => '=') }

  function Letter(v: nat): char
    requires v < 32
  {
    (if v < 26 then 'A' as int + v else '2' as int + (v - 26)) as char
  }

  lemma LetterAt(v: nat)
    requires v < 32
    ensures Alphabet()[v] == Letter(v)
  {}

  /** A symbol's place in the alphabet is its only one. */
  lemma PlaceOf(v: nat)
    requires v < 32
    ensures IndexOf(Alphabet(), Alphabet()[v]) == v
  {
    hide IndexOf, Alphabet;
    LetterAt(v);
    LetterAt(IndexOf(Alphabet(), Alphabet()[v]));
  }

  lemma BitsOfSymbol(group: string)
    requires |group| == 5 && IsBits(group)
    ensures Group(IndexOf(Alphabet(), SymbolOf(group))) == group
  {
    hide Group, IndexOf, Value, Alphabet;
    ValueGroup(group);
    PlaceOf(Value(group));
  }

  lemma SymbolOfBits(c: char)
    requires IsSymbol(c)
    ensures SymbolOf(Group(IndexOf(Alphabet(), c))) == c
  {
    hide Group, IndexOf, Value, Alphabet;
    GroupValue(IndexOf(Alphabet(), c));
  }

  lemma {:induction false} BitsOfSymbols(bits: string)
    requires IsBits(bits) && |bits| % 5 == 0
    ensures BitsOf(SymbolsOf(bits)) == bits
    decreases |bits|
  {
    hide SymbolOf, IndexOf, Group, Alphabet, IsSymbol;
    if bits != "" {
      var init, group := bits[..|bits| - 5], bits[|bits| - 5..];
      BitsOfSymbols(init);
      BitsOfSymbol(group);
      var s := SymbolsOf(bits);
      assert s[..|s| - 1] == SymbolsOf(init);
      assert bits == init + group;
    }
  }

  lemma {:induction false} SymbolsOfBits(symbols: string, bits: string)
    requires AllSymbols(symbols) && bits == BitsOf(symbols) && |bits| % 5 == 0
    ensures SymbolsOf(bits) == symbols
    decreases |symbols|
  {
    hide SymbolOf, IndexOf, IsSymbol, Group, Alphabet;
    if symbols != "" {
      var n := |symbols| - 1;
      var before, group := BitsOf(symbols[..n]), Group(IndexOf(Alphabet(), symbols[n]));
      assert bits == before + group;
      assert bits[..|bits| - 5] == before && bits[|bits| - 5..] == group;
      SymbolsOfBits(symbols[..n], before);
      SymbolOfBits(symbols[n]);
      assert symbols == symbols[..n] + [symbols[n]];
    }
  }

  lemma {:induction false} StripPadding(s: string, p: string)
    requires AllSymbols(s) && forall i :: 0 <= i < |p| ==> p[i] == '='
    ensures Stripped(s + p) == s
    decreases |p|
  {
    if p == "" {
      assert s + p == s;
      assert s != "" ==> IsSymbol(s[|s| - 1]);
    } else {
      assert (s + p)[..|s + p| - 1] == s + p[..|p| - 1];
      StripPadding(s, p[..|p| - 1]);
    }
  }

  /** Decoding inverts the encoding of section 6 of RFC 4648, with its padding or with any less or more. */
  lemma DecodeEncode(bytes: seq<Byte>, padding: string, result: Decoded)
    requires forall i :: 0 <= i < |padding| ==> padding[i] == '='
    requires IsDecoding(Encode(bytes) + padding, result)
    ensures result == Bytes(bytes)
  {
    hide IsSymbol, BytesOf, SymbolsOf, BitsOf;
    var bits := BitStream(bytes);
    StripPadding(Encode(bytes), padding);
    BitsOfSymbols(Filled(bits));
    BytesOfStream(bytes, Filled(bits)[|bits|..]);
    assert Filled(bits) == bits + Filled(bits)[|bits|..];
  }

  lemma PaddingIsSigns(n: nat)
    ensures forall i :: 0 <= i < |Padding(n)| ==> Padding(n)[i] == '='
    ensures (n + |Padding(n)|) % 8 == 0 && |Padding(n)| < 8
  {}

  /** The standard's own text of a byte string, padded to a multiple of eight symbols. */
  function PaddedEncode(bytes: seq<Byte>): string { Encode(bytes) + Padding(|Encode(bytes)|) }

  /** Decoding inverts the padded encoding of section 6 of RFC 4648, whose length is a multiple of eight. */
  lemma DecodePaddedEncode(bytes: seq<Byte>, result: Decoded)
    requires IsDecoding(PaddedEncode(bytes), result)
    ensures result == Bytes(bytes) && |PaddedEncode(bytes)| % 8 == 0
  {
    hide IsDecoding, Encode, Padding;
    PaddingIsSigns(|Encode(bytes)|);
    DecodeEncode(bytes, Padding(|Encode(bytes)|), result);
  }

  /** The fill reproduces exactly a remainder of fewer than five zero bits. */
  lemma FillIff(stream: string, rest: string)
    requires IsBits(stream) && IsBits(rest) && (|stream| + |rest|) % 5 == 0
    ensures Filled(stream) == stream + rest <==> |rest| < 5 && rest == Zeros(|rest|)
  {
    if |rest| < 5 {
      assert |rest| == (5 - |stream| % 5) % 5;
    }
    if Filled(stream) == stream + rest {
      assert rest == Filled(stream)[|stream|..];
    }
  }

  lemma DecodedSymbols(symbols: string, bytes: seq<Byte>)
    requires IsDecoding(symbols, Bytes(bytes)) && Stripped(symbols) == symbols
    ensures AllSymbols(symbols)
  {
    hide AllSymbols, BytesOf, BitsOf, Stripped;
  }

  /**
   Encoding again gives back the symbols exactly when they are canonical: fewer than five bits are
   left over by the bytes, and all of those are zero.
   */
  lemma EncodeDecodeIff(symbols: string, bytes: seq<Byte>)
    requires IsDecoding(symbols, Bytes(bytes)) && Stripped(symbols) == symbols
    ensures var rest := BitsOf(symbols)[8 * |bytes|..];
      Encode(bytes) == symbols <==> |rest| < 5 && rest == Zeros(|rest|)
  {
    hide IsDecoding, IsSymbol, BytesOf, SymbolsOf, BitsOf, Stripped, AllSymbols, BitStream, Filled, Zeros, Alphabet;
    DecodedSymbols(symbols, bytes);
    DecodingIsLeadingBits(symbols, bytes);
    var bits := BitsOf(symbols);
    var stream := BitStream(bytes);
    var rest := bits[8 * |bytes|..];
    assert bits == stream + rest;
    FillIff(stream, rest);
    SymbolsOfBits(symbols, bits);
    BitsOfSymbols(Filled(stream));
  }
}
