/**
 Connection URIs of saved profiles: splitting one bounded URI into a masked record
 and a secret, and validating a stored record again (lib/psql_keychain_store.py).
 */
module ProfileUri {
  import opened Text

  const INPUT_LIMIT := 16384
  const MASK := "****"

  // ---------------------------------------------------------------- bytes

  function EncodeChar(c: char): (b: seq<Byte>)
    ensures 1 <= |b| <= 4
    ensures c as int < 128 ==> b == [c as int]
  {
    var n := c as int;
    if n < 0x80 then [n]
    else if n < 0x800 then [0xC0 + n / 64, 0x80 + n % 64]
    else if n < 0x10000 then [0xE0 + n / 4096, 0x80 + n / 64 % 64, 0x80 + n % 64]
    else [0xF0 + n / 262144, 0x80 + n / 4096 % 64, 0x80 + n / 64 % 64, 0x80 + n % 64]
  }

  /** Six more bits from a continuation byte. */
  function Shifted(bits: int, b: Byte): int { bits * 64 + (b as int - 0x80) }

  lemma ShiftTwice(n: nat)
    ensures n / 64 / 64 == n / 4096 && n / 4096 / 64 == n / 262144
    ensures n / 64 * 64 + n % 64 == n
  {}

  /** The octets of section 3 of RFC 3629: how many, what they begin with, and the number in their free bits. */
  lemma EncodeCharIs(c: char)
    ensures var n, b := c as int, EncodeChar(c);
      && (forall i :: 1 <= i < |b| ==> 0x80 <= b[i] < 0xC0)
      && (if n < 0x80 then |b| == 1 && b[0] == n
          else if n < 0x800 then |b| == 2 && 0xC0 <= b[0] < 0xE0 && Shifted(b[0] as int - 0xC0, b[1]) == n
          else if n < 0x10000 then
            |b| == 3 && 0xE0 <= b[0] < 0xF0 && Shifted(Shifted(b[0] as int - 0xE0, b[1]), b[2]) == n
          else
            |b| == 4 && 0xF0 <= b[0] < 0xF8 && Shifted(Shifted(Shifted(b[0] as int - 0xF0, b[1]), b[2]), b[3]) == n)
  {
    var n := c as int;
    ShiftTwice(n);
    ShiftTwice(n / 64);
    ShiftTwice(n / 4096);
  }

  /** UTF-8. */
  function Encode(s: string): (b: seq<Byte>)
    ensures |s| <= |b|
  {
    if s == "" then [] else EncodeChar(s[0]) + Encode(s[1..])
  }

  lemma {:induction false} EncodeConcat(a: string, b: string)
    ensures Encode(a + b) == Encode(a) + Encode(b)
  {
    hide EncodeChar;
    if a == "" {
      assert a + b == b && Encode(a) == [];
    } else {
      EncodeConcat(a[1..], b);
      assert EncodeChar(a[0]) + (Encode(a[1..]) + Encode(b)) == EncodeChar(a[0]) + Encode(a[1..]) + Encode(b);
      assert (a + b)[1..] == a[1..] + b;
    }
  }

  predicate IsHex(b: Byte) { 48 <= b <= 57 || 65 <= b <= 70 || 97 <= b <= 102 }

  function HexValue(b: Byte): (v: nat)
    requires IsHex(b)
    ensures v < 16
  {
    if b <= 57 then b - 48 else if b <= 70 then b - 55 else b - 87
  }

  const UPPER_HEX := "0123456789ABCDEF"
  const LOWER_HEX := "0123456789abcdef"

  /** The sixteen digits, in either case of their letters. */
  lemma HexDigitsAre(b: Byte)
    ensures IsHex(b) <==> exists d :: 0 <= d < 16 && (b == UPPER_HEX[d] as int || b == LOWER_HEX[d] as int)
    ensures forall d :: 0 <= d < 16 && (b == UPPER_HEX[d] as int || b == LOWER_HEX[d] as int) ==> IsHex(b) && HexValue(b) == d
  {
    assert forall d :: 0 <= d < 10 ==> UPPER_HEX[d] as int == 48 + d && LOWER_HEX[d] as int == 48 + d;
    assert forall d :: 10 <= d < 16 ==> UPPER_HEX[d] as int == 55 + d && LOWER_HEX[d] as int == 87 + d;
    if IsHex(b) {
      var d := HexValue(b);
      assert b == UPPER_HEX[d] as int || b == LOWER_HEX[d] as int;
    }
  }

  const PERCENT: Byte := 37

  /** Percent-decoding in the way of section 2.1 of RFC 3986; a stray `%` stands for itself. */
  function PercentDecode(s: seq<Byte>): (r: seq<Byte>)
    ensures s != [] ==> r != []
  {
    if s == [] then []
    else if s[0] == PERCENT && |s| >= 3 && IsHex(s[1]) && IsHex(s[2]) then
      [16 * HexValue(s[1]) + HexValue(s[2])] + PercentDecode(s[3..])
    else [s[0]] + PercentDecode(s[1..])
  }

  /** One piece that followed a `%`, as `unquote_to_bytes` rewrites it. */
  function UnquotePiece(piece: seq<Byte>): seq<Byte> {
    if |piece| >= 2 && IsHex(piece[0]) && IsHex(piece[1]) then
      [16 * HexValue(piece[0]) + HexValue(piece[1])] + piece[2..]
    else [PERCENT] + piece
  }

  function UnquotePieces(pieces: seq<seq<Byte>>): seq<Byte> {
    if pieces == [] then [] else UnquotePiece(pieces[0]) + UnquotePieces(pieces[1..])
  }

  /** `urllib.parse.unquote_to_bytes`: split on `%`, rewrite every piece but the first. */
  function Unquote(s: string): seq<Byte> {
    var pieces := SplitOn(Encode(s), PERCENT);
    pieces[0] + UnquotePieces(pieces[1..])
  }

  lemma PercentDecodeOther(s: seq<Byte>)
    requires s != [] && s[0] != PERCENT
    ensures PercentDecode(s) == [s[0]] + PercentDecode(s[1..])
  {}

  lemma {:induction false} PercentDecodePlain(a: seq<Byte>, rest: seq<Byte>)
    requires PERCENT !in a
    ensures PercentDecode(a + rest) == a + PercentDecode(rest)
  {
    hide PercentDecode;
    if a == [] {
      assert a + rest == rest;
    } else {
      PercentDecodeOther(a + rest);
      PercentDecodePlain(a[1..], rest);
      assert (a + rest)[1..] == a[1..] + rest;
      assert [a[0]] + (a[1..] + PercentDecode(rest)) == a + PercentDecode(rest);
    }
  }

  lemma {:induction false} PercentDecodeHex(piece: seq<Byte>, rest: seq<Byte>)
    requires PERCENT !in piece
    requires |piece| >= 2 && IsHex(piece[0]) && IsHex(piece[1])
    ensures PercentDecode([PERCENT] + piece + rest) == UnquotePiece(piece) + PercentDecode(rest)
  {
    var s := [PERCENT] + piece + rest;
    assert s[0] == PERCENT && s[1] == piece[0] && s[2] == piece[1];
    assert s[3..] == piece[2..] + rest;
    PercentDecodePlain(piece[2..], rest);
  }

  lemma {:induction false} PercentDecodeStray(piece: seq<Byte>, rest: seq<Byte>)
    requires PERCENT !in piece
    requires rest == [] || rest[0] == PERCENT
    requires !(|piece| >= 2 && IsHex(piece[0]) && IsHex(piece[1]))
    ensures PercentDecode([PERCENT] + piece + rest) == [PERCENT] + piece + PercentDecode(rest)
  {
    var t := piece + rest;
    var s := [PERCENT] + t;
    assert [PERCENT] + piece + rest == s;
    assert s[1..] == t;
    assert !(|t| >= 2 && IsHex(t[0]) && IsHex(t[1]));
    assert s[0] == PERCENT && (|t| >= 2 ==> s[1] == t[0] && s[2] == t[1]);
    PercentDecodePlain(piece, rest);
  }

  lemma PercentDecodePiece(piece: seq<Byte>, rest: seq<Byte>)
    requires PERCENT !in piece
    requires rest == [] || rest[0] == PERCENT
    ensures PercentDecode([PERCENT] + piece + rest) == UnquotePiece(piece) + PercentDecode(rest)
  {
    if |piece| >= 2 && IsHex(piece[0]) && IsHex(piece[1]) {
      PercentDecodeHex(piece, rest);
    } else {
      PercentDecodeStray(piece, rest);
    }
  }

  /** The splitting decoder computes the percent-decoding of every string. */
  lemma {:induction false} UnquoteIsPercentDecode(s: string)
    ensures Unquote(s) == PercentDecode(Encode(s))
  {
    var b := Encode(s);
    var i := IndexOf(b, PERCENT);
    var pieces := SplitOn(b, PERCENT);
    if i == |b| {
      PercentDecodePlain(b, []);
      assert b + [] == b;
      assert pieces == [b];
    } else {
      assert b == b[..i] + b[i..];
      PercentDecodePlain(b[..i], b[i..]);
      assert pieces[0] == b[..i] && pieces[1..] == SplitOn(b[i + 1..], PERCENT);
      UnquoteTail(b[i..]);
      assert b[i..][1..] == b[i + 1..];
    }
  }

  lemma {:induction false} UnquoteTail(b: seq<Byte>)
    requires b != [] && b[0] == PERCENT
    ensures UnquotePieces(SplitOn(b[1..], PERCENT)) == PercentDecode(b)
    decreases |b|
  {
    hide UnquotePiece, IsHex, IndexOf;
    var t := b[1..];
    var i := IndexOf(t, PERCENT);
    if i == |t| {
      PercentDecodePiece(t, []);
      assert PercentDecode([]) == [];
      assert [PERCENT] + t + [] == b;
      assert SplitOn(t, PERCENT) == [t];
      assert UnquotePieces([t]) == UnquotePiece(t) + UnquotePieces([t][1..]);
    } else {
      PercentDecodePiece(t[..i], t[i..]);
      assert [PERCENT] + t[..i] + t[i..] == b;
      UnquoteTail(t[i..]);
      assert t[i..][1..] == t[i + 1..];
      assert SplitOn(t, PERCENT) == [t[..i]] + SplitOn(t[i + 1..], PERCENT);
    }
  }

  function HexDigit(d: nat): (b: Byte)
    requires d < 16
    ensures IsHex(b) && HexValue(b) == d
  {
    if d < 10 then 48 + d else 55 + d
  }

  /** Every byte as a percent-encoded octet. */
  function PercentEncode(b: seq<Byte>): seq<Byte> {
    if b == [] then []
    else [PERCENT, HexDigit(b[0] / 16), HexDigit(b[0] % 16)] + PercentEncode(b[1..])
  }

  lemma {:induction false} PercentRoundTrip(b: seq<Byte>)
    ensures PercentDecode(PercentEncode(b)) == b
  {
    if b != [] {
      PercentRoundTrip(b[1..]);
      assert PercentEncode(b)[3..] == PercentEncode(b[1..]);
    }
  }

  // ---------------------------------------------------------------- URIs

  datatype Uri = Uri(scheme: string, netloc: string, path: string, query: string, fragment: string)

  predicate SchemeChar(c: char) { IsAlpha(c) || IsDigit(c) || c == '+' || c == '-' || c == '.' }

  predicate EndsNetloc(c: char) { c == '/' || c == '?' || c == '#' }

  function NetlocLength(s: string): (n: nat)
    ensures n <= |s|
    ensures n < |s| ==> EndsNetloc(s[n])
    ensures forall i :: 0 <= i < n ==> !EndsNetloc(s[i])
  {
    if s == "" || EndsNetloc(s[0]) then 0 else 1 + NetlocLength(s[1..])
  }

  predicate Balanced(netloc: string) { ('[' in netloc) == (']' in netloc) }

  /** What the library says of a bracketed host; consulted only for locations with both brackets. */
  type HostCheck = string -> bool

  /** The library's checks of a network location. */
  predicate NetlocOk(hosts: HostCheck, netloc: string) { Balanced(netloc) && ('[' in netloc ==> hosts(netloc)) }

  predicate HasScheme(s: string) {
    var i := IndexOf(s, ':');
    0 < i < |s| && IsAlpha(s[0]) && forall c :: c in s[..i] ==> SchemeChar(c)
  }

  /** The lower-case scheme and what follows its colon. */
  function SplitScheme(s: string): (string, string) {
    if HasScheme(s) then (Lower(Before(s, ':')), After(s, ':')) else ("", s)
  }

  /** The network location after `//`, and the rest. */
  function SplitNetloc(s: string): (string, string) {
    if "//" <= s then
      var t := s[2..];
      (t[..NetlocLength(t)], t[NetlocLength(t)..])
    else ("", s)
  }

  /** `urllib.parse.urlsplit`; None is its ValueError about brackets and bracketed hosts. */
  function UrlSplit(hosts: HostCheck, text: string): Option<Uri> {
    var (scheme, rest) := SplitScheme(text);
    var (netloc, tail) := SplitNetloc(rest);
    var head := Before(tail, '#');
    if NetlocOk(hosts, netloc) then
      Some(Uri(scheme, netloc, Before(head, '?'), After(head, '?'), After(tail, '#')))
    else None
  }

  function Prefixed(c: char, s: string): string { if s == "" then "" else [c] + s }

  /** `urllib.parse.urlunsplit` for a URI with a scheme and a network location. */
  function UrlUnsplit(u: Uri): string {
    var path := if u.path != "" && u.path[0] != '/' then "/" + u.path else u.path;
    u.scheme + [':'] + ("//" + u.netloc + Tail(u.(path := path)))
  }

  function Tail(u: Uri): string {
    u.path + Prefixed('?', u.query) + Prefixed('#', u.fragment)
  }

  predicate WellFormed(u: Uri) {
    && u.scheme != "" && IsAlpha(u.scheme[0]) && (forall c :: c in u.scheme ==> SchemeChar(c))
    && Lower(u.scheme) == u.scheme
    && (forall c :: c in u.netloc ==> !EndsNetloc(c))
    && (u.path == "" || u.path[0] == '/') && '?' !in u.path && '#' !in u.path
    && '#' !in u.query
  }

  lemma PartitionOfPrefixed(head: string, c: char, tail: string)
    requires c !in head
    ensures var s := head + Prefixed(c, tail); Before(s, c) == head && After(s, c) == tail
  {
    var s := head + Prefixed(c, tail);
    if tail == "" {
      assert s == head;
    } else {
      assert s == head + [c] + tail;
      PartitionOf(head, c, tail);
    }
  }

  lemma SplitNetlocOfUnsplit(netloc: string, tail: string)
    requires forall c :: c in netloc ==> !EndsNetloc(c)
    requires tail == "" || EndsNetloc(tail[0])
    ensures SplitNetloc("//" + netloc + tail) == (netloc, tail)
  {
    var t := netloc + tail;
    assert ("//" + netloc + tail)[2..] == t;
    assert forall i :: 0 <= i < |netloc| ==> t[i] == netloc[i];
    assert tail != "" ==> t[|netloc|] == tail[0];
    assert NetlocLength(t) == |netloc|;
  }

  lemma SplitSchemeOfUnsplit(scheme: string, rest: string)
    requires scheme != "" && IsAlpha(scheme[0]) && (forall c :: c in scheme ==> SchemeChar(c)) && Lower(scheme) == scheme
    ensures SplitScheme(scheme + [':'] + rest) == (scheme, rest)
  {
    PartitionOf(scheme, ':', rest);
  }

  /** Splitting undoes unsplitting, up to the checks of its network location. */
  lemma SplitOfUnsplit(hosts: HostCheck, u: Uri)
    requires WellFormed(u)
    ensures UrlSplit(hosts, UrlUnsplit(u)) == if NetlocOk(hosts, u.netloc) then Some(u) else None
  {
    var tail := Tail(u);
    var rest := "//" + u.netloc + tail;
    var s := UrlUnsplit(u);
    SplitSchemeOfUnsplit(u.scheme, rest);
    assert tail == "" || EndsNetloc(tail[0]);
    SplitNetlocOfUnsplit(u.netloc, tail);
    PartitionOfPrefixed(u.path + Prefixed('?', u.query), '#', u.fragment);
    PartitionOfPrefixed(u.path, '?', u.query);
  }

  lemma PartitionSize(s: string, c: char)
    ensures |Encode(Before(s, c))| + |Encode(Prefixed(c, After(s, c)))| <= |Encode(s)|
  {
    hide Before, After, EncodeChar;
    Partition(s, c);
    if c in s {
      EncodeConcat(Before(s, c), [c] + After(s, c));
      assert s == Before(s, c) + ([c] + After(s, c));
    }
  }

  lemma {:induction false} EncodeLower(s: string)
    ensures |Encode(Lower(s))| == |Encode(s)|
  {
    if s != "" {
      EncodeLower(s[1..]);
      assert Lower(s)[1..] == Lower(s[1..]);
    }
  }

  lemma SchemeText(s: string)
    requires HasScheme(s)
    ensures s == Before(s, ':') + [':'] + SplitScheme(s).1
    ensures Before(s, ':') != "" && IsAlpha(Before(s, ':')[0]) && forall c :: c in Before(s, ':') ==> SchemeChar(c)
  {
    hide SchemeChar, IsAlpha, Lower;
  }

  lemma SplitSchemeShape(s: string)
    requires HasScheme(s)
    ensures var (scheme, rest) := SplitScheme(s);
      && s == Before(s, ':') + [':'] + rest
      && IsAlpha(scheme[0]) && (forall c :: c in scheme ==> SchemeChar(c)) && Lower(scheme) == scheme
      && |Encode(scheme)| == |Encode(Before(s, ':'))|
  {
    SchemeText(s);
    LowerScheme(Before(s, ':'));
    EncodeLower(Before(s, ':'));
    hide SchemeChar, IsAlpha, Before, After, Encode;
  }

  lemma SplitNetlocShape(s: string)
    requires "//" <= s
    ensures var (netloc, tail) := SplitNetloc(s);
      && s == "//" + netloc + tail
      && (forall c :: c in netloc ==> !EndsNetloc(c))
      && (tail == "" || EndsNetloc(tail[0]))
  {}

  lemma SplitTailShape(tail: string)
    requires tail == "" || EndsNetloc(tail[0])
    ensures var head := Before(tail, '#'); var path := Before(head, '?');
      && (path == "" || path[0] == '/') && '?' !in path && '#' !in path && '#' !in After(head, '?')
  {
    Partition(tail, '#');
    Partition(Before(tail, '#'), '?');
  }

  /** What splitting produces is well formed, unless the prefix has a letter that only folding makes one of its own. */
  lemma SplitShape(hosts: HostCheck, text: string)
    requires HasPgPrefix(text) && UrlSplit(hosts, text).Some?
    ensures WellFormed(UrlSplit(hosts, text).value) <==> PlainPrefix(text)
    ensures !PlainPrefix(text) ==> UrlSplit(hosts, text).value.scheme == "" && UrlSplit(hosts, text).value.netloc == ""
  {
    hide HasPgPrefix, PlainPrefix;
    if PlainPrefix(text) {
      PlainShape(hosts, text);
    } else {
      FoldedShape(text);
    }
  }

  lemma PlainShape(hosts: HostCheck, text: string)
    requires PlainPrefix(text) && UrlSplit(hosts, text).Some?
    ensures WellFormed(UrlSplit(hosts, text).value)
  {
    PgScheme(text);
    hide HasScheme, PlainPrefix, Before, After, NetlocOk;
    var (scheme, rest) := SplitScheme(text);
    var (netloc, tail) := SplitNetloc(rest);
    assert HasScheme(text);
    SplitSchemeShape(text);
    SplitNetlocShape(rest);
    SplitTailShape(tail);
  }

  /** Printing a split URI again never takes more bytes. */
  lemma SplitSize(hosts: HostCheck, text: string)
    requires HasPgPrefix(text) && UrlSplit(hosts, text).Some? && UrlSplit(hosts, text).value.netloc != ""
    ensures |Encode(UrlUnsplit(UrlSplit(hosts, text).value))| <= |Encode(text)|
  {
    SplitShape(hosts, text);
    var u := UrlSplit(hosts, text).value;
    var (scheme, rest) := SplitScheme(text);
    var (netloc, tail) := SplitNetloc(rest);
    SplitSchemeShape(text);
    SplitNetlocShape(rest);
    EncodeJoin(Before(text, ':'), netloc, tail);
    EncodeJoin(scheme, netloc, Tail(u));
    TailSize(u, tail);
  }

  lemma TailSize(u: Uri, tail: string)
    requires u.fragment == After(tail, '#')
    requires u.path == Before(Before(tail, '#'), '?') && u.query == After(Before(tail, '#'), '?')
    ensures |Encode(Tail(u))| <= |Encode(tail)|
  {
    PartitionSize(tail, '#');
    PartitionSize(Before(tail, '#'), '?');
    EncodeConcat(u.path + Prefixed('?', u.query), Prefixed('#', u.fragment));
    EncodeConcat(u.path, Prefixed('?', u.query));
  }

  lemma LowerScheme(s: string)
    requires s != "" && IsAlpha(s[0]) && forall c :: c in s ==> SchemeChar(c)
    ensures var l := Lower(s); IsAlpha(l[0]) && (forall c :: c in l ==> SchemeChar(c)) && Lower(l) == l
  {}

  lemma EncodeJoin(scheme: string, netloc: string, tail: string)
    ensures |Encode(scheme + [':'] + ("//" + netloc + tail))|
         == |Encode(scheme)| + 3 + |Encode(netloc)| + |Encode(tail)|
  {
    EncodeConcat(scheme + [':'], "//" + netloc + tail);
    EncodeConcat(scheme, [':']);
    EncodeConcat("//" + netloc, tail);
    EncodeConcat("//", netloc);
    assert |Encode("//")| == 2 && |Encode([':'])| == 1 by {
      assert "//"[1..] == "/" && "/"[1..] == "" && [':'][1..] == "";
    }
  }

  // ---------------------------------------------------------------- supported URIs

  predicate IsPgScheme(scheme: string) { scheme == "postgresql" || scheme == "postgres" }

  function FoldChar(c: char): (r: string)
    ensures r != ""
  {
    if c == '\U{17f}' then "s" else if c == '\U{fb05}' || c == '\U{fb06}' then "st" else [LowerChar(c)]
  }

  /** `str.casefold` as far as a fold can yield letters of the two prefixes: the long s and its ligatures with t. */
  function CaseFold(s: string): string {
    if s == "" then "" else FoldChar(s[0]) + CaseFold(s[1..])
  }

  predicate StartsPg(folded: string) { "postgresql://" <= folded || "postgres://" <= folded }

  predicate HasPgPrefix(text: string) { StartsPg(CaseFold(text)) }

  /** The prefix in ASCII letters, as the library's splitter needs it. */
  predicate PlainPrefix(text: string) { StartsPg(Lower(text)) }

  function Endpoint(netloc: string): string { netloc[LastIndexOf(netloc, '@') + 1..] }

  /** The user information before the last `@`. */
  function UserInfo(netloc: string): Option<string> {
    var at := LastIndexOf(netloc, '@');
    if at < 0 then None else Some(netloc[..at])
  }

  /** The password urllib reports for a network location. */
  function PasswordOf(netloc: string): Option<string> {
    match UserInfo(netloc)
    case None => None
    case Some(info) => if ':' in info then Some(After(info, ':')) else None
  }

  /** The text urllib reads the port of an endpoint from. */
  function PortText(endpoint: string): string {
    After(if '[' in endpoint then After(After(endpoint, '['), ']') else endpoint, ':')
  }

  predicate PortOk(netloc: string) {
    var port := PortText(Endpoint(netloc));
    port == "" || (AllDigits(port) && ReadNat(port) <= 65535)
  }

  /** ASCII decoding; None is a UnicodeError. */
  function AsText(b: seq<Byte>): Option<string> {
    if b == [] then Some("")
    else if b[0] >= 128 || AsText(b[1..]).None? then None
    else Some([b[0] as char] + AsText(b[1..]).value)
  }

  /** A query field libpq would read as a password. */
  predicate SecretField(field: string) {
    var key := AsText(Unquote(Before(field, '=')));
    key.Some? && (Lower(key.value) == "password" || Lower(key.value) == "sslpassword")
  }

  predicate AnySecret(fields: seq<string>) {
    fields != [] && (SecretField(fields[0]) || AnySecret(fields[1..]))
  }

  predicate CarriesSecret(query: string) { AnySecret(SplitOn(query, '&')) }

  /** `_validated_profile_uri`; None is its ValueError. */
  function Validated(hosts: HostCheck, text: string): Option<Uri> {
    if !HasPgPrefix(text) then None
    else match UrlSplit(hosts, text)
      case None => None
      case Some(u) => if Usable(u) then Some(u) else None
  }

  predicate Usable(u: Uri) { PortOk(u.netloc) && !CarriesSecret(u.query) }

  predicate HasControl(text: string) { '\0' in text || '\r' in text || '\n' in text }

  /** What `_parse_profile_uri` returns. */
  datatype Parsed = Parsed(connection: string, secret: seq<Byte>, credential: bool)

  function WithNetloc(u: Uri, netloc: string): string { UrlUnsplit(u.(netloc := netloc)) }

  function Credentials(user: string, password: string, endpoint: string): string {
    user + [':'] + password + ['@'] + endpoint
  }

  /** `_parse_profile_uri` on decoded input; None is its ValueError. */
  function ParseProfileUri(hosts: HostCheck, text: string): Option<Parsed> {
    if text == "" || |Encode(text)| > INPUT_LIMIT || HasControl(text) then None
    else match Validated(hosts, text)
      case None => None
      case Some(u) =>
        match UserInfo(u.netloc)
        case None => Some(Parsed(text, [], false))
        case Some(info) =>
          if ':' !in info then Some(Parsed(text, [], false))
          else
            var user, password := Before(info, ':'), After(info, ':');
            if password == "" then
              Some(Parsed(WithNetloc(u, user + ['@'] + Endpoint(u.netloc)), [], false))
            else
              var secret := Unquote(password);
              if secret == [] || 0 in secret then None
              else Some(Parsed(WithNetloc(u, Credentials(user, MASK, Endpoint(u.netloc))), secret, true))
  }

  /** A value found in the profiles file. */
  datatype Marker = Missing | NotBool | Flag(value: bool)
  datatype Entry = NotAnObject | Record(connection: Option<string>, marker: Marker)

  /** The credential expectation of a validated connection; None is a ValueError. */
  function ReadMarker(marker: Marker, password: Option<string>): Option<bool> {
    match marker
    case Missing =>
      if password == Some(MASK) then Some(true)
      else if password == None || password == Some("") then Some(false)
      else None
    case NotBool => None
    case Flag(explicit) =>
      if (explicit && password != Some(MASK)) || (!explicit && password != None && password != Some("")) then None
      else Some(explicit)
  }

  /** `_profile_record`; None is its ValueError. */
  function ProfileRecord(hosts: HostCheck, entry: Entry): Option<(string, bool)> {
    if entry.NotAnObject? || entry.connection.None? || entry.connection.value == "" then None
    else
      var text := entry.connection.value;
      if |Encode(text)| > INPUT_LIMIT || HasControl(text) || Validated(hosts, text).None? then None
      else
        match ReadMarker(entry.marker, PasswordOf(Validated(hosts, text).value.netloc))
        case None => None
        case Some(required) => Some((text, required))
  }

  /** The record `store_profile` builds for a parsed URI. */
  function RecordOf(p: Parsed): Entry { Record(Some(p.connection), Flag(p.credential)) }

  // ---------------------------------------------------------------- properties

  lemma LowerLetters(a: string, name: string)
    requires Lower(a) == name && forall c :: c in name ==> 'a' <= c <= 'z'
    ensures forall c :: c in a ==> IsAlpha(c)
  {
    forall i | 0 <= i < |a|
      ensures IsAlpha(a[i])
    {
      assert LowerChar(a[i]) == name[i] && name[i] in name;
    }
  }

  lemma PgPrefixParts(text: string, name: string)
    requires name + "://" <= Lower(text)
    ensures |text| >= |name| + 3 && Lower(text[..|name|]) == name
    ensures text == text[..|name|] + "://" + text[|name| + 3..]
  {
    var n := |name|;
    assert Lower(text)[..n] == name;
    forall k | 0 <= k < 3
      ensures text[n + k] == "://"[k]
    {
      assert Lower(text)[n + k] == (name + "://")[n + k];
    }
  }

  lemma SplitPgScheme(a: string, rest: string, name: string)
    requires Lower(a) == name && IsPgScheme(name)
    ensures var s := a + [':'] + rest; HasScheme(s) && SplitScheme(s) == (name, rest)
  {
    LowerLetters(a, name);
    PartitionOf(a, ':', rest);
  }

  lemma PgSchemeNamed(text: string, name: string)
    requires name + "://" <= Lower(text) && IsPgScheme(name)
    ensures HasScheme(text) && SplitScheme(text).0 == name
    ensures "//" <= SplitScheme(text).1
  {
    PgPrefixParts(text, name);
    var rest := "//" + text[|name| + 3..];
    assert text == text[..|name|] + [':'] + rest;
    SplitPgScheme(text[..|name|], rest, name);
  }

  lemma PgScheme(text: string)
    requires PlainPrefix(text)
    ensures HasScheme(text) && IsPgScheme(SplitScheme(text).0)
    ensures "//" <= SplitScheme(text).1
  {
    if "postgresql://" <= Lower(text) {
      PgSchemeNamed(text, "postgresql");
    } else {
      PgSchemeNamed(text, "postgres");
    }
  }

  lemma PgPrefixOfUnsplit(u: Uri)
    requires IsPgScheme(u.scheme)
    ensures PlainPrefix(UrlUnsplit(u)) && HasPgPrefix(UrlUnsplit(u))
  {
    hide Tail, HasPgPrefix;
    var s := UrlUnsplit(u);
    forall i | 0 <= i < |u.scheme| + 3
      ensures LowerChar(s[i]) == (u.scheme + "://")[i]
    {}
    assert u.scheme + "://" == Lower(s)[..|u.scheme| + 3];
    PlainHasPrefix(s);
  }

  lemma {:induction false} FoldConcat(a: string, b: string)
    ensures CaseFold(a + b) == CaseFold(a) + CaseFold(b)
  {
    hide FoldChar;
    if a == "" {
      assert a + b == b && CaseFold(a) == "";
    } else {
      FoldConcat(a[1..], b);
      assert FoldChar(a[0]) + (CaseFold(a[1..]) + CaseFold(b)) == FoldChar(a[0]) + CaseFold(a[1..]) + CaseFold(b);
      assert (a + b)[1..] == a[1..] + b;
    }
  }

  predicate Ascii(s: string) { forall i :: 0 <= i < |s| ==> s[i] as int < 128 }

  lemma {:induction false} FoldPlain(s: string)
    requires Ascii(s)
    ensures CaseFold(s) == Lower(s)
  {
    if s != "" {
      FoldPlain(s[1..]);
      assert Lower(s) == [LowerChar(s[0])] + Lower(s[1..]);
    }
  }

  lemma PlainHasPrefixNamed(text: string, name: string)
    requires name + "://" <= Lower(text) && IsPgScheme(name)
    ensures name + "://" <= CaseFold(text)
  {
    PgPrefixParts(text, name);
    var a := text[..|name|];
    LowerLetters(a, name);
    FoldPlain(a + "://");
    FoldConcat(a + "://", text[|name| + 3..]);
    assert Lower(a + "://") == name + "://";
  }

  lemma PlainHasPrefix(text: string)
    requires PlainPrefix(text)
    ensures HasPgPrefix(text)
  {
    hide CaseFold;
    if "postgresql://" <= Lower(text) {
      PlainHasPrefixNamed(text, "postgresql");
    } else {
      PlainHasPrefixNamed(text, "postgres");
    }
  }

  lemma FoldHead(s: string)
    requires CaseFold(s) != ""
    ensures s != "" && (CaseFold(s)[0] == '/' <==> s[0] == '/')
    ensures s[0] == '/' ==> CaseFold(s)[1..] == CaseFold(s[1..])
  {}

  /** Two readings of one text up to its first colon. */
  lemma SameHead(a: string, x: string, b: string, y: string)
    requires ':' !in a && ':' !in b && b + ":" + y <= a + ":" + x
    ensures a == b && y <= x
  {
    var s := a + ":" + x;
    assert s[|b|] == ':' && s[|a|] == ':';
    assert forall k :: 0 <= k < |b| ==> s[k] == b[k];
    assert forall k :: 0 <= k < |a| ==> s[k] == a[k];
    assert |a| == |b|;
    assert a == s[..|a|] && b == s[..|b|];
    assert x == s[|a| + 1..];
  }

  lemma FoldedSlashes(b: string)
    requires "//" <= CaseFold(b)
    ensures "//" <= b
  {
    FoldHead(b);
    FoldHead(b[1..]);
    hide CaseFold;
  }

  lemma SchemeIsAscii(s: string)
    requires forall c :: c in s ==> SchemeChar(c)
    ensures ':' !in Lower(s) && Ascii(s)
  {
    forall i | 0 <= i < |s|
      ensures s[i] as int < 128 && Lower(s)[i] != ':'
    {
      assert SchemeChar(s[i]);
    }
  }

  /** What folding makes of a text with a plain head before its first colon. */
  lemma FoldHeaded(a: string, b: string)
    requires Ascii(a)
    ensures CaseFold(a + ":" + b) == Lower(a) + ":" + CaseFold(b)
  {
    FoldPlain(a);
    FoldPlain(":");
    FoldConcat(a + ":", b);
    FoldConcat(a, ":");
    assert Lower(":") == ":";
  }

  lemma LowerHeaded(a: string, b: string)
    requires "//" <= b
    ensures Lower(a) + "://" <= Lower(a + ":" + b)
  {
    var s := a + ":" + b;
    forall k | 0 <= k < |a| + 3
      ensures Lower(s)[k] == (Lower(a) + "://")[k]
    {
      assert k < |a| ==> s[k] == a[k];
      assert k == |a| ==> s[k] == ':';
      assert k > |a| ==> s[k] == b[k - |a| - 1];
    }
  }

  lemma LocatedIsPlainNamed(text: string, name: string)
    requires HasScheme(text) && ':' !in name && name + "://" <= CaseFold(text)
    ensures name + "://" <= Lower(text)
  {
    SchemeText(text);
    var a, b := Before(text, ':'), SplitScheme(text).1;
    SchemeIsAscii(a);
    FoldHeaded(a, b);
    hide HasScheme, SplitScheme, Before, CaseFold, SchemeChar, IsAlpha, Lower;
    assert name + ":" + "//" == name + "://";
    SameHead(Lower(a), CaseFold(b), name, "//");
    FoldedSlashes(b);
    LowerHeaded(a, b);
  }

  /** A prefix that needs folding hides the scheme and the network location from the splitter. */
  lemma FoldedShape(text: string)
    requires HasPgPrefix(text) && !PlainPrefix(text)
    ensures !HasScheme(text) && !("//" <= text)
  {
    FoldHead(text);
    hide CaseFold, HasScheme;
    if HasScheme(text) {
      if "postgresql://" <= CaseFold(text) {
        LocatedIsPlainNamed(text, "postgresql");
      } else {
        LocatedIsPlainNamed(text, "postgres");
      }
    }
  }

  lemma CredentialsShape(user: string, password: string, endpoint: string)
    requires ':' !in user && '@' !in endpoint
    ensures var n := Credentials(user, password, endpoint);
      UserInfo(n) == Some(user + [':'] + password) && Endpoint(n) == endpoint && PasswordOf(n) == Some(password)
  {
    var info := user + [':'] + password;
    LastIndexOfBefore(info, '@', endpoint);
    var n := info + ['@'] + endpoint;
    assert n[..|info|] == info && n[|info| + 1..] == endpoint;
    PartitionOf(user, ':', password);
  }

  lemma UserOnlyShape(user: string, endpoint: string)
    requires ':' !in user && '@' !in endpoint
    ensures var n := user + ['@'] + endpoint;
      UserInfo(n) == Some(user) && Endpoint(n) == endpoint && PasswordOf(n) == None
  {
    LastIndexOfBefore(user, '@', endpoint);
    var n := user + ['@'] + endpoint;
    assert n[..|user|] == user && n[|user| + 1..] == endpoint;
  }

  predicate NetlocSafe(netloc: string) { forall c :: c in netloc ==> !EndsNetloc(c) }

  lemma SplitWithNetloc(hosts: HostCheck, text: string, netloc: string)
    requires HasPgPrefix(text) && UrlSplit(hosts, text).Some? && UrlSplit(hosts, text).value.netloc != "" && NetlocSafe(netloc)
    ensures var u := UrlSplit(hosts, text).value.(netloc := netloc);
      && HasPgPrefix(UrlUnsplit(u))
      && UrlSplit(hosts, UrlUnsplit(u)) == if NetlocOk(hosts, netloc) then Some(u) else None
  {
    SplitShape(hosts, text);
    PgScheme(text);
    var u := UrlSplit(hosts, text).value.(netloc := netloc);
    assert WellFormed(u);
    PgPrefixOfUnsplit(u);
    SplitOfUnsplit(hosts, u);
  }

  /** Swapping the user information of a validated URI leaves it valid, up to the checks of its network location. */
  lemma ValidatedWithNetloc(hosts: HostCheck, text: string, netloc: string)
    requires Validated(hosts, text).Some? && Validated(hosts, text).value.netloc != "" && NetlocSafe(netloc)
    requires Endpoint(netloc) == Endpoint(Validated(hosts, text).value.netloc)
    ensures var u := Validated(hosts, text).value.(netloc := netloc);
      Validated(hosts, UrlUnsplit(u)) == if NetlocOk(hosts, netloc) then Some(u) else None
  {
    SplitWithNetloc(hosts, text, netloc);
    var u := UrlSplit(hosts, text).value;
    assert Usable(u.(netloc := netloc));
  }

  predicate Within(part: string, whole: string) { forall c :: c in part ==> c in whole }

  lemma PartitionWithin(s: string, c: char)
    ensures Within(Before(s, c), s) && Within(After(s, c), s)
  {
    hide Before, After;
    Partition(s, c);
    if c in s {
      assert forall d :: d in s <==> d in Before(s, c) || d == c || d in After(s, c);
    }
  }

  lemma RestWithin(text: string)
    ensures Within(SplitScheme(text).1, text)
  {
    hide HasScheme, Lower, Before, After;
    PartitionWithin(text, ':');
  }

  lemma NetlocWithin(rest: string)
    ensures Within(SplitNetloc(rest).0, rest) && Within(SplitNetloc(rest).1, rest)
  {
    hide NetlocLength;
  }

  lemma SplitChars(hosts: HostCheck, text: string, u: Uri)
    requires UrlSplit(hosts, text) == Some(u) && u.netloc != "" && u.scheme != ""
    ensures forall c :: c in u.netloc || c in Tail(u) ==> c in text || c == '?' || c == '#'
  {
    hide NetlocOk, Before, After, SplitScheme, SplitNetloc;
    var rest := SplitScheme(text).1;
    var tail := SplitNetloc(rest).1;
    RestWithin(text);
    NetlocWithin(rest);
    PartitionWithin(tail, '#');
    PartitionWithin(Before(tail, '#'), '?');
    assert Within(u.path, text) && Within(u.query, text) && Within(u.fragment, text) && Within(u.netloc, text);
  }

  lemma ControlFreeJoin(scheme: string, netloc: string, tail: string)
    requires forall c :: c in scheme ==> SchemeChar(c)
    requires !HasControl(netloc) && !HasControl(tail)
    ensures !HasControl(scheme + [':'] + ("//" + netloc + tail))
  {
    assert !SchemeChar('\0') && !SchemeChar('\r') && !SchemeChar('\n');
    assert !HasControl(scheme) && !HasControl([':']) && !HasControl("//");
  }

  lemma ControlFreeWithNetloc(hosts: HostCheck, text: string, netloc: string)
    requires HasPgPrefix(text) && UrlSplit(hosts, text).Some? && UrlSplit(hosts, text).value.netloc != ""
    requires !HasControl(text) && !HasControl(netloc)
    ensures !HasControl(WithNetloc(UrlSplit(hosts, text).value, netloc))
  {
    SplitShape(hosts, text);
    PgScheme(text);
    var u := UrlSplit(hosts, text).value;
    SplitChars(hosts, text, u);
    ControlFreeJoin(u.scheme, netloc, Tail(u));
  }

  /** The pieces of a network location that carries a password field. */
  lemma NetlocParts(netloc: string)
    requires UserInfo(netloc).Some? && ':' in UserInfo(netloc).value
    ensures var info := UserInfo(netloc).value;
      && netloc == Credentials(Before(info, ':'), After(info, ':'), Endpoint(netloc))
      && '@' !in Endpoint(netloc)
  {
    var at := LastIndexOf(netloc, '@');
    assert netloc == netloc[..at] + ['@'] + netloc[at + 1..];
  }

  /** The network location that takes the place of one with a password field; None leaves the text alone. */
  function Rewritten(netloc: string): Option<string> {
    match UserInfo(netloc)
    case None => None
    case Some(info) =>
      if ':' !in info then None
      else if After(info, ':') == "" then Some(Before(info, ':') + ['@'] + Endpoint(netloc))
      else Some(Credentials(Before(info, ':'), MASK, Endpoint(netloc)))
  }

  /** The masked connection validates exactly when its new network location passes the library's checks. */
  lemma MaskedValidates(hosts: HostCheck, text: string)
    requires ParseProfileUri(hosts, text).Some? && ParseProfileUri(hosts, text).value.credential
    ensures var p := ParseProfileUri(hosts, text).value; var kept := Rewritten(Validated(hosts, text).value.netloc);
      && kept.Some? && !HasControl(p.connection)
      && (NetlocOk(hosts, kept.value) ==>
            Validated(hosts, p.connection).Some? && PasswordOf(Validated(hosts, p.connection).value.netloc) == Some(MASK))
      && (!NetlocOk(hosts, kept.value) ==> Validated(hosts, p.connection).None?)
  {
    hide Unquote, Encode, CarriesSecret, PortOk, IndexOf, LastIndexOf, NetlocOk;
    var u := Validated(hosts, text).value;
    var info := UserInfo(u.netloc).value;
    var user, password, endpoint := Before(info, ':'), After(info, ':'), Endpoint(u.netloc);
    SplitShape(hosts, text);
    PgScheme(text);
    SplitChars(hosts, text, u);
    NetlocParts(u.netloc);
    CredentialsShape(user, MASK, endpoint);
    var netloc := Credentials(user, MASK, endpoint);
    NetlocCharsKept(u.netloc, user, password, endpoint, text);
    ValidatedWithNetloc(hosts, text, netloc);
    ControlFreeWithNetloc(hosts, text, netloc);
  }

  lemma NetlocCharsKept(netloc: string, user: string, password: string, endpoint: string, text: string)
    requires netloc == Credentials(user, password, endpoint)
    requires NetlocSafe(netloc) && forall c :: c in netloc ==> c in text || c == '?' || c == '#'
    requires !HasControl(text)
    ensures NetlocSafe(Credentials(user, MASK, endpoint)) && !HasControl(Credentials(user, MASK, endpoint))
    ensures NetlocSafe(user + ['@'] + endpoint) && !HasControl(user + ['@'] + endpoint)
  {
    assert forall c :: c in user || c in endpoint ==> c in netloc;
  }

  lemma PasswordlessValidates(hosts: HostCheck, text: string)
    requires ParseProfileUri(hosts, text).Some? && !ParseProfileUri(hosts, text).value.credential
    ensures var p := ParseProfileUri(hosts, text).value; var kept := Rewritten(Validated(hosts, text).value.netloc);
      && !HasControl(p.connection)
      && ((kept.Some? ==> NetlocOk(hosts, kept.value)) ==>
            Validated(hosts, p.connection).Some? && PasswordOf(Validated(hosts, p.connection).value.netloc) == None)
      && (kept.Some? && !NetlocOk(hosts, kept.value) ==> Validated(hosts, p.connection).None?)
  {
    hide Unquote, Encode, CarriesSecret, PortOk, IndexOf, LastIndexOf, NetlocOk;
    var u := Validated(hosts, text).value;
    if UserInfo(u.netloc).Some? && ':' in UserInfo(u.netloc).value {
      var info := UserInfo(u.netloc).value;
      var user, endpoint := Before(info, ':'), Endpoint(u.netloc);
      SplitShape(hosts, text);
      PgScheme(text);
      SplitChars(hosts, text, u);
      NetlocParts(u.netloc);
      UserOnlyShape(user, endpoint);
      NetlocCharsKept(u.netloc, user, "", endpoint, text);
      ValidatedWithNetloc(hosts, text, user + ['@'] + endpoint);
      ControlFreeWithNetloc(hosts, text, user + ['@'] + endpoint);
    }
  }

  lemma WithNetlocSize(hosts: HostCheck, text: string, netloc: string)
    requires HasPgPrefix(text) && UrlSplit(hosts, text).Some? && UrlSplit(hosts, text).value.netloc != ""
    ensures var u := UrlSplit(hosts, text).value;
      && |Encode(WithNetloc(u, netloc))| + |Encode(u.netloc)| <= |Encode(text)| + |Encode(netloc)|
      && WithNetloc(u, netloc) != ""
  {
    SplitShape(hosts, text);
    PgScheme(text);
    SplitSize(hosts, text);
    var u := UrlSplit(hosts, text).value;
    EncodeJoin(u.scheme, u.netloc, Tail(u));
    EncodeJoin(u.scheme, netloc, Tail(u));
  }

  lemma MaskedSize(hosts: HostCheck, text: string)
    requires ParseProfileUri(hosts, text).Some?
    ensures |Encode(ParseProfileUri(hosts, text).value.connection)| <= |Encode(text)| + 3
    ensures ParseProfileUri(hosts, text).value.connection != ""
  {
    hide UrlSplit, Encode, Unquote, WithNetloc, CarriesSecret, PortOk;
    var u := Validated(hosts, text).value;
    if UserInfo(u.netloc).Some? && ':' in UserInfo(u.netloc).value {
      var info := UserInfo(u.netloc).value;
      var user, password, endpoint := Before(info, ':'), After(info, ':'), Endpoint(u.netloc);
      NetlocParts(u.netloc);
      CredentialsSize(user, password, endpoint);
      WithNetlocSize(hosts, text, user + ['@'] + endpoint);
      WithNetlocSize(hosts, text, Credentials(user, MASK, endpoint));
    }
  }

  lemma CredentialsSize(user: string, password: string, endpoint: string)
    ensures |Encode(Credentials(user, password, endpoint))| == |Encode(user)| + |Encode(password)| + |Encode(endpoint)| + 2
    ensures |Encode(Credentials(user, MASK, endpoint))| == |Encode(user)| + 4 + |Encode(endpoint)| + 2
    ensures |Encode(user + ['@'] + endpoint)| == |Encode(user)| + |Encode(endpoint)| + 1
  {
    NetlocSize(user, password, endpoint);
    NetlocSize(user, MASK, endpoint);
    EncodeConcat(user + ['@'], endpoint);
    EncodeConcat(user, ['@']);
    assert ['@'][1..] == "";
    assert |Encode(MASK)| == 4 by {
      assert MASK[1..] == "***" && "***"[1..] == "**" && "**"[1..] == "*" && "*"[1..] == "";
    }
  }

  lemma NetlocSize(user: string, password: string, endpoint: string)
    ensures |Encode(Credentials(user, password, endpoint))| == |Encode(user)| + |Encode(password)| + |Encode(endpoint)| + 2
  {
    EncodeConcat(user + [':'] + password + ['@'], endpoint);
    EncodeConcat(user + [':'] + password, ['@']);
    EncodeConcat(user + [':'], password);
    EncodeConcat(user, [':']);
    assert [':'][1..] == "" && ['@'][1..] == "";
  }

  /**
   What a record built from an accepted URI still needs: its text within the limit, and its network
   location, if it was rewritten, past the library's checks.
   */
  predicate RecordFits(hosts: HostCheck, text: string)
    requires ParseProfileUri(hosts, text).Some?
  {
    var kept := Rewritten(Validated(hosts, text).value.netloc);
    |Encode(ParseProfileUri(hosts, text).value.connection)| <= INPUT_LIMIT && (kept.Some? ==> NetlocOk(hosts, kept.value))
  }

  /**
   Every accepted URI yields a record the validator accepts with the same credential bit, exactly
   when that holds. The record without its explicit marker is read the same way.
   */
  lemma RecordOfParsedUri(hosts: HostCheck, text: string)
    requires ParseProfileUri(hosts, text).Some?
    ensures var p := ParseProfileUri(hosts, text).value;
      && ProfileRecord(hosts, RecordOf(p)) == (if RecordFits(hosts, text) then Some((p.connection, p.credential)) else None)
      && ProfileRecord(hosts, Record(Some(p.connection), Missing)) == ProfileRecord(hosts, RecordOf(p))
  {
    hide ParseProfileUri, Validated, PasswordOf, Encode, Rewritten, NetlocOk;
    MaskedSize(hosts, text);
    if ParseProfileUri(hosts, text).value.credential {
      MaskedValidates(hosts, text);
    } else {
      PasswordlessValidates(hosts, text);
    }
  }

  predicate IsBracket(c: char) { c == '[' || c == ']' }

  predicate BracketFree(s: string) { '[' !in s && ']' !in s }

  /** A host check that looks at nothing before the last `@`. */
  ghost predicate ByEndpoint(hosts: HostCheck) { forall n, m :: Endpoint(n) == Endpoint(m) ==> hosts(n) == hosts(m) }

  /** The brackets of a rewritten network location are those outside its password. */
  lemma RewrittenBrackets(netloc: string, c: char)
    requires Rewritten(netloc).Some? && IsBracket(c)
    ensures PasswordOf(netloc).Some? && Endpoint(Rewritten(netloc).value) == Endpoint(netloc)
    ensures c in Rewritten(netloc).value ==> c in netloc
    ensures c in netloc ==> c in Rewritten(netloc).value || c in PasswordOf(netloc).value
  {
    hide UserInfo, Endpoint, Before, After;
    NetlocParts(netloc);
    var info := UserInfo(netloc).value;
    var user, password, endpoint := Before(info, ':'), After(info, ':'), Endpoint(netloc);
    assert ':' !in user by {
      Partition(info, ':');
    }
    UserOnlyShape(user, endpoint);
    CredentialsShape(user, MASK, endpoint);
    assert c !in [':'] && c !in ['@'] && c !in MASK;
  }

  lemma RewrittenOk(hosts: HostCheck, netloc: string)
    requires NetlocOk(hosts, netloc) && Rewritten(netloc).Some?
    requires BracketFree(netloc) || (ByEndpoint(hosts) && (PasswordOf(netloc).Some? ==> BracketFree(PasswordOf(netloc).value)))
    ensures NetlocOk(hosts, Rewritten(netloc).value)
  {
    hide Rewritten, PasswordOf, Endpoint;
    RewrittenBrackets(netloc, '[');
    RewrittenBrackets(netloc, ']');
  }

  /**
   Inputs at most three bytes below the limit always fit, if their network location has no brackets,
   or the host check looks only at the endpoint and the password has none.
   */
  lemma ShortInputsFit(hosts: HostCheck, text: string)
    requires ParseProfileUri(hosts, text).Some? && |Encode(text)| <= INPUT_LIMIT - 3
    requires var netloc := Validated(hosts, text).value.netloc;
      BracketFree(netloc) || (ByEndpoint(hosts) && (PasswordOf(netloc).Some? ==> BracketFree(PasswordOf(netloc).value)))
    ensures RecordFits(hosts, text)
  {
    assert Validated(hosts, text).Some?;
    hide ParseProfileUri, Validated, Encode, NetlocOk, Rewritten, PasswordOf;
    MaskedSize(hosts, text);
    AcceptedNetloc(hosts, text);
    var netloc := Validated(hosts, text).value.netloc;
    if Rewritten(netloc).Some? {
      RewrittenOk(hosts, netloc);
    }
  }

  lemma AcceptedNetloc(hosts: HostCheck, text: string)
    requires Validated(hosts, text).Some?
    ensures NetlocOk(hosts, Validated(hosts, text).value.netloc)
  {
    hide NetlocOk, SplitScheme, SplitNetloc, Before, After, Usable, HasPgPrefix;
  }

  function BareUri(netloc: string): Uri { Uri("postgres", netloc, "", "", "") }

  lemma BareUriValidates(hosts: HostCheck, netloc: string)
    requires NetlocSafe(netloc) && NetlocOk(hosts, netloc) && PortText(Endpoint(netloc)) == ""
    ensures Validated(hosts, UrlUnsplit(BareUri(netloc))) == Some(BareUri(netloc))
  {
    hide UrlSplit, UrlUnsplit, PortText, Endpoint, HasPgPrefix, SecretField;
    var u := BareUri(netloc);
    SplitOfUnsplit(hosts, u);
    PgPrefixOfUnsplit(u);
    NoSecretField();
  }

  lemma NoSecretField()
    ensures !CarriesSecret("")
  {
    UnquoteIsPercentDecode("");
    assert SplitOn("", '&') == [""];
  }

  predicate BareNetloc(hosts: HostCheck, netloc: string) {
    NetlocSafe(netloc) && NetlocOk(hosts, netloc) && !HasControl(netloc) && |netloc| <= 1000
  }

  /** A masked connection: a record with a credential can be stored with it. */
  function SampleConnection(): string { UrlUnsplit(BareUri(Credentials("u", MASK, "h"))) }

  lemma BareText(hosts: HostCheck, netloc: string)
    requires BareNetloc(hosts, netloc)
    ensures var text := UrlUnsplit(BareUri(netloc));
      text != "" && !HasControl(text) && |Encode(text)| <= INPUT_LIMIT - 3
  {
    hide NetlocOk;
    EncodeBound(UrlUnsplit(BareUri(netloc)));
    ControlFreeJoin("postgres", netloc, "");
  }

  lemma MaskedBareRecord(hosts: HostCheck, user: string, endpoint: string)
    requires ':' !in user && '@' !in endpoint && PortText(endpoint) == ""
    requires BareNetloc(hosts, Credentials(user, MASK, endpoint))
    ensures var text := UrlUnsplit(BareUri(Credentials(user, MASK, endpoint)));
      ProfileRecord(hosts, Record(Some(text), Flag(true))) == Some((text, true))
  {
    hide Validated, Endpoint, PasswordOf, PortText, UserInfo, UrlUnsplit, Encode, HasControl, NetlocSafe, NetlocOk, Credentials;
    CredentialsShape(user, MASK, endpoint);
    BareText(hosts, Credentials(user, MASK, endpoint));
    BareUriValidates(hosts, Credentials(user, MASK, endpoint));
  }

  lemma SampleRecordAccepted(hosts: HostCheck)
    ensures ProfileRecord(hosts, Record(Some(SampleConnection()), Flag(true))) == Some((SampleConnection(), true))
  {
    hide ProfileRecord, UrlUnsplit, PortText;
    assert Credentials("u", MASK, "h") == "u:****@h";
    PlainHost();
    MaskedBareRecord(hosts, "u", "h");
  }

  lemma SecretNonempty(password: string)
    requires password != ""
    ensures Unquote(password) != []
  {
    UnquoteIsPercentDecode(password);
  }

  lemma BareUriAccepted(hosts: HostCheck, user: string, password: string, endpoint: string)
    requires ':' !in user && '@' !in endpoint && password != "" && 0 !in Unquote(password)
    requires BareNetloc(hosts, Credentials(user, password, endpoint)) && PortText(endpoint) == ""
    ensures var text := UrlUnsplit(BareUri(Credentials(user, password, endpoint)));
      && ParseProfileUri(hosts, text).Some? && ParseProfileUri(hosts, text).value.credential
      && Validated(hosts, text) == Some(BareUri(Credentials(user, password, endpoint)))
      && Rewritten(Credentials(user, password, endpoint)) == Some(Credentials(user, MASK, endpoint))
      && |Encode(text)| <= INPUT_LIMIT - 3
  {
    hide Validated, Endpoint, UserInfo, Unquote, PortText, UrlUnsplit, Encode, HasControl;
    hide NetlocSafe, NetlocOk, Credentials, Before, After;
    var netloc := Credentials(user, password, endpoint);
    BareText(hosts, netloc);
    CredentialsShape(user, password, endpoint);
    SecretNonempty(password);
    BareUriValidates(hosts, netloc);
    PartitionOf(user, ':', password);
    assert (user + [':'] + password)[|user|] == ':';
  }

  /**
   A password holding the only `]` of the network location: where the host check accepts the URI,
   its record is refused all the same.
   */
  lemma BracketInPasswordRefused(hosts: HostCheck)
    requires hosts("u:]@[::1")
    ensures var text := UrlUnsplit(BareUri("u:]@[::1"));
      && ParseProfileUri(hosts, text).Some? && ParseProfileUri(hosts, text).value.credential
      && |Encode(text)| <= INPUT_LIMIT - 3
      && ProfileRecord(hosts, RecordOf(ParseProfileUri(hosts, text).value)).None?
  {
    hide ParseProfileUri, UrlUnsplit, Rewritten, Unquote, PortText, Encode, Validated, ProfileRecord, NetlocOk, Credentials, BareNetloc;
    BracketLocations(hosts);
    BracketHost();
    BracketSecret();
    BareUriAccepted(hosts, "u", "]", "[::1");
    RecordOfParsedUri(hosts, UrlUnsplit(BareUri("u:]@[::1")));
  }

  lemma BracketLocations(hosts: HostCheck)
    requires hosts("u:]@[::1")
    ensures Credentials("u", "]", "[::1") == "u:]@[::1" && BareNetloc(hosts, "u:]@[::1")
    ensures !NetlocOk(hosts, Credentials("u", MASK, "[::1"))
  {
    var netloc, masked := Credentials("u", "]", "[::1"), Credentials("u", MASK, "[::1");
    assert netloc == "u:]@[::1" && netloc[4] == '[' && netloc[2] == ']';
    assert masked == "u:****@[::1" && masked[7] == '[';
  }

  lemma PlainHost()
    ensures PortText("h") == ""
  {}

  lemma BracketHost()
    ensures PortText("[::1") == ""
  {
    assert "[::1" == "" + ['['] + "::1" && "[::1"[0] == '[';
    PartitionOf("", '[', "::1");
    assert After("::1", ']') == "" by {
      Partition("::1", ']');
      assert ']' !in "::1";
    }
  }

  lemma BracketSecret()
    ensures Unquote("]") == [93]
  {
    UnquoteIsPercentDecode("]");
    assert "]"[1..] == "";
    assert Encode("]") == [93];
  }

  lemma {:induction false} EncodeBound(s: string)
    ensures |Encode(s)| <= 4 * |s|
  {
    if s != "" {
      EncodeBound(s[1..]);
    }
  }

  // ---------------------------------------------------------------- masking

  /** A URI spelled out from its user, password and endpoint. */
  function Spelled(scheme: string, user: string, password: string, endpoint: string, tail: string): string {
    scheme + "://" + (Credentials(user, password, endpoint) + tail)
  }

  lemma SplitSpelled(hosts: HostCheck, scheme: string, netloc: string, tail: string)
    requires IsPgScheme(Lower(scheme)) && NetlocSafe(netloc)
    requires tail == "" || EndsNetloc(tail[0])
    ensures UrlSplit(hosts, scheme + "://" + (netloc + tail)) ==
      if NetlocOk(hosts, netloc) then
        Some(Uri(Lower(scheme), netloc,
                 Before(Before(tail, '#'), '?'), After(Before(tail, '#'), '?'), After(tail, '#')))
      else None
  {
    var rest := "//" + netloc + tail;
    assert scheme + "://" + (netloc + tail) == scheme + [':'] + rest;
    SplitPgScheme(scheme, rest, Lower(scheme));
    SplitNetlocOfUnsplit(netloc, tail);
  }

  /** An accepted URI's secret is the percent-decoding of its password, and its record does not depend on it. */
  lemma MaskHidesPassword(hosts: HostCheck, scheme: string, user: string, pw1: string, pw2: string, endpoint: string, tail: string)
    requires IsPgScheme(Lower(scheme)) && (tail == "" || EndsNetloc(tail[0]))
    requires ':' !in user && '@' !in endpoint && pw1 != "" && pw2 != ""
    requires NetlocSafe(Credentials(user, pw1, endpoint)) && NetlocSafe(Credentials(user, pw2, endpoint))
    requires ParseProfileUri(hosts, Spelled(scheme, user, pw1, endpoint, tail)).Some?
    requires ParseProfileUri(hosts, Spelled(scheme, user, pw2, endpoint, tail)).Some?
    ensures var p1 := ParseProfileUri(hosts, Spelled(scheme, user, pw1, endpoint, tail)).value;
      var p2 := ParseProfileUri(hosts, Spelled(scheme, user, pw2, endpoint, tail)).value;
      && p1.connection == p2.connection
      && p1.credential && p1.secret == PercentDecode(Encode(pw1))
  {
    MaskOf(hosts, scheme, user, pw1, endpoint, tail);
    MaskOf(hosts, scheme, user, pw2, endpoint, tail);
  }

  lemma MaskOf(hosts: HostCheck, scheme: string, user: string, password: string, endpoint: string, tail: string)
    requires IsPgScheme(Lower(scheme)) && (tail == "" || EndsNetloc(tail[0]))
    requires ':' !in user && '@' !in endpoint && password != ""
    requires NetlocSafe(Credentials(user, password, endpoint))
    requires ParseProfileUri(hosts, Spelled(scheme, user, password, endpoint, tail)).Some?
    ensures ParseProfileUri(hosts, Spelled(scheme, user, password, endpoint, tail)) ==
        Some(Parsed(
          UrlUnsplit(Uri(Lower(scheme), Credentials(user, MASK, endpoint),
                         Before(Before(tail, '#'), '?'), After(Before(tail, '#'), '?'), After(tail, '#'))),
          PercentDecode(Encode(password)), true))
  {
    var text := Spelled(scheme, user, password, endpoint, tail);
    var netloc := Credentials(user, password, endpoint);
    CredentialsShape(user, password, endpoint);
    PartitionOf(user, ':', password);
    UnquoteIsPercentDecode(password);
    SplitSpelled(hosts, scheme, netloc, tail);
  }

  lemma FoldedSplit(hosts: HostCheck, text: string)
    requires HasPgPrefix(text) && !PlainPrefix(text)
    ensures var head := Before(text, '#');
      UrlSplit(hosts, text) == Some(Uri("", "", Before(head, '?'), After(head, '?'), After(text, '#')))
  {
    FoldedShape(text);
    hide HasPgPrefix, PlainPrefix, HasScheme, Before, After;
  }

  lemma NoLocation()
    ensures PortOk("") && UserInfo("") == None
  {
    hide AllDigits, ReadNat;
    assert LastIndexOf("", '@') == -1;
    IndexOfAbsent("", ':');
    assert PortText("") == "";
  }

  lemma FoldedValidated(hosts: HostCheck, text: string)
    requires HasPgPrefix(text) && !PlainPrefix(text)
    ensures text != ""
    ensures CarriesSecret(After(Before(text, '#'), '?')) ==> Validated(hosts, text).None?
    ensures !CarriesSecret(After(Before(text, '#'), '?')) ==>
      Validated(hosts, text).Some? && Validated(hosts, text).value.netloc == ""
  {
    hide PlainPrefix, UrlSplit, CarriesSecret, Before, After, PortOk, UserInfo;
    FoldedSplit(hosts, text);
    NoLocation();
  }

  /** A URI whose prefix only folding recognises is kept as it stands, with whatever password it has. */
  lemma FoldedKeptVerbatim(hosts: HostCheck, text: string)
    requires HasPgPrefix(text) && !PlainPrefix(text)
    ensures var query := After(Before(text, '#'), '?');
      ParseProfileUri(hosts, text) ==
        if |Encode(text)| > INPUT_LIMIT || HasControl(text) || CarriesSecret(query) then None
        else Some(Parsed(text, [], false))
  {
    hide HasPgPrefix, PlainPrefix, Validated, CarriesSecret, Encode, HasControl, Before, After, Unquote, UserInfo;
    hide WithNetloc, Credentials, Endpoint, PortOk;
    FoldedValidated(hosts, text);
    NoLocation();
  }

  lemma {:induction false} FoldKeepsColon(s: string)
    requires ':' in s
    ensures ':' in CaseFold(s)
  {
    if s[0] != ':' {
      FoldKeepsColon(s[1..]);
    }
  }

  lemma SpelledHasPrefix(scheme: string, rest: string)
    requires IsPgScheme(CaseFold(scheme))
    ensures HasPgPrefix(scheme + "://" + rest)
  {
    hide CaseFold;
    FoldConcat(scheme + "://", rest);
    FoldConcat(scheme, "://");
    FoldPlain("://");
    assert Lower("://") == "://";
    assert CaseFold(scheme) + "://" <= CaseFold(scheme + "://" + rest);
  }

  lemma SpelledPrefixNamed(scheme: string, rest: string, name: string)
    requires ':' !in scheme && ':' !in name
    ensures name + "://" <= Lower(scheme + "://" + rest) <==> Lower(scheme) == name
  {
    var text := scheme + "://" + rest;
    assert text == scheme + ":" + ("//" + rest);
    LowerHeaded(scheme, "//" + rest);
    var l := Lower(text);
    assert l == Lower(scheme) + ":" + l[|scheme| + 1..] by {
      assert l[..|scheme|] == Lower(scheme) && l[|scheme|] == ':';
    }
    assert ':' !in Lower(scheme) by {
      assert forall i :: 0 <= i < |scheme| ==> Lower(scheme)[i] != ':';
    }
    hide Lower;
    assert name + ":" + "//" == name + "://";
    if name + "://" <= l {
      SameHead(Lower(scheme), l[|scheme| + 1..], name, "//");
    }
  }

  lemma SpelledPrefixPlain(scheme: string, rest: string)
    requires ':' !in scheme
    ensures PlainPrefix(scheme + "://" + rest) <==> IsPgScheme(Lower(scheme))
  {
    hide Lower;
    SpelledPrefixNamed(scheme, rest, "postgresql");
    SpelledPrefixNamed(scheme, rest, "postgres");
    assert "postgresql" + "://" == "postgresql://" && "postgres" + "://" == "postgres://";
  }

  lemma SpelledPrefix(scheme: string, rest: string)
    requires IsPgScheme(CaseFold(scheme))
    ensures HasPgPrefix(scheme + "://" + rest)
    ensures PlainPrefix(scheme + "://" + rest) <==> IsPgScheme(Lower(scheme))
  {
    hide HasPgPrefix, PlainPrefix, CaseFold;
    if ':' in scheme {
      FoldKeepsColon(scheme);
    }
    SpelledHasPrefix(scheme, rest);
    SpelledPrefixPlain(scheme, rest);
  }

  /**
   For an accepted URI spelled out with a password, under a scheme the prefix check lets through: the
   password is taken out and masked if and only if the scheme is spelled in ASCII letters.
   */
  lemma SecretTakenIffPlain(hosts: HostCheck, scheme: string, user: string, password: string, endpoint: string, tail: string)
    requires IsPgScheme(CaseFold(scheme)) && (tail == "" || EndsNetloc(tail[0]))
    requires ':' !in user && '@' !in endpoint && password != ""
    requires NetlocSafe(Credentials(user, password, endpoint))
    requires ParseProfileUri(hosts, Spelled(scheme, user, password, endpoint, tail)).Some?
    ensures var text := Spelled(scheme, user, password, endpoint, tail);
      var p := ParseProfileUri(hosts, text).value;
      && (p.credential <==> IsPgScheme(Lower(scheme)))
      && (p.credential ==> p.secret == PercentDecode(Encode(password)))
      && (!p.credential ==> p == Parsed(text, [], false))
  {
    hide ParseProfileUri, HasPgPrefix, PlainPrefix, CaseFold, CarriesSecret, Encode, HasControl, PercentDecode, NetlocSafe, UrlUnsplit;
    if IsPgScheme(Lower(scheme)) {
      MaskOf(hosts, scheme, user, password, endpoint, tail);
    } else {
      SpelledPrefix(scheme, Credentials(user, password, endpoint) + tail);
      FoldedKeptVerbatim(hosts, Spelled(scheme, user, password, endpoint, tail));
    }
  }

  /** A scheme with a long s in it. */
  const LONG_S: string := "po" + ['\U{17f}'] + "tgres"

  lemma FoldOne(c: char)
    ensures CaseFold([c]) == FoldChar(c)
  {
    assert [c][1..] == "";
  }

  lemma LongSPieces()
    ensures Ascii("po") && Ascii("tgres") && Lower("po") == "po" && Lower("tgres") == "tgres"
    ensures "po" + "s" + "tgres" == "postgres"
  {}

  lemma FoldAround(a: string, c: char, b: string)
    requires Ascii(a) && Ascii(b)
    ensures CaseFold(a + [c] + b) == Lower(a) + FoldChar(c) + Lower(b)
  {
    FoldConcat(a + [c], b);
    FoldConcat(a, [c]);
    FoldOne(c);
    FoldPlain(a);
    FoldPlain(b);
    hide CaseFold;
  }

  lemma AsciiScheme(scheme: string, i: nat)
    requires i < |scheme| && scheme[i] as int >= 128
    ensures !IsPgScheme(Lower(scheme))
  {
    assert Lower(scheme)[i] == scheme[i];
  }

  lemma LongSScheme()
    ensures IsPgScheme(CaseFold(LONG_S)) && !IsPgScheme(Lower(LONG_S))
  {
    hide CaseFold, Lower, Ascii;
    LongSPieces();
    FoldAround("po", '\U{17f}', "tgres");
    AsciiScheme(LONG_S, 2);
  }

  /** The ligatures of the long or the common s with t do as well. */
  lemma LigatureScheme(c: char)
    requires c == '\U{fb05}' || c == '\U{fb06}'
    ensures var scheme := "po" + [c] + "gres"; IsPgScheme(CaseFold(scheme)) && !IsPgScheme(Lower(scheme))
  {
    LigaturePieces();
    hide CaseFold, Lower, Ascii;
    FoldAround("po", c, "gres");
    AsciiScheme("po" + [c] + "gres", 2);
  }

  lemma LigaturePieces()
    ensures Ascii("po") && Ascii("gres") && Lower("po") == "po" && Lower("gres") == "gres"
    ensures "po" + "st" + "gres" == "postgres"
  {}

  lemma LongSText()
    ensures var text := Spelled(LONG_S, "u", "pw", "h", "");
      text != "" && !HasControl(text) && '#' !in text && '?' !in text && |text| <= 100
  {
    hide Encode;
    assert forall c :: c in LONG_S ==> c != '\0' && c != '\r' && c != '\n' && c != '#' && c != '?';
  }

  /** With a long s in the scheme, the record has the password in the clear and no credential. */
  lemma LongSKeepsPassword(hosts: HostCheck)
    ensures var text := Spelled(LONG_S, "u", "pw", "h", ""); ParseProfileUri(hosts, text) == Some(Parsed(text, [], false))
  {
    hide ParseProfileUri, HasPgPrefix, PlainPrefix, CaseFold, CarriesSecret, Encode, IsPgScheme, HasControl, Credentials, LONG_S;
    var rest := Credentials("u", "pw", "h") + "";
    var text := Spelled(LONG_S, "u", "pw", "h", "");
    LongSScheme();
    LongSText();
    SpelledPrefix(LONG_S, rest);
    EncodeBound(text);
    IndexOfAbsent(text, '#');
    IndexOfAbsent(text, '?');
    NoSecretField();
    FoldedKeptVerbatim(hosts, text);
  }
}
