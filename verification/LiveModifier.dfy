/** The `+live(...)` modifier: its printer and its parser (lib/live/parser.py). */
module LiveModifier {
  import opened Text

  predicate AllowedScope(s: string) { s == "browser" || s == "desktop" || s == "ios" || s == "android" || s == "any" }

  predicate AllowedKey(k: string) { k == "scope" || k == "app" || k == "ttl" || k == "reason" }

  datatype Payload = Payload(scope: Option<string>, app: Option<string>, ttl: Option<nat>, reason: Option<string>)

  // ---------------------------------------------------------------- durations

  function FormatDuration(seconds: nat): string {
    if seconds % 86400 == 0 && seconds >= 86400 then ShowNat(seconds / 86400) + "d"
    else if seconds % 3600 == 0 && seconds >= 3600 then ShowNat(seconds / 3600) + "h"
    else if seconds % 60 == 0 && seconds >= 60 then ShowNat(seconds / 60) + "m"
    else ShowNat(seconds) + "s"
  }

  function Multiplier(unit: char): Option<nat> {
    match unit
    case 's' => Some(1)
    case 'm' => Some(60)
    case 'h' => Some(3600)
    case 'd' => Some(86400)
    case _ => None
  }

  /** Digits and an optional unit; None is the ValueError. */
  function ParseDuration(value: string): Option<nat> { ParseAmount(Lower(Trim(value))) }

  function ParseAmount(raw: string): Option<nat> {
    if raw == "" then None
    else
      var unit := Multiplier(raw[|raw| - 1]);
      var digits := if unit.Some? then raw[..|raw| - 1] else raw;
      if digits == "" || !AllDigits(digits) then None
      else Some(ReadNat(digits) * if unit.Some? then unit.value else 1)
  }

  lemma DigitsLower(s: string)
    requires AllDigits(s)
    ensures Lower(s) == s
  {
    forall i | 0 <= i < |s|
      ensures LowerChar(s[i]) == s[i]
    {
      assert s[i] in s;
    }
  }

  lemma ParsePrinted(n: nat, unit: char)
    requires Multiplier(unit).Some?
    ensures ParseDuration(ShowNat(n) + [unit]) == Some(n * Multiplier(unit).value)
  {
    var digits := ShowNat(n);
    var s := digits + [unit];
    assert s[0] in digits;
    hide IsSpace, Trim;
    VisibleChar(s[0]);
    VisibleChar(unit);
    assert Trim(s) == s;
    DigitsLower(digits);
    assert Lower(s) == s;
    assert s[..|s| - 1] == digits;
    ReadShow(n);
  }

  /** Parsing undoes formatting for every number of seconds. */
  lemma DurationRoundTrip(seconds: nat)
    ensures ParseDuration(FormatDuration(seconds)) == Some(seconds)
  {
    hide ParseDuration, ShowNat;
    ParsePrinted(seconds / 86400, 'd');
    ParsePrinted(seconds / 3600, 'h');
    ParsePrinted(seconds / 60, 'm');
    ParsePrinted(seconds, 's');
  }

  // ---------------------------------------------------------------- quoting

  predicate SafeChar(c: char) { IsAlpha(c) || IsDigit(c) || c == '.' || c == '_' || c == ':' || c == '/' || c == '-' }

  predicate Safe(value: string) { value != "" && forall i :: 0 <= i < |value| ==> SafeChar(value[i]) }

  function Escape(value: string): string {
    if value == "" then ""
    else (if value[0] == '"' then ['\\', '"'] else [value[0]]) + Escape(value[1..])
  }

  function QuoteIfNeeded(value: string): string {
    if Safe(value) then value else ['"'] + Escape(value) + ['"']
  }

  predicate IsQuote(c: char) { c == '\'' || c == '"' }

  function StripQuotes(value: string): string {
    var v := Trim(value);
    if |v| >= 2 && v[0] == v[|v| - 1] && IsQuote(v[0]) then v[1..|v| - 1] else v
  }

  lemma {:induction false} EscapePlain(value: string)
    requires '"' !in value
    ensures Escape(value) == value
  {
    if value != "" {
      EscapePlain(value[1..]);
    }
  }

  lemma StripQuoted(inner: string)
    ensures StripQuotes(['"'] + inner + ['"']) == inner
  {
    var q := ['"'] + inner + ['"'];
    assert Trimmed(q);
    assert q[1..|q| - 1] == inner;
  }

  lemma StripSafe(value: string)
    requires Safe(value)
    ensures StripQuotes(value) == value && Trimmed(value)
  {
    hide IsSpace, Trim;
    assert SafeChar(value[0]) && SafeChar(value[|value| - 1]);
    VisibleChar(value[0]);
    VisibleChar(value[|value| - 1]);
  }

  // ---------------------------------------------------------------- splitting

  function Keep(parts: seq<string>, current: string): seq<string> {
    var part := Trim(current);
    if part == "" then parts else parts + [part]
  }

  /** The state of `split_pairs` run over the rest of the text. */
  function SplitFrom(s: string, quote: Option<char>, current: string, parts: seq<string>): seq<string>
    decreases |s|
  {
    if s == "" then Keep(parts, current)
    else
      var c := s[0];
      if quote.Some? then SplitFrom(s[1..], if c == quote.value then None else quote, current + [c], parts)
      else if IsQuote(c) then SplitFrom(s[1..], Some(c), current + [c], parts)
      else if c == ',' then SplitFrom(s[1..], None, "", Keep(parts, current))
      else SplitFrom(s[1..], None, current + [c], parts)
  }

  /** `split_pairs`: commas split, except inside quotes. */
  method SplitPairs(body: string) returns (parts: seq<string>)
    ensures parts == SplitFrom(body, None, "", [])
  {
    parts := [];
    var current := "";
    var quote: Option<char> := None;
    for i := 0 to |body|
      invariant SplitFrom(body[i..], quote, current, parts) == SplitFrom(body, None, "", [])
    {
      var c := body[i];
      assert body[i..][0] == c && body[i..][1..] == body[i + 1..];
      if quote.Some? {
        current := current + [c];
        if c == quote.value {
          quote := None;
        }
        continue;
      }
      if IsQuote(c) {
        quote := Some(c);
        current := current + [c];
        continue;
      }
      if c == ',' {
        parts := Keep(parts, current);
        current := "";
        continue;
      }
      current := current + [c];
    }
    parts := Keep(parts, current);
  }

  /** The quote state after a segment, when no comma splits it. */
  function Scan(s: string, quote: Option<char>): Option<Option<char>>
    decreases |s|
  {
    if s == "" then Some(quote)
    else if quote.Some? then Scan(s[1..], if s[0] == quote.value then None else quote)
    else if IsQuote(s[0]) then Scan(s[1..], Some(s[0]))
    else if s[0] == ',' then None
    else Scan(s[1..], None)
  }

  lemma {:induction false} SplitScanned(s: string, rest: string, quote: Option<char>, current: string, parts: seq<string>)
    requires Scan(s, quote).Some?
    ensures SplitFrom(s + rest, quote, current, parts) == SplitFrom(rest, Scan(s, quote).value, current + s, parts)
    decreases |s|
  {
    hide Keep;
    if s == "" {
      assert s + rest == rest && current + s == current;
    } else {
      var c := s[0];
      var next := if quote.Some? then (if c == quote.value then None else quote) else if IsQuote(c) then Some(c) else None;
      SplitScanned(s[1..], rest, next, current + [c], parts);
      assert (s + rest)[1..] == s[1..] + rest;
      assert current + [c] + s[1..] == current + s;
    }
  }

  function JoinComma(parts: seq<string>): string {
    if parts == [] then ""
    else if |parts| == 1 then parts[0]
    else parts[0] + [','] + JoinComma(parts[1..])
  }

  /** A segment the splitter hands back unchanged. */
  predicate Segment(s: string) { s != "" && Trimmed(s) && Scan(s, None) == Some(None) }

  lemma SplitSegment(p: string, rest: string, done: seq<string>)
    requires Segment(p)
    ensures SplitFrom(p, None, "", done) == done + [p]
    ensures SplitFrom(p + [','] + rest, None, "", done) == SplitFrom(rest, None, "", done + [p])
  {
    hide Scan, Trimmed;
    assert "" + p == p && p + "" == p;
    SplitScanned(p, "", None, "", done);
    SplitScanned(p, [','] + rest, None, "", done);
    assert p + [','] + rest == p + ([','] + rest);
    assert ([','] + rest)[1..] == rest;
  }

  lemma {:induction false} SplitJoined(parts: seq<string>, done: seq<string>)
    requires parts != [] && forall i :: 0 <= i < |parts| ==> Segment(parts[i])
    ensures SplitFrom(JoinComma(parts), None, "", done) == done + parts
  {
    hide SplitFrom, Segment;
    var p := parts[0];
    if |parts| == 1 {
      SplitSegment(p, "", done);
      assert parts == [p];
    } else {
      SplitSegment(p, JoinComma(parts[1..]), done);
      SplitJoined(parts[1..], done + [p]);
      assert done + [p] + parts[1..] == done + parts;
    }
  }

  // ---------------------------------------------------------------- parsing and printing

  function OrNone(s: string): Option<string> { if s == "" then None else Some(s) }

  /** Read an unquoted value into its field; None is a ValueError. */
  function SetField(key: string, value: string, p: Payload): Option<Payload> {
    if key == "scope" then
      var scope := Lower(Trim(value));
      if AllowedScope(scope) then Some(p.(scope := Some(scope))) else None
    else if key == "app" then Some(p.(app := OrNone(Trim(value))))
    else if key == "ttl" then
      (match ParseDuration(value) case None => None case Some(n) => Some(p.(ttl := Some(n))))
    else Some(p.(reason := OrNone(Trim(value))))
  }

  /** One `key=value` part. */
  function ParsePart(part: string, p: Payload): Option<Payload> {
    var key := Trim(Before(part, '='));
    if '=' !in part || !AllowedKey(key) then None
    else SetField(key, StripQuotes(After(part, '=')), p)
  }

  function ParseParts(parts: seq<string>, p: Payload): Option<Payload> {
    if parts == [] then Some(p)
    else match ParsePart(parts[0], p)
      case None => None
      case Some(q) => ParseParts(parts[1..], q)
  }

  /** The body between the parentheses, as the modifier's regular expression finds it. */
  function Body(text: string): Option<string> {
    if text == "+live" then Some("")
    else if |text| >= 7 && text[..6] == "+live(" && text[|text| - 1] == ')' && '\n' !in text[6..|text| - 1] then
      Some(text[6..|text| - 1])
    else None
  }

  const NOTHING := Payload(None, None, None, None)

  function Parse(raw: string): Option<Payload> {
    match Body(Trim(raw))
    case None => None
    case Some(body) =>
      if Trim(body) == "" then Some(NOTHING)
      else ParseParts(SplitFrom(Trim(body), None, "", []), NOTHING)
  }

  /** `parse_live_modifier`. */
  method ParseLiveModifier(raw: string) returns (result: Option<Payload>)
    ensures result == Parse(raw)
  {
    var matched := Body(Trim(raw));
    if matched.None? {
      return None;
    }
    var payload := NOTHING;
    var body := Trim(matched.value);
    if body == "" {
      return Some(payload);
    }
    var parts := SplitPairs(body);
    for i := 0 to |parts|
      invariant ParseParts(parts[i..], payload) == ParseParts(parts, NOTHING)
    {
      assert parts[i..][0] == parts[i] && parts[i..][1..] == parts[i + 1..];
      var next := ParsePart(parts[i], payload);
      if next.None? {
        return None;
      }
      payload := next.value;
    }
    result := Some(payload);
  }

  function Given(key: string, value: Option<string>): seq<string> {
    if value.Some? && value.value != "" then [key + ['='] + value.value] else []
  }

  function Quoted(value: Option<string>): Option<string> {
    if value.Some? && value.value != "" then Some(QuoteIfNeeded(value.value)) else None
  }

  function Parts(p: Payload): seq<string> {
    Given("scope", p.scope) + Given("app", Quoted(p.app))
    + Given("ttl", if p.ttl.Some? && p.ttl.value > 0 then Some(FormatDuration(p.ttl.value)) else None)
    + Given("reason", Quoted(p.reason))
  }

  /** `build_live_modifier`. */
  function Build(p: Payload): string {
    if Parts(p) == [] then "+live" else "+live(" + JoinComma(Parts(p)) + ")"
  }

  // ---------------------------------------------------------------- round trip

  /** A value the printer's quoting can carry. */
  predicate Carried(value: string) { value != "" && Trimmed(value) && '"' !in value && '\n' !in value }

  predicate Printable(p: Payload) {
    && (p.scope.Some? ==> AllowedScope(p.scope.value))
    && (p.app.Some? ==> Carried(p.app.value))
    && (p.ttl.Some? ==> p.ttl.value > 0)
    && (p.reason.Some? ==> Carried(p.reason.value))
  }

  predicate Inert(s: string) { forall i :: 0 <= i < |s| ==> s[i] != ',' && !IsQuote(s[i]) }

  lemma {:induction false} ScanInert(s: string)
    requires Inert(s)
    ensures Scan(s, None) == Some(None)
    decreases |s|
  {
    if s != "" {
      assert s[0] != ',';
      assert forall i :: 0 <= i < |s| - 1 ==> s[1..][i] == s[i + 1];
      ScanInert(s[1..]);
    }
  }

  lemma {:induction false} ScanConcat(a: string, b: string, quote: Option<char>)
    requires Scan(a, quote).Some?
    ensures Scan(a + b, quote) == Scan(b, Scan(a, quote).value)
    decreases |a|
  {
    if a == "" {
      assert a + b == b;
    } else {
      var next := if quote.Some? then (if a[0] == quote.value then None else quote) else if IsQuote(a[0]) then Some(a[0]) else None;
      ScanConcat(a[1..], b, next);
      assert (a + b)[1..] == a[1..] + b;
    }
  }

  lemma {:induction false} ScanInside(s: string)
    requires '"' !in s
    ensures Scan(s, Some('"')) == Some(Some('"'))
    decreases |s|
  {
    if s != "" {
      ScanInside(s[1..]);
    }
  }

  lemma ScanQuoted(v: string)
    requires '"' !in v
    ensures Scan(['"'] + v + ['"'], None) == Some(None)
  {
    ScanInside(v);
    ScanConcat(v, ['"'], Some('"'));
    var s := ['"'] + (v + ['"']);
    assert ['"'] + v + ['"'] == s && s[1..] == v + ['"'];
    assert ['"'][1..] == "";
  }

  /** What the printer writes after a key: itself a segment, without line breaks. */
  predicate PrintedValue(v: string) { Segment(v) && '\n' !in v }

  lemma CarriedPrints(value: string)
    requires Carried(value)
    ensures PrintedValue(QuoteIfNeeded(value)) && StripQuotes(QuoteIfNeeded(value)) == value
  {
    hide Scan, IsSpace, Trim, StripQuotes, Escape;
    if Safe(value) {
      StripSafe(value);
      assert Inert(value);
      ScanInert(value);
      assert forall c :: c in value ==> SafeChar(c);
    } else {
      EscapePlain(value);
      StripQuoted(value);
      ScanQuoted(value);
      VisibleChar('"');
    }
  }

  lemma FormattedPrints(n: nat)
    ensures PrintedValue(FormatDuration(n)) && StripQuotes(FormatDuration(n)) == FormatDuration(n)
  {
    hide StripQuotes, Scan, Trimmed;
    var s := FormatDuration(n);
    FormattedChars(n);
    assert Safe(s) && Inert(s);
    StripSafe(s);
    ScanInert(s);
    assert forall c :: c in s ==> SafeChar(c);
  }

  lemma FormattedChars(n: nat)
    ensures var s := FormatDuration(n); s != "" && forall i :: 0 <= i < |s| ==> SafeChar(s[i])
  {
    hide ShowNat;
    var s := FormatDuration(n);
    var digits, unit := s[..|s| - 1], s[|s| - 1];
    assert s == digits + [unit] && digits != "";
    assert AllDigits(digits) && (unit == 's' || unit == 'm' || unit == 'h' || unit == 'd');
    forall i | 0 <= i < |s|
      ensures SafeChar(s[i])
    {
      assert i < |digits| ==> s[i] in digits;
    }
  }

  lemma WordPrints(s: string)
    requires s != "" && forall i :: 0 <= i < |s| ==> 'a' <= s[i] <= 'z'
    ensures PrintedValue(s) && StripQuotes(s) == s && Lower(Trim(s)) == s
  {
    hide StripQuotes, Scan;
    assert Safe(s) && Inert(s);
    StripSafe(s);
    ScanInert(s);
    assert Lower(s) == s;
    assert forall c :: c in s ==> SafeChar(c);
  }

  lemma ScopePrints(s: string)
    requires AllowedScope(s)
    ensures PrintedValue(s) && StripQuotes(s) == s && Lower(Trim(s)) == s
  {
    hide PrintedValue, StripQuotes, Lower, Trim;
    WordPrints("browser");
    WordPrints("desktop");
    WordPrints("ios");
    WordPrints("android");
    WordPrints("any");
  }

  /** A printed part is a segment, and parsing it reads the key and the unquoted value. */
  lemma PartPrints(key: string, value: string)
    requires AllowedKey(key) && PrintedValue(value)
    ensures var part := key + ['='] + value;
      && Segment(part) && '\n' !in part && '=' in part
      && Trim(Before(part, '=')) == key && After(part, '=') == value
  {
    KeyShape(key);
    hide AllowedKey, Trim;
    var part := key + ['='] + value;
    PartitionOf(key, '=', value);
    ScanInert(key + ['=']);
    ScanConcat(key + ['='], value, None);
    assert part[|key|] == '=' && part[0] == key[0];
  }

  lemma KeyShape(key: string)
    requires AllowedKey(key)
    ensures key != "" && '=' !in key && '\n' !in key && Trim(key) == key && Inert(key + ['=']) && !IsSpace(key[0])
  {
    hide IsSpace, Trim;
    assert forall i :: 0 <= i < |key| ==> 'a' <= key[i] <= 'z';
    VisibleChar(key[0]);
    VisibleChar(key[|key| - 1]);
  }

  predicate GoodParts(parts: seq<string>) {
    forall i :: 0 <= i < |parts| ==> Segment(parts[i]) && '\n' !in parts[i]
  }

  lemma PartReads(key: string, value: string, p: Payload)
    requires AllowedKey(key) && PrintedValue(value)
    ensures var parts := [key + ['='] + value];
      GoodParts(parts) && ParseParts(parts, p) == SetField(key, StripQuotes(value), p)
  {
    hide PrintedValue, SetField, StripQuotes, Segment, Trim, Before, After, AllowedKey;
    var part := key + ['='] + value;
    PartPrints(key, value);
    assert [part][1..] == [];
  }

  // Each printed field parses to its value and leaves the others.

  lemma ScopeField(p: Payload, value: Option<string>)
    requires value.Some? ==> AllowedScope(value.value)
    ensures var parts := Given("scope", value);
      GoodParts(parts) && ParseParts(parts, p) == Some(if value.Some? then p.(scope := value) else p)
  {
    hide PrintedValue, StripQuotes, Segment, Trim, Lower;
    if value.Some? {
      ScopePrints(value.value);
      PartReads("scope", value.value, p);
    }
  }

  lemma TextField(key: string, p: Payload, value: Option<string>)
    requires key == "app" || key == "reason"
    requires value.Some? ==> Carried(value.value)
    ensures var parts := Given(key, Quoted(value));
      && GoodParts(parts)
      && ParseParts(parts, p) ==
           Some(if value.None? then p else if key == "app" then p.(app := value) else p.(reason := value))
  {
    hide PrintedValue, StripQuotes, Segment, QuoteIfNeeded, Trim;
    if value.Some? {
      CarriedPrints(value.value);
      assert QuoteIfNeeded(value.value) != "" by {
        PrintedNonempty(QuoteIfNeeded(value.value));
      }
      PartReads(key, QuoteIfNeeded(value.value), p);
      TrimCarried(value.value);
    }
  }

  lemma PrintedNonempty(v: string)
    requires PrintedValue(v)
    ensures v != ""
  {}

  lemma TrimCarried(v: string)
    requires Carried(v)
    ensures Trim(v) == v
  {}

  lemma TtlField(p: Payload, value: Option<nat>)
    requires value.Some? ==> value.value > 0
    ensures var parts := Given("ttl", if value.Some? && value.value > 0 then Some(FormatDuration(value.value)) else None);
      GoodParts(parts) && ParseParts(parts, p) == Some(if value.Some? then p.(ttl := value) else p)
  {
    hide PrintedValue, StripQuotes, Segment, FormatDuration, ParseDuration;
    if value.Some? {
      FormattedPrints(value.value);
      PrintedNonempty(FormatDuration(value.value));
      DurationRoundTrip(value.value);
      PartReads("ttl", FormatDuration(value.value), p);
    }
  }

  lemma {:induction false} ParsePartsConcat(a: seq<string>, b: seq<string>, p: Payload)
    ensures ParseParts(a + b, p) ==
      match ParseParts(a, p)
      case None => None
      case Some(q) => ParseParts(b, q)
    decreases |a|
  {
    hide ParsePart;
    if a == [] {
      assert a + b == b;
    } else {
      assert (a + b)[1..] == a[1..] + b;
      if ParsePart(a[0], p).Some? {
        ParsePartsConcat(a[1..], b, ParsePart(a[0], p).value);
      }
    }
  }

  lemma PartsParse(p: Payload)
    requires Printable(p)
    ensures GoodParts(Parts(p)) && ParseParts(Parts(p), NOTHING) == Some(p)
  {
    hide Given, Quoted, ParseParts, Segment, AllowedScope, Carried;
    var scope := Given("scope", p.scope);
    var app := Given("app", Quoted(p.app));
    var ttl := Given("ttl", if p.ttl.Some? && p.ttl.value > 0 then Some(FormatDuration(p.ttl.value)) else None);
    var reason := Given("reason", Quoted(p.reason));
    ScopeField(NOTHING, p.scope);
    TextField("app", Payload(p.scope, None, None, None), p.app);
    TtlField(Payload(p.scope, p.app, None, None), p.ttl);
    TextField("reason", Payload(p.scope, p.app, p.ttl, None), p.reason);
    ParsePartsConcat(scope, app, NOTHING);
    ParsePartsConcat(scope + app, ttl, NOTHING);
    ParsePartsConcat(scope + app + ttl, reason, NOTHING);
  }

  lemma {:induction false} JoinShape(parts: seq<string>)
    requires parts != [] && GoodParts(parts)
    ensures var s := JoinComma(parts); s != "" && Trimmed(s) && '\n' !in s
  {
    hide Scan;
    var p := parts[0];
    assert Segment(p) && '\n' !in p;
    if |parts| > 1 {
      assert GoodParts(parts[1..]);
      JoinShape(parts[1..]);
      var rest := JoinComma(parts[1..]);
      var s := p + [','] + rest;
      assert s[0] == p[0] && s[|s| - 1] == rest[|rest| - 1];
    }
  }

  lemma BodyOfPrinted(body: string)
    requires '\n' !in body
    ensures Body(Trim("+live(" + body + ")")) == Some(body)
  {
    var s := "+live(" + body + ")";
    assert s[0] == '+' && s[|s| - 1] == ')' && Trimmed(s);
    assert s[..6] == "+live(" && s[6..|s| - 1] == body;
    assert s[5] == '(';
    assert |s| == 5 ==> false;
  }

  /**
   Parsing undoes printing: for every allowed scope, positive ttl, and trimmed non-empty app and
   reason without double quotes and newlines (commas, `=`, parentheses and single quotes included).
   */
  lemma ModifierRoundTrip(p: Payload)
    requires Printable(p)
    ensures Parse(Build(p)) == Some(p)
  {
    hide Body, Printable, ParseParts, Parts, SplitFrom;
    PartsParse(p);
    var parts := Parts(p);
    if parts == [] {
      BareModifier();
      NoParts();
    } else {
      JoinShape(parts);
      BodyOfPrinted(JoinComma(parts));
      SplitJoined(parts, []);
      assert [] + parts == parts;
    }
  }

  lemma NoParts()
    ensures ParseParts([], NOTHING) == Some(NOTHING)
  {}

  lemma BareModifier()
    ensures Parse("+live") == Some(NOTHING)
  {
    assert Trimmed("+live") && Trim("+live") == "+live";
  }

  // ---------------------------------------------------------------- counting characters

  function Count(c: char, s: string): nat { if s == "" then 0 else (if s[0] == c then 1 else 0) + Count(c, s[1..]) }

  lemma {:induction false} CountConcat(c: char, a: string, b: string)
    ensures Count(c, a + b) == Count(c, a) + Count(c, b)
    decreases |a|
  {
    if a == "" {
      assert a + b == b;
    } else {
      assert (a + b)[1..] == a[1..] + b;
      CountConcat(c, a[1..], b);
    }
  }

  lemma {:induction false} CountAbsent(c: char, s: string)
    ensures Count(c, s) == 0 <==> c !in s
    decreases |s|
  {
    if s != "" {
      CountAbsent(c, s[1..]);
    }
  }

  lemma CountOne(c: char, d: char)
    ensures Count(c, [d]) == if c == d then 1 else 0
  {
    assert [d][1..] == "";
  }

  /** Characters that neither trimming nor unquoting removes. */
  predicate Solid(c: char) { '!' <= c <= '~' && !IsQuote(c) }

  lemma {:induction false} CountTrimLeft(c: char, s: string)
    requires !IsSpace(c)
    ensures Count(c, TrimLeft(s)) == Count(c, s)
    decreases |s|
  {
    hide IsSpace;
    if s != "" && IsSpace(s[0]) {
      CountTrimLeft(c, s[1..]);
    }
  }

  lemma {:induction false} CountTrimRight(c: char, s: string)
    requires !IsSpace(c)
    ensures Count(c, TrimRight(s)) == Count(c, s)
    decreases |s|
  {
    hide IsSpace;
    if s != "" && IsSpace(s[|s| - 1]) {
      var init, last := s[..|s| - 1], s[|s| - 1];
      CountTrimRight(c, init);
      assert s == init + [last];
      CountConcat(c, init, [last]);
      CountOne(c, last);
    }
  }

  lemma CountTrim(c: char, s: string)
    requires Solid(c)
    ensures Count(c, Trim(s)) == Count(c, s)
  {
    VisibleChar(c);
    CountTrimLeft(c, s);
    CountTrimRight(c, TrimLeft(s));
  }

  lemma CountStrip(c: char, s: string)
    requires Solid(c)
    ensures Count(c, StripQuotes(s)) == Count(c, s)
  {
    CountTrim(c, s);
    var v := Trim(s);
    hide Trim;
    if |v| >= 2 && v[0] == v[|v| - 1] && IsQuote(v[0]) {
      var inner := v[1..|v| - 1];
      assert v == [v[0]] + (inner + [v[0]]);
      CountConcat(c, [v[0]], inner + [v[0]]);
      CountConcat(c, inner, [v[0]]);
      CountOne(c, v[0]);
    }
  }

  lemma {:induction false} CountLower(s: string)
    ensures Count('\\', Lower(s)) == Count('\\', s)
    decreases |s|
  {
    if s != "" {
      CountLower(s[1..]);
      assert Lower(s)[1..] == Lower(s[1..]);
    }
  }

  function CountAll(c: char, parts: seq<string>): nat {
    if parts == [] then 0 else Count(c, parts[0]) + CountAll(c, parts[1..])
  }

  lemma {:induction false} CountAllSnoc(c: char, parts: seq<string>, part: string)
    ensures CountAll(c, parts + [part]) == CountAll(c, parts) + Count(c, part)
    decreases |parts|
  {
    if parts == [] {
      assert parts + [part] == [part] && [part][1..] == [];
    } else {
      assert (parts + [part])[1..] == parts[1..] + [part];
      CountAllSnoc(c, parts[1..], part);
    }
  }

  lemma CountKeep(c: char, parts: seq<string>, current: string)
    requires Solid(c)
    ensures CountAll(c, Keep(parts, current)) == CountAll(c, parts) + Count(c, current)
  {
    CountTrim(c, current);
    hide Trim;
    CountAllSnoc(c, parts, Trim(current));
  }

  /** Splitting loses only commas and blanks. */
  lemma {:induction false} CountSplit(c: char, s: string, quote: Option<char>, current: string, parts: seq<string>)
    requires Solid(c) && c != ','
    ensures CountAll(c, SplitFrom(s, quote, current, parts)) == CountAll(c, parts) + Count(c, current) + Count(c, s)
    decreases |s|
  {
    hide Keep, CountAll;
    if s == "" {
      CountKeep(c, parts, current);
    } else {
      var d := s[0];
      CountConcat(c, current, [d]);
      CountOne(c, d);
      if quote.None? && !IsQuote(d) && d == ',' {
        CountKeep(c, parts, current);
        CountSplit(c, s[1..], None, "", Keep(parts, current));
      } else {
        var next := if quote.Some? then (if d == quote.value then None else quote) else if IsQuote(d) then Some(d) else None;
        CountSplit(c, s[1..], next, current + [d], parts);
      }
    }
  }

  // ---------------------------------------------------------------- what parsing can put together

  /** The characters counted: the sign after each key, the printer's escape, and the line break. */
  predicate Counted(c: char) { c == '=' || c == '\\' || c == '\n' }

  function Sign(c: char): nat { if c == '=' then 1 else 0 }

  function FieldCount(c: char, value: Option<string>): nat { if value.Some? then Sign(c) + Count(c, value.value) else 0 }

  /** How often the character stands in the fields of a payload, with one sign for each. */
  function Weight(c: char, p: Payload): nat {
    (if p.scope.Some? then Sign(c) else 0) + FieldCount(c, p.app) + (if p.ttl.Some? then Sign(c) else 0) + FieldCount(c, p.reason)
  }

  /** A step from one payload to the next that wastes no sign wastes no backslash. */
  predicate Economical(p: Payload, q: Payload, signs: nat, slashes: nat) {
    && Weight('=', q) <= Weight('=', p) + signs
    && (Weight('=', q) == Weight('=', p) + signs ==> Weight('\\', q) == Weight('\\', p) + slashes)
  }

  lemma PartCounts(part: string)
    requires '=' in part
    ensures Count('=', part) == 1 + Count('=', After(part, '='))
    ensures Count('\\', part) == Count('\\', Trim(Before(part, '='))) + Count('\\', After(part, '='))
  {
    hide Trim, Before, After, Count;
    Partition(part, '=');
    var key, value := Before(part, '='), After(part, '=');
    assert part == key + (['='] + value);
    CountTrim('\\', key);
    CountAbsent('=', key);
    CountConcat('=', key, ['='] + value);
    CountConcat('=', ['='], value);
    CountConcat('\\', key, ['='] + value);
    CountConcat('\\', ['='], value);
    CountOne('=', '=');
    CountOne('\\', '=');
  }

  lemma KeyCount(c: char, key: string)
    requires AllowedKey(key) && Counted(c)
    ensures Count(c, key) == 0
  {
    assert forall i :: 0 <= i < |key| ==> 'a' <= key[i] <= 'z';
    CountAbsent(c, key);
  }

  lemma ScopeCount(c: char, s: string)
    requires AllowedScope(s) && Counted(c)
    ensures Count(c, s) == 0
  {
    assert forall i :: 0 <= i < |s| ==> 'a' <= s[i] <= 'z';
    CountAbsent(c, s);
  }

  lemma ReadScopeSlashes(value: string)
    requires AllowedScope(Lower(Trim(value)))
    ensures Count('\\', value) == 0
  {
    CountTrim('\\', value);
    CountLower(Trim(value));
    hide Trim, Lower;
    ScopeCount('\\', Lower(Trim(value)));
  }

  lemma ReadTtlSlashes(value: string)
    requires ParseDuration(value).Some?
    ensures Count('\\', value) == 0
  {
    CountTrim('\\', value);
    CountLower(Trim(value));
    hide Trim, Lower;
    AmountSlashes(Lower(Trim(value)));
  }

  lemma AmountSlashes(raw: string)
    requires ParseAmount(raw).Some?
    ensures Count('\\', raw) == 0
  {
    var unit := Multiplier(raw[|raw| - 1]);
    var digits := if unit.Some? then raw[..|raw| - 1] else raw;
    forall i | 0 <= i < |raw|
      ensures raw[i] != '\\'
    {
      assert i < |digits| ==> raw[i] in digits;
    }
    CountAbsent('\\', raw);
  }

  lemma ReadTextCount(c: char, value: string)
    requires Solid(c)
    ensures (match OrNone(Trim(value)) case None => 0 case Some(v) => Count(c, v)) == Count(c, value)
  {
    CountTrim(c, value);
  }

  /** Reading one part is economical. */
  lemma PartEconomical(part: string, p: Payload)
    requires ParsePart(part, p).Some?
    ensures Economical(p, ParsePart(part, p).value, Count('=', part), Count('\\', part))
  {
    hide Trim, Before, After, StripQuotes, Count, Lower, ParseDuration, AllowedScope;
    var key, value := Trim(Before(part, '=')), StripQuotes(After(part, '='));
    PartCounts(part);
    KeyCount('\\', key);
    CountStrip('=', After(part, '='));
    CountStrip('\\', After(part, '='));
    ReadTextCount('=', value);
    ReadTextCount('\\', value);
    if key == "scope" {
      ReadScopeSlashes(value);
    } else if key == "ttl" {
      ReadTtlSlashes(value);
    }
  }

  lemma {:induction false} PartsEconomical(parts: seq<string>, p: Payload)
    requires ParseParts(parts, p).Some?
    ensures Economical(p, ParseParts(parts, p).value, CountAll('=', parts), CountAll('\\', parts))
    decreases |parts|
  {
    hide ParsePart, Count, Weight;
    if parts != [] {
      PartEconomical(parts[0], p);
      PartsEconomical(parts[1..], ParsePart(parts[0], p).value);
    }
  }

  // ---------------------------------------------------------------- what printing writes

  lemma {:induction false} CountEscape(c: char, value: string)
    requires Counted(c)
    ensures Count(c, Escape(value)) == Count(c, value) + if c == '\\' then Count('"', value) else 0
    decreases |value|
  {
    if value != "" {
      CountEscape(c, value[1..]);
      var head := if value[0] == '"' then ['\\', '"'] else [value[0]];
      CountConcat(c, head, Escape(value[1..]));
      assert head[1..] == "" || (head[1..] == ['"'] && ['"'][1..] == "");
    }
  }

  lemma CountQuoted(c: char, value: string)
    requires Counted(c)
    ensures Count(c, QuoteIfNeeded(value)) == Count(c, value) + if c == '\\' then Count('"', value) else 0
  {
    hide Count, Escape;
    if Safe(value) {
      assert forall i :: 0 <= i < |value| ==> SafeChar(value[i]);
      CountAbsent('"', value);
    } else {
      var e := Escape(value);
      CountEscape(c, value);
      assert ['"'] + e + ['"'] == ['"'] + (e + ['"']);
      CountConcat(c, ['"'], e + ['"']);
      CountConcat(c, e, ['"']);
      CountOne(c, '"');
    }
  }

  lemma {:induction false} CountJoin(c: char, parts: seq<string>)
    requires c != ','
    ensures Count(c, JoinComma(parts)) == CountAll(c, parts)
    decreases |parts|
  {
    hide Count;
    CountAbsent(c, "");
    if |parts| == 1 {
      assert parts[1..] == [];
    } else if |parts| > 1 {
      CountJoin(c, parts[1..]);
      var rest := JoinComma(parts[1..]);
      assert parts[0] + [','] + rest == parts[0] + ([','] + rest);
      CountConcat(c, parts[0], [','] + rest);
      CountConcat(c, [','], rest);
      CountOne(c, ',');
    }
  }

  lemma {:induction false} CountAllConcat(c: char, a: seq<string>, b: seq<string>)
    ensures CountAll(c, a + b) == CountAll(c, a) + CountAll(c, b)
    decreases |a|
  {
    hide Count;
    if a == [] {
      assert a + b == b;
    } else {
      assert (a + b)[1..] == a[1..] + b;
      CountAllConcat(c, a[1..], b);
    }
  }

  lemma CountGiven(c: char, key: string, value: Option<string>)
    requires Counted(c) && AllowedKey(key) && (value.Some? ==> value.value != "")
    ensures CountAll(c, Given(key, value)) == FieldCount(c, value)
  {
    KeyCount(c, key);
    hide Count, AllowedKey;
    if value.Some? {
      var part := key + ['='] + value.value;
      assert [part][1..] == [] && part == key + (['='] + value.value);
      CountConcat(c, key, ['='] + value.value);
      CountConcat(c, ['='], value.value);
      CountOne(c, '=');
    }
  }

  /** A value the printer takes: not empty, trimmed, on one line; quotes and commas allowed. */
  predicate OneLine(value: string) { value != "" && Trimmed(value) && '\n' !in value }

  predicate Writable(p: Payload) {
    && (p.scope.Some? ==> AllowedScope(p.scope.value))
    && (p.app.Some? ==> OneLine(p.app.value))
    && (p.ttl.Some? ==> p.ttl.value > 0)
    && (p.reason.Some? ==> OneLine(p.reason.value))
  }

  function DoubleQuotes(value: Option<string>): nat { if value.Some? then Count('"', value.value) else 0 }

  function Escapes(p: Payload): nat { DoubleQuotes(p.app) + DoubleQuotes(p.reason) }

  lemma CountText(c: char, key: string, value: Option<string>)
    requires Counted(c) && AllowedKey(key) && (value.Some? ==> value.value != "")
    ensures CountAll(c, Given(key, Quoted(value))) == FieldCount(c, value) + if c == '\\' then DoubleQuotes(value) else 0
  {
    if value.Some? {
      assert QuoteIfNeeded(value.value) != "";
      hide Count, QuoteIfNeeded, AllowedKey, Given;
      CountQuoted(c, value.value);
    }
    hide Count, QuoteIfNeeded, AllowedKey, Given;
    CountGiven(c, key, Quoted(value));
  }

  lemma CountScope(c: char, scope: Option<string>)
    requires Counted(c) && (scope.Some? ==> AllowedScope(scope.value))
    ensures CountAll(c, Given("scope", scope)) == if scope.Some? then Sign(c) else 0
  {
    CountGiven(c, "scope", scope);
    if scope.Some? {
      ScopeCount(c, scope.value);
    }
  }

  lemma CountTtl(c: char, ttl: Option<nat>)
    requires Counted(c) && (ttl.Some? ==> ttl.value > 0)
    ensures CountAll(c, Given("ttl", if ttl.Some? && ttl.value > 0 then Some(FormatDuration(ttl.value)) else None))
         == if ttl.Some? then Sign(c) else 0
  {
    hide Count, CountAll, Given, FormatDuration;
    if ttl.Some? {
      var s := FormatDuration(ttl.value);
      FormattedChars(ttl.value);
      assert forall i :: 0 <= i < |s| ==> s[i] != c;
      CountAbsent(c, s);
      CountGiven(c, "ttl", Some(s));
    } else {
      CountGiven(c, "ttl", None);
    }
  }

  /** Printing writes what the payload holds, and a backslash more for every double quote. */
  lemma PrintedCount(c: char, p: Payload)
    requires Counted(c) && Writable(p)
    ensures Count(c, JoinComma(Parts(p))) == Weight(c, p) + if c == '\\' then Escapes(p) else 0
  {
    hide Given, Quoted, Count, CountAll, FieldCount, DoubleQuotes, FormatDuration, AllowedScope, JoinComma;
    var ttl := if p.ttl.Some? && p.ttl.value > 0 then Some(FormatDuration(p.ttl.value)) else None;
    var s, a, t, r := Given("scope", p.scope), Given("app", Quoted(p.app)), Given("ttl", ttl), Given("reason", Quoted(p.reason));
    CountJoin(c, Parts(p));
    CountScope(c, p.scope);
    CountText(c, "app", p.app);
    CountTtl(c, p.ttl);
    CountText(c, "reason", p.reason);
    CountAllConcat(c, s + a + t, r);
    CountAllConcat(c, s + a, t);
    CountAllConcat(c, s, a);
  }

  lemma LineCount(value: Option<string>)
    requires value.Some? ==> OneLine(value.value)
    ensures FieldCount('\n', value) == 0
  {
    hide Count;
    if value.Some? {
      CountAbsent('\n', value.value);
    }
  }

  lemma ParsePrintedBody(body: string)
    requires '\n' !in body
    ensures Parse("+live(" + body + ")") ==
              if Trim(body) == "" then Some(NOTHING) else ParseParts(SplitFrom(Trim(body), None, "", []), NOTHING)
  {
    hide Body, SplitFrom, ParseParts, Trim;
    BodyOfPrinted(body);
  }

  /**
   What parsing puts together can hold all signs of the printed text only if it holds all its
   backslashes; a printed double quote adds one that no payload holds.
   */
  lemma QuotedNeverReturns(p: Payload)
    requires Writable(p) && Escapes(p) > 0
    ensures Parse(Build(p)) != Some(p)
  {
    hide Count, Parts, JoinComma, SplitFrom, ParseParts, Parse, Trim, OneLine, AllowedScope, FieldCount, DoubleQuotes;
    var body := JoinComma(Parts(p));
    PrintedCount('\n', p);
    LineCount(p.app);
    LineCount(p.reason);
    CountAbsent('\n', body);
    PartsNonempty(p);
    ParsePrintedBody(body);
    if Parse(Build(p)) == Some(p) {
      var parts := SplitFrom(Trim(body), None, "", []);
      BodyCounts('=', body);
      BodyCounts('\\', body);
      PrintedCount('=', p);
      PrintedCount('\\', p);
      NothingWeighs('=');
      NothingWeighs('\\');
      PartsEconomical(parts, NOTHING);
      assert false;
    }
  }

  lemma BodyCounts(c: char, body: string)
    requires Counted(c) && c != '\n'
    ensures CountAll(c, SplitFrom(Trim(body), None, "", [])) == Count(c, body)
  {
    CountTrim(c, body);
    hide Trim, Count, SplitFrom;
    CountSplit(c, Trim(body), None, "", []);
    CountAbsent(c, "");
  }

  lemma NothingWeighs(c: char)
    ensures Weight(c, NOTHING) == 0
  {}

  lemma PartsNonempty(p: Payload)
    requires Writable(p) && Escapes(p) > 0
    ensures Parts(p) != [] && p != NOTHING
  {
    hide Count, QuoteIfNeeded, FormatDuration;
    if p.app.Some? {
      assert Given("app", Quoted(p.app)) != [] by {
        QuotedNonempty(p.app.value);
      }
    } else {
      assert Given("reason", Quoted(p.reason)) != [] by {
        QuotedNonempty(p.reason.value);
      }
    }
  }

  lemma QuotedNonempty(value: string)
    requires value != ""
    ensures QuoteIfNeeded(value) != ""
  {}

  /**
   For every payload the printer takes, with quotes, commas and all: the round trip holds exactly
   when neither app nor reason has a double quote.
   */
  lemma RoundTripIff(p: Payload)
    requires Writable(p)
    ensures Parse(Build(p)) == Some(p) <==>
            (p.app.Some? ==> '"' !in p.app.value) && (p.reason.Some? ==> '"' !in p.reason.value)
  {
    hide Count, Parse, Build;
    if p.app.Some? {
      CountAbsent('"', p.app.value);
    }
    if p.reason.Some? {
      CountAbsent('"', p.reason.value);
    }
    if Escapes(p) > 0 {
      QuotedNeverReturns(p);
    } else {
      ModifierRoundTrip(p);
    }
  }

  // ---------------------------------------------------------------- what comes back instead

  lemma {:induction false} SplitWithoutComma(s: string, quote: Option<char>, current: string)
    requires ',' !in s
    ensures SplitFrom(s, quote, current, []) == Keep([], current + s)
    decreases |s|
  {
    hide Keep;
    if s == "" {
      assert current + s == current;
    } else {
      var c := s[0];
      var next := if quote.Some? then (if c == quote.value then None else quote) else if IsQuote(c) then Some(c) else None;
      SplitWithoutComma(s[1..], next, current + [c]);
      assert current + [c] + s[1..] == current + s;
    }
  }

  lemma {:induction false} EscapeShape(value: string)
    requires value != "" && ',' !in value && '\n' !in value
    ensures var e := Escape(value);
      && ',' !in e && '\n' !in e && |e| >= |value|
      && ('"' in value ==> |e| > |value|)
      && e[0] == (if value[0] == '"' then '\\' else value[0]) && e[|e| - 1] == value[|value| - 1]
    decreases |value|
  {
    var head := if value[0] == '"' then ['\\', '"'] else [value[0]];
    var tail := Escape(value[1..]);
    assert Escape(value) == head + tail;
    if |value| > 1 {
      EscapeShape(value[1..]);
    }
  }

  /** A comma-free value with a double quote comes back with the printer's backslashes. */
  lemma QuotedReadsEscaped(value: string)
    requires value != "" && Trimmed(value) && ',' !in value && '\n' !in value && !Safe(value)
    ensures var p := Payload(None, Some(value), None, None); Parse(Build(p)) == Some(p.(app := Some(Escape(value))))
  {
    hide Parse, Escape, Safe, ParsePart;
    EscapeShape(value);
    var e := Escape(value);
    var part := "app" + ['='] + (['"'] + e + ['"']);
    PrintedApp(value);
    ReadEscaped(e);
    ParseOnePart(part);
  }

  lemma PrintedApp(value: string)
    requires value != "" && !Safe(value)
    ensures Build(Payload(None, Some(value), None, None)) == "+live(" + ("app" + ['='] + (['"'] + Escape(value) + ['"'])) + ")"
  {
    hide Escape, Safe;
    var part := "app" + ['='] + (['"'] + Escape(value) + ['"']);
    assert Given("app", Quoted(Some(value))) == [part];
    assert Parts(Payload(None, Some(value), None, None)) == [part];
  }

  /** A modifier whose body has no comma is read as one part. */
  lemma ParseOnePart(part: string)
    requires part != "" && Trimmed(part) && ',' !in part && '\n' !in part
    ensures Parse("+live(" + part + ")") == ParsePart(part, NOTHING)
  {
    hide Body, SplitFrom, ParsePart, Trim, Trimmed, IsSpace;
    TrimTrimmed(part);
    BodyOfPrinted(part);
    KeepTrimmed(part);
    SplitWithoutComma(part, None, "");
    assert "" + part == part;
    assert [part][1..] == [];
    var first := ParsePart(part, NOTHING);
    assert first.Some? ==> ParseParts([], first.value) == first;
    assert ParseParts([part], NOTHING) == first;
  }

  lemma KeepTrimmed(part: string)
    requires part != "" && Trimmed(part)
    ensures Keep([], part) == [part]
  {}

  lemma ReadEscaped(e: string)
    requires e != "" && Trimmed(e)
    ensures ParsePart("app" + ['='] + (['"'] + e + ['"']), NOTHING) == Some(NOTHING.(app := Some(e)))
  {
    hide Trim, StripQuotes, Before, After;
    KeyShape("app");
    var quoted := ['"'] + e + ['"'];
    PartitionOf("app", '=', quoted);
    StripQuoted(e);
    assert ("app" + ['='] + quoted)[3] == '=';
    TrimTrimmed(e);
  }
}
