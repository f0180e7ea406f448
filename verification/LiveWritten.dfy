/**
 What `+live(...)` modifiers written by hand mean (lib/live/parser.py): durations with and without a
 unit, keys in any order, and the last one of a key that is given twice.
 */
module LiveWritten {
  import opened Text
  import opened LiveModifier

  // ---------------------------------------------------------------- durations

  /** What a unit stands for; none stands for seconds. */
  predicate UnitIs(unit: string, seconds: nat) {
    || ((unit == "" || unit == "s" || unit == "S") && seconds == 1)
    || ((unit == "m" || unit == "M") && seconds == 60)
    || ((unit == "h" || unit == "H") && seconds == 3600)
    || ((unit == "d" || unit == "D") && seconds == 86400)
  }

  /** The text is this number in this unit, with blanks around it. */
  ghost predicate Writes(value: string, digits: string, unit: string) {
    digits != "" && AllDigits(digits)
    && exists pre, post :: value == pre + (digits + unit) + post && AllBlank(pre) && AllBlank(post)
  }

  lemma AmountTrimmed(digits: string, unit: string, seconds: nat)
    requires digits != "" && AllDigits(digits) && UnitIs(unit, seconds)
    ensures Trimmed(digits + unit) && digits + unit != ""
  {
    var s := digits + unit;
    assert digits[0] in digits && digits[|digits| - 1] in digits;
    assert s[0] == digits[0] && s[|s| - 1] == if unit == "" then digits[|digits| - 1] else unit[0];
    hide IsSpace;
    VisibleChar(s[0]);
    VisibleChar(s[|s| - 1]);
  }

  lemma UnitLower(digits: string, unit: string, seconds: nat)
    requires digits != "" && AllDigits(digits) && UnitIs(unit, seconds)
    ensures Lower(digits + unit) == digits + Lower(unit)
    ensures Lower(unit) == "" || (|Lower(unit)| == 1 && Multiplier(Lower(unit)[0]) == Some(seconds))
    ensures Lower(unit) == "" ==> seconds == 1
  {
    DigitsLower(digits);
    assert Lower(digits + unit) == Lower(digits) + Lower(unit);
  }

  lemma NoDigitUnit(c: char)
    requires IsDigit(c)
    ensures Multiplier(c).None?
  {}

  lemma AmountOf(digits: string, unit: string, seconds: nat)
    requires digits != "" && AllDigits(digits) && UnitIs(unit, seconds)
    ensures ParseAmount(Lower(digits + unit)) == Some(ReadNat(digits) * seconds)
  {
    UnitLower(digits, unit, seconds);
    hide UnitIs, Multiplier, Lower, ParseAmount, ReadNat;
    if Lower(unit) == "" {
      assert digits + Lower(unit) == digits;
      PlainAmount(digits);
    } else {
      assert digits + Lower(unit) == digits + [Lower(unit)[0]];
      UnitAmount(digits, Lower(unit)[0]);
    }
  }

  /** A number with or without a unit is that many seconds. */
  lemma WrittenDuration(value: string, digits: string, unit: string, seconds: nat)
    requires Writes(value, digits, unit) && UnitIs(unit, seconds)
    ensures ParseDuration(value) == Some(ReadNat(digits) * seconds)
  {
    AmountOf(digits, unit, seconds);
    AmountTrimmed(digits, unit, seconds);
    hide Trim, Trimmed, AllBlank, UnitIs, Lower, ParseAmount, ReadNat;
    var pre, post :| value == pre + (digits + unit) + post && AllBlank(pre) && AllBlank(post);
    TrimBlanks(pre, digits + unit, post);
  }

  lemma PlainAmount(digits: string)
    requires digits != "" && AllDigits(digits)
    ensures ParseAmount(digits) == Some(ReadNat(digits))
  {
    assert digits[|digits| - 1] in digits;
    NoDigitUnit(digits[|digits| - 1]);
    hide Multiplier, ReadNat;
  }

  lemma UnitAmount(digits: string, unit: char)
    requires digits != "" && AllDigits(digits) && Multiplier(unit).Some?
    ensures ParseAmount(digits + [unit]) == Some(ReadNat(digits) * Multiplier(unit).value)
  {
    hide Multiplier, ReadNat;
    var raw := digits + [unit];
    assert raw[|raw| - 1] == unit && raw[..|raw| - 1] == digits;
  }

  lemma {:induction false} LowerDigits(s: string)
    requires AllDigits(Lower(s))
    ensures AllDigits(s) && Lower(s) == s
  {
    forall i | 0 <= i < |s|
      ensures IsDigit(s[i])
    {
      assert Lower(s)[i] in Lower(s);
    }
    DigitsLower(s);
  }

  lemma UnitOf(c: char)
    requires Multiplier(LowerChar(c)).Some?
    ensures UnitIs([c], Multiplier(LowerChar(c)).value)
  {}

  lemma OnlyAmounts(t: string) returns (digits: string, unit: string, seconds: nat)
    requires ParseAmount(Lower(t)).Some?
    ensures t == digits + unit && digits != "" && AllDigits(digits) && UnitIs(unit, seconds)
    ensures ParseAmount(Lower(t)) == Some(ReadNat(digits) * seconds)
  {
    var raw := Lower(t);
    var n := |raw| - 1;
    assert raw[n] == LowerChar(t[n]) && Lower(t[..n]) == raw[..n];
    hide Lower, Multiplier, UnitIs, ReadNat;
    if Multiplier(raw[n]).Some? {
      digits, unit, seconds := t[..n], [t[n]], Multiplier(raw[n]).value;
      UnitOf(t[n]);
      LowerDigits(t[..n]);
    } else {
      digits, unit, seconds := t, "", 1;
      LowerDigits(t);
      NoUnit();
    }
  }

  lemma NoUnit()
    ensures UnitIs("", 1)
  {}

  lemma AroundSlice<T>(s: seq<T>, start: nat, end: nat)
    requires start <= end <= |s|
    ensures s == s[..start] + s[start..end] + s[end..]
  {}

  /** And nothing else is a duration. */
  lemma OnlyWrittenDurations(value: string) returns (digits: string, unit: string, seconds: nat)
    requires ParseDuration(value).Some?
    ensures Writes(value, digits, unit) && UnitIs(unit, seconds) && ParseDuration(value) == Some(ReadNat(digits) * seconds)
  {
    var start := TrimCut(value);
    hide Trim, Trimmed, IsSpace, ParseAmount, UnitIs, ReadNat, Lower;
    var end := start + |Trim(value)|;
    digits, unit, seconds := OnlyAmounts(Trim(value));
    AroundSlice(value, start, end);
    var pre, post := value[..start], value[end..];
    assert AllBlank(pre) && AllBlank(post);
    assert value == pre + (digits + unit) + post;
  }

  // ---------------------------------------------------------------- fields

  function KeyOf(part: string): string { Trim(Before(part, '=')) }

  function ValueOf(part: string): string { StripQuotes(After(part, '=')) }

  /** A segment the parser accepts: a known key, a known scope, a duration. */
  predicate Good(part: string) {
    && '=' in part
    && (KeyOf(part) == "scope" || KeyOf(part) == "app" || KeyOf(part) == "ttl" || KeyOf(part) == "reason")
    && (KeyOf(part) == "scope" ==> AllowedScope(Lower(Trim(ValueOf(part)))))
    && (KeyOf(part) == "ttl" ==> ParseDuration(ValueOf(part)).Some?)
  }

  /** The value given last for the key. */
  function Last(parts: seq<string>, key: string): Option<string> {
    if parts == [] then None
    else
      var n := |parts| - 1;
      if KeyOf(parts[n]) == key then Some(ValueOf(parts[n])) else Last(parts[..n], key)
  }

  /** An empty text stands for no value. */
  function Written(value: Option<string>): Option<string> {
    if value.Some? && Trim(value.value) != "" then Some(Trim(value.value)) else None
  }

  function Meant(parts: seq<string>): Payload {
    var scope, ttl := Last(parts, "scope"), Last(parts, "ttl");
    Payload(if scope.Some? then Some(Lower(Trim(scope.value))) else None,
            Written(Last(parts, "app")),
            if ttl.Some? then ParseDuration(ttl.value) else None,
            Written(Last(parts, "reason")))
  }

  lemma PartIs(part: string, p: Payload)
    ensures ParsePart(part, p).Some? <==> Good(part)
    ensures Good(part) ==>
      var key, value, q := KeyOf(part), ValueOf(part), ParsePart(part, p).value;
      && q.scope == (if key == "scope" then Some(Lower(Trim(value))) else p.scope)
      && q.app == (if key == "app" then Written(Some(value)) else p.app)
      && q.ttl == (if key == "ttl" then ParseDuration(value) else p.ttl)
      && q.reason == (if key == "reason" then Written(Some(value)) else p.reason)
  {
    hide Trim, StripQuotes, ParseDuration, Lower, AllowedScope, Before, After;
  }

  lemma {:induction false} PartsSnoc(parts: seq<string>, part: string, p: Payload)
    ensures ParseParts(parts + [part], p) ==
      if ParseParts(parts, p).Some? then ParsePart(part, ParseParts(parts, p).value) else None
    decreases |parts|
  {
    hide ParsePart;
    if parts == [] {
      assert [part][1..] == [];
      assert parts + [part] == [part];
    } else {
      assert (parts + [part])[1..] == parts[1..] + [part] && (parts + [part])[0] == parts[0];
      if ParsePart(parts[0], p).Some? {
        PartsSnoc(parts[1..], part, ParsePart(parts[0], p).value);
      }
    }
  }

  lemma LastSnoc(parts: seq<string>, part: string, key: string)
    ensures Last(parts + [part], key) == if KeyOf(part) == key then Some(ValueOf(part)) else Last(parts, key)
  {
    assert (parts + [part])[..|parts|] == parts;
  }

  /** The segments are read exactly when all are good, each key with the value given last. */
  lemma {:induction false} PartsMean(parts: seq<string>)
    ensures ParseParts(parts, NOTHING) == if forall i :: 0 <= i < |parts| ==> Good(parts[i]) then Some(Meant(parts)) else None
    decreases |parts|
  {
    hide ParsePart, Good, KeyOf, ValueOf, Trim, ParseDuration, Lower;
    if parts != [] {
      var n := |parts| - 1;
      var before, part := parts[..n], parts[n];
      assert parts == before + [part];
      PartsMean(before);
      PartsSnoc(before, part, NOTHING);
      LastSnoc(before, part, "scope");
      LastSnoc(before, part, "app");
      LastSnoc(before, part, "ttl");
      LastSnoc(before, part, "reason");
      PartIs(part, Meant(before));
      assert forall i :: 0 <= i < n ==> before[i] == parts[i];
    }
  }

  /** Every accepted modifier means what its segments say, the last one of each key; an empty body says nothing. */
  lemma ParseMeans(raw: string)
    ensures var body := Body(Trim(raw));
      if body.None? then Parse(raw) == None
      else
        var parts := SplitFrom(Trim(body.value), None, "", []);
        Parse(raw) == if forall i :: 0 <= i < |parts| ==> Good(parts[i]) then Some(Meant(parts)) else None
  {
    hide Body, Good, Trim, ParseParts, Meant;
    var body := Body(Trim(raw));
    if body.Some? {
      PartsMean(SplitFrom(Trim(body.value), None, "", []));
      if Trim(body.value) == "" {
        NothingSaid();
      }
    }
  }

  lemma NothingSaid()
    ensures SplitFrom("", None, "", []) == [] && Meant([]) == NOTHING
  {}

  // Fields as they are written: a value without commas and quotes stands for itself, any other in quotes of either kind.

  lemma {:induction false} ScanQuotes(inner: string, q: char)
    requires q !in inner
    ensures Scan(inner + [q], Some(q)) == Some(None)
    decreases |inner|
  {
    var s := inner + [q];
    if inner == "" {
      assert s[1..] == "" && s[0] == q;
    } else {
      ScanQuotes(inner[1..], q);
      assert s[1..] == inner[1..] + [q] && s[0] == inner[0];
    }
  }

  lemma KeyText(key: string)
    requires AllowedKey(key)
    ensures key != "" && Inert(key + ['=']) && '=' !in key && Trim(key) == key && !IsSpace(key[0])
  {
    VisibleChar(key[0]);
    VisibleChar(key[|key| - 1]);
    hide IsSpace, Trim;
    TrimTrimmed(key);
  }

  lemma FieldKey(key: string, text: string)
    requires AllowedKey(key)
    ensures var part := key + ['='] + text; '=' in part && KeyOf(part) == key && After(part, '=') == text
  {
    KeyText(key);
    PartitionOf(key, '=', text);
    assert (key + ['='] + text)[|key|] == '=';
    hide Trim, Before, After, AllowedKey;
  }

  lemma FieldSegment(key: string, text: string)
    requires AllowedKey(key) && text != "" && !IsSpace(text[|text| - 1]) && Scan(text, None) == Some(None)
    ensures Segment(key + ['='] + text)
  {
    KeyText(key);
    var part := key + ['='] + text;
    assert part[0] == key[0] && part[|part| - 1] == text[|text| - 1];
    hide IsSpace, Scan, AllowedKey;
    ScanInert(key + ['=']);
    ScanConcat(key + ['='], text, None);
  }

  /** A quoted value may hold commas, equals signs and the other quote. */
  lemma QuotedField(key: string, q: char, inner: string)
    requires AllowedKey(key) && IsQuote(q) && q !in inner
    ensures var part := key + ['='] + ([q] + inner + [q]);
      Segment(part) && '=' in part && KeyOf(part) == key && ValueOf(part) == inner
  {
    var text := [q] + inner + [q];
    assert text == [q] + (inner + [q]) && text[1..] == inner + [q];
    ScanQuotes(inner, q);
    VisibleChar(q);
    assert Scan(text, None) == Scan(text[1..], Some(q));
    FieldKey(key, text);
    FieldSegment(key, text);
    StripEither(q, inner);
    hide Segment, KeyOf, StripQuotes, AllowedKey;
  }

  lemma StripEither(q: char, inner: string)
    requires IsQuote(q)
    ensures StripQuotes([q] + inner + [q]) == inner
  {
    var text := [q] + inner + [q];
    assert Trimmed(text);
    assert text[1..|text| - 1] == inner;
  }

  lemma PlainField(key: string, value: string)
    requires AllowedKey(key) && value != "" && Trimmed(value) && Inert(value)
    ensures var part := key + ['='] + value; Segment(part) && '=' in part && KeyOf(part) == key && ValueOf(part) == value
  {
    ScanInert(value);
    FieldKey(key, value);
    FieldSegment(key, value);
    StripPlain(value);
    hide Segment, KeyOf, StripQuotes, AllowedKey;
  }

  lemma StripPlain(value: string)
    requires value != "" && Trimmed(value) && Inert(value)
    ensures StripQuotes(value) == value
  {
    TrimTrimmed(value);
    hide Trim, IsSpace;
    assert !IsQuote(value[0]);
  }

  /** Segments joined by commas, in any order, mean what they say. */
  lemma ModifierMeans(parts: seq<string>)
    requires parts != [] && GoodParts(parts)
    ensures Parse("+live(" + JoinComma(parts) + ")") ==
      if forall i :: 0 <= i < |parts| ==> Good(parts[i]) then Some(Meant(parts)) else None
  {
    hide Body, SplitFrom, Good, Meant, Segment, ParseParts;
    JoinShape(parts);
    BodyOfPrinted(JoinComma(parts));
    SplitJoined(parts, []);
    assert [] + parts == parts;
    PartsMean(parts);
  }

  lemma DigitsPlain(digits: string)
    requires digits != "" && AllDigits(digits)
    ensures Inert(digits) && '\n' !in digits && Trimmed(digits)
  {
    forall i | 0 <= i < |digits|
      ensures IsDigit(digits[i])
    {
      assert digits[i] in digits;
    }
    hide IsSpace;
    VisibleChar(digits[0]);
    VisibleChar(digits[|digits| - 1]);
  }

  lemma DigitsAreSeconds(digits: string)
    requires digits != "" && AllDigits(digits)
    ensures ParseDuration(digits) == Some(ReadNat(digits))
  {
    assert digits == "" + (digits + "") + "" && AllBlank("");
    hide ParseDuration, AllBlank, AllDigits, ReadNat;
    WrittenDuration(digits, digits, "", 1);
  }

  lemma TtlKey()
    ensures AllowedKey("ttl") && '\n' !in "ttl"
  {}

  lemma OnePart(part: string)
    requires Segment(part) && '\n' !in part
    ensures GoodParts([part])
  {}

  lemma BareTtlPart(digits: string)
    requires digits != "" && AllDigits(digits)
    ensures var part := "ttl" + ['='] + digits;
      GoodParts([part]) && '=' in part && KeyOf(part) == "ttl" && ValueOf(part) == digits
  {
    TtlKey();
    DigitsPlain(digits);
    hide Trimmed, Segment, KeyOf, ValueOf, AllDigits, Inert, AllowedKey, GoodParts;
    var key := "ttl";
    PlainField(key, digits);
    OnePart(key + ['='] + digits);
  }

  lemma LastOfOne(part: string, key: string)
    ensures Last([part], key) == if KeyOf(part) == key then Some(ValueOf(part)) else None
  {
    assert [part][..0] == [];
    assert Last([], key) == None;
  }

  lemma BareTtlMeant(digits: string)
    requires digits != "" && AllDigits(digits)
    ensures Good("ttl" + ['='] + digits) && Meant(["ttl" + ['='] + digits]) == Payload(None, None, Some(ReadNat(digits)), None)
  {
    var part := "ttl" + ['='] + digits;
    BareTtlPart(digits);
    DigitsAreSeconds(digits);
    hide ReadNat, KeyOf, ValueOf, ParseDuration, Last, AllDigits;
    LastOfOne(part, "scope");
    LastOfOne(part, "app");
    LastOfOne(part, "ttl");
    LastOfOne(part, "reason");
  }

  /** A time to live without a unit is in seconds. */
  lemma BareTtl(digits: string)
    requires digits != "" && AllDigits(digits)
    ensures Parse("+live(" + ("ttl" + ['='] + digits) + ")") == Some(Payload(None, None, Some(ReadNat(digits)), None))
  {
    var part := "ttl" + ['='] + digits;
    BareTtlPart(digits);
    BareTtlMeant(digits);
    hide ReadNat, Parse, Good, Meant, GoodParts, AllDigits;
    assert JoinComma([part]) == part;
    ModifierMeans([part]);
  }
}
