/**
 Which connection URIs and records are admitted, and what they become, said of their texts: bytes of
 query names, the digits of a port, the user, password and endpoint spelled in a network location
 (lib/psql_keychain_store.py).
 */
module ProfileAdmission {
  import opened Text
  import opened ProfileUri

  // ---------------------------------------------------------------- query names

  function LowerByte(b: Byte): Byte { if 65 <= b <= 90 then b + 32 else b }

  function LowerBytes(s: seq<Byte>): seq<Byte> { if s == [] then [] else [LowerByte(s[0])] + LowerBytes(s[1..]) }

  /** The percent-decoded name of the field is one that libpq reads as a password, in any case of its letters. */
  predicate SecretName(field: string) {
    var name := LowerBytes(PercentDecode(Encode(Before(field, '='))));
    name == Encode("password") || name == Encode("sslpassword")
  }

  lemma {:induction false} AsTextIff(b: seq<Byte>, name: string)
    requires Ascii(name)
    ensures AsText(b).Some? && Lower(AsText(b).value) == name <==> LowerBytes(b) == Encode(name)
  {
    if b == [] {
      assert Lower("") == "" && LowerBytes(b) == [];
      assert name != "" ==> |Encode(name)| >= |name|;
    } else if name == "" {
      assert Encode(name) == [] && LowerBytes(b) != [];
    } else {
      assert Ascii(name[1..]) && name == [name[0]] + name[1..];
      AsTextIff(b[1..], name[1..]);
      TextHead(b, name[0], name[1..]);
      BytesHead(b, name[0], name[1..]);
    }
  }

  lemma TextHead(b: seq<Byte>, c: char, rest: string)
    requires b != [] && c as int < 128
    ensures AsText(b).Some? && Lower(AsText(b).value) == [c] + rest <==>
      LowerByte(b[0]) == c as int && AsText(b[1..]).Some? && Lower(AsText(b[1..]).value) == rest
  {
    if AsText(b).Some? {
      var t, d := AsText(b[1..]).value, b[0] as char;
      assert AsText(b).value == [d] + t;
      assert Lower([d] + t) == [LowerChar(d)] + Lower(t);
      SameSnoc(LowerChar(d), Lower(t), c, rest);
    }
  }

  lemma BytesHead(b: seq<Byte>, c: char, rest: string)
    requires b != [] && c as int < 128
    ensures LowerBytes(b) == Encode([c] + rest) <==> LowerByte(b[0]) == c as int && LowerBytes(b[1..]) == Encode(rest)
  {
    assert ([c] + rest)[1..] == rest && EncodeChar(c) == [c as int];
    assert Encode([c] + rest) == [c as int] + Encode(rest);
    assert LowerBytes(b) == [LowerByte(b[0])] + LowerBytes(b[1..]);
    hide Encode, EncodeChar, LowerBytes;
    SameSnoc(LowerByte(b[0]), LowerBytes(b[1..]), c as int, Encode(rest));
  }

  lemma SameSnoc<T>(x: T, a: seq<T>, y: T, b: seq<T>)
    ensures [x] + a == [y] + b <==> x == y && a == b
  {
    if [x] + a == [y] + b {
      assert ([x] + a)[0] == x && ([x] + a)[1..] == a;
      assert ([y] + b)[0] == y && ([y] + b)[1..] == b;
    }
  }

  lemma SecretFieldIff(field: string)
    ensures SecretField(field) <==> SecretName(field)
  {
    var name := Before(field, '=');
    UnquoteIsPercentDecode(name);
    SecretNamesAscii();
    hide AsText, Unquote, Encode, PercentDecode, LowerBytes, Lower, Ascii;
    AsTextIff(Unquote(name), "password");
    AsTextIff(Unquote(name), "sslpassword");
  }

  lemma SecretNamesAscii()
    ensures Ascii("password") && Ascii("sslpassword")
  {}

  lemma {:induction false} AnySecretIff(fields: seq<string>)
    ensures AnySecret(fields) <==> exists i :: 0 <= i < |fields| && SecretName(fields[i])
  {
    hide SecretField, SecretName;
    if fields != [] {
      SecretFieldIff(fields[0]);
      AnySecretIff(fields[1..]);
      assert forall i :: 0 < i < |fields| ==> fields[i] == fields[1..][i - 1];
    }
  }

  // ---------------------------------------------------------------- ports

  predicate PortNumber(port: string) { port == "" || (AllDigits(port) && ReadNat(port) <= 65535) }

  /** Whatever follows the endpoint's colon is a port; in brackets there may be other colons. */
  ghost predicate GoodPort(endpoint: string) {
    && (forall host, port | '[' !in endpoint && endpoint == host + [':'] + port && ':' !in host :: PortNumber(port))
    && (forall before, host, between, port |
          endpoint == before + ['['] + (host + [']'] + (between + [':'] + port))
          && '[' !in before && ']' !in host && ':' !in between ::
          PortNumber(port))
  }

  lemma ColonPort(s: string)
    ensures PortNumber(After(s, ':')) <==> forall host, port | s == host + [':'] + port && ':' !in host :: PortNumber(port)
  {
    hide Before, After, PortNumber;
    Partition(s, ':');
    if ':' !in s {
      assert PortNumber("") by {
        EmptyPort();
      }
    }
    forall host, port | s == host + [':'] + port && ':' !in host
      ensures port == After(s, ':')
    {
      PartitionOf(host, ':', port);
    }
  }

  lemma EmptyPort()
    ensures PortNumber("")
  {}

  /** What follows the bracketed host. */
  function Bracketed(endpoint: string): string { After(After(endpoint, '['), ']') }

  lemma BracketCut(before: string, host: string, rest: string)
    requires '[' !in before && ']' !in host
    ensures var endpoint := before + ['['] + (host + [']'] + rest); '[' in endpoint && Bracketed(endpoint) == rest
  {
    PartitionOf(before, '[', host + [']'] + rest);
    PartitionOf(host, ']', rest);
  }

  lemma BracketPort(endpoint: string)
    requires '[' in endpoint
    ensures PortNumber(After(Bracketed(endpoint), ':')) <==>
      forall before, host, between, port |
        endpoint == before + ['['] + (host + [']'] + (between + [':'] + port))
        && '[' !in before && ']' !in host && ':' !in between ::
        PortNumber(port)
  {
    hide Before, After, PortNumber, Bracketed;
    var rest := Bracketed(endpoint);
    ColonPort(rest);
    if !PortNumber(After(rest, ':')) {
      BracketWitness(endpoint);
    }
    forall before, host, between, port |
      endpoint == before + ['['] + (host + [']'] + (between + [':'] + port))
      && '[' !in before && ']' !in host && ':' !in between
      ensures rest == between + [':'] + port
    {
      BracketCut(before, host, between + [':'] + port);
    }
  }

  lemma BracketWitness(endpoint: string)
    requires '[' in endpoint && !PortNumber(After(Bracketed(endpoint), ':'))
    ensures exists before, host, between, port ::
      endpoint == before + ['['] + (host + [']'] + (between + [':'] + port))
      && '[' !in before && ']' !in host && ':' !in between && !PortNumber(port)
  {
    EmptyPort();
    var inner := After(endpoint, '[');
    var rest := Bracketed(endpoint);
    assert rest == After(inner, ']');
    hide Before, After, PortNumber, Bracketed;
    Partition(endpoint, '[');
    Partition(inner, ']');
    Partition(rest, ':');
    assert endpoint == Before(endpoint, '[') + ['['] + (Before(inner, ']') + [']'] + (Before(rest, ':') + [':'] + After(rest, ':')));
  }

  lemma NoBracketCut(endpoint: string)
    requires '[' !in endpoint
    ensures forall before, host, rest :: endpoint != before + ['['] + (host + [']'] + rest)
  {
    forall before: string, host: string, rest: string
      ensures endpoint != before + ['['] + (host + [']'] + rest)
    {
      assert (before + ['['] + (host + [']'] + rest))[|before|] == '[';
    }
  }

  lemma PortOkIff(netloc: string)
    ensures PortOk(netloc) <==> GoodPort(Endpoint(netloc))
  {
    var endpoint := Endpoint(netloc);
    assert PortOk(netloc) <==> PortNumber(PortText(endpoint));
    hide PortOk, PortNumber, Before, After, Endpoint;
    if '[' in endpoint {
      BracketPort(endpoint);
    } else {
      ColonPort(endpoint);
      NoBracketCut(endpoint);
    }
  }

  // ---------------------------------------------------------------- admission

  /** No query field is a secret, and the endpoint's port is one. */
  ghost predicate Admissible(u: Uri) {
    && GoodPort(Endpoint(u.netloc))
    && forall i :: 0 <= i < |SplitOn(u.query, '&')| ==> !SecretName(SplitOn(u.query, '&')[i])
  }

  lemma UsableIff(u: Uri)
    ensures Usable(u) <==> Admissible(u)
  {
    hide PortOk, GoodPort, AnySecret, SecretName;
    PortOkIff(u.netloc);
    AnySecretIff(SplitOn(u.query, '&'));
  }

  /** A bounded text without NUL, CR and LF. */
  predicate Presentable(text: string) {
    text != "" && |Encode(text)| <= 16384 && '\0' !in text && '\r' !in text && '\n' !in text
  }

  /** The library splits it, and what it splits into is admissible. */
  ghost predicate Supported(hosts: HostCheck, text: string) {
    HasPgPrefix(text) && UrlSplit(hosts, text).Some? && Admissible(UrlSplit(hosts, text).value)
  }

  lemma ValidatedIff(hosts: HostCheck, text: string)
    ensures Validated(hosts, text).Some? <==> Supported(hosts, text)
    ensures Supported(hosts, text) ==> Validated(hosts, text) == UrlSplit(hosts, text)
  {
    hide HasPgPrefix, UrlSplit, Usable, Admissible;
    if UrlSplit(hosts, text).Some? {
      UsableIff(UrlSplit(hosts, text).value);
    }
  }

  /** The network location spells this user, password and endpoint. */
  predicate Spells(netloc: string, user: string, password: string, endpoint: string) {
    netloc == user + [':'] + password + ['@'] + endpoint && ':' !in user && '@' !in endpoint
  }

  lemma SpelledParts(netloc: string, user: string, password: string, endpoint: string)
    requires Spells(netloc, user, password, endpoint)
    ensures UserInfo(netloc) == Some(user + [':'] + password) && Endpoint(netloc) == endpoint
    ensures ':' in user + [':'] + password
    ensures Before(user + [':'] + password, ':') == user && After(user + [':'] + password, ':') == password
  {
    CredentialsShape(user, password, endpoint);
    PartitionOf(user, ':', password);
    assert (user + [':'] + password)[|user|] == ':';
  }

  lemma PartsSpelled(netloc: string)
    requires UserInfo(netloc).Some? && ':' in UserInfo(netloc).value
    ensures var info := UserInfo(netloc).value; Spells(netloc, Before(info, ':'), After(info, ':'), Endpoint(netloc))
  {
    NetlocParts(netloc);
    Partition(UserInfo(netloc).value, ':');
  }

  /** The password can be handed on: no NUL byte in it once it is decoded. */
  ghost predicate PasswordFits(netloc: string) {
    forall user, password, endpoint | Spells(netloc, user, password, endpoint) && password != "" ::
      0 !in PercentDecode(Encode(password))
  }

  /** What becomes of the URI. */
  ghost predicate Becomes(text: string, u: Uri, p: Parsed) {
    && (forall user, password, endpoint | Spells(u.netloc, user, password, endpoint) ::
          p == if password == "" then Parsed(UrlUnsplit(u.(netloc := user + ['@'] + endpoint)), [], false)
               else Parsed(UrlUnsplit(u.(netloc := user + [':'] + "****" + ['@'] + endpoint)), PercentDecode(Encode(password)), true))
    && ((forall user, password, endpoint :: !Spells(u.netloc, user, password, endpoint)) ==> p == Parsed(text, [], false))
  }

  lemma PresentableIff(text: string)
    ensures Presentable(text) <==> text != "" && |Encode(text)| <= INPUT_LIMIT && !HasControl(text)
  {
    hide Encode;
  }

  lemma SecretIsDecoded(password: string)
    requires password != ""
    ensures Unquote(password) == PercentDecode(Encode(password)) != []
  {
    UnquoteIsPercentDecode(password);
    SecretNonempty(password);
  }

  lemma PasswordFitsIff(netloc: string)
    ensures PasswordFits(netloc) <==>
      (PasswordOf(netloc).Some? && PasswordOf(netloc).value != "" ==> 0 !in PercentDecode(Encode(PasswordOf(netloc).value)))
  {
    hide PercentDecode, Encode, Before, After;
    forall user, password, endpoint | Spells(netloc, user, password, endpoint)
      ensures PasswordOf(netloc) == Some(password)
    {
      SpelledParts(netloc, user, password, endpoint);
    }
    if PasswordOf(netloc).Some? {
      PartsSpelled(netloc);
    }
  }

  /**
   `_parse_profile_uri` accepts exactly the presentable texts that are supported and whose password
   fits; and what it makes of an accepted one is what its parts say.
   */
  lemma ParseIs(hosts: HostCheck, text: string)
    ensures var r := ParseProfileUri(hosts, text);
      && (r.Some? <==> Presentable(text) && Supported(hosts, text) && PasswordFits(UrlSplit(hosts, text).value.netloc))
      && (r.Some? ==> Becomes(text, UrlSplit(hosts, text).value, r.value))
  {
    PresentableIff(text);
    ValidatedIff(hosts, text);
    hide Presentable, Supported, Validated, Encode, UrlSplit, PercentDecode, Unquote, UrlUnsplit, HasControl;
    if Validated(hosts, text).Some? && Presentable(text) {
      var u := Validated(hosts, text).value;
      PasswordFitsIff(u.netloc);
      ParseParts(hosts, text, u);
    }
  }

  lemma ParseParts(hosts: HostCheck, text: string, u: Uri)
    requires text != "" && |Encode(text)| <= INPUT_LIMIT && !HasControl(text) && Validated(hosts, text) == Some(u)
    ensures var r, password := ParseProfileUri(hosts, text), PasswordOf(u.netloc);
      && (r.Some? <==> (password.Some? && password.value != "" ==> 0 !in PercentDecode(Encode(password.value))))
      && (r.Some? ==> Becomes(text, u, r.value))
  {
    hide Validated, Encode, PercentDecode, Unquote, UrlUnsplit, HasControl, Before, After, Endpoint, UserInfo;
    forall user, password, endpoint | Spells(u.netloc, user, password, endpoint)
      ensures UserInfo(u.netloc) == Some(user + [':'] + password) && Endpoint(u.netloc) == endpoint
      ensures ':' in user + [':'] + password
      ensures Before(user + [':'] + password, ':') == user && After(user + [':'] + password, ':') == password
    {
      SpelledParts(u.netloc, user, password, endpoint);
    }
    if UserInfo(u.netloc).Some? && ':' in UserInfo(u.netloc).value {
      PartsSpelled(u.netloc);
      var password := After(UserInfo(u.netloc).value, ':');
      if password != "" {
        SecretIsDecoded(password);
      }
    }
  }

  /** The password that the network location spells, as the record's marker calls for it. */
  ghost predicate Expects(netloc: string, required: bool) {
    if required then exists user, endpoint :: Spells(netloc, user, "****", endpoint)
    else forall user, password, endpoint | Spells(netloc, user, password, endpoint) :: password == ""
  }

  lemma ExpectsIff(netloc: string, required: bool)
    ensures Expects(netloc, required) <==>
      if required then PasswordOf(netloc) == Some("****") else PasswordOf(netloc) == None || PasswordOf(netloc) == Some("")
  {
    hide Before, After;
    forall user, password, endpoint | Spells(netloc, user, password, endpoint)
      ensures PasswordOf(netloc) == Some(password)
    {
      SpelledParts(netloc, user, password, endpoint);
    }
    if PasswordOf(netloc).Some? {
      PartsSpelled(netloc);
    }
  }

  /**
   `_profile_record` accepts exactly the records with a presentable, supported connection whose
   password is the mask, if a credential is required, and empty or absent otherwise; an explicit
   marker has to say the same.
   */
  lemma RecordIs(hosts: HostCheck, entry: Entry, text: string, required: bool)
    ensures ProfileRecord(hosts, entry) == Some((text, required)) <==>
      && entry.Record? && entry.connection == Some(text)
      && Presentable(text) && Supported(hosts, text)
      && (entry.marker == Missing || entry.marker == Flag(required))
      && Expects(UrlSplit(hosts, text).value.netloc, required)
  {
    PresentableIff(text);
    ValidatedIff(hosts, text);
    hide Presentable, Supported, Validated, Encode, UrlSplit, HasControl, PasswordOf, Expects;
    if Validated(hosts, text).Some? {
      ExpectsIff(Validated(hosts, text).value.netloc, required);
    }
  }
}
