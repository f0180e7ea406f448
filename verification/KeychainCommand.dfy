/**
 The command with which a secret is stored in the Keychain: one line for the helper's interactive
 parser, which reads back the account and the secret (lib/psql_keychain_store.py).
 */
module KeychainCommand {
  import opened Text
  import opened ProfileUri
  import opened ProfileProtocol

  const NEWLINE: Byte := 10

  function HexOf(d: nat): (b: Byte)
    requires d < 16
    ensures IsHex(b) && HexValue(b) == d
  {
    if d < 10 then 48 + d else 87 + d
  }

  /** `bytes.hex`. */
  function Hex(secret: seq<Byte>): seq<Byte> {
    if secret == [] then [] else [HexOf(secret[0] / 16), HexOf(secret[0] % 16)] + Hex(secret[1..])
  }

  /** What the helper makes of the digits; None is a malformed secret. */
  function Unhex(digits: seq<Byte>): Option<seq<Byte>> {
    if digits == [] then Some([])
    else if |digits| == 1 || !IsHex(digits[0]) || !IsHex(digits[1]) then None
    else match Unhex(digits[2..])
      case None => None
      case Some(rest) => Some([16 * HexValue(digits[0]) + HexValue(digits[1])] + rest)
  }

  lemma {:induction false} HexRoundTrip(secret: seq<Byte>)
    ensures Unhex(Hex(secret)) == Some(secret) && |Hex(secret)| == 2 * |secret|
  {
    if secret != [] {
      HexRoundTrip(secret[1..]);
      var digits := Hex(secret);
      assert digits[0] == HexOf(secret[0] / 16) && digits[1] == HexOf(secret[0] % 16) && digits[2..] == Hex(secret[1..]);
      assert [secret[0]] + secret[1..] == secret;
    }
  }

  /** The helper's reading of a quoted argument after its opening quote: the argument, and what follows its closing quote. */
  function ReadQuoted(s: string): Option<(string, string)> {
    if s == "" then None
    else if s[0] == '"' then Some(("", s[1..]))
    else if s[0] == '\\' then
      if |s| == 1 then None
      else match ReadQuoted(s[2..])
        case None => None
        case Some((value, rest)) => Some(([s[1]] + value, rest))
    else match ReadQuoted(s[1..])
      case None => None
      case Some((value, rest)) => Some(([s[0]] + value, rest))
  }

  lemma EscapedStep(c: char, rest: string)
    ensures Escaped("") == ""
    ensures Escaped([c] + rest) == (if c == '\\' || c == '"' then ['\\', c] else [c]) + Escaped(rest)
  {
    assert ([c] + rest)[1..] == rest;
  }

  /** One character of the argument. */
  lemma ReadStep(c: char, tail: string)
    requires ReadQuoted(tail).Some?
    ensures ReadQuoted((if c == '\\' || c == '"' then ['\\', c] else [c]) + tail)
         == Some(([c] + ReadQuoted(tail).value.0, ReadQuoted(tail).value.1))
  {
    if c == '\\' || c == '"' {
      assert (['\\', c] + tail)[2..] == tail;
    } else {
      assert ([c] + tail)[1..] == tail;
    }
  }

  lemma ReadEnd(rest: string)
    ensures ReadQuoted(['"'] + rest) == Some(("", rest))
  {
    assert (['"'] + rest)[1..] == rest;
  }

  /** No account can break out of its quotes. */
  lemma {:induction false} QuotedReads(account: string, rest: string)
    ensures ReadQuoted(Escaped(account) + (['"'] + rest)) == Some((account, rest))
  {
    hide Escaped, ReadQuoted;
    if account == "" {
      EscapedStep('a', "");
      ReadEnd(rest);
      assert "" + (['"'] + rest) == ['"'] + rest;
    } else {
      var c := account[0];
      QuotedReads(account[1..], rest);
      EscapedStep(c, account[1..]);
      assert account == [c] + account[1..];
      var head := if c == '\\' || c == '"' then ['\\', c] else [c];
      assert head + Escaped(account[1..]) + (['"'] + rest) == head + (Escaped(account[1..]) + (['"'] + rest));
      ReadStep(c, Escaped(account[1..]) + (['"'] + rest));
    }
  }

  /** `_build_store_command`: the whole line. */
  function StoreCommand(account: string, secret: seq<Byte>): seq<Byte> {
    Encode("add-generic-password -U -a \"" + Escaped(account) + "\" -s \"agent-psql\" -X ") + Hex(secret) + [NEWLINE]
  }

  /** What is refused before the helper starts: bad arguments, no secret, or a line of 4096 bytes or more. */
  lemma SendableIff(account: string, secret: seq<Byte>)
    ensures Sendable(account, secret) <==>
      && account != "" && '\0' !in account && '\r' !in account && '\n' !in account
      && secret != [] && |StoreCommand(account, secret)| < 4096
  {
    HexRoundTrip(secret);
    hide Encode, Escaped, Hex;
    var head := Encode("add-generic-password -U -a \"" + Escaped(account) + "\" -s \"agent-psql\" -X ");
    assert head == Encode(CommandHead(account));
    assert |StoreCommand(account, secret)| == |head| + |Hex(secret)| + 1;
  }

  lemma {:induction false} NoNewlineByte(s: string)
    requires '\n' !in s
    ensures NEWLINE !in Encode(s)
  {
    if s != "" {
      NoNewlineByte(s[1..]);
      assert s[0] != '\n';
      assert NEWLINE !in EncodeChar(s[0]);
    }
  }

  lemma {:induction false} EscapedPlain(account: string)
    requires '\n' !in account
    ensures '\n' !in Escaped(account)
  {
    if account != "" {
      EscapedPlain(account[1..]);
    }
  }

  lemma {:induction false} HexPlain(secret: seq<Byte>)
    ensures NEWLINE !in Hex(secret)
  {
    if secret != [] {
      HexPlain(secret[1..]);
      assert IsHex(HexOf(secret[0] / 16)) && IsHex(HexOf(secret[0] % 16)) && !IsHex(NEWLINE);
    }
  }

  /** A command that is sent is one line: its only newline is its last byte. */
  lemma OneLine(account: string, secret: seq<Byte>)
    requires Sendable(account, secret)
    ensures var command := StoreCommand(account, secret);
      command[|command| - 1] == NEWLINE && NEWLINE !in command[..|command| - 1]
  {
    EscapedPlain(account);
    var head := "add-generic-password -U -a \"" + Escaped(account) + "\" -s \"agent-psql\" -X ";
    assert '\n' !in head;
    NoNewlineByte(head);
    HexPlain(secret);
    hide Encode, Escaped, Hex, Sendable;
    assert StoreCommand(account, secret)[..|StoreCommand(account, secret)| - 1] == Encode(head) + Hex(secret);
  }
}
