/**
 The plain arithmetic a ref becomes once its keys are replaced (lib/bounds.py): Python's
 tokens, grammar and evaluation for numerals, `+ - * / //`, signs and parentheses. The same
 grammar with keys as atoms gives a ref its meaning before any text is replaced.
 */
module RefArithmetic {
  import opened Text
  import opened RefText

  // ---------------------------------------------------------------- numerals

  predicate NumeralChar(c: char) { IsDigit(c) || c == '.' || c == '_' }

  /** Digits with single underscores between them. */
  predicate DigitPart(s: string) {
    && s != "" && IsDigit(s[0]) && IsDigit(s[|s| - 1])
    && (forall i :: 0 <= i < |s| ==> IsDigit(s[i]) || s[i] == '_')
    && (forall i :: 0 < i < |s| ==> s[i] != '_' || s[i - 1] != '_')
  }

  predicate IsNumeral(s: string) {
    if '.' !in s then
      DigitPart(s) && (s[0] != '0' || forall i :: 0 <= i < |s| ==> s[i] == '0' || s[i] == '_')
    else
      && (Before(s, '.') == "" || DigitPart(Before(s, '.')))
      && (After(s, '.') == "" || DigitPart(After(s, '.')))
      && !(Before(s, '.') == "" && After(s, '.') == "")
  }

  function Digits(s: string): (r: string)
    ensures AllDigits(r)
  {
    if s == "" then "" else (if IsDigit(s[0]) then [s[0]] else []) + Digits(s[1..])
  }

  function NumeralValue(s: string): real {
    var fraction := Digits(After(s, '.'));
    ReadNat(Digits(Before(s, '.'))) as real + ReadNat(fraction) as real / PowerOfTen(|fraction|) as real
  }

  // ---------------------------------------------------------------- tokens

  datatype Token = Num(text: string) | Key(name: string) | Plus | Minus | Star | Slash | Floor | Power | Open | Close

  function NumeralLength(s: string): (n: nat)
    ensures n <= |s|
    ensures n < |s| ==> !NumeralChar(s[n])
    ensures forall i :: 0 <= i < n ==> NumeralChar(s[i])
  {
    if s == "" || !NumeralChar(s[0]) then 0 else 1 + NumeralLength(s[1..])
  }

  /** The first token of a text, if there is one, and the length it takes. */
  function FirstToken(s: string): (r: Option<(seq<Token>, nat)>)
    requires s != ""
    ensures r.Some? ==> 1 <= r.value.1 <= |s|
  {
    match s[0]
    case ' ' => Some(([], 1))
    case '(' => Some(([Open], 1))
    case ')' => Some(([Close], 1))
    case '+' => Some(([Plus], 1))
    case '-' => Some(([Minus], 1))
    case '*' => if |s| > 1 && s[1] == '*' then Some(([Power], 2)) else Some(([Star], 1))
    case '/' => if |s| > 1 && s[1] == '/' then Some(([Floor], 2)) else Some(([Slash], 1))
    case c =>
      var n := NumeralLength(s);
      if n > 0 && IsNumeral(s[..n]) then Some(([Num(s[..n])], n)) else None
  }

  /** The tokens of a text; None is a syntax error. */
  function Lex(s: string): Option<seq<Token>>
    decreases |s|
  {
    if s == "" then Some([])
    else match FirstToken(s)
      case None => None
      case Some((ts, n)) =>
        match Lex(s[n..])
        case None => None
        case Some(rest) => Some(ts + rest)
  }

  function Join(a: Option<seq<Token>>, b: Option<seq<Token>>): Option<seq<Token>> {
    if a.Some? && b.Some? then Some(a.value + b.value) else None
  }

  lemma NumeralAcross(w: string, d: char, t: string)
    requires IsDelimiter(d)
    ensures NumeralLength(w + [d] + t) == NumeralLength(w)
  {
    var s := w + [d] + t;
    var n := NumeralLength(w);
    assert s[|w|] == d;
    assert forall i :: 0 <= i < |w| ==> s[i] == w[i];
  }

  lemma FirstTokenAcross(w: string, d: char, t: string)
    requires w != "" && IsDelimiter(d)
    ensures FirstToken(w + [d] + t) == FirstToken(w)
  {
    var s := w + [d] + t;
    NumeralAcross(w, d, t);
    assert s[0] == w[0] && s[1] == if |w| > 1 then w[1] else d;
    assert s[..NumeralLength(w)] == w[..NumeralLength(w)];
  }

  /** A delimiter always ends a token. */
  lemma {:induction false} LexAcross(w: string, d: char, t: string)
    requires IsDelimiter(d)
    ensures Lex(w + [d] + t) == Join(Lex(w), Lex([d] + t))
    decreases |w|
  {
    hide FirstToken;
    var s := w + [d] + t;
    if w == "" {
      assert s == [d] + t;
      if Lex(s).Some? {
        assert [] + Lex(s).value == Lex(s).value;
      }
    } else {
      FirstTokenAcross(w, d, t);
      if FirstToken(w).Some? {
        var (ts, n) := FirstToken(w).value;
        assert s[n..] == w[n..] + [d] + t;
        LexAcross(w[n..], d, t);
        if Lex(w[n..]).Some? && Lex([d] + t).Some? {
          assert ts + (Lex(w[n..]).value + Lex([d] + t).value) == ts + Lex(w[n..]).value + Lex([d] + t).value;
        }
      }
    }
  }

  function DelimiterTokens(d: char): seq<Token> {
    if d == '(' then [Open] else if d == ')' then [Close] else []
  }

  lemma LexDelimiter(d: char, t: string)
    requires IsDelimiter(d)
    ensures Lex([d] + t) == Join(Some(DelimiterTokens(d)), Lex(t))
  {
    assert ([d] + t)[1..] == t;
  }

  /** The tokens of a text whose key words are atoms. */
  function LexWords(ph: Phrase, keys: set<string>): Option<seq<Token>> {
    var first := if ph.word in keys then Some([Key(ph.word)]) else Lex(ph.word);
    match ph
    case End(_) => first
    case More(_, d, rest) => Join(first, Join(Some(DelimiterTokens(d)), LexWords(rest, keys)))
  }

  lemma {:induction false} LexPrint(ph: Phrase)
    requires Proper(ph)
    ensures Lex(Print(ph)) == LexWords(ph, {})
  {
    hide Lex;
    if ph.More? {
      LexPrint(ph.rest);
      LexAcross(ph.word, ph.delimiter, Print(ph.rest));
      LexDelimiter(ph.delimiter, Print(ph.rest));
    }
  }

  predicate ArithmeticChar(c: char) {
    IsDigit(c) || c in "eE+-*/(). _"
  }

  /** What survives the character check of `resolve_ref`. */
  predicate PlainText(s: string) { forall i :: 0 <= i < |s| ==> ArithmeticChar(s[i]) }

  lemma {:induction false} LexPlain(s: string)
    requires Lex(s).Some?
    ensures PlainText(s)
    decreases |s|
  {
    if s != "" {
      var (ts, n) := FirstToken(s).value;
      LexPlain(s[n..]);
      forall i | 0 <= i < |s|
        ensures ArithmeticChar(s[i])
      {
        if i >= n {
          assert s[i] == s[n..][i - n];
        } else {
          TokenPlain(s, i);
        }
      }
    }
  }

  lemma TokenPlain(s: string, i: nat)
    requires s != "" && FirstToken(s).Some? && i < FirstToken(s).value.1
    ensures ArithmeticChar(s[i])
  {
    assert NumeralChar(s[i]) ==> ArithmeticChar(s[i]);
  }

  // ---------------------------------------------------------------- grammar

  datatype Expr = Lit(text: string) | KeyOf(name: string) | Neg(e: Expr) | Pos(e: Expr) | Bin(op: Token, l: Expr, r: Expr)

  datatype Parse = Fail | Done(expr: Expr, rest: seq<Token>)

  /** Level 0 is sums, level 1 is products. */
  predicate OpAt(level: nat, ts: seq<Token>) {
    ts != [] && if level == 0 then ts[0].Plus? || ts[0].Minus? else ts[0].Star? || ts[0].Slash? || ts[0].Floor?
  }

  function Operand(level: nat, ts: seq<Token>): (r: Parse)
    requires level <= 1
    ensures r.Done? ==> |r.rest| < |ts|
    decreases |ts|, 3 - level, 0
  {
    if level == 0 then ParseBinary(1, ts) else ParseFactor(ts)
  }

  function ParseBinary(level: nat, ts: seq<Token>): (r: Parse)
    requires level <= 1
    ensures r.Done? ==> |r.rest| < |ts|
    decreases |ts|, 3 - level, 1
  {
    match Operand(level, ts)
    case Fail => Fail
    case Done(e, rest) => ParseLoop(level, e, rest)
  }

  /** The left-associative tail of a sum or product. */
  function ParseLoop(level: nat, left: Expr, ts: seq<Token>): (r: Parse)
    requires level <= 1
    ensures r.Done? ==> |r.rest| <= |ts|
    decreases |ts|, 4
  {
    if !OpAt(level, ts) then Done(left, ts)
    else match Operand(level, ts[1..])
      case Fail => Fail
      case Done(e, rest) => ParseLoop(level, Bin(ts[0], left, e), rest)
  }

  function ParseFactor(ts: seq<Token>): (r: Parse)
    ensures r.Done? ==> |r.rest| < |ts|
    decreases |ts|, 1
  {
    if ts == [] then Fail
    else match ts[0]
      case Num(text) => Done(Lit(text), ts[1..])
      case Key(name) => Done(KeyOf(name), ts[1..])
      case Minus => (match ParseFactor(ts[1..]) case Fail => Fail case Done(e, rest) => Done(Neg(e), rest))
      case Plus => (match ParseFactor(ts[1..]) case Fail => Fail case Done(e, rest) => Done(Pos(e), rest))
      case Open =>
        (match ParseBinary(0, ts[1..])
         case Fail => Fail
         case Done(e, rest) => if rest != [] && rest[0].Close? then Done(e, rest[1..]) else Fail)
      case _ => Fail
  }

  function Evaluate(e: Expr, env: map<string, real>): Option<real> {
    match e
    case Lit(text) => Some(NumeralValue(text))
    case KeyOf(k) => if k in env then Some(env[k]) else None
    case Neg(a) => (match Evaluate(a, env) case None => None case Some(x) => Some(-x))
    case Pos(a) => Evaluate(a, env)
    case Bin(op, a, b) =>
      match (Evaluate(a, env), Evaluate(b, env))
      case (Some(x), Some(y)) => Operate(op, x, y)
      case _ => None
  }

  /** None is a division by zero. */
  function Operate(op: Token, x: real, y: real): Option<real> {
    match op
    case Plus => Some(x + y)
    case Minus => Some(x - y)
    case Star => Some(x * y)
    case Slash => if y == 0.0 then None else Some(x / y)
    case Floor => if y == 0.0 then None else Some((x / y).Floor as real)
    case _ => None
  }

  function Value(tokens: Option<seq<Token>>, env: map<string, real>): Option<real> {
    match tokens
    case None => None
    case Some(ts) =>
      match ParseBinary(0, ts)
      case Fail => None
      case Done(e, rest) => if rest == [] then Evaluate(e, env) else None
  }

  /** `_arithmetic`; None is any of its exceptions. */
  function Arithmetic(expression: string): Option<real> { Value(Lex(expression), map[]) }

  // ---------------------------------------------------------------- authority values

  /** A published number as Python prints it: a sign and a numeral. */
  datatype Number = Number(negative: bool, text: string)

  predicate ProperNumber(n: Number) { IsNumeral(n.text) && n.text != "" && NumeralLength(n.text) == |n.text| }

  function ShowNumber(n: Number): string { (if n.negative then "-" else "") + n.text }

  function NumberValue(n: Number): real { if n.negative then -NumeralValue(n.text) else NumeralValue(n.text) }

  function NumberExpr(n: Number): Expr { if n.negative then Neg(Lit(n.text)) else Lit(n.text) }

  function NumberTokens(n: Number): seq<Token> { (if n.negative then [Minus] else []) + [Num(n.text)] }

  predicate ProperNumbers(m: map<string, Number>) { forall k :: k in m ==> ProperNumber(m[k]) }

  function Texts(m: map<string, Number>): map<string, string> { map k | k in m :: ShowNumber(m[k]) }

  function Values(m: map<string, Number>): map<string, real> { map k | k in m :: NumberValue(m[k]) }

  lemma LexNumeral(s: string)
    requires IsNumeral(s) && s != "" && NumeralLength(s) == |s|
    ensures Lex(s) == Some([Num(s)])
  {
    hide IsNumeral;
    assert NumeralChar(s[0]);
    assert s[..|s|] == s && s[|s|..] == "";
    assert FirstToken(s) == Some(([Num(s)], |s|));
    assert [Num(s)] + [] == [Num(s)];
  }

  lemma LexMinus(t: string)
    ensures Lex("-" + t) == Join(Some([Minus]), Lex(t))
  {
    var s := "-" + t;
    assert s[0] == '-' && s[1..] == t;
    var r := FirstToken(s);
    assert r.Some? && r.value.0 == [Minus] && r.value.1 == 1;
  }

  lemma LexNumber(n: Number)
    requires ProperNumber(n)
    ensures Lex(ShowNumber(n)) == Some(NumberTokens(n))
  {
    hide IsNumeral;
    LexNumeral(n.text);
    var s := ShowNumber(n);
    if n.negative {
      LexMinus(n.text);
    } else {
      assert s == n.text && [] + [Num(n.text)] == [Num(n.text)];
    }
  }

  // ---------------------------------------------------------------- substitution keeps meaning

  function ReplaceToken(t: Token, m: map<string, Number>): seq<Token> {
    if t.Key? && t.name in m then [Open] + NumberTokens(m[t.name]) + [Close] else [t]
  }

  function ReplaceTokens(ts: seq<Token>, m: map<string, Number>): seq<Token> {
    if ts == [] then [] else ReplaceToken(ts[0], m) + ReplaceTokens(ts[1..], m)
  }

  function ReplaceKeys(e: Expr, m: map<string, Number>): Expr {
    match e
    case Lit(_) => e
    case KeyOf(k) => if k in m then NumberExpr(m[k]) else e
    case Neg(a) => Neg(ReplaceKeys(a, m))
    case Pos(a) => Pos(ReplaceKeys(a, m))
    case Bin(op, a, b) => Bin(op, ReplaceKeys(a, m), ReplaceKeys(b, m))
  }

  function ReplaceParse(r: Parse, m: map<string, Number>): Parse {
    match r
    case Fail => Fail
    case Done(e, rest) => Done(ReplaceKeys(e, m), ReplaceTokens(rest, m))
  }

  lemma {:induction false} ReplaceTokensConcat(a: seq<Token>, b: seq<Token>, m: map<string, Number>)
    ensures ReplaceTokens(a + b, m) == ReplaceTokens(a, m) + ReplaceTokens(b, m)
  {
    if a == [] {
      assert a + b == b;
    } else {
      ReplaceTokensConcat(a[1..], b, m);
      assert (a + b)[1..] == a[1..] + b;
    }
  }

  /** A number, with its sign, is one operand. */
  lemma ParseSigned(n: Number, tail: seq<Token>)
    ensures ParseFactor(NumberTokens(n) + tail) == Done(NumberExpr(n), tail)
  {
    var ts := NumberTokens(n) + tail;
    assert ParseFactor([Num(n.text)] + tail) == Done(Lit(n.text), tail) by {
      assert ([Num(n.text)] + tail)[1..] == tail;
    }
    if n.negative {
      assert ts[1..] == [Num(n.text)] + tail;
    } else {
      assert ts == [Num(n.text)] + tail;
    }
  }

  /** A parenthesised number is one atom. */
  lemma ParseNumber(n: Number, rest: seq<Token>)
    ensures ParseFactor([Open] + NumberTokens(n) + [Close] + rest) == Done(NumberExpr(n), rest)
  {
    var tail := [Close] + rest;
    var ts := NumberTokens(n) + tail;
    assert [Open] + NumberTokens(n) + [Close] + rest == [Open] + ts;
    assert ([Open] + ts)[1..] == ts;
    ParseSigned(n, tail);
    hide NumberTokens, NumberExpr;
    assert Operand(1, ts) == Done(NumberExpr(n), tail);
    assert ParseLoop(1, NumberExpr(n), tail) == Done(NumberExpr(n), tail);
    assert ParseBinary(1, ts) == Done(NumberExpr(n), tail);
    assert ParseBinary(0, ts) == Done(NumberExpr(n), tail);
    assert tail[1..] == rest;
  }

  lemma ReplaceTokensHead(ts: seq<Token>, m: map<string, Number>)
    requires ts != [] && !(ts[0].Key? && ts[0].name in m)
    ensures var r := ReplaceTokens(ts, m); r != [] && r[0] == ts[0] && r[1..] == ReplaceTokens(ts[1..], m)
  {}

  lemma {:induction false} FactorReplace(ts: seq<Token>, m: map<string, Number>)
    ensures ParseFactor(ReplaceTokens(ts, m)) == ReplaceParse(ParseFactor(ts), m)
    decreases |ts|, 1
  {
    if ts != [] {
      if ts[0].Key? && ts[0].name in m {
        ParseNumber(m[ts[0].name], ReplaceTokens(ts[1..], m));
      } else {
        ReplaceTokensHead(ts, m);
        match ts[0]
        case Minus => FactorReplace(ts[1..], m);
        case Plus => FactorReplace(ts[1..], m);
        case Open =>
          BinaryReplace(0, ts[1..], m);
          var inner := ParseBinary(0, ts[1..]);
          if inner.Done? && inner.rest != [] && !(inner.rest[0].Key? && inner.rest[0].name in m) {
            ReplaceTokensHead(inner.rest, m);
          }
        case _ =>
      }
    }
  }

  lemma {:induction false} OperandReplace(level: nat, ts: seq<Token>, m: map<string, Number>)
    requires level <= 1
    ensures Operand(level, ReplaceTokens(ts, m)) == ReplaceParse(Operand(level, ts), m)
    decreases |ts|, 3 - level, 0
  {
    if level == 0 {
      BinaryReplace(1, ts, m);
    } else {
      FactorReplace(ts, m);
    }
  }

  lemma {:induction false} BinaryReplace(level: nat, ts: seq<Token>, m: map<string, Number>)
    requires level <= 1
    ensures ParseBinary(level, ReplaceTokens(ts, m)) == ReplaceParse(ParseBinary(level, ts), m)
    decreases |ts|, 3 - level, 1
  {
    OperandReplace(level, ts, m);
    var first := Operand(level, ts);
    if first.Done? {
      LoopReplace(level, first.expr, first.rest, m);
    }
  }

  lemma {:induction false} LoopReplace(level: nat, left: Expr, ts: seq<Token>, m: map<string, Number>)
    requires level <= 1
    ensures ParseLoop(level, ReplaceKeys(left, m), ReplaceTokens(ts, m)) == ReplaceParse(ParseLoop(level, left, ts), m)
    decreases |ts|, 4
  {
    if ts != [] && !(ts[0].Key? && ts[0].name in m) {
      ReplaceTokensHead(ts, m);
      if OpAt(level, ts) {
        OperandReplace(level, ts[1..], m);
        var next := Operand(level, ts[1..]);
        if next.Done? {
          LoopReplace(level, Bin(ts[0], left, next.expr), next.rest, m);
        }
      }
    }
  }

  lemma {:induction false} EvaluateReplace(e: Expr, m: map<string, Number>)
    ensures Evaluate(ReplaceKeys(e, m), map[]) == Evaluate(e, Values(m))
  {
    hide Operate, NumeralValue;
    match e
    case Neg(a) => EvaluateReplace(a, m);
    case Pos(a) => EvaluateReplace(a, m);
    case Bin(_, a, b) =>
      EvaluateReplace(a, m);
      EvaluateReplace(b, m);
    case KeyOf(k) => assert k in m <==> k in Values(m);
    case Lit(_) =>
  }

  function ReplaceLexed(tokens: Option<seq<Token>>, m: map<string, Number>): Option<seq<Token>> {
    match tokens
    case None => None
    case Some(ts) => Some(ReplaceTokens(ts, m))
  }

  /** Replacing keys by parenthesised numbers in the token sequence keeps the value. */
  lemma ValueReplace(tokens: Option<seq<Token>>, m: map<string, Number>)
    ensures Value(ReplaceLexed(tokens, m), map[]) == Value(tokens, Values(m))
  {
    if tokens.Some? {
      BinaryReplace(0, tokens.value, m);
      var r := ParseBinary(0, tokens.value);
      if r.Done? {
        EvaluateReplace(r.expr, m);
      }
    }
  }
}
