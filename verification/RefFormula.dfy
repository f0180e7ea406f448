/**
 What refs mean, written down without their parser: formulas over authority keys and numerals,
 their values, and their texts with no more parentheses than precedence and left associativity need
 (lib/bounds.py, `resolve_ref` and `_arithmetic`).
 */
module RefFormula {
  import opened Text
  import opened RefText
  import opened RefArithmetic
  import opened RefResolve

  datatype Formula =
    | Cite(key: string)
    | Numeral(text: string)
    | Negative(e: Formula)
    | Positive(e: Formula)
    | Sum(l: Formula, r: Formula)
    | Difference(l: Formula, r: Formula)
    | Product(l: Formula, r: Formula)
    | Quotient(l: Formula, r: Formula)
    | Floored(l: Formula, r: Formula)

  // ---------------------------------------------------------------- values

  /** A numeral: its digits as one whole number, the point moved left by the digits after it. */
  ghost function Decimal(text: string): real {
    ReadNat(Digits(text)) as real / PowerOfTen(|Digits(After(text, '.'))|) as real
  }

  ghost function Published(n: Number): real { if n.negative then 0.0 - Decimal(n.text) else Decimal(n.text) }

  /** The value of a formula where the keys have these numbers; None is a division by zero. */
  ghost function Denotes(f: Formula, m: map<string, Number>): Option<real> {
    match f
    case Cite(k) => if k in m then Some(Published(m[k])) else None
    case Numeral(text) => Some(Decimal(text))
    case Negative(a) => (match Denotes(a, m) case Some(x) => Some(0.0 - x) case None => None)
    case Positive(a) => Denotes(a, m)
    case Sum(a, b) => (match (Denotes(a, m), Denotes(b, m)) case (Some(x), Some(y)) => Some(x + y) case _ => None)
    case Difference(a, b) => (match (Denotes(a, m), Denotes(b, m)) case (Some(x), Some(y)) => Some(x - y) case _ => None)
    case Product(a, b) => (match (Denotes(a, m), Denotes(b, m)) case (Some(x), Some(y)) => Some(x * y) case _ => None)
    case Quotient(a, b) =>
      (match (Denotes(a, m), Denotes(b, m)) case (Some(x), Some(y)) => if y != 0.0 then Some(x / y) else None case _ => None)
    case Floored(a, b) =>
      match (Denotes(a, m), Denotes(b, m))
      case (Some(x), Some(y)) => if y != 0.0 then Some((x / y).Floor as real) else None
      case _ => None
  }

  function Cited(f: Formula): set<string> {
    match f
    case Cite(k) => {k}
    case Numeral(_) => {}
    case Negative(a) => Cited(a)
    case Positive(a) => Cited(a)
    case Sum(a, b) => Cited(a) + Cited(b)
    case Difference(a, b) => Cited(a) + Cited(b)
    case Product(a, b) => Cited(a) + Cited(b)
    case Quotient(a, b) => Cited(a) + Cited(b)
    case Floored(a, b) => Cited(a) + Cited(b)
  }

  /** Numerals are numerals, and keys are published. */
  predicate Sound(f: Formula, keys: set<string>) {
    match f
    case Cite(k) => k in keys
    case Numeral(text) => IsNumeral(text)
    case Negative(a) => Sound(a, keys)
    case Positive(a) => Sound(a, keys)
    case Sum(a, b) => Sound(a, keys) && Sound(b, keys)
    case Difference(a, b) => Sound(a, keys) && Sound(b, keys)
    case Product(a, b) => Sound(a, keys) && Sound(b, keys)
    case Quotient(a, b) => Sound(a, keys) && Sound(b, keys)
    case Floored(a, b) => Sound(a, keys) && Sound(b, keys)
  }

  lemma DigitsStep(c: char, s: string)
    ensures Digits([c] + s) == (if IsDigit(c) then [c] else []) + Digits(s) && Digits("") == ""
  {
    assert ([c] + s)[1..] == s;
  }

  lemma {:induction false} DigitsConcat(a: string, b: string)
    ensures Digits(a + b) == Digits(a) + Digits(b)
  {
    DigitsStep('.', "");
    hide Digits, IsDigit;
    if a == "" {
      assert a + b == b;
    } else {
      DigitsConcat(a[1..], b);
      DigitsStep(a[0], a[1..]);
      DigitsStep(a[0], a[1..] + b);
      assert a == [a[0]] + a[1..] && a + b == [a[0]] + (a[1..] + b);
      var head := if IsDigit(a[0]) then [a[0]] else [];
      assert head + (Digits(a[1..]) + Digits(b)) == head + Digits(a[1..]) + Digits(b);
    }
  }

  /** Decimal digits in two parts. */
  lemma {:induction false} ReadNatConcat(a: string, b: string)
    requires AllDigits(a) && AllDigits(b)
    ensures AllDigits(a + b) && ReadNat(a + b) == ReadNat(a) * PowerOfTen(|b|) + ReadNat(b)
    decreases |b|
  {
    if b == "" {
      assert a + b == a;
    } else {
      var n := |b| - 1;
      ReadNatConcat(a, b[..n]);
      ReadNatLast(a + b);
      ReadNatLast(b);
      hide ReadNat, DigitValue;
      assert (a + b)[..|a + b| - 1] == a + b[..n] && (a + b)[|a + b| - 1] == b[n];
      TenTimes(ReadNat(a), PowerOfTen(n));
    }
  }

  lemma ReadNatLast(s: string)
    requires s != "" && AllDigits(s)
    ensures AllDigits(s[..|s| - 1]) && ReadNat(s) == 10 * ReadNat(s[..|s| - 1]) + DigitValue(s[|s| - 1])
  {}

  lemma TenTimes(x: nat, p: nat)
    ensures 10 * (x * p) == x * (10 * p)
  {}

  lemma DigitsAtPoint(text: string)
    ensures Digits(text) == Digits(Before(text, '.')) + Digits(After(text, '.'))
  {
    Partition(text, '.');
    assert Digits("") == "" && Digits(['.']) == "" by {
      assert ['.'][1..] == "";
    }
    hide Digits, Before, After;
    if '.' in text {
      DigitsConcat(Before(text, '.') + ['.'], After(text, '.'));
      DigitsConcat(Before(text, '.'), ['.']);
    }
  }

  /** The evaluator's value of a numeral. */
  lemma NumeralIsDecimal(text: string)
    ensures NumeralValue(text) == Decimal(text)
  {
    var whole, fraction := Digits(Before(text, '.')), Digits(After(text, '.'));
    var p := PowerOfTen(|fraction|);
    DigitsAtPoint(text);
    ReadNatConcat(whole, fraction);
    hide Digits, ReadNat, Before, After, PowerOfTen;
    AddFraction(ReadNat(whole), ReadNat(fraction), p);
  }

  lemma AddFraction(x: nat, y: nat, p: nat)
    requires p > 0
    ensures x as real + y as real / p as real == (x * p + y) as real / p as real
  {
    assert (x * p + y) as real == x as real * p as real + y as real;
    assert x as real * p as real / p as real == x as real;
  }

  // ---------------------------------------------------------------- texts

  /** How tightly the outermost operator binds: 0 for sums, 1 for products, 2 for the rest. */
  function Level(f: Formula): (n: nat)
    ensures n <= 2
  {
    if f.Sum? || f.Difference? then 0 else if f.Product? || f.Quotient? || f.Floored? then 1 else 2
  }

  /** The text of a formula where something binding this tightly is needed. */
  function Show(f: Formula, level: nat): string
    decreases f, 1
  {
    if Level(f) < level then "" + ['('] + (ShowBare(f) + [')'] + "") else ShowBare(f)
  }

  function Infix(a: string, op: string, b: string): string { a + [' '] + (op + [' '] + b) }

  function ShowBare(f: Formula): string
    decreases f, 0
  {
    match f
    case Cite(k) => k
    case Numeral(text) => text
    case Negative(a) => "-" + [' '] + Show(a, 2)
    case Positive(a) => "+" + [' '] + Show(a, 2)
    case Sum(a, b) => Infix(Show(a, 0), "+", Show(b, 1))
    case Difference(a, b) => Infix(Show(a, 0), "-", Show(b, 1))
    case Product(a, b) => Infix(Show(a, 1), "*", Show(b, 2))
    case Quotient(a, b) => Infix(Show(a, 1), "/", Show(b, 2))
    case Floored(a, b) => Infix(Show(a, 1), "//", Show(b, 2))
  }

  // The same for tokens, and the tree they are read as.

  function Tokens(f: Formula, level: nat): seq<Token>
    decreases f, 1
  {
    if Level(f) < level then [Open] + (TokensBare(f) + [Close]) else TokensBare(f)
  }

  function TokensBare(f: Formula): seq<Token>
    decreases f, 0
  {
    match f
    case Cite(k) => [Key(k)]
    case Numeral(text) => [Num(text)]
    case Negative(a) => [Minus] + Tokens(a, 2)
    case Positive(a) => [Plus] + Tokens(a, 2)
    case Sum(a, b) => Tokens(a, 0) + ([Plus] + Tokens(b, 1))
    case Difference(a, b) => Tokens(a, 0) + ([Minus] + Tokens(b, 1))
    case Product(a, b) => Tokens(a, 1) + ([Star] + Tokens(b, 2))
    case Quotient(a, b) => Tokens(a, 1) + ([Slash] + Tokens(b, 2))
    case Floored(a, b) => Tokens(a, 1) + ([Floor] + Tokens(b, 2))
  }

  function Tree(f: Formula): Expr {
    match f
    case Cite(k) => KeyOf(k)
    case Numeral(text) => Lit(text)
    case Negative(a) => Neg(Tree(a))
    case Positive(a) => Pos(Tree(a))
    case Sum(a, b) => Bin(Plus, Tree(a), Tree(b))
    case Difference(a, b) => Bin(Minus, Tree(a), Tree(b))
    case Product(a, b) => Bin(Star, Tree(a), Tree(b))
    case Quotient(a, b) => Bin(Slash, Tree(a), Tree(b))
    case Floored(a, b) => Bin(Floor, Tree(a), Tree(b))
  }

  lemma CiteValue(k: string, m: map<string, Number>)
    ensures Evaluate(KeyOf(k), Values(m)) == if k in m then Some(Published(m[k])) else None
  {
    hide Decimal, NumeralValue;
    if k in m {
      NumeralIsDecimal(m[k].text);
    }
  }

  lemma Operated(x: real, y: real)
    ensures Operate(Plus, x, y) == Some(x + y) && Operate(Minus, x, y) == Some(x - y)
    ensures Operate(Star, x, y).Some? && Operate(Star, x, y).value == x * y
    ensures y != 0.0 ==> Operate(Slash, x, y).Some? && Operate(Slash, x, y).value == x / y
    ensures y != 0.0 ==> Operate(Floor, x, y).Some? && Operate(Floor, x, y).value == (x / y).Floor as real
    ensures y == 0.0 ==> Operate(Slash, x, y) == None && Operate(Floor, x, y) == None
  {}

  lemma InfixTree(f: Formula, env: map<string, real>)
    requires Level(f) < 2
    ensures var (a, b) := (Evaluate(Tree(f.l), env), Evaluate(Tree(f.r), env));
      Evaluate(Tree(f), env) == if a.Some? && b.Some? then Operate(Operator(f), a.value, b.value) else None
  {
    hide Operate, NumeralValue;
    assert Tree(f) == Bin(Operator(f), Tree(f.l), Tree(f.r));
  }

  lemma InfixDenotes(f: Formula, m: map<string, Number>)
    requires Level(f) < 2
    ensures var (a, b) := (Denotes(f.l, m), Denotes(f.r, m));
      Denotes(f, m) == if a.Some? && b.Some? then Operate(Operator(f), a.value, b.value) else None
  {
    hide Decimal, Published;
    var (a, b) := (Denotes(f.l, m), Denotes(f.r, m));
    if a.Some? && b.Some? {
      var x, y := a.value, b.value;
      Operated(x, y);
      hide Operate;
      match f
      case Sum(_, _) => assert Denotes(f, m).value == x + y;
      case Difference(_, _) => assert Denotes(f, m).value == x - y;
      case Product(_, _) => assert Denotes(f, m).value == x * y;
      case Quotient(_, _) => assert y != 0.0 ==> Denotes(f, m).value == x / y;
      case Floored(_, _) => assert y != 0.0 ==> Denotes(f, m).value == (x / y).Floor as real;
    }
  }

  /** The evaluator gives the tree the value of the formula. */
  lemma {:induction false} TreeValue(f: Formula, m: map<string, Number>)
    ensures Evaluate(Tree(f), Values(m)) == Denotes(f, m)
  {
    hide Decimal, NumeralValue, Values, Published, Operate;
    match f
    case Cite(k) => CiteValue(k, m);
    case Numeral(text) => NumeralIsDecimal(text);
    case Negative(a) => TreeValue(a, m);
    case Positive(a) => TreeValue(a, m);
    case _ =>
      TreeValue(f.l, m);
      TreeValue(f.r, m);
      InfixTree(f, Values(m));
      InfixDenotes(f, m);
  }

  // ---------------------------------------------------------------- parsing

  function Operator(f: Formula): Token
    requires Level(f) < 2
  {
    match f
    case Sum(_, _) => Plus
    case Difference(_, _) => Minus
    case Product(_, _) => Star
    case Quotient(_, _) => Slash
    case Floored(_, _) => Floor
  }

  /** The tokens of a sum or product before any tail. */
  lemma InfixTokens(f: Formula, tail: seq<Token>)
    requires Level(f) < 2
    ensures TokensBare(f) + tail == Tokens(f.l, Level(f)) + ([Operator(f)] + (Tokens(f.r, Level(f) + 1) + tail))
    ensures Tree(f) == Bin(Operator(f), Tree(f.l), Tree(f.r))
  {
    hide Tokens;
    var a, b := Tokens(f.l, Level(f)), Tokens(f.r, Level(f) + 1);
    assert TokensBare(f) == a + ([Operator(f)] + b);
    assert a + ([Operator(f)] + b) + tail == a + ([Operator(f)] + (b + tail));
  }

  /** One turn of the loop over a sum or product. */
  lemma LoopStep(level: nat, left: Expr, op: Token, ts: seq<Token>)
    requires level <= 1 && OpAt(level, [op])
    ensures var next := Operand(level, ts);
      ParseLoop(level, left, [op] + ts) ==
        if next.Done? then ParseLoop(level, Bin(op, left, next.expr), next.rest) else Fail
  {
    assert ([op] + ts)[1..] == ts;
  }

  lemma LoopEnd(level: nat, left: Expr, ts: seq<Token>)
    requires level <= 1 && !OpAt(level, ts)
    ensures ParseLoop(level, left, ts) == Done(left, ts)
  {}

  lemma {:induction false} ParsesFactor(f: Formula, tail: seq<Token>)
    ensures ParseFactor(Tokens(f, 2) + tail) == Done(Tree(f), tail)
    decreases f, (Level(f) + 1) % 3
  {
    hide ParseBinary, ParseLoop, Operand;
    if Level(f) < 2 {
      ParsesSum(f, [Close] + tail);
      LoopEnd(0, Tree(f), [Close] + tail);
      BracketFactor(Tokens(f, 0), Tree(f), tail);
      TokensAtZero(f);
      assert Tokens(f, 2) == [Open] + (Tokens(f, 0) + [Close]);
    } else {
      TokensTight(f);
      hide ParseFactor, Tokens;
      match f
      case Negative(a) =>
        ParsesFactor(a, tail);
        SignFactor(Minus, Tokens(a, 2), Tree(a), tail);
      case Positive(a) =>
        ParsesFactor(a, tail);
        SignFactor(Plus, Tokens(a, 2), Tree(a), tail);
      case Cite(k) => AtomFactor(Key(k), tail);
      case Numeral(text) => AtomFactor(Num(text), tail);
    }
  }

  lemma TokensAtZero(f: Formula)
    ensures Tokens(f, 0) == TokensBare(f)
  {}

  lemma TokensTight(f: Formula)
    requires Level(f) == 2
    ensures Tokens(f, 2) ==
      match f
      case Negative(a) => [Minus] + Tokens(a, 2)
      case Positive(a) => [Plus] + Tokens(a, 2)
      case Cite(k) => [Key(k)]
      case Numeral(text) => [Num(text)]
  {
    assert Tokens(f, 2) == TokensBare(f);
  }

  lemma AtomFactor(t: Token, tail: seq<Token>)
    requires t.Key? || t.Num?
    ensures ParseFactor([t] + tail) == Done(if t.Key? then KeyOf(t.name) else Lit(t.text), tail)
  {
    assert ([t] + tail)[1..] == tail;
  }

  lemma SignFactor(sign: Token, ts: seq<Token>, e: Expr, tail: seq<Token>)
    requires (sign.Minus? || sign.Plus?) && ParseFactor(ts + tail) == Done(e, tail)
    ensures ParseFactor([sign] + ts + tail) == Done(if sign.Minus? then Neg(e) else Pos(e), tail)
  {
    var all := [sign] + ts + tail;
    assert all[0] == sign && all[1..] == ts + tail;
  }

  lemma BracketFactor(ts: seq<Token>, e: Expr, tail: seq<Token>)
    requires ParseBinary(0, ts + ([Close] + tail)) == Done(e, [Close] + tail)
    ensures ParseFactor([Open] + (ts + [Close]) + tail) == Done(e, tail)
  {
    hide ParseBinary;
    var all := [Open] + (ts + [Close]) + tail;
    assert all[0] == Open && all[1..] == ts + ([Close] + tail);
    assert ([Close] + tail)[1..] == tail;
  }

  lemma {:induction false} ParsesProduct(f: Formula, tail: seq<Token>)
    ensures ParseBinary(1, Tokens(f, 1) + tail) == ParseLoop(1, Tree(f), tail)
    decreases f, (Level(f) + 2) % 3
  {
    hide ParseLoop, ParseFactor, TokensBare, Tree;
    if Level(f) == 1 {
      InfixTokens(f, tail);
      ParsesProduct(f.l, [Operator(f)] + (Tokens(f.r, 2) + tail));
      LoopStep(1, Tree(f.l), Operator(f), Tokens(f.r, 2) + tail);
      ParsesFactor(f.r, tail);
    } else {
      assert Tokens(f, 1) == Tokens(f, 2);
      ParsesFactor(f, tail);
    }
  }

  lemma {:induction false} ParsesSum(f: Formula, tail: seq<Token>)
    requires !OpAt(1, tail)
    ensures ParseBinary(0, Tokens(f, 0) + tail) == ParseLoop(0, Tree(f), tail)
    decreases f, Level(f) % 3
  {
    hide ParseLoop, ParseFactor, TokensBare, Tree;
    if Level(f) == 0 {
      InfixTokens(f, tail);
      ParsesSum(f.l, [Operator(f)] + (Tokens(f.r, 1) + tail));
      LoopStep(0, Tree(f.l), Operator(f), Tokens(f.r, 1) + tail);
      ParsesProduct(f.r, tail);
      LoopEnd(1, Tree(f.r), tail);
    } else {
      assert Tokens(f, 0) == Tokens(f, 1);
      ParsesProduct(f, tail);
      LoopEnd(1, Tree(f), tail);
    }
  }

  lemma TokensValue(f: Formula, m: map<string, Number>)
    ensures Value(Some(Tokens(f, 0)), Values(m)) == Denotes(f, m)
  {
    hide ParseBinary, ParseLoop, Tokens, Evaluate, Denotes, Tree;
    assert Tokens(f, 0) + [] == Tokens(f, 0);
    ParsesSum(f, []);
    LoopEnd(0, Tree(f), []);
    TreeValue(f, m);
  }

  // ---------------------------------------------------------------- reading the text

  /** Two texts on the two sides of a delimiter. */
  function Append(ph: Phrase, d: char, rest: Phrase): Phrase {
    match ph
    case End(w) => More(w, d, rest)
    case More(w, e, tail) => More(w, e, Append(tail, d, rest))
  }

  lemma WordLengthIs(s: string, n: nat)
    requires n <= |s| && (n < |s| ==> IsDelimiter(s[n])) && forall i :: 0 <= i < n ==> !IsDelimiter(s[i])
    ensures WordLength(s) == n
  {
    hide WordLength, IsDelimiter;
  }

  lemma CutAcross<T>(a: seq<T>, d: T, t: seq<T>, n: nat)
    requires n <= |a|
    ensures var s := a + [d] + t;
      && s[..n] == a[..n] && s[n] == (if n < |a| then a[n] else d)
      && s[n + 1..] == if n < |a| then a[n + 1..] + [d] + t else t
  {
    var s := a + [d] + t;
    assert |s| == |a| + 1 + |t|;
    if n < |a| {
      assert a == a[..n] + [a[n]] + a[n + 1..];
      assert s == a[..n] + [a[n]] + (a[n + 1..] + [d] + t);
    }
  }

  lemma WordAcross(a: string, d: char, t: string)
    requires IsDelimiter(d)
    ensures WordLength(a + [d] + t) == WordLength(a)
  {
    hide WordLength, IsDelimiter;
    var s, n := a + [d] + t, WordLength(a);
    CutAcross(a, d, t, n);
    forall i | 0 <= i < n
      ensures !IsDelimiter(s[i])
    {
      assert s[..n][i] == a[..n][i];
    }
    WordLengthIs(s, n);
  }

  lemma WordsCut(s: string)
    ensures var n := WordLength(s); Words(s) == if n == |s| then End(s) else More(s[..n], s[n], Words(s[n + 1..]))
  {
    hide WordLength;
  }

  lemma {:induction false} WordsAcross(a: string, d: char, t: string)
    requires IsDelimiter(d)
    ensures Words(a + [d] + t) == Append(Words(a), d, Words(t))
    decreases |a|
  {
    var s, n := a + [d] + t, WordLength(a);
    WordAcross(a, d, t);
    CutAcross(a, d, t, n);
    WordsCut(s);
    WordsCut(a);
    hide IsDelimiter, WordLength, Words;
    if n < |a| {
      WordsAcross(a[n + 1..], d, t);
    } else {
      assert a[..n] == a;
    }
  }

  lemma {:induction false} LexAppend(ph: Phrase, d: char, rest: Phrase, keys: set<string>)
    ensures LexWords(Append(ph, d, rest), keys)
         == Join(LexWords(ph, keys), Join(Some(DelimiterTokens(d)), LexWords(rest, keys)))
  {
    hide Lex, DelimiterTokens;
    var first := if ph.word in keys then Some([Key(ph.word)]) else Lex(ph.word);
    var tail := Join(Some(DelimiterTokens(d)), LexWords(rest, keys));
    match ph
    case End(_) =>
    case More(_, e, more) =>
      LexAppend(more, d, rest, keys);
      JoinAssociates(Some(DelimiterTokens(e)), LexWords(more, keys), tail);
      JoinAssociates(first, Join(Some(DelimiterTokens(e)), LexWords(more, keys)), tail);
  }

  lemma JoinAssociates(a: Option<seq<Token>>, b: Option<seq<Token>>, c: Option<seq<Token>>)
    ensures Join(Join(a, b), c) == Join(a, Join(b, c))
  {
    if a.Some? && b.Some? && c.Some? {
      assert a.value + b.value + c.value == a.value + (b.value + c.value);
    }
  }

  lemma {:induction false} AppendWords(ph: Phrase, d: char, rest: Phrase, keys: set<string>, k: string)
    ensures HasWord(Append(ph, d, rest), k) <==> HasWord(ph, k) || HasWord(rest, k)
    ensures Delimited(Append(ph, d, rest), keys) <==> Delimited(ph, keys) && Delimited(rest, keys)
  {
    hide Occurs;
    if ph.More? {
      AppendWords(ph.rest, d, rest, keys, k);
    }
  }

  /** The text has these tokens, and names these keys, each as a word of its own. */
  ghost predicate Reads(s: string, keys: set<string>, ts: seq<Token>, cited: set<string>) {
    && LexWords(Words(s), keys) == Some(ts)
    && Delimited(Words(s), keys)
    && (forall k :: k in keys ==> (HasWord(Words(s), k) <==> k in cited))
  }

  lemma ReadsAcross(a: string, d: char, t: string, keys: set<string>,
                    ta: seq<Token>, tt: seq<Token>, ca: set<string>, ct: set<string>)
    requires Reads(a, keys, ta, ca) && Reads(t, keys, tt, ct) && IsDelimiter(d)
    ensures Reads(a + [d] + t, keys, ta + (DelimiterTokens(d) + tt), ca + ct)
  {
    hide Words, LexWords, Delimited, HasWord, DelimiterTokens, IsDelimiter;
    WordsAcross(a, d, t);
    LexAppend(Words(a), d, Words(t), keys);
    forall k
      ensures HasWord(Words(a + [d] + t), k) <==> HasWord(Words(a), k) || HasWord(Words(t), k)
    {
      AppendWords(Words(a), d, Words(t), keys, k);
    }
    AppendWords(Words(a), d, Words(t), keys, "");
  }

  ghost predicate AllKeys(keys: set<string>) { forall k :: k in keys ==> IsKey(k) }

  /** Words with at most one point hold no key. */
  lemma ReadsWord(w: string, keys: set<string>, ts: seq<Token>)
    requires AllKeys(keys) && Undelimited(w) && Dots(w) <= 1 && Lex(w) == Some(ts)
    ensures Reads(w, keys, ts, {})
  {
    hide Lex, Undelimited;
    KeyWords(w);
    forall k | k in keys
      ensures !Occurs(k, w) && k != w
    {
      assert IsKey(k);
      if Occurs(k, w) {
        DotsOccurs(k, w);
      }
    }
  }

  lemma ReadsKey(k: string, keys: set<string>)
    requires AllKeys(keys) && k in keys
    ensures Reads(k, keys, [Key(k)], {k})
  {
    assert IsKey(k);
    KeyWords(k);
  }

  lemma ReadsNumeral(text: string, keys: set<string>)
    requires AllKeys(keys) && IsNumeral(text)
    ensures Reads(text, keys, [Num(text)], {})
  {
    NumeralChars(text);
    NumeralDots(text);
    hide IsNumeral;
    assert Undelimited(text);
    LexNumeral(text);
    ReadsWord(text, keys, [Num(text)]);
  }

  lemma NumeralChars(text: string)
    requires IsNumeral(text)
    ensures text != "" && NumeralLength(text) == |text| && forall c :: c in text ==> NumeralChar(c)
  {
    Partition(text, '.');
    hide Before, After, NumeralLength, NumeralChar;
    if '.' in text {
      var a, b := Before(text, '.'), After(text, '.');
      DigitPartChars(a);
      DigitPartChars(b);
      assert NumeralChar('.') by {
        PointChar();
      }
      assert forall c :: c in text ==> c in a || c == '.' || c in b;
    } else {
      DigitPartChars(text);
    }
    hide DigitPart, IsNumeral;
  }

  lemma PointChar()
    ensures NumeralChar('.')
  {}

  lemma DigitPartChars(s: string)
    requires s == "" || DigitPart(s)
    ensures forall c :: c in s ==> NumeralChar(c)
  {}

  function OperatorText(op: Token): string
    requires op.Plus? || op.Minus? || op.Star? || op.Slash? || op.Floor?
  {
    match op
    case Plus => "+"
    case Minus => "-"
    case Star => "*"
    case Slash => "/"
    case Floor => "//"
  }

  lemma ReadsOperator(op: Token, keys: set<string>)
    requires AllKeys(keys) && (op.Plus? || op.Minus? || op.Star? || op.Slash? || op.Floor?)
    ensures Reads(OperatorText(op), keys, [op], {})
  {
    var w := OperatorText(op);
    DotsAbsent(w);
    assert FirstToken(w) == Some(([op], |w|)) && w[|w|..] == "";
    assert Lex("") == Some([]) && [op] + [] == [op];
    assert Lex(w) == Some([op]);
    ReadsWord(w, keys, [op]);
  }

  lemma ReadsEmpty(keys: set<string>)
    requires AllKeys(keys)
    ensures Reads("", keys, [], {})
  {
    ReadsWord("", keys, []);
  }

  lemma BlankTokens()
    ensures DelimiterTokens(' ') == [] && DelimiterTokens('(') == [Open] && DelimiterTokens(')') == [Close]
    ensures IsDelimiter(' ') && IsDelimiter('(') && IsDelimiter(')')
  {}

  lemma ReadsInfix(a: string, op: Token, b: string, keys: set<string>,
                   ta: seq<Token>, tb: seq<Token>, ca: set<string>, cb: set<string>)
    requires AllKeys(keys) && (op.Plus? || op.Minus? || op.Star? || op.Slash? || op.Floor?)
    requires Reads(a, keys, ta, ca) && Reads(b, keys, tb, cb)
    ensures Reads(Infix(a, OperatorText(op), b), keys, ta + ([op] + tb), ca + cb)
  {
    hide Reads;
    BlankTokens();
    ReadsSigned(op, b, keys, tb, cb);
    ReadsAcross(a, ' ', OperatorText(op) + [' '] + b, keys, ta, [op] + tb, ca, cb);
    assert ta + ([] + ([op] + tb)) == ta + ([op] + tb);
  }

  lemma ReadsSigned(op: Token, b: string, keys: set<string>, tb: seq<Token>, cb: set<string>)
    requires AllKeys(keys) && (op.Plus? || op.Minus? || op.Star? || op.Slash? || op.Floor?) && Reads(b, keys, tb, cb)
    ensures Reads(OperatorText(op) + [' '] + b, keys, [op] + tb, cb)
  {
    hide Reads;
    BlankTokens();
    ReadsOperator(op, keys);
    ReadsAcross(OperatorText(op), ' ', b, keys, [op], tb, {}, cb);
    assert [op] + ([] + tb) == [op] + tb && {} + cb == cb;
  }

  lemma ReadsBracketed(s: string, keys: set<string>, ts: seq<Token>, cited: set<string>)
    requires AllKeys(keys) && Reads(s, keys, ts, cited)
    ensures Reads("" + ['('] + (s + [')'] + ""), keys, [Open] + (ts + [Close]), cited)
  {
    hide Reads;
    BlankTokens();
    ReadsEmpty(keys);
    ReadsAcross(s, ')', "", keys, ts, [], cited, {});
    ReadsAcross("", '(', s + [')'] + "", keys, [], ts + ([Close] + []), {}, cited + {});
    assert [] + ([Open] + (ts + ([Close] + []))) == [Open] + (ts + [Close]);
    assert {} + (cited + {}) == cited;
  }

  lemma {:induction false} ReadsShow(f: Formula, level: nat, keys: set<string>)
    requires AllKeys(keys) && Sound(f, keys)
    ensures Reads(Show(f, level), keys, Tokens(f, level), Cited(f))
    decreases f, 1
  {
    hide Reads, Infix, IsNumeral, Level;
    ReadsShowBare(f, keys);
    if Level(f) < level {
      ReadsBracketed(ShowBare(f), keys, TokensBare(f), Cited(f));
    }
  }

  lemma {:induction false} ReadsShowBare(f: Formula, keys: set<string>)
    requires AllKeys(keys) && Sound(f, keys)
    ensures Reads(ShowBare(f), keys, TokensBare(f), Cited(f))
    decreases f, 0
  {
    hide Reads, Infix, IsNumeral, Level, Show, Tokens;
    match f
    case Cite(k) => ReadsKey(k, keys);
    case Numeral(text) => ReadsNumeral(text, keys);
    case Negative(a) =>
      ReadsShow(a, 2, keys);
      ReadsSigned(Minus, Show(a, 2), keys, Tokens(a, 2), Cited(a));
    case Positive(a) =>
      ReadsShow(a, 2, keys);
      ReadsSigned(Plus, Show(a, 2), keys, Tokens(a, 2), Cited(a));
    case Sum(a, b) =>
      ReadsShow(a, 0, keys);
      ReadsShow(b, 1, keys);
      ReadsInfix(Show(a, 0), Plus, Show(b, 1), keys, Tokens(a, 0), Tokens(b, 1), Cited(a), Cited(b));
    case Difference(a, b) =>
      ReadsShow(a, 0, keys);
      ReadsShow(b, 1, keys);
      ReadsInfix(Show(a, 0), Minus, Show(b, 1), keys, Tokens(a, 0), Tokens(b, 1), Cited(a), Cited(b));
    case Product(a, b) =>
      ReadsShow(a, 1, keys);
      ReadsShow(b, 2, keys);
      ReadsInfix(Show(a, 1), Star, Show(b, 2), keys, Tokens(a, 1), Tokens(b, 2), Cited(a), Cited(b));
    case Quotient(a, b) =>
      ReadsShow(a, 1, keys);
      ReadsShow(b, 2, keys);
      ReadsInfix(Show(a, 1), Slash, Show(b, 2), keys, Tokens(a, 1), Tokens(b, 2), Cited(a), Cited(b));
    case Floored(a, b) =>
      ReadsShow(a, 1, keys);
      ReadsShow(b, 2, keys);
      ReadsInfix(Show(a, 1), Floor, Show(b, 2), keys, Tokens(a, 1), Tokens(b, 2), Cited(a), Cited(b));
  }

  lemma TokensSome(f: Formula)
    ensures Tokens(f, 0) != []
  {
    hide Tokens;
    assert TokensBare(f) != [];
    TokensAtZero(f);
  }

  /** The text of a formula reads as its tokens, denotes its value and names its keys. */
  lemma ShownMeaning(f: Formula, m: map<string, Number>)
    requires AllKeys(m.Keys) && Sound(f, m.Keys)
    ensures var text := Show(f, 0);
      && text != "" && Delimited(Words(text), m.Keys)
      && LexWords(Words(text), m.Keys) == Some(Tokens(f, 0))
      && Meaning(text, m) == Denotes(f, m)
      && forall k :: k in m ==> (HasWord(Words(text), k) <==> k in Cited(f))
  {
    hide Words, LexWords, Delimited, HasWord, Value, Show, Tokens, Denotes, Sound, AllKeys;
    ReadsShow(f, 0, m.Keys);
    TokensValue(f, m);
    TokensSome(f);
    ReadsEmpty(m.Keys);
  }

  lemma {:induction false} CitedSound(f: Formula, keys: set<string>)
    requires Sound(f, keys)
    ensures Cited(f) <= keys
  {
    match f
    case Cite(k) =>
    case Numeral(text) =>
    case Negative(a) => CitedSound(a, keys);
    case Positive(a) => CitedSound(a, keys);
    case Sum(a, b) => CitedSound(a, keys); CitedSound(b, keys);
    case Difference(a, b) => CitedSound(a, keys); CitedSound(b, keys);
    case Product(a, b) => CitedSound(a, keys); CitedSound(b, keys);
    case Quotient(a, b) => CitedSound(a, keys); CitedSound(b, keys);
    case Floored(a, b) => CitedSound(a, keys); CitedSound(b, keys);
  }

  /**
   Every formula, written with parentheses only where precedence or left associativity needs them,
   resolves to its value, if it names a key and the value is positive; otherwise the refusal says
   which of the three it is: no key, no value, or no positive value.
   */
  lemma ResolveIsValue(ref: string, f: Formula, known: seq<string>, m: map<string, Number>)
    requires IsNumberAuthority(m) && Knows(known, m) && Sound(f, m.Keys) && Trim(ref) == Show(f, 0)
    requires forall k :: k in known ==> k != ""
    ensures var r := Resolve(ref, known, m);
      if Cited(f) == {} then r == Refused(NamesNoKey)
      else if Denotes(f, m).None? then r == Refused(CannotEvaluate)
      else if Denotes(f, m).value <= 0.0 then r == Refused(NotPositive)
      else r.Resolved? && r.value == Denotes(f, m).value && forall k :: k in r.used <==> k in Cited(f)
  {
    assert AllKeys(m.Keys);
    hide Words, Rewrite, Delimited, Meaning, Arithmetic, PlainText, IsNumberAuthority, LongestFirst, HasWord, UsedWords;
    hide Show, Denotes, Cited, Tokens, ReplaceTokens, Lex, LexWords, Sound, Trim;
    var text := Show(f, 0);
    ShownMeaning(f, m);
    RewrittenMeaning(text, known, m);
    CitedSound(f, m.Keys);
    forall k
      ensures k in UsedWords(known, Words(text)) <==> k in Cited(f)
    {
      UsedMembers(known, Words(text), k);
    }
    var (expression, used) := Rewrite(text, known, Texts(m));
    LexPlain(expression);
    if used == [] {
      assert Cited(f) == {};
    } else {
      assert used[0] in Cited(f);
    }
  }

  lemma HalfNumeral()
    ensures IsNumeral("0.5")
  {
    PartitionOf("0", '.', "5");
    assert "0" + ['.'] + "5" == "0.5";
  }

  lemma HalfDigits()
    ensures Digits("0.5") == "05" && After("0.5", '.') == "5" && Digits("5") == "5"
  {
    PartitionOf("0", '.', "5");
    assert "0" + ['.'] + "5" == "0.5" && "0"[1..] == "" && "5"[1..] == "";
    DigitsAtPoint("0.5");
  }

  lemma HalfDecimal()
    ensures Decimal("0.5") == 0.5
  {
    HalfDigits();
    hide Digits, After;
    assert "05"[..1] == "0" && "0"[..0] == "";
    assert ReadNat("0") == 0 && ReadNat("05") == 5;
    assert PowerOfTen(1) == 10 * PowerOfTen(0);
  }

  function Half(k: string): Formula { Product(Cite(k), Numeral("0.5")) }

  lemma HalfIsSound(k: string, m: map<string, Number>)
    requires k in m
    ensures Sound(Half(k), m.Keys) && Cited(Half(k)) != {}
    ensures Denotes(Half(k), m) == Some(Published(m[k]) / 2.0)
  {
    HalfNumeral();
    HalfDecimal();
    hide Decimal, Published, IsNumeral;
    assert k in Cited(Half(k));
  }

  lemma HalfText(k: string)
    requires Trimmed(k) && k != ""
    ensures Trim(k + " * 0.5") == Show(Half(k), 0)
  {
    var ref := k + " * 0.5";
    assert ref[|ref| - 1] == '5' && ref[0] == k[0];
    TrimTrimmed(ref);
    hide Trim;
    var a, b := Cite(k), Numeral("0.5");
    assert ShowBare(a) == k && ShowBare(b) == "0.5";
    assert Show(a, 1) == k && Show(b, 2) == "0.5";
    assert Show(Half(k), 0) == ShowBare(Half(k));
    assert k + [' '] + ("*" + [' '] + "0.5") == ref;
  }

  /** A key times one half is half of its published number. */
  lemma HalfOfKey(k: string, known: seq<string>, m: map<string, Number>)
    requires IsNumberAuthority(m) && Knows(known, m) && k in m && Trimmed(k) && Published(m[k]) > 0.0
    requires forall j :: j in known ==> j != ""
    ensures var r := Resolve(k + " * 0.5", known, m); r.Resolved? && r.value == Published(m[k]) / 2.0
  {
    assert k != "" by {
      assert k in known;
    }
    HalfText(k);
    HalfIsSound(k, m);
    hide Resolve, Trim, Trimmed, Show, IsNumberAuthority, Published, Knows, Denotes, Sound, Cited, Half;
    ResolveIsValue(k + " * 0.5", Half(k), known, m);
  }
}
