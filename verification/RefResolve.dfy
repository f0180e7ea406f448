/** `resolve_ref` (lib/bounds.py): turning a ref into a number, and what that number means. */
module RefResolve {
  import opened Text
  import opened RefText
  import opened RefArithmetic

  datatype Reason = EmptyRef | NamesNoKey | NotPlain | CannotEvaluate | NotPositive

  datatype Resolution =
    | Refused(reason: Reason)
    | Resolved(value: real, used: seq<string>, expanded: string)

  /** The verdict on a rewritten expression. */
  function Judge(expression: string, used: seq<string>): Resolution {
    if used == [] then Refused(NamesNoKey)
    else if !PlainText(expression) then Refused(NotPlain)
    else match Arithmetic(expression)
      case None => Refused(CannotEvaluate)
      case Some(v) => if v > 0.0 then Resolved(v, used, expression) else Refused(NotPositive)
  }

  /** The character check admits exactly these. */
  lemma PlainTextIff(s: string)
    ensures PlainText(s) <==> forall c :: c in s ==> c in "0123456789eE+-*/(). _"
  {
    forall c
      ensures ArithmeticChar(c) <==> c in "0123456789eE+-*/(). _"
    {
      ArithmeticCharIff(c);
    }
    hide ArithmeticChar;
    if PlainText(s) {
      assert forall i :: 0 <= i < |s| ==> ArithmeticChar(s[i]);
    }
  }

  lemma ArithmeticCharIff(c: char)
    ensures ArithmeticChar(c) <==> c in "0123456789eE+-*/(). _"
  {
    var digits := "0123456789";
    assert forall i :: 0 <= i < 10 ==> digits[i] as int == '0' as int + i;
    if IsDigit(c) {
      assert digits[c as int - '0' as int] == c;
    }
    assert "0123456789eE+-*/(). _" == digits + "eE+-*/(). _";
  }

  predicate Knows(known: seq<string>, m: map<string, Number>) {
    LongestFirst(known) && m.Keys == set k | k in known
  }

  /** Keys are dotted names, values print as numbers. */
  predicate IsNumberAuthority(m: map<string, Number>) {
    ProperNumbers(m) && forall k :: k in m ==> IsKey(k)
  }

  function Resolve(ref: string, known: seq<string>, m: map<string, Number>): Resolution
    requires forall k :: k in known ==> k in m && k != ""
  {
    var text := Trim(ref);
    if text == "" then Refused(EmptyRef)
    else
      var (expression, used) := Rewrite(text, known, Texts(m));
      Judge(expression, used)
  }

  lemma RestKnown(known: seq<string>, i: nat, texts: map<string, string>)
    requires i <= |known| && forall k :: k in known ==> k in texts && k != ""
    ensures forall k :: k in known[i..] ==> k in texts && k != ""
  {
    forall k | k in known[i..]
      ensures k in texts && k != ""
    {
      var j :| 0 <= j < |known| - i && known[i..][j] == k;
      assert known[i + j] == k && k in known;
    }
  }

  /** The loop of `resolve_ref` over the keys, longest first. */
  method ResolveRef(ref: string, known: seq<string>, m: map<string, Number>) returns (r: Resolution)
    requires forall k :: k in known ==> k in m && k != ""
    ensures r == Resolve(ref, known, m)
  {
    hide ShowNumber, Replace, Occurs, Judge, Trim;
    var text := Trim(ref);
    if text == "" {
      return Refused(EmptyRef);
    }
    var expression, used := text, [];
    ghost var texts := Texts(m);
    assert known[0..] == known;
    assert forall rest: seq<string> :: [] + rest == rest;
    for i := 0 to |known|
      invariant forall k :: k in known[i..] ==> k in texts && k != ""
      invariant var (e, rest) := Rewrite(expression, known[i..], texts);
        Rewrite(text, known, texts) == (e, used + rest)
    {
      var key := known[i];
      RestKnown(known, i + 1, texts);
      assert known[i..][0] == key && known[i..][1..] == known[i + 1..];
      if !Occurs(key, expression) {
        continue;
      }
      var value := ShowNumber(m[key]);
      assert texts[key] == value;
      ghost var (e, rest) := Rewrite(Replace(expression, key, Parenthesised(value)), known[i + 1..], texts);
      assert used + ([key] + rest) == used + [key] + rest;
      used := used + [key];
      expression := Replace(expression, key, Parenthesised(value));
    }
    assert used + [] == used;
    r := Judge(expression, used);
  }

  // ---------------------------------------------------------------- meaning

  /** What a ref denotes: plain arithmetic with its key words read as their numbers. */
  function Meaning(text: string, m: map<string, Number>): Option<real> {
    Value(LexWords(Words(text), m.Keys), Values(m))
  }

  predicate NamesKey(text: string, m: map<string, Number>) {
    exists k :: k in m && HasWord(Words(text), k)
  }

  lemma {:induction false} DotsAbsent(s: string)
    requires '.' !in s
    ensures Dots(s) == 0
  {
    if s != "" {
      DotsAbsent(s[1..]);
    }
  }

  lemma DigitPartDots(s: string)
    requires s == "" || DigitPart(s)
    ensures Dots(s) == 0
  {
    if s != "" {
      assert '.' !in s;
    }
    DotsAbsent(s);
  }

  lemma NumberIsValue(n: Number)
    requires ProperNumber(n)
    ensures IsValue(ShowNumber(n))
  {
    hide IsNumeral, DigitPart;
    var t := n.text;
    assert Dots(t) <= 1 by {
      NumeralDots(t);
    }
    assert Undelimited(t) by {
      assert forall i :: 0 <= i < |t| ==> NumeralChar(t[i]);
    }
    if n.negative {
      DotsAbsent("-");
      DotsConcat("-", t);
    } else {
      assert ShowNumber(n) == t;
    }
  }

  lemma NumeralDots(t: string)
    requires IsNumeral(t)
    ensures Dots(t) <= 1
  {
    hide DigitPart;
    Partition(t, '.');
    if '.' in t {
      DigitPartDots(Before(t, '.'));
      DigitPartDots(After(t, '.'));
      DotsConcat(Before(t, '.') + ['.'], After(t, '.'));
      DotsConcat(Before(t, '.'), ['.']);
      assert Dots(['.']) == 1 by {
        assert ['.'][1..] == "";
      }
    } else {
      DotsAbsent(t);
    }
  }

  lemma AuthorityTexts(m: map<string, Number>)
    requires IsNumberAuthority(m)
    ensures IsAuthority(Texts(m)) && Texts(m).Keys == m.Keys
  {
    hide ProperNumber, IsValue, IsKey, ShowNumber;
    forall k | k in m
      ensures IsValue(Texts(m)[k])
    {
      assert ProperNumber(m[k]);
      NumberIsValue(m[k]);
    }
  }

  lemma {:induction false} LexHasNoKeys(s: string)
    requires Lex(s).Some?
    ensures forall t :: t in Lex(s).value ==> !t.Key?
    decreases |s|
  {
    if s != "" {
      var (ts, n) := FirstToken(s).value;
      LexHasNoKeys(s[n..]);
      assert forall t :: t in ts ==> !t.Key?;
    }
  }

  lemma {:induction false} ReplaceNoKeys(ts: seq<Token>, m: map<string, Number>)
    requires forall t :: t in ts ==> !t.Key?
    ensures ReplaceTokens(ts, m) == ts
  {
    if ts != [] {
      ReplaceNoKeys(ts[1..], m);
    }
  }

  /** Lexing a key word's replacement gives the replacement's tokens. */
  lemma WordReplaced(w: string, m: map<string, Number>)
    ensures w !in m ==> Lex(w) == ReplaceLexed(Lex(w), m)
    ensures w in m ==> ReplaceLexed(Some([Key(w)]), m) == Some([Open] + NumberTokens(m[w]) + [Close])
  {
    hide Lex, NumberTokens;
    if w in m {
      assert [Key(w)][1..] == [];
      var atom := ReplaceToken(Key(w), m);
      assert ReplaceTokens([Key(w)], m) == atom + [] == atom;
    } else if Lex(w).Some? {
      LexHasNoKeys(w);
      ReplaceNoKeys(Lex(w).value, m);
    }
  }

  lemma LexBracketed(n: Number, rest: Phrase)
    requires ProperNumber(n)
    ensures LexWords(Bracketed(ShowNumber(n), rest), {})
         == Join(Some([Open] + NumberTokens(n) + [Close]), LexWords(rest, {}))
  {
    LexNumber(n);
    hide ShowNumber;
    var v := ShowNumber(n);
    assert Lex("") == Some([]);
    var tail := LexWords(rest, {});
    assert LexWords(More(v, ')', rest), {}) == Join(Some(NumberTokens(n)), Join(Some([Close]), tail));
    if tail.Some? {
      assert [] + ([Open] + (NumberTokens(n) + ([Close] + tail.value))) == [Open] + NumberTokens(n) + [Close] + tail.value;
    }
  }

  lemma ReplaceJoin(a: Option<seq<Token>>, b: Option<seq<Token>>, m: map<string, Number>)
    ensures ReplaceLexed(Join(a, b), m) == Join(ReplaceLexed(a, m), ReplaceLexed(b, m))
  {
    if a.Some? && b.Some? {
      ReplaceTokensConcat(a.value, b.value, m);
    }
  }

  /** Lexing the substituted text is replacing the key tokens of the original. */
  lemma {:induction false} LexSubstituted(ph: Phrase, m: map<string, Number>)
    requires IsNumberAuthority(m)
    ensures LexWords(Substitute(ph, Texts(m)), {}) == ReplaceLexed(LexWords(ph, m.Keys), m)
  {
    hide Lex, NumberTokens, ShowNumber, IsKey, ReplaceTokens, ProperNumber;
    WordReplaced(ph.word, m);
    var first := if ph.word in m then Some([Key(ph.word)]) else Lex(ph.word);
    match ph
    case End(w) =>
      if w in m {
        assert ProperNumber(m[w]);
        LexBracketed(m[w], End(""));
        LexEmpty();
        assert [Open] + NumberTokens(m[w]) + [Close] + [] == [Open] + NumberTokens(m[w]) + [Close];
      }
    case More(w, d, rest) =>
      LexSubstituted(rest, m);
      var tail := Join(Some(DelimiterTokens(d)), LexWords(rest, m.Keys));
      ReplaceJoin(first, tail, m);
      ReplaceJoin(Some(DelimiterTokens(d)), LexWords(rest, m.Keys), m);
      ReplaceNoKeys(DelimiterTokens(d), m);
      if w in m {
        assert ProperNumber(m[w]);
        var after := More("", d, Substitute(rest, Texts(m)));
        LexBracketed(m[w], after);
        LexEmpty();
        JoinEmpty(Join(Some(DelimiterTokens(d)), LexWords(Substitute(rest, Texts(m)), {})));
      }
  }

  lemma LexEmpty()
    ensures Lex("") == Some([]) && LexWords(End(""), {}) == Some([])
  {}

  lemma JoinEmpty(a: Option<seq<Token>>)
    ensures Join(Some([]), a) == a
  {
    if a.Some? {
      assert [] + a.value == a.value;
    }
  }

  lemma {:induction false} UsedMembers(known: seq<string>, ph: Phrase, k: string)
    ensures k in UsedWords(known, ph) <==> k in known && HasWord(ph, k)
  {
    if known != [] {
      UsedMembers(known[1..], ph, k);
    }
  }

  /** The rewritten text evaluates to what the original denotes. */
  lemma RewrittenMeaning(text: string, known: seq<string>, m: map<string, Number>)
    requires IsNumberAuthority(m) && Knows(known, m) && Delimited(Words(text), m.Keys)
    requires forall k :: k in known ==> k != ""
    ensures var (expression, used) := Rewrite(text, known, Texts(m));
      && Lex(expression) == ReplaceLexed(LexWords(Words(text), m.Keys), m)
      && Arithmetic(expression) == Meaning(text, m)
      && (Arithmetic(expression).Some? ==> PlainText(expression))
      && used == UsedWords(known, Words(text))
  {
    hide Words, Substitute, Lex, Delimited, PlainText, LexWords, Print, IsNumberAuthority, ParseBinary;
    AuthorityTexts(m);
    RewriteIsSubstitution(text, Texts(m), known);
    var ph := Words(text);
    SubstituteProper(ph, Texts(m));
    LexPrint(Substitute(ph, Texts(m)));
    LexSubstituted(ph, m);
    ValueReplace(LexWords(ph, m.Keys), m);
    var expression := Print(Substitute(ph, Texts(m)));
    if Arithmetic(expression).Some? {
      LexPlain(expression);
    }
  }

  /**
   Substituting parenthesised values longest-first and then evaluating plain arithmetic gives
   the number the ref denotes in the key environment. The verdict is ok exactly when the ref
   names a key and denotes a positive number, and the keys reported are the keys it names.
   */
  lemma ResolveIsMeaning(ref: string, known: seq<string>, m: map<string, Number>)
    requires IsNumberAuthority(m) && Knows(known, m) && Delimited(Words(Trim(ref)), m.Keys)
    requires forall k :: k in known ==> k != ""
    ensures var r, text := Resolve(ref, known, m), Trim(ref);
      && (r.Resolved? <==> NamesKey(text, m) && Meaning(text, m).Some? && Meaning(text, m).value > 0.0)
      && (r.Resolved? ==>
            && Meaning(text, m) == Some(r.value)
            && forall k :: k in r.used <==> k in m && HasWord(Words(text), k))
  {
    hide Words, Rewrite, Delimited, Meaning, Arithmetic, PlainText, IsNumberAuthority, LongestFirst, HasWord, UsedWords;
    var text := Trim(ref);
    RewrittenMeaning(text, known, m);
    forall k
      ensures k in UsedWords(known, Words(text)) <==> k in m && HasWord(Words(text), k)
    {
      UsedMembers(known, Words(text), k);
    }
    if text == "" {
      NoKeyInEmpty(m);
    }
    var used := UsedWords(known, Words(text));
    assert used != [] ==> used[0] in used;
  }

  lemma NoKeyInEmpty(m: map<string, Number>)
    requires IsNumberAuthority(m)
    ensures !NamesKey("", m)
  {
    assert Dots("") == 0;
    assert "" in m ==> IsKey("");
  }

  lemma KeyWords(k: string)
    requires Undelimited(k)
    ensures Words(k) == End(k)
  {
    assert WordLength(k) == |k|;
  }

  lemma KeyMeaning(k: string, m: map<string, Number>)
    requires k in m && Undelimited(k)
    ensures Meaning(k, m) == Some(NumberValue(m[k]))
  {
    hide NumberValue;
    KeyWords(k);
    var ts := [Key(k)];
    assert ts[1..] == [];
    assert ParseFactor(ts) == Done(KeyOf(k), []);
    assert Operand(1, ts) == Done(KeyOf(k), []);
    assert ParseLoop(1, KeyOf(k), []) == Done(KeyOf(k), []);
    assert ParseBinary(1, ts) == Done(KeyOf(k), []);
    assert ParseBinary(0, ts) == Done(KeyOf(k), []);
  }

  /** A bare key resolves, to its own number, exactly when that is positive. */
  lemma BareKeyResolves(k: string, known: seq<string>, m: map<string, Number>)
    requires IsNumberAuthority(m) && Knows(known, m) && k in m && Trimmed(k)
    requires forall j :: j in known ==> j != ""
    ensures var r := Resolve(k, known, m);
      (r.Resolved? <==> NumberValue(m[k]) > 0.0) && (r.Resolved? ==> r.value == NumberValue(m[k]))
  {
    assert IsKey(k);
    KeyWords(k);
    KeyMeaning(k, m);
    assert HasWord(End(k), k);
    assert Delimited(End(k), m.Keys);
    hide Resolve, Meaning, Words, NumberValue, IsNumberAuthority, Trim, IsSpace;
    assert Trim(k) == k;
    ResolveIsMeaning(k, known, m);
  }
}
