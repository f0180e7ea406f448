/**
 Text substitution of authority keys, as `resolve_ref` does it (lib/bounds.py): one
 `str.replace` per key, longest key first. The result is compared with replacing every word
 of the text at once.
 */
module RefText {
  import opened Text

  // ---------------------------------------------------------------- str.replace

  /** `key in text`. */
  predicate Occurs(k: string, s: string) {
    k <= s || (s != "" && Occurs(k, s[1..]))
  }

  /** `text.replace(key, value)`: occurrences from the left, not overlapping. */
  function Replace(s: string, k: string, v: string): string
    requires k != ""
    decreases |s|
  {
    if s == "" then ""
    else if k <= s then v + Replace(s[|k|..], k, v)
    else [s[0]] + Replace(s[1..], k, v)
  }

  lemma {:induction false} ReplaceAbsent(s: string, k: string, v: string)
    requires k != "" && !Occurs(k, s)
    ensures Replace(s, k, v) == s
  {
    if s != "" {
      ReplaceAbsent(s[1..], k, v);
    }
  }

  lemma {:induction false} OccursShort(k: string, s: string)
    requires Occurs(k, s)
    ensures |k| <= |s|
    ensures |k| == |s| ==> k == s
  {
    if !(k <= s) {
      OccursShort(k, s[1..]);
    }
  }

  predicate IsDelimiter(c: char) { c == ' ' || c == '(' || c == ')' }

  predicate Undelimited(s: string) { forall c :: c in s ==> !IsDelimiter(c) }

  lemma PrefixStopsAtDelimiter(k: string, w: string, d: char, t: string)
    requires Undelimited(k) && IsDelimiter(d)
    requires k <= w + [d] + t
    ensures k <= w
  {
    assert (w + [d] + t)[|w|] == d;
    assert forall i :: 0 <= i < |k| ==> k[i] == (w + [d] + t)[i] && k[i] in k;
  }

  /** A key without delimiters is never found across a delimiter. */
  lemma {:induction false} ReplaceAcross(w: string, d: char, t: string, k: string, v: string)
    requires k != "" && Undelimited(k) && IsDelimiter(d)
    requires w == k || !Occurs(k, w)
    ensures Replace(w + [d] + t, k, v) == (if w == k then v else w) + [d] + Replace(t, k, v)
    decreases |w|
  {
    var s := w + [d] + t;
    if w == k {
      assert s[|k|..] == [d] + t;
      ReplaceAcross("", d, t, k, v);
    } else if k <= s {
      PrefixStopsAtDelimiter(k, w, d, t);
      assert false;
    } else if w == "" {
      assert s == [d] + t && s[1..] == t;
    } else {
      assert s[1..] == w[1..] + [d] + t;
      assert !Occurs(k, w[1..]);
      assert w[1..] != k by {
        assert Occurs(k, k);
      }
      ReplaceAcross(w[1..], d, t, k, v);
      assert w == [w[0]] + w[1..];
    }
  }

  lemma {:induction false} OccursAcross(k: string, w: string, d: char, t: string)
    requires k != "" && Undelimited(k) && IsDelimiter(d)
    ensures Occurs(k, w + [d] + t) <==> Occurs(k, w) || Occurs(k, t)
  {
    var s := w + [d] + t;
    if k <= s {
      PrefixStopsAtDelimiter(k, w, d, t);
    } else if w == "" {
      assert s == [d] + t && s[1..] == t;
    } else {
      assert s[1..] == w[1..] + [d] + t;
      OccursAcross(k, w[1..], d, t);
      assert !(k <= w);
    }
  }

  // ---------------------------------------------------------------- words

  /** A text as its words and the delimiters between them; words may be empty. */
  datatype Phrase = End(word: string) | More(word: string, delimiter: char, rest: Phrase)

  function Print(ph: Phrase): string {
    match ph
    case End(w) => w
    case More(w, d, rest) => w + [d] + Print(rest)
  }

  predicate Proper(ph: Phrase) {
    Undelimited(ph.word) && (ph.More? ==> IsDelimiter(ph.delimiter) && Proper(ph.rest))
  }

  predicate HasWord(ph: Phrase, w: string) {
    ph.word == w || (ph.More? && HasWord(ph.rest, w))
  }

  function WordLength(s: string): (n: nat)
    ensures n <= |s|
    ensures n < |s| ==> IsDelimiter(s[n])
    ensures forall i :: 0 <= i < n ==> !IsDelimiter(s[i])
  {
    if s == "" || IsDelimiter(s[0]) then 0 else 1 + WordLength(s[1..])
  }

  /** The words of a text. */
  function Words(s: string): (ph: Phrase)
    ensures Proper(ph)
    decreases |s|
  {
    var n := WordLength(s);
    if n == |s| then End(s) else More(s[..n], s[n], Words(s[n + 1..]))
  }

  lemma {:induction false} PrintWords(s: string)
    ensures Print(Words(s)) == s
    decreases |s|
  {
    hide WordLength, IsDelimiter;
    var n := WordLength(s);
    if n < |s| {
      PrintWords(s[n + 1..]);
      assert Words(s) == More(s[..n], s[n], Words(s[n + 1..]));
      assert s == s[..n] + [s[n]] + s[n + 1..];
    }
  }

  /** Every word that is a key becomes its parenthesised value. */
  function Substitute(ph: Phrase, m: map<string, string>): Phrase {
    match ph
    case End(w) => if w in m then Bracketed(m[w], End("")) else ph
    case More(w, d, rest) =>
      if w in m then Bracketed(m[w], More("", d, Substitute(rest, m)))
      else More(w, d, Substitute(rest, m))
  }

  /** Each word is the key or does not contain it. */
  predicate WholeWord(ph: Phrase, k: string) {
    (ph.word == k || !Occurs(k, ph.word)) && (ph.More? ==> WholeWord(ph.rest, k))
  }

  function Parenthesised(v: string): string { ['('] + v + [')'] }

  function Bracketed(v: string, rest: Phrase): Phrase { More("", '(', More(v, ')', rest)) }

  lemma PrintBracketed(v: string, rest: Phrase)
    ensures Print(Bracketed(v, rest)) == Parenthesised(v) + Print(rest)
  {
    assert Print(More(v, ')', rest)) == v + [')'] + Print(rest);
  }

  lemma SubstituteBracketed(v: string, rest: Phrase, m: map<string, string>)
    requires v !in m && "" !in m
    ensures Substitute(Bracketed(v, rest), m) == Bracketed(v, Substitute(rest, m))
  {
    assert Substitute(More(v, ')', rest), m) == More(v, ')', Substitute(rest, m));
  }

  lemma HasWordBracketed(v: string, rest: Phrase, k: string)
    ensures HasWord(Bracketed(v, rest), k) <==> k == "" || k == v || HasWord(rest, k)
  {
    assert HasWord(More(v, ')', rest), k) <==> k == v || HasWord(rest, k);
  }

  /** Replacing one key in the text replaces exactly the words that are the key. */
  lemma {:induction false} ReplaceWords(ph: Phrase, k: string, v: string)
    requires Proper(ph) && k != "" && Undelimited(k) && WholeWord(ph, k)
    ensures Replace(Print(ph), k, Parenthesised(v)) == Print(Substitute(ph, map[k := v]))
  {
    hide Replace, Occurs, Parenthesised;
    var p := Parenthesised(v);
    ReplaceWhole(k, p);
    match ph
    case End(w) =>
      if w == k {
        PrintBracketed(v, End(""));
        assert p + "" == p;
      } else {
        ReplaceAbsent(w, k, p);
      }
    case More(w, d, rest) =>
      ReplaceWords(rest, k, v);
      ReplaceAcross(w, d, Print(rest), k, p);
      if w == k {
        var t := Print(Substitute(rest, map[k := v]));
        PrintBracketed(v, More("", d, Substitute(rest, map[k := v])));
        assert p + ("" + [d] + t) == p + [d] + t;
      }
  }

  lemma ReplaceWhole(k: string, v: string)
    requires k != ""
    ensures Replace(k, k, v) == v && Occurs(k, k)
  {
    assert k[|k|..] == "" && v + "" == v;
  }

  /** A key that only stands as a whole word is found exactly when it is a word. */
  lemma {:induction false} OccursWords(ph: Phrase, k: string)
    requires Proper(ph) && k != "" && Undelimited(k) && WholeWord(ph, k)
    ensures Occurs(k, Print(ph)) <==> HasWord(ph, k)
  {
    ReplaceWhole(k, "");
    hide Occurs;
    if ph.More? {
      OccursWords(ph.rest, k);
      OccursAcross(k, ph.word, ph.delimiter, Print(ph.rest));
    }
  }

  // ---------------------------------------------------------------- all keys

  function Dots(s: string): nat {
    if s == "" then 0 else (if s[0] == '.' then 1 else 0) + Dots(s[1..])
  }

  lemma {:induction false} DotsConcat(a: string, b: string)
    ensures Dots(a + b) == Dots(a) + Dots(b)
  {
    if a == "" {
      assert a + b == b;
    } else {
      DotsConcat(a[1..], b);
      assert (a + b)[1..] == a[1..] + b;
    }
  }

  lemma {:induction false} DotsOccurs(k: string, s: string)
    requires Occurs(k, s)
    ensures Dots(k) <= Dots(s)
  {
    if k <= s {
      DotsConcat(k, s[|k|..]);
      assert s == k + s[|k|..];
    } else {
      DotsOccurs(k, s[1..]);
    }
  }

  /** Authority keys read `namespace.subject.quantity`, without delimiters. */
  predicate IsKey(k: string) { Dots(k) >= 2 && Undelimited(k) }

  /** A printed value: no delimiter, at most one decimal point. */
  predicate IsValue(v: string) { Dots(v) <= 1 && Undelimited(v) }

  predicate IsAuthority(m: map<string, string>) {
    forall k :: k in m ==> IsKey(k) && IsValue(m[k])
  }

  predicate LongestFirst(known: seq<string>) {
    forall i, j :: 0 <= i < j < |known| ==> |known[i]| >= |known[j]| && known[i] != known[j]
  }

  /** The loop of `resolve_ref`: the rewritten expression and the keys used. */
  function Rewrite(expression: string, known: seq<string>, m: map<string, string>): (r: (string, seq<string>))
    requires forall k :: k in known ==> k in m && k != ""
    ensures forall k :: k in r.1 ==> k in known
    decreases |known|
  {
    if known == [] then (expression, [])
    else
      var k := known[0];
      if Occurs(k, expression) then
        var (e, used) := Rewrite(Replace(expression, k, Parenthesised(m[k])), known[1..], m);
        (e, [k] + used)
      else Rewrite(expression, known[1..], m)
  }

  /** Every word is a key or contains none. */
  predicate Delimited(ph: Phrase, keys: set<string>) {
    && (ph.word in keys || forall k :: k in keys ==> !Occurs(k, ph.word))
    && (ph.More? ==> Delimited(ph.rest, keys))
  }

  function Restrict(m: map<string, string>, done: set<string>): map<string, string> {
    map k | k in m && k in done :: m[k]
  }

  lemma {:induction false} ValueWord(m: map<string, string>, w: string, k: string)
    requires IsAuthority(m) && w in m && k in m
    ensures !Occurs(k, m[w]) && !Occurs(k, "") && m[w] != k
  {
    assert Dots("") == 0;
    if Occurs(k, m[w]) {
      DotsOccurs(k, m[w]);
    }
    if Occurs(k, "") {
      DotsOccurs(k, "");
    }
    assert IsKey(k) && IsValue(m[w]);
  }

  /** After the longer keys are gone, the next key stands only as a whole word. */
  lemma {:induction false} NextKeyWhole(ph: Phrase, m: map<string, string>, done: set<string>, k: string)
    requires IsAuthority(m) && k in m && Delimited(ph, m.Keys)
    requires forall w :: w in m && w !in done ==> |w| <= |k|
    ensures WholeWord(Substitute(ph, Restrict(m, done)), k)
  {
    var r := Restrict(m, done);
    if ph.word in r {
      ValueWord(m, ph.word, k);
    } else if ph.word in m && Occurs(k, ph.word) {
      OccursShort(k, ph.word);
    }
    if ph.More? {
      NextKeyWhole(ph.rest, m, done, k);
    }
    ValueWord(m, k, k);
  }

  lemma {:induction false} SubstituteMore(ph: Phrase, m: map<string, string>, done: set<string>, k: string)
    requires IsAuthority(m) && k in m && k !in done
    ensures Substitute(Substitute(ph, Restrict(m, done)), map[k := m[k]]) == Substitute(ph, Restrict(m, done + {k}))
    ensures HasWord(Substitute(ph, Restrict(m, done)), k) <==> HasWord(ph, k)
  {
    ValueWord(m, k, k);
    var r := Restrict(m, done);
    if ph.More? {
      SubstituteMore(ph.rest, m, done, k);
    }
    if ph.word in r {
      ValueWord(m, ph.word, k);
      var rest := if ph.End? then End("") else More("", ph.delimiter, Substitute(ph.rest, r));
      SubstituteBracketed(m[ph.word], rest, map[k := m[k]]);
      HasWordBracketed(m[ph.word], rest, k);
    }
  }

  lemma {:induction false} SubstituteProper(ph: Phrase, m: map<string, string>)
    requires Proper(ph) && forall k :: k in m ==> Undelimited(m[k])
    ensures Proper(Substitute(ph, m))
  {
    if ph.More? {
      SubstituteProper(ph.rest, m);
    }
  }

  function UsedWords(known: seq<string>, ph: Phrase): seq<string> {
    if known == [] then []
    else (if HasWord(ph, known[0]) then [known[0]] else []) + UsedWords(known[1..], ph)
  }

  lemma {:induction false} RewriteRest(ph: Phrase, m: map<string, string>, done: set<string>, known: seq<string>)
    requires IsAuthority(m) && Proper(ph) && Delimited(ph, m.Keys) && LongestFirst(known)
    requires forall k :: k in m <==> k in done || k in known
    requires forall k :: k in known ==> k !in done && k != ""
    ensures Rewrite(Print(Substitute(ph, Restrict(m, done))), known, m)
         == (Print(Substitute(ph, m)), UsedWords(known, ph))
    decreases |known|
  {
    hide Substitute, Print, Proper, Delimited, Replace, Occurs;
    if known == [] {
      assert Restrict(m, done) == m;
    } else {
      var k := known[0];
      RewriteOne(ph, m, done, known);
      RewriteRest(ph, m, done + {k}, known[1..]);
      assert [] + UsedWords(known[1..], ph) == UsedWords(known[1..], ph);
    }
  }

  lemma RewriteOne(ph: Phrase, m: map<string, string>, done: set<string>, known: seq<string>)
    requires IsAuthority(m) && Proper(ph) && Delimited(ph, m.Keys) && LongestFirst(known) && known != []
    requires forall k :: k in m <==> k in done || k in known
    requires forall k :: k in known ==> k !in done && k != ""
    ensures var (now, next) := (Substitute(ph, Restrict(m, done)), Substitute(ph, Restrict(m, done + {known[0]})));
      && (Occurs(known[0], Print(now)) <==> HasWord(ph, known[0]))
      && Print(next) == if Occurs(known[0], Print(now)) then Replace(Print(now), known[0], Parenthesised(m[known[0]]))
                        else Print(now)
  {
    hide Substitute, Print, Proper, Delimited, Replace, Occurs, WholeWord;
    var k := known[0];
    var now := Substitute(ph, Restrict(m, done));
    assert forall w :: w in m && w !in done ==> |w| <= |k|;
    NextKeyWhole(ph, m, done, k);
    SubstituteProper(ph, Restrict(m, done));
    ReplaceWords(now, k, m[k]);
    OccursWords(now, k);
    SubstituteMore(ph, m, done, k);
    if !Occurs(k, Print(now)) {
      ReplaceAbsent(Print(now), k, Parenthesised(m[k]));
    }
  }

  /**
   Replacing the keys one by one, longest first, is replacing every key word of the text at
   once, for every set of keys, also keys inside other keys, as long as the keys of the text
   stand between spaces and parentheses.
   */
  lemma RewriteIsSubstitution(text: string, m: map<string, string>, known: seq<string>)
    requires IsAuthority(m) && Delimited(Words(text), m.Keys) && LongestFirst(known)
    requires forall k :: k in m <==> k in known
    requires forall k :: k in known ==> k != ""
    ensures Rewrite(text, known, m) == (Print(Substitute(Words(text), m)), UsedWords(known, Words(text)))
  {
    PrintWords(text);
    SubstituteNothing(Words(text), m);
    RewriteRest(Words(text), m, {}, known);
  }

  lemma {:induction false} SubstituteNothing(ph: Phrase, m: map<string, string>)
    ensures Substitute(ph, Restrict(m, {})) == ph
  {
    if ph.More? {
      SubstituteNothing(ph.rest, m);
    }
  }
}
