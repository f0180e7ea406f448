/** Sequence and text operations shared by the parsers of this project. */
module Text {

  datatype Option<+T> = None | Some(value: T)

  type Byte = x: int | 0 <= x < 256

  ghost predicate NoRepeat<T>(s: seq<T>) { forall i, j :: 0 <= i < j < |s| ==> s[i] != s[j] }

  /** Position of the first `c`, or `|s|` when there is none. */
  function IndexOf<T(==)>(s: seq<T>, c: T): (i: nat)
    ensures i <= |s|
    ensures i < |s| ==> s[i] == c
    ensures forall j :: 0 <= j < i ==> s[j] != c
  {
    if s == [] || s[0] == c then 0 else 1 + IndexOf(s[1..], c)
  }

  /** Position of the last `c`, or -1 when there is none. */
  function LastIndexOf<T(==)>(s: seq<T>, c: T): (i: int)
    ensures -1 <= i < |s|
    ensures 0 <= i ==> s[i] == c
    ensures forall j :: i < j < |s| ==> s[j] != c
  {
    if s == [] then -1
    else if s[|s| - 1] == c then |s| - 1
    else LastIndexOf(s[..|s| - 1], c)
  }

  lemma IndexOfAfter<T>(a: seq<T>, c: T, b: seq<T>)
    requires c !in a
    ensures IndexOf(a + [c] + b, c) == |a|
  {
    var s := a + [c] + b;
    assert s[|a|] == c;
    assert forall j :: 0 <= j < |a| ==> s[j] == a[j];
  }

  lemma LastIndexOfBefore<T>(a: seq<T>, c: T, b: seq<T>)
    requires c !in b
    ensures LastIndexOf(a + [c] + b, c) == |a|
  {
    var s := a + [c] + b;
    assert s[|a|] == c;
    assert b == s[|a| + 1..];
  }

  lemma IndexOfAbsent<T>(s: seq<T>, c: T)
    requires c !in s
    ensures IndexOf(s, c) == |s|
  {}

  /** `str.partition`: what precedes and what follows the first `c`. */
  function Before<T(==)>(s: seq<T>, c: T): seq<T> { s[..IndexOf(s, c)] }

  function After<T(==)>(s: seq<T>, c: T): seq<T> {
    var i := IndexOf(s, c);
    if i < |s| then s[i + 1..] else []
  }

  lemma Partition<T>(s: seq<T>, c: T)
    ensures c !in Before(s, c)
    ensures c in s ==> s == Before(s, c) + [c] + After(s, c)
    ensures c !in s ==> Before(s, c) == s && After(s, c) == []
  {}

  lemma PartitionOf<T>(a: seq<T>, c: T, b: seq<T>)
    requires c !in a
    ensures Before(a + [c] + b, c) == a && After(a + [c] + b, c) == b
  {
    IndexOfAfter(a, c, b);
  }

  /** The pieces between the separators: one more piece than separators. */
  function SplitOn<T(==)>(s: seq<T>, c: T): (pieces: seq<seq<T>>)
    ensures |pieces| >= 1
    decreases |s|
  {
    var i := IndexOf(s, c);
    if i == |s| then [s] else [s[..i]] + SplitOn(s[i + 1..], c)
  }

  lemma SplitOnOne<T>(s: seq<T>, c: T)
    requires c !in s
    ensures SplitOn(s, c) == [s]
  {
    IndexOfAbsent(s, c);
  }

  /** The first piece ends at the first separator. */
  lemma SplitOnHead<T>(a: seq<T>, c: T, b: seq<T>)
    requires c !in a
    ensures SplitOn(a + [c] + b, c) == [a] + SplitOn(b, c)
  {
    var s := a + [c] + b;
    IndexOfAfter(a, c, b);
    assert s[..|a|] == a && s[|a| + 1..] == b;
  }

  /** A separator splits, whatever is on its two sides. */
  lemma {:induction false} SplitOnAcross<T>(a: seq<T>, c: T, b: seq<T>)
    ensures SplitOn(a + [c] + b, c) == SplitOn(a, c) + SplitOn(b, c)
    decreases |a|
  {
    Partition(a, c);
    var head, rest := Before(a, c), After(a, c);
    hide SplitOn, Before, After;
    if c in a {
      SplitOnHead(head, c, rest);
      SplitOnHead(head, c, rest + [c] + b);
      SplitOnAcross(rest, c, b);
      assert a + [c] + b == head + [c] + (rest + [c] + b);
    } else {
      SplitOnHead(a, c, b);
      SplitOnOne(a, c);
    }
  }

  predicate IsDigit(c: char) { '0' <= c <= '9' }

  predicate IsAlpha(c: char) { 'a' <= c <= 'z' || 'A' <= c <= 'Z' }

  function LowerChar(c: char): char {
    if 'A' <= c <= 'Z' then ((c as int - 'A' as int) + 'a' as int) as char else c
  }

  function Lower(s: string): (r: string)
    ensures |r| == |s|
    ensures forall i :: 0 <= i < |s| ==> r[i] == LowerChar(s[i])
  {
    seq(|s|, i requires 0 <= i < |s| => LowerChar(s[i]))
  }

  predicate AllDigits(s: string) { forall c :: c in s ==> IsDigit(c) }

  function DigitValue(c: char): (d: nat)
    requires IsDigit(c)
    ensures d < 10
  {
    c as int - '0' as int
  }

  function ReadNat(s: string): nat
    requires AllDigits(s)
  {
    if s == "" then 0 else 10 * ReadNat(s[..|s| - 1]) + DigitValue(s[|s| - 1])
  }

  function ShowDigit(d: nat): (c: char)
    requires d < 10
    ensures IsDigit(c) && DigitValue(c) == d
  {
    (d + '0' as int) as char
  }

  /** Decimal text of a natural number, without leading zeros. */
  function ShowNat(n: nat): (s: string)
    ensures s != "" && AllDigits(s)
  {
    if n < 10 then [ShowDigit(n)] else ShowNat(n / 10) + [ShowDigit(n % 10)]
  }

  lemma {:induction false} ReadShow(n: nat)
    ensures ReadNat(ShowNat(n)) == n
  {
    if n < 10 {
      assert ShowNat(n)[..0] == "";
    } else {
      ReadShow(n / 10);
      assert ShowNat(n)[..|ShowNat(n)| - 1] == ShowNat(n / 10);
    }
  }

  /** Whitespace as Python's `str.strip` understands it. */
  predicate IsSpace(c: char) {
    c == ' ' || '\t' <= c <= '\r' || '\U{1c}' <= c <= '\U{1f}' || c == '\U{85}' || c == '\U{a0}'
    || c == '\U{1680}' || '\U{2000}' <= c <= '\U{200a}' || c == '\U{2028}' || c == '\U{2029}'
    || c == '\U{202f}' || c == '\U{205f}' || c == '\U{3000}'
  }

  lemma VisibleChar(c: char)
    requires '!' <= c <= '~'
    ensures !IsSpace(c)
  {}

  function TrimLeft(s: string): (r: string)
    ensures r == "" || !IsSpace(r[0])
    ensures |r| <= |s| && r == s[|s| - |r|..] && forall i :: 0 <= i < |s| - |r| ==> IsSpace(s[i])
  {
    if s != "" && IsSpace(s[0]) then TrimLeft(s[1..]) else s
  }

  function TrimRight(s: string): (r: string)
    ensures r == "" || !IsSpace(r[|r| - 1])
    ensures |r| <= |s| && r == s[..|r|] && forall i :: |r| <= i < |s| ==> IsSpace(s[i])
  {
    if s != "" && IsSpace(s[|s| - 1]) then TrimRight(s[..|s| - 1]) else s
  }

  function Trim(s: string): (r: string)
    ensures Trimmed(r)
    ensures Trimmed(s) ==> r == s
  {
    TrimRight(TrimLeft(s))
  }

  /** No whitespace at either end. */
  predicate Trimmed(s: string) {
    s == "" || (!IsSpace(s[0]) && !IsSpace(s[|s| - 1]))
  }

  lemma TrimTrimmed(s: string)
    requires Trimmed(s)
    ensures Trim(s) == s
  {}

  predicate AllBlank(s: string) { forall i :: 0 <= i < |s| ==> IsSpace(s[i]) }

  lemma {:induction false} TrimLeftBlank(pre: string, s: string)
    requires AllBlank(pre) && (s == "" || !IsSpace(s[0]))
    ensures TrimLeft(pre + s) == s
  {
    hide IsSpace;
    if pre == "" {
      assert pre + s == s;
    } else {
      assert (pre + s)[1..] == pre[1..] + s && (pre + s)[0] == pre[0];
      TrimLeftBlank(pre[1..], s);
    }
  }

  lemma {:induction false} TrimRightBlank(s: string, post: string)
    requires AllBlank(post) && (s == "" || !IsSpace(s[|s| - 1]))
    ensures TrimRight(s + post) == s
    decreases |post|
  {
    hide IsSpace;
    if post == "" {
      assert s + post == s;
    } else {
      var n := |post| - 1;
      assert (s + post)[..|s + post| - 1] == s + post[..n] && (s + post)[|s + post| - 1] == post[n];
      TrimRightBlank(s, post[..n]);
    }
  }

  /** Blanks around a text without blanks at its ends are all that trimming removes. */
  lemma TrimBlanks(pre: string, s: string, post: string)
    requires AllBlank(pre) && AllBlank(post) && Trimmed(s) && s != ""
    ensures Trim(pre + s + post) == s
  {
    hide IsSpace, TrimLeft, TrimRight;
    assert pre + s + post == pre + (s + post) && (s + post)[0] == s[0];
    TrimLeftBlank(pre, s + post);
    TrimRightBlank(s, post);
  }

  function LeadingWord(s: string): (w: string)
    ensures forall i :: 0 <= i < |w| ==> !IsSpace(w[i])
    ensures w <= s && (|w| < |s| ==> IsSpace(s[|w|]))
  {
    if s == "" || IsSpace(s[0]) then "" else [s[0]] + LeadingWord(s[1..])
  }

  /** The first of the words that blanks separate; empty if there is none. */
  function FirstWord(s: string): (w: string)
    ensures forall i :: 0 <= i < |w| ==> !IsSpace(w[i])
  {
    LeadingWord(TrimLeft(s))
  }

  lemma SliceOfTail<T>(s: seq<T>, start: nat, m: nat)
    requires start + m <= |s|
    ensures s[start..][..m] == s[start..start + m]
    ensures start + m < |s| ==> s[start..][m] == s[start + m]
  {}

  /** Where the first word stands: after blanks only, up to the next blank. */
  lemma FirstWordCut(s: string) returns (start: nat)
    ensures var w, end := FirstWord(s), start + |FirstWord(s)|;
      && end <= |s| && s[start..end] == w
      && (forall i :: 0 <= i < start ==> IsSpace(s[i])) && (forall i :: 0 <= i < |w| ==> !IsSpace(w[i]))
      && (end < |s| ==> IsSpace(s[end])) && (w == "" ==> start == |s|)
  {
    var t := TrimLeft(s);
    start := |s| - |t|;
    WordCut(s, start, t);
  }

  lemma WordCut(s: string, start: nat, t: string)
    requires start <= |s| && t == s[start..]
    ensures var w := LeadingWord(t);
      && start + |w| <= |s| && s[start..start + |w|] == w
      && (start + |w| < |s| ==> IsSpace(s[start + |w|]))
  {
    hide IsSpace;
    var w := LeadingWord(t);
    SliceOfTail(s, start, |w|);
  }

  lemma RightCut(s: string, start: nat, t: string)
    requires start <= |s| && t == s[start..]
    ensures var end := start + |TrimRight(t)|;
      end <= |s| && s[start..end] == TrimRight(t) && forall i :: end <= i < |s| ==> IsSpace(s[i])
  {
    var r := TrimRight(t);
    hide IsSpace, TrimRight;
    SliceOfTail(s, start, |r|);
    forall i | start + |r| <= i < |s|
      ensures IsSpace(s[i])
    {
      assert IsSpace(t[i - start]);
    }
  }

  /** Trimming cuts off blanks at both ends, all of them and nothing else. */
  lemma TrimCut(s: string) returns (start: nat)
    ensures var end := start + |Trim(s)|;
      && end <= |s| && s[start..end] == Trim(s) && Trimmed(Trim(s))
      && (forall i :: 0 <= i < start || end <= i < |s| ==> IsSpace(s[i]))
  {
    var t := TrimLeft(s);
    start := |s| - |t|;
    RightCut(s, start, t);
    assert Trim(s) == TrimRight(t);
    hide IsSpace, TrimLeft, TrimRight, Trim, Trimmed;
  }

  /** A verb belongs to a tool's commands, as a whole or by its first word; a tool without commands has any. */
  predicate CommandExists(verb: string, commands: set<string>) {
    commands == {} || verb in commands || FirstWord(verb) in commands
  }

  /** Whitespace as JavaScript's `trim` and `\s` understand it. */
  predicate IsJsSpace(c: char) {
    '\t' <= c <= '\r' || c == ' ' || c == '\U{a0}' || c == '\U{1680}' || '\U{2000}' <= c <= '\U{200a}'
    || c == '\U{2028}' || c == '\U{2029}' || c == '\U{202f}' || c == '\U{205f}' || c == '\U{3000}' || c == '\U{feff}'
  }

  function PowerOfTen(n: nat): (r: nat)
    ensures r > 0
  {
    if n == 0 then 1 else 10 * PowerOfTen(n - 1)
  }

  function Max(a: int, b: int): int { if a < b then b else a }
}
