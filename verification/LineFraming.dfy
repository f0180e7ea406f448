/**
 Line framing of the browser daemon (tools/agent-browse/daemon.js). All data events of one
 socket append to one shared buffer; each event's handler takes complete lines from it until
 it has to await a command, and several handlers can be suspended at once. Between two awaits a
 handler runs without interruption.
 */
module LineFraming {
  import opened Text

  /** What handling a non-blank line does: answer at once, await a command, or await a close. */
  datatype Kind = Immediate | Command | Close

  /** A handler awaits the answer to a taken line, is done, or returned after the close on that line. */
  datatype Handler = Suspended(line: nat, closing: bool) | Finished | Left(line: nat)

  /** `received` and `taken` are history; `answered` lists the taken lines answered so far. */
  datatype Socket = Socket(
    received: string, buffer: string, taken: seq<string>, handlers: seq<Handler>, answered: seq<nat>)

  function Fresh(): Socket { Socket("", "", [], [], []) }

  predicate Blank(line: string) { forall i :: 0 <= i < |line| ==> IsJsSpace(line[i]) }

  /** Take the first complete line. */
  function Take(s: Socket): Socket {
    s.(taken := s.taken + [Before(s.buffer, '\n')], buffer := After(s.buffer, '\n'))
  }

  /** Handler `h` runs its loop until it awaits or the buffer holds no complete line. */
  function Drain(s: Socket, h: nat, kind: string -> Kind): (t: Socket)
    requires h < |s.handlers|
    ensures |t.handlers| == |s.handlers| && t.received == s.received
    decreases |s.buffer|
  {
    if '\n' !in s.buffer then s.(handlers := s.handlers[h := Finished])
    else
      var line := Before(s.buffer, '\n');
      var i := |s.taken|;
      var next := Take(s);
      if Blank(line) then Drain(next, h, kind)
      else match kind(line)
        case Immediate => Drain(next.(answered := s.answered + [i]), h, kind)
        case Command => next.(handlers := s.handlers[h := Suspended(i, false)])
        case Close => next.(handlers := s.handlers[h := Suspended(i, true)])
  }

  datatype Event =
    | Data(chunk: string)
    | Settle(handler: nat, ok: bool)

  predicate Enabled(s: Socket, e: Event) {
    e.Settle? ==> e.handler < |s.handlers| && s.handlers[e.handler].Suspended?
  }

  /** A chunk starts a handler; a settled command is answered and, unless it closed, the loop goes on. */
  function Step(s: Socket, e: Event, kind: string -> Kind): Socket
    requires Enabled(s, e)
  {
    match e
    case Data(chunk) =>
      var t := s.(received := s.received + chunk, buffer := s.buffer + chunk, handlers := s.handlers + [Finished]);
      Drain(t, |s.handlers|, kind)
    case Settle(h, ok) =>
      var t := s.(answered := s.answered + [s.handlers[h].line]);
      if s.handlers[h].closing && ok then t.(handlers := s.handlers[h := Left(s.handlers[h].line)])
      else Drain(t.(handlers := s.handlers[h := Finished]), h, kind)
  }

  predicate ValidRun(s: Socket, es: seq<Event>, kind: string -> Kind)
    decreases |es|
  {
    es != [] ==> Enabled(s, es[0]) && ValidRun(Step(s, es[0], kind), es[1..], kind)
  }

  function Final(s: Socket, es: seq<Event>, kind: string -> Kind): Socket
    requires ValidRun(s, es, kind)
    decreases |es|
  {
    if es == [] then s else Final(Step(s, es[0], kind), es[1..], kind)
  }

  // ---------------------------------------------------------------- invariants

  /** Lines put back together, each with its newline. */
  function Unsplit(lines: seq<string>): string {
    if lines == [] then "" else Unsplit(lines[..|lines| - 1]) + lines[|lines| - 1] + ['\n']
  }

  predicate Framed(s: Socket) {
    && Unsplit(s.taken) + s.buffer == s.received
    && forall i :: 0 <= i < |s.taken| ==> '\n' !in s.taken[i]
  }

  predicate Awaits(s: Socket, h: nat, i: nat) {
    h < |s.handlers| && s.handlers[h].Suspended? && s.handlers[h].line == i
  }

  /** Every non-blank taken line is answered once, or awaited by one handler; never both. */
  ghost predicate Accounted(s: Socket) {
    && (forall a, b :: 0 <= a < b < |s.answered| ==> s.answered[a] != s.answered[b])
    && (forall i :: i in s.answered ==> i < |s.taken| && !Blank(s.taken[i]))
    && (forall h: nat, i: nat :: Awaits(s, h, i) ==> i < |s.taken| && !Blank(s.taken[i]) && i !in s.answered)
    && (forall h: nat, g: nat, i: nat :: Awaits(s, h, i) && Awaits(s, g, i) ==> h == g)
    && (forall i :: 0 <= i < |s.taken| && !Blank(s.taken[i]) ==> i in s.answered || exists h: nat :: Awaits(s, h, i))
  }

  /** A complete line waits in the buffer only while some handler is suspended or has left. */
  predicate Live(s: Socket) {
    '\n' in s.buffer ==> exists h :: 0 <= h < |s.handlers| && !s.handlers[h].Finished?
  }

  lemma UnsplitSnoc(lines: seq<string>, line: string)
    ensures Unsplit(lines + [line]) == Unsplit(lines) + line + ['\n']
  {
    assert (lines + [line])[..|lines|] == lines;
  }

  lemma TakeKeepsFramed(s: Socket)
    requires Framed(s) && '\n' in s.buffer
    ensures Framed(Take(s))
  {
    hide Unsplit, Before, After;
    Partition(s.buffer, '\n');
    var line, rest := Before(s.buffer, '\n'), After(s.buffer, '\n');
    UnsplitSnoc(s.taken, line);
    assert Unsplit(s.taken) + line + ['\n'] + rest == Unsplit(s.taken) + (line + ['\n'] + rest);
  }

  lemma {:induction false} DrainKeepsFramed(s: Socket, h: nat, kind: string -> Kind)
    requires Framed(s) && h < |s.handlers|
    ensures Framed(Drain(s, h, kind))
    decreases |s.buffer|
  {
    hide Unsplit, Before, After;
    if '\n' in s.buffer {
      TakeKeepsFramed(s);
      TakeShrinks(s);
      var line, next := Before(s.buffer, '\n'), Take(s);
      if Blank(line) {
        DrainKeepsFramed(next, h, kind);
      } else if kind(line).Immediate? {
        DrainKeepsFramed(next.(answered := s.answered + [|s.taken|]), h, kind);
      }
    }
  }

  lemma TakeShrinks(s: Socket)
    requires '\n' in s.buffer
    ensures |Take(s).buffer| < |s.buffer|
  {
    Partition(s.buffer, '\n');
  }

  // Bookkeeping around one more taken line: blank, answered at once, or awaited.

  lemma BlankAccounted(s: Socket)
    requires Accounted(s) && Blank(Before(s.buffer, '\n'))
    ensures Accounted(Take(s))
  {
    hide Before, After;
    assert forall g: nat, j: nat :: Awaits(Take(s), g, j) <==> Awaits(s, g, j);
  }

  lemma AnsweredAccounted(s: Socket)
    requires Accounted(s) && !Blank(Before(s.buffer, '\n'))
    ensures Accounted(Take(s).(answered := s.answered + [|s.taken|]))
  {
    hide Before, After, Blank;
    var t := Take(s).(answered := s.answered + [|s.taken|]);
    assert forall g: nat, j: nat :: Awaits(t, g, j) <==> Awaits(s, g, j);
    assert forall a :: 0 <= a < |s.answered| ==> t.answered[a] == s.answered[a] && s.answered[a] in s.answered;
    forall j | 0 <= j < |t.taken| && !Blank(t.taken[j])
      ensures j in t.answered || exists g: nat :: Awaits(t, g, j)
    {
      if j == |s.taken| {
        assert t.answered[|s.answered|] == j;
      } else {
        assert t.taken[j] == s.taken[j];
      }
    }
  }

  lemma AwaitedAccounted(s: Socket, h: nat, closing: bool)
    requires Accounted(s) && h < |s.handlers| && s.handlers[h].Finished? && !Blank(Before(s.buffer, '\n'))
    ensures Accounted(Take(s).(handlers := s.handlers[h := Suspended(|s.taken|, closing)]))
  {
    hide Before, After, Blank;
    var i, t := |s.taken|, Take(s).(handlers := s.handlers[h := Suspended(|s.taken|, closing)]);
    assert forall g: nat, j: nat :: Awaits(t, g, j) <==> (g == h && j == i) || Awaits(s, g, j);
    assert Awaits(t, h, i);
    forall j | 0 <= j < |t.taken| && !Blank(t.taken[j])
      ensures j in t.answered || exists g: nat :: Awaits(t, g, j)
    {
      assert j != i ==> t.taken[j] == s.taken[j];
    }
  }

  lemma {:induction false} DrainKeepsAccounted(s: Socket, h: nat, kind: string -> Kind)
    requires Accounted(s) && h < |s.handlers| && s.handlers[h].Finished?
    ensures Accounted(Drain(s, h, kind))
    decreases |s.buffer|
  {
    hide Accounted, Before, After, Blank;
    if '\n' in s.buffer {
      TakeShrinks(s);
      var line, next := Before(s.buffer, '\n'), Take(s);
      if Blank(line) {
        BlankAccounted(s);
        DrainKeepsAccounted(next, h, kind);
      } else if !kind(line).Immediate? {
        AwaitedAccounted(s, h, kind(line).Close?);
      } else {
        AnsweredAccounted(s);
        DrainKeepsAccounted(next.(answered := s.answered + [|s.taken|]), h, kind);
      }
    } else {
      assert s.handlers[h := Finished] == s.handlers;
    }
  }

  lemma {:induction false} DrainLive(s: Socket, h: nat, kind: string -> Kind)
    requires h < |s.handlers|
    ensures var t := Drain(s, h, kind);
      && ('\n' in t.buffer ==> t.handlers[h].Suspended?)
      && forall g :: 0 <= g < |s.handlers| && g != h ==> t.handlers[g] == s.handlers[g]
    decreases |s.buffer|
  {
    hide Before, After;
    if '\n' in s.buffer {
      TakeShrinks(s);
      var line, next := Before(s.buffer, '\n'), Take(s);
      if Blank(line) {
        DrainLive(next, h, kind);
      } else if kind(line).Immediate? {
        DrainLive(next.(answered := s.answered + [|s.taken|]), h, kind);
      }
    }
  }

  ghost predicate Inv(s: Socket) { Framed(s) && Accounted(s) && Live(s) }

  lemma AnsweredOne(s: Socket, h: nat, last: Handler)
    requires Accounted(s) && h < |s.handlers| && s.handlers[h].Suspended? && !last.Suspended?
    ensures Accounted(s.(answered := s.answered + [s.handlers[h].line], handlers := s.handlers[h := last]))
  {
    var i := s.handlers[h].line;
    var t := s.(answered := s.answered + [i], handlers := s.handlers[h := last]);
    assert Awaits(s, h, i);
    assert forall g: nat, j: nat :: Awaits(t, g, j) <==> g != h && Awaits(s, g, j);
    forall j | 0 <= j < |t.taken| && !Blank(t.taken[j])
      ensures j in t.answered || exists g: nat :: Awaits(t, g, j)
    {
      if j !in t.answered {
        var g: nat :| Awaits(s, g, j);
        assert Awaits(t, g, j);
      }
    }
  }

  lemma DataKeepsInv(s: Socket, chunk: string, kind: string -> Kind)
    requires Inv(s)
    ensures Inv(Step(s, Data(chunk), kind))
  {
    hide Drain, Blank;
    var t := s.(received := s.received + chunk, buffer := s.buffer + chunk, handlers := s.handlers + [Finished]);
    assert Unsplit(t.taken) + t.buffer == (Unsplit(s.taken) + s.buffer) + chunk;
    assert forall g: nat, j: nat :: Awaits(t, g, j) <==> Awaits(s, g, j);
    DrainKeepsFramed(t, |s.handlers|, kind);
    DrainKeepsAccounted(t, |s.handlers|, kind);
    DrainLive(t, |s.handlers|, kind);
  }

  lemma SettleKeepsInv(s: Socket, h: nat, ok: bool, kind: string -> Kind)
    requires Inv(s) && Enabled(s, Settle(h, ok))
    ensures Inv(Step(s, Settle(h, ok), kind))
  {
    hide Drain, Accounted;
    if s.handlers[h].closing && ok {
      AnsweredOne(s, h, Left(s.handlers[h].line));
      assert Step(s, Settle(h, ok), kind).handlers[h].Left?;
    } else {
      AnsweredOne(s, h, Finished);
      var t := s.(answered := s.answered + [s.handlers[h].line], handlers := s.handlers[h := Finished]);
      DrainKeepsFramed(t, h, kind);
      DrainKeepsAccounted(t, h, kind);
      DrainLive(t, h, kind);
    }
  }

  lemma {:induction false} RunKeepsInv(s: Socket, es: seq<Event>, kind: string -> Kind)
    requires Inv(s) && ValidRun(s, es, kind)
    ensures Inv(Final(s, es, kind))
    decreases |es|
  {
    hide Inv, Step;
    if es != [] {
      match es[0] {
        case Data(chunk) => DataKeepsInv(s, chunk, kind);
        case Settle(h, ok) => SettleKeepsInv(s, h, ok, kind);
      }
      RunKeepsInv(Step(s, es[0], kind), es[1..], kind);
    }
  }

  // ---------------------------------------------------------------- splitting the whole stream

  /** The complete lines of a text, and what follows the last newline. */
  function CompleteLines(text: string): seq<string> {
    var pieces := SplitOn(text, '\n');
    pieces[..|pieces| - 1]
  }

  function LastPiece(text: string): string {
    var pieces := SplitOn(text, '\n');
    pieces[|pieces| - 1]
  }

  function NonBlank(lines: seq<string>): seq<string> {
    if lines == [] then [] else (if Blank(lines[0]) then [] else [lines[0]]) + NonBlank(lines[1..])
  }

  /** One line stays unless it is all whitespace; lines stay in their order. */
  lemma NonBlankIs(line: string, a: seq<string>, b: seq<string>)
    ensures NonBlank([line]) == if forall c :: c in line ==> IsJsSpace(c) then [] else [line]
    ensures NonBlank(a + b) == NonBlank(a) + NonBlank(b)
  {
    NonBlankConcat(a, b);
    hide IsJsSpace;
    assert [line][1..] == [];
    assert Blank(line) <==> forall c :: c in line ==> IsJsSpace(c);
  }

  lemma {:induction false} NonBlankConcat(a: seq<string>, b: seq<string>)
    ensures NonBlank(a + b) == NonBlank(a) + NonBlank(b)
  {
    hide Blank;
    if a == [] {
      assert a + b == b;
    } else {
      NonBlankConcat(a[1..], b);
      assert (a + b)[1..] == a[1..] + b;
    }
  }

  /** Splitting text that begins with whole lines gives those lines first. */
  lemma {:induction false} SplitUnsplit(lines: seq<string>, rest: string)
    requires forall i :: 0 <= i < |lines| ==> '\n' !in lines[i]
    ensures SplitOn(Unsplit(lines) + rest, '\n') == lines + SplitOn(rest, '\n')
    decreases |lines|
  {
    hide SplitOn;
    if lines == [] {
      assert "" + rest == rest;
    } else {
      var n := |lines| - 1;
      var last := lines[n];
      SplitUnsplit(lines[..n], last + ['\n'] + rest);
      SplitOnHead(last, '\n', rest);
      assert Unsplit(lines) + rest == Unsplit(lines[..n]) + (last + ['\n'] + rest);
      assert lines == lines[..n] + [last];
    }
  }

  lemma FramedIsPrefix(s: Socket)
    requires Framed(s)
    ensures SplitOn(s.received, '\n') == s.taken + SplitOn(s.buffer, '\n')
    ensures s.taken <= CompleteLines(s.received)
    ensures '\n' !in s.buffer ==> s.taken == CompleteLines(s.received) && s.buffer == LastPiece(s.received)
  {
    SplitUnsplit(s.taken, s.buffer);
    var rest := SplitOn(s.buffer, '\n');
    var pieces := s.taken + rest;
    assert pieces[..|pieces| - 1] == s.taken + rest[..|rest| - 1];
    if '\n' !in s.buffer {
      IndexOfAbsent(s.buffer, '\n');
      assert rest == [s.buffer];
    }
  }

  /** The lines whose commands were handed to the parser, in the order of taking them. */
  function Dispatched(s: Socket): seq<string> { NonBlank(s.taken) }

  lemma {:induction false} NonBlankPrefix(a: seq<string>, b: seq<string>)
    requires a <= b
    ensures NonBlank(a) <= NonBlank(b)
  {
    if a != [] {
      NonBlankPrefix(a[1..], b[1..]);
      assert a[0] == b[0];
    }
  }

  /**
   For any chunking of the input and any interleaving of the suspended handlers: the taken lines
   and the buffer reassemble the received text; the dispatched lines are a prefix, in order, of
   the non-blank complete lines of the whole stream; and every taken non-blank line has been
   answered exactly once or is awaited by exactly one handler.
   */
  lemma FramingIsSplitting(es: seq<Event>, kind: string -> Kind)
    requires ValidRun(Fresh(), es, kind)
    ensures var t := Final(Fresh(), es, kind);
      && Unsplit(t.taken) + t.buffer == t.received
      && t.taken <= CompleteLines(t.received)
      && Dispatched(t) <= NonBlank(CompleteLines(t.received))
      && Accounted(t)
  {
    RunKeepsInv(Fresh(), es, kind);
    var t := Final(Fresh(), es, kind);
    FramedIsPrefix(t);
    NonBlankPrefix(t.taken, CompleteLines(t.received));
  }

  function Received(es: seq<Event>): string
    decreases |es|
  {
    if es == [] then "" else (match es[0] case Data(chunk) => chunk case Settle(_, _) => "") + Received(es[1..])
  }

  lemma {:induction false} FinalReceived(s: Socket, es: seq<Event>, kind: string -> Kind)
    requires ValidRun(s, es, kind)
    ensures Final(s, es, kind).received == s.received + Received(es)
    decreases |es|
  {
    if es != [] {
      FinalReceived(Step(s, es[0], kind), es[1..], kind);
    }
  }

  predicate AllFinished(t: Socket) { forall h :: 0 <= h < |t.handlers| ==> t.handlers[h].Finished? }

  lemma QuiescentState(t: Socket)
    requires Inv(t) && AllFinished(t)
    ensures t.taken == CompleteLines(t.received) && t.buffer == LastPiece(t.received)
    ensures forall i :: 0 <= i < |t.taken| ==> (i in t.answered <==> !Blank(t.taken[i]))
  {
    hide Framed, Blank, CompleteLines, LastPiece;
    FramedIsPrefix(t);
    forall i | 0 <= i < |t.taken|
      ensures i in t.answered <==> !Blank(t.taken[i])
    {
      assert forall h: nat :: !Awaits(t, h, i);
    }
  }

  lemma FreshInv()
    ensures Inv(Fresh())
  {}

  // ---------------------------------------------------------------- who awaits and who leaves

  /** Only commands are awaited, only closes end a handler, and only after they were answered. */
  predicate RolesOk(s: Socket, kind: string -> Kind) {
    forall h :: 0 <= h < |s.handlers| ==>
      match s.handlers[h]
      case Suspended(i, closing) => i < |s.taken| && !kind(s.taken[i]).Immediate? && (closing <==> kind(s.taken[i]).Close?)
      case Left(i) => i < |s.taken| && i in s.answered && !Blank(s.taken[i]) && kind(s.taken[i]).Close?
      case Finished => true
  }

  lemma {:induction false} DrainKeepsRoles(s: Socket, h: nat, kind: string -> Kind)
    requires RolesOk(s, kind) && h < |s.handlers|
    ensures RolesOk(Drain(s, h, kind), kind)
    decreases |s.buffer|
  {
    hide Before, After, Blank;
    if '\n' in s.buffer {
      TakeShrinks(s);
      var line, next := Before(s.buffer, '\n'), Take(s);
      if Blank(line) {
        DrainKeepsRoles(next, h, kind);
      } else if kind(line).Immediate? {
        DrainKeepsRoles(next.(answered := s.answered + [|s.taken|]), h, kind);
      }
    }
  }

  lemma StepKeepsRoles(s: Socket, e: Event, kind: string -> Kind)
    requires Inv(s) && RolesOk(s, kind) && Enabled(s, e)
    ensures RolesOk(Step(s, e, kind), kind)
  {
    hide Drain, Blank;
    match e
    case Data(chunk) =>
      var t := s.(received := s.received + chunk, buffer := s.buffer + chunk, handlers := s.handlers + [Finished]);
      DrainKeepsRoles(t, |s.handlers|, kind);
    case Settle(h, ok) =>
      assert Awaits(s, h, s.handlers[h].line);
      if !(s.handlers[h].closing && ok) {
        var t := s.(answered := s.answered + [s.handlers[h].line], handlers := s.handlers[h := Finished]);
        DrainKeepsRoles(t, h, kind);
      }
  }

  /** In every run. */
  lemma {:induction false} RunKeepsRoles(s: Socket, es: seq<Event>, kind: string -> Kind)
    requires Inv(s) && RolesOk(s, kind) && ValidRun(s, es, kind)
    ensures RolesOk(Final(s, es, kind), kind)
    decreases |es|
  {
    hide Inv, Step, RolesOk, Enabled;
    if es != [] {
      StepKeepsRoles(s, es[0], kind);
      RunKeepsInv(s, [es[0]], kind);
      assert [es[0]][1..] == [];
      RunKeepsRoles(Step(s, es[0], kind), es[1..], kind);
    }
  }

  /** A handler returns exactly when what it awaited was a close that succeeded. */
  lemma LeavesIffClosed(s: Socket, h: nat, ok: bool, kind: string -> Kind)
    requires RolesOk(s, kind) && Enabled(s, Settle(h, ok))
    ensures Step(s, Settle(h, ok), kind).handlers[h].Left? <==> ok && kind(s.taken[s.handlers[h].line]).Close?
  {
    hide Drain, Blank;
    if !(s.handlers[h].closing && ok) {
      var t := s.(answered := s.answered + [s.handlers[h].line], handlers := s.handlers[h := Finished]);
      DrainNeverLeaves(t, h, kind);
    }
  }

  lemma {:induction false} DrainNeverLeaves(s: Socket, h: nat, kind: string -> Kind)
    requires h < |s.handlers| && !s.handlers[h].Left?
    ensures !Drain(s, h, kind).handlers[h].Left?
    decreases |s.buffer|
  {
    hide Before, After;
    if '\n' in s.buffer {
      TakeShrinks(s);
      var line, next := Before(s.buffer, '\n'), Take(s);
      if Blank(line) {
        DrainNeverLeaves(next, h, kind);
      } else if kind(line).Immediate? {
        DrainNeverLeaves(next.(answered := s.answered + [|s.taken|]), h, kind);
      }
    }
  }

  /** How many of the answered lines had to be awaited. */
  function Awaited(answered: seq<nat>, taken: seq<string>, kind: string -> Kind): nat {
    if answered == [] then 0
    else
      var n := |answered| - 1;
      Awaited(answered[..n], taken, kind)
        + if answered[n] < |taken| && !kind(taken[answered[n]]).Immediate? then 1 else 0
  }

  lemma {:induction false} AwaitedFrame(answered: seq<nat>, taken: seq<string>, more: seq<string>, kind: string -> Kind)
    requires forall i :: i in answered ==> i < |taken|
    ensures Awaited(answered, taken + more, kind) == Awaited(answered, taken, kind)
  {
    if answered != [] {
      var n := |answered| - 1;
      assert answered[n] in answered;
      assert forall i :: i in answered[..n] ==> i in answered;
      AwaitedFrame(answered[..n], taken, more, kind);
    }
  }

  lemma AwaitedSnoc(answered: seq<nat>, i: nat, taken: seq<string>, kind: string -> Kind)
    ensures Awaited(answered + [i], taken, kind)
         == Awaited(answered, taken, kind) + if i < |taken| && !kind(taken[i]).Immediate? then 1 else 0
  {
    assert (answered + [i])[..|answered|] == answered;
  }

  /** A loop answers no line that has to be awaited. */
  lemma {:induction false} DrainAnswersAtOnce(s: Socket, h: nat, kind: string -> Kind)
    requires h < |s.handlers| && forall i :: i in s.answered ==> i < |s.taken|
    ensures var t := Drain(s, h, kind); Awaited(t.answered, t.taken, kind) == Awaited(s.answered, s.taken, kind)
    decreases |s.buffer|
  {
    hide Before, After, Blank, Awaited;
    if '\n' in s.buffer {
      TakeShrinks(s);
      var line, next := Before(s.buffer, '\n'), Take(s);
      AwaitedFrame(s.answered, s.taken, [line], kind);
      if Blank(line) {
        DrainAnswersAtOnce(next, h, kind);
      } else if kind(line).Immediate? {
        AwaitedSnoc(s.answered, |s.taken|, next.taken, kind);
        DrainAnswersAtOnce(next.(answered := s.answered + [|s.taken|]), h, kind);
      }
    }
  }

  function Settled(es: seq<Event>): nat { if es == [] then 0 else (if es[0].Settle? then 1 else 0) + Settled(es[1..]) }

  lemma StepAwaited(s: Socket, e: Event, kind: string -> Kind)
    requires Inv(s) && RolesOk(s, kind) && Enabled(s, e)
    ensures var t := Step(s, e, kind);
      Awaited(t.answered, t.taken, kind) == Awaited(s.answered, s.taken, kind) + if e.Settle? then 1 else 0
  {
    hide Drain, Blank, Awaited;
    match e
    case Data(chunk) =>
      var t := s.(received := s.received + chunk, buffer := s.buffer + chunk, handlers := s.handlers + [Finished]);
      DrainAnswersAtOnce(t, |s.handlers|, kind);
    case Settle(h, ok) =>
      var i := s.handlers[h].line;
      assert Awaits(s, h, i);
      AwaitedSnoc(s.answered, i, s.taken, kind);
      if !(s.handlers[h].closing && ok) {
        DrainAnswersAtOnce(s.(answered := s.answered + [i], handlers := s.handlers[h := Finished]), h, kind);
      }
  }

  /** Commands are answered by nothing but their own settling, one for one. */
  lemma {:induction false} AnsweredBySettling(s: Socket, es: seq<Event>, kind: string -> Kind)
    requires Inv(s) && RolesOk(s, kind) && ValidRun(s, es, kind)
    ensures var t := Final(s, es, kind);
      Awaited(t.answered, t.taken, kind) == Awaited(s.answered, s.taken, kind) + Settled(es)
    decreases |es|
  {
    hide Inv, Step, RolesOk, Enabled, Awaited;
    if es != [] {
      StepAwaited(s, es[0], kind);
      StepKeepsRoles(s, es[0], kind);
      RunKeepsInv(s, [es[0]], kind);
      assert [es[0]][1..] == [];
      AnsweredBySettling(Step(s, es[0], kind), es[1..], kind);
    }
  }

  lemma FreshRoles(kind: string -> Kind)
    ensures RolesOk(Fresh(), kind) && Awaited(Fresh().answered, Fresh().taken, kind) == 0
  {}

  predicate NoneSuspended(t: Socket) { forall h :: 0 <= h < |t.handlers| ==> !t.handlers[h].Suspended? }

  /** Without a complete line that closes, a handler that awaits nothing has finished. */
  lemma NoCloseNoLeft(t: Socket, kind: string -> Kind)
    requires Framed(t) && RolesOk(t, kind) && NoneSuspended(t)
    requires forall line :: line in CompleteLines(t.received) && !Blank(line) ==> !kind(line).Close?
    ensures AllFinished(t)
  {
    FramedIsPrefix(t);
    hide Blank, CompleteLines, Framed;
    forall i | 0 <= i < |t.taken|
      ensures t.taken[i] in CompleteLines(t.received)
    {
      assert t.taken[i] == CompleteLines(t.received)[i];
    }
  }

  /**
   Where no complete line of the stream is a close, nothing is lost: once no handler awaits anything,
   all complete non-blank lines have been dispatched and answered, and every command by the settling
   of its own execution.
   */
  lemma NoCloseIsComplete(es: seq<Event>, kind: string -> Kind)
    requires ValidRun(Fresh(), es, kind) && NoneSuspended(Final(Fresh(), es, kind))
    requires forall line :: line in CompleteLines(Received(es)) && !Blank(line) ==> !kind(line).Close?
    ensures var t, text := Final(Fresh(), es, kind), Received(es);
      && t.taken == CompleteLines(text) && t.buffer == LastPiece(text)
      && Dispatched(t) == NonBlank(CompleteLines(text))
      && (forall i :: 0 <= i < |t.taken| ==> (i in t.answered <==> !Blank(t.taken[i])))
      && Awaited(t.answered, t.taken, kind) == Settled(es)
  {
    FreshInv();
    FreshRoles(kind);
    hide Inv, ValidRun, Final, Received, AllFinished, CompleteLines, LastPiece, NonBlank, Blank, RolesOk, Awaited, NoneSuspended;
    RunKeepsInv(Fresh(), es, kind);
    RunKeepsRoles(Fresh(), es, kind);
    AnsweredBySettling(Fresh(), es, kind);
    FinalReceived(Fresh(), es, kind);
    assert "" + Received(es) == Received(es);
    InvFramed(Final(Fresh(), es, kind));
    NoCloseNoLeft(Final(Fresh(), es, kind), kind);
    QuiescentIsComplete(es, kind);
  }

  lemma InvFramed(s: Socket)
    requires Inv(s)
    ensures Framed(s)
  {}

  /**
   Once every handler has finished and none left through a close, all complete non-blank lines
   have been dispatched and answered and the buffer holds just the unfinished line; the outcome
   does not depend on how the text was cut into chunks.
   */
  lemma QuiescentIsComplete(es: seq<Event>, kind: string -> Kind)
    requires ValidRun(Fresh(), es, kind) && AllFinished(Final(Fresh(), es, kind))
    ensures var t, text := Final(Fresh(), es, kind), Received(es);
      && t.taken == CompleteLines(text) && t.buffer == LastPiece(text)
      && Dispatched(t) == NonBlank(CompleteLines(text))
      && (forall i :: 0 <= i < |t.taken| ==> (i in t.answered <==> !Blank(t.taken[i])))
  {
    FreshInv();
    hide Inv, ValidRun, Final, Received, AllFinished, CompleteLines, LastPiece, NonBlank, Blank;
    RunKeepsInv(Fresh(), es, kind);
    FinalReceived(Fresh(), es, kind);
    assert "" + Received(es) == Received(es);
    QuiescentState(Final(Fresh(), es, kind));
  }

  // ---------------------------------------------------------------- the handler's loop

  /** The daemon's side of one socket; `kind` is what the parser and the command say of a line. */
  class Connection {
    const kind: string -> Kind
    var buffer: string
    var handlers: seq<Handler>
    var answered: seq<nat>
    var taken: seq<string>
    ghost var received: string

    ghost function State(): Socket
      reads this
    {
      Socket(received, buffer, taken, handlers, answered)
    }

    constructor (kind: string -> Kind)
      ensures State() == Fresh() && this.kind == kind
    {
      this.kind := kind;
      buffer, handlers, answered, taken, received := "", [], [], [], "";
    }

    /** The while loop of a handler, up to its next await or its end. */
    method RunLoop(h: nat)
      requires h < |handlers| && handlers[h].Finished?
      modifies this
      ensures State() == Drain(old(State()), h, kind)
    {
      while '\n' in buffer
        invariant h < |handlers| && handlers[h].Finished?
        invariant Drain(State(), h, kind) == Drain(old(State()), h, kind)
        decreases |buffer|
      {
        TakeShrinks(State());
        var line := Before(buffer, '\n');
        var i := |taken|;
        taken := taken + [line];
        buffer := After(buffer, '\n');
        if Blank(line) {
          continue;
        }
        match kind(line)
        case Immediate =>
          answered := answered + [i];
        case Command =>
          handlers := handlers[h := Suspended(i, false)];
          return;
        case Close =>
          handlers := handlers[h := Suspended(i, true)];
          return;
      }
      assert handlers[h := Finished] == handlers;
    }

    /** The socket's data event. */
    method OnData(chunk: string)
      modifies this
      ensures State() == Step(old(State()), Data(chunk), kind)
    {
      received := received + chunk;
      buffer := buffer + chunk;
      handlers := handlers + [Finished];
      RunLoop(|handlers| - 1);
    }

    /** An awaited command succeeds or throws; after a successful close the handler returns. */
    method OnSettled(h: nat, ok: bool)
      requires Enabled(State(), Settle(h, ok))
      modifies this
      ensures State() == Step(old(State()), Settle(h, ok), kind)
    {
      answered := answered + [handlers[h].line];
      if handlers[h].closing && ok {
        handlers := handlers[h := Left(handlers[h].line)];
        return;
      }
      handlers := handlers[h := Finished];
      RunLoop(h);
    }
  }
}
