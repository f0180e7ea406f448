/** The life of a pending nudge, from suggestion to outcome (lib/telemetry.py). */
module PendingNudges {
  import opened Text

  /** Absent and empty context fields are alike, and are the empty text here. */
  datatype Context = Context(session: string, gitRoot: string, cwd: string)

  datatype Pending = Pending(created: Option<int>, tools: seq<string>, commands: seq<string>, context: Context,
                             observed: int, maxActions: int)

  /** A tool call as one process sees it, with that process's time limit and default action limit. */
  datatype Call = Call(tool: string, preview: string, context: Context, now: int, ttl: int, fallback: int)

  datatype Kind = Expired | Followed | Ignored

  datatype Event = Event(id: string, kind: Kind)

  // ---------------------------------------------------------------- creation

  /** `r` lists the non-empty names, each once, in order of first appearance. */
  ghost predicate ListsOnce(r: seq<string>, names: seq<string>) {
    && (forall x :: x in r <==> x != "" && x in names)
    && (forall i, j :: 0 <= i < j < |r| ==> IndexOf(names, r[i]) < IndexOf(names, r[j]))
  }

  function Collect(names: seq<string>): seq<string> {
    if names == [] then []
    else
      var r, last := Collect(names[..|names| - 1]), names[|names| - 1];
      if last == "" || last in r then r else r + [last]
  }

  lemma {:induction false} FirstKept(names: seq<string>, last: string, x: string)
    ensures x in names ==> IndexOf(names + [last], x) == IndexOf(names, x) < |names|
    ensures x !in names && x == last ==> IndexOf(names + [last], x) == |names|
    decreases |names|
  {
    if names != [] {
      assert (names + [last])[1..] == names[1..] + [last];
      if names[0] != x {
        FirstKept(names[1..], last, x);
      }
    }
  }

  lemma StillListed(r: seq<string>, names: seq<string>, last: string)
    requires ListsOnce(r, names) && (last == "" || last in r)
    ensures ListsOnce(r, names + [last])
  {
    hide IndexOf;
    forall i | 0 <= i < |r|
      ensures IndexOf(names + [last], r[i]) == IndexOf(names, r[i])
    {
      assert r[i] in r;
      FirstKept(names, last, r[i]);
    }
  }

  lemma NewlyListed(r: seq<string>, names: seq<string>, last: string)
    requires ListsOnce(r, names) && last != "" && last !in r
    ensures ListsOnce(r + [last], names + [last])
  {
    hide IndexOf;
    forall i | 0 <= i < |r|
      ensures IndexOf(names + [last], r[i]) == IndexOf(names, r[i]) < |names|
    {
      assert r[i] in r;
      FirstKept(names, last, r[i]);
    }
    FirstKept(names, last, last);
  }

  lemma {:induction false} CollectLists(names: seq<string>)
    ensures ListsOnce(Collect(names), names)
    decreases |names|
  {
    hide ListsOnce;
    if names == [] {
      NothingListed();
    } else {
      var init, last := names[..|names| - 1], names[|names| - 1];
      CollectLists(init);
      assert names == init + [last];
      if last == "" || last in Collect(init) {
        StillListed(Collect(init), init, last);
      } else {
        NewlyListed(Collect(init), init, last);
      }
    }
  }

  lemma NothingListed()
    ensures ListsOnce([], [])
  {}

  datatype Nudge = Nudge(timestamp: Option<int>, tools: seq<string>, tool: string, commands: seq<string>,
                         replacement: string, context: Context)

  /** Some tool or some command is named. */
  predicate NamesSomething(n: Nudge) {
    n.tool != "" || n.replacement != ""
    || (exists i :: 0 <= i < |n.tools| && n.tools[i] != "") || (exists i :: 0 <= i < |n.commands| && n.commands[i] != "")
  }

  /** The record that a nudge leaves: unobserved, with its names, limit and context. */
  ghost predicate Records(p: Pending, n: Nudge, maxActions: int) {
    && ListsOnce(p.tools, n.tools + [n.tool]) && ListsOnce(p.commands, n.commands + [n.replacement])
    && p.created == n.timestamp && p.context == n.context && p.observed == 0 && p.maxActions == maxActions
  }

  /** What `create_pending_nudge` writes. */
  function NewPending(n: Nudge, maxActions: int): (p: Option<Pending>)
    ensures p.Some? <==> NamesSomething(n)
    ensures p.Some? ==> Records(p.value, n, maxActions)
  {
    var tools, commands := Collect(n.tools + [n.tool]), Collect(n.commands + [n.replacement]);
    CollectLists(n.tools + [n.tool]);
    CollectLists(n.commands + [n.replacement]);
    EmptyIff(tools, n.tools, n.tool);
    EmptyIff(commands, n.commands, n.replacement);
    if tools == [] && commands == [] then None
    else Some(Pending(n.timestamp, tools, commands, n.context, 0, maxActions))
  }

  lemma EmptyIff(r: seq<string>, names: seq<string>, extra: string)
    requires ListsOnce(r, names + [extra])
    ensures r == [] <==> extra == "" && forall i :: 0 <= i < |names| ==> names[i] == ""
  {
    hide IndexOf;
    if r == [] {
      assert forall x :: x in names + [extra] ==> x == "";
      assert extra in names + [extra] && forall i :: 0 <= i < |names| ==> names[i] in names + [extra];
    } else {
      assert r[0] in r;
    }
  }

  // ---------------------------------------------------------------- one tool call

  /** `same_context`. */
  predicate SameContext(p: Context, e: Context) {
    || (p.session != "" && p.session == e.session)
    || (p.gitRoot != "" && p.gitRoot == e.gitRoot)
    || (p.cwd != "" && p.cwd == e.cwd)
    || (p.session == "" && p.gitRoot == "")
  }

  /** `pending_expired`. */
  predicate PastTtl(p: Pending, c: Call) { p.created.Some? && c.now - p.created.value > c.ttl }

  predicate Suggests(command: string, c: Call) {
    "agent-do " + c.tool <= command || TrimRight(command) <= c.preview
  }

  /** `pending_matches_tool`. */
  predicate Matches(p: Pending, c: Call) {
    c.tool in p.tools || exists i :: 0 <= i < |p.commands| && Suggests(p.commands[i], c)
  }

  /** The action limit in force: a recorded limit of zero counts as none recorded. */
  function Limit(p: Pending, c: Call): int { if p.maxActions == 0 then c.fallback else p.maxActions }

  datatype Fate = Elsewhere | Resolved(kind: Kind) | Waits

  function FateOf(p: Pending, c: Call): Fate {
    if !SameContext(p.context, c.context) then Elsewhere
    else if PastTtl(p, c) then Resolved(Expired)
    else if Matches(p, c) then Resolved(Followed)
    else if p.observed + 1 >= Limit(p, c) then Resolved(Ignored)
    else Waits
  }

  // The conditions once more, as a nudge's reader would put them.

  predicate Share(a: string, b: string) { a == b && a != "" }

  /** Same session, repository or directory; a nudge without session and repository belongs everywhere. */
  predicate InContext(p: Pending, c: Call) {
    var (mine, theirs) := (p.context, c.context);
    Share(mine.session, theirs.session) || Share(mine.gitRoot, theirs.gitRoot) || Share(mine.cwd, theirs.cwd)
    || mine.session + mine.gitRoot == ""
  }

  predicate TooOld(p: Pending, c: Call) {
    match p.created
    case None => false
    case Some(created) => created + c.ttl < c.now
  }

  /** The text is a command, but for blanks at the command's end. */
  ghost predicate Stripped(start: string, command: string) {
    (start == "" || !IsSpace(start[|start| - 1])) && exists blanks :: command == start + blanks && AllBlank(blanks)
  }

  /** The call's tool was suggested, or a command for it, or the beginning of the very call. */
  ghost predicate Does(c: Call, p: Pending) {
    || c.tool in p.tools
    || (exists command :: command in p.commands && "agent-do " + c.tool <= command)
    || (exists command, start :: command in p.commands && Stripped(start, command) && start <= c.preview)
  }

  lemma StrippedIs(start: string, command: string)
    ensures Stripped(start, command) <==> start == TrimRight(command)
  {
    hide IsSpace;
    if Stripped(start, command) {
      var blanks :| command == start + blanks && AllBlank(blanks);
      TrimRightBlank(start, blanks);
    }
    var t := TrimRight(command);
    assert command == t + command[|t|..];
    assert AllBlank(command[|t|..]) by {
      assert forall i :: 0 <= i < |command[|t|..]| ==> command[|t|..][i] == command[|t| + i];
    }
  }

  lemma MatchesIff(p: Pending, c: Call)
    ensures Matches(p, c) <==> Does(c, p)
  {
    hide TrimRight, Stripped;
    forall command, start
      ensures Stripped(start, command) <==> start == TrimRight(command)
    {
      StrippedIs(start, command);
    }
    if command :| command in p.commands && Suggests(command, c) {
      var i :| 0 <= i < |p.commands| && p.commands[i] == command;
      assert Stripped(TrimRight(command), command);
    }
  }

  lemma ConditionsIff(p: Pending, c: Call)
    ensures InContext(p, c) <==> SameContext(p.context, c.context)
    ensures TooOld(p, c) <==> PastTtl(p, c)
  {
    assert p.context.session + p.context.gitRoot == "" <==> p.context.session == "" && p.context.gitRoot == "";
  }

  /**
   What an outcome says of the call that brings it about. All are calls in the nudge's context; the
   nudge has expired if it is too old, was followed if the call does what it suggests in time, and was
   ignored if neither holds and the call exhausts its limit.
   */
  ghost predicate Means(p: Pending, c: Call, kind: Kind) {
    && InContext(p, c)
    && (kind.Expired? <==> TooOld(p, c))
    && (kind.Followed? <==> !TooOld(p, c) && Does(c, p))
    && (kind.Ignored? ==> p.observed + 1 >= if p.maxActions == 0 then c.fallback else p.maxActions)
  }

  /** The nudge outlasts the call. */
  ghost predicate Outlasts(p: Pending, c: Call) {
    !InContext(p, c)
    || (!TooOld(p, c) && !Does(c, p) && p.observed + 1 < if p.maxActions == 0 then c.fallback else p.maxActions)
  }

  lemma FateMeans(p: Pending, c: Call)
    ensures Outlasts(p, c) <==> !FateOf(p, c).Resolved?
    ensures forall kind :: Means(p, c, kind) <==> FateOf(p, c) == Resolved(kind)
  {
    MatchesIff(p, c);
    ConditionsIff(p, c);
    hide Matches, PastTtl, SameContext, InContext, TooOld, Does;
  }

  function Touched(p: Pending, c: Call): Pending {
    if FateOf(p, c).Waits? then p.(observed := p.observed + 1) else p
  }

  type Table = map<string, Pending>

  /** The files left after a call. */
  function Remaining(t: Table, c: Call): Table {
    map id | id in t && !FateOf(t[id], c).Resolved? :: Touched(t[id], c)
  }

  /** The events of a call, in the order in which the files are listed. */
  function Events(t: Table, order: seq<string>, c: Call): seq<Event>
    requires forall id :: id in order ==> id in t
  {
    if order == [] then []
    else
      var id := order[|order| - 1];
      var fate := FateOf(t[id], c);
      Events(t, order[..|order| - 1], c) + if fate.Resolved? then [Event(id, fate.kind)] else []
  }

  /** A listing of the files: each once, in any order. */
  ghost predicate Listing(t: Table, order: seq<string>) {
    (forall id :: id in order <==> id in t) && forall i, j :: 0 <= i < j < |order| ==> order[i] != order[j]
  }

  /** The files after a nudge. */
  function Put(t: Table, id: string, n: Nudge, maxActions: int): Table {
    match NewPending(n, maxActions)
    case None => t
    case Some(p) => t[id := p]
  }

  class TelemetryDir {
    var pending: Table
    var events: seq<Event>

    constructor ()
      ensures pending == map[] && events == []
    {
      pending := map[];
      events := [];
    }

    /** `create_pending_nudge`. */
    method CreatePendingNudge(id: string, nudge: Nudge, maxActions: int)
      modifies this
      ensures events == old(events)
      ensures !NamesSomething(nudge) ==> pending == old(pending)
      ensures NamesSomething(nudge) ==>
                id in pending && Records(pending[id], nudge, maxActions) && pending == old(pending)[id := pending[id]]
      ensures pending == Put(old(pending), id, nudge, maxActions)
    {
      var written := NewPending(nudge, maxActions);
      if written.None? {
        return;
      }
      pending := pending[id := written.value];
    }

    /** `resolve_pending_for_tool_call`, where every deletion succeeds. */
    method ResolvePendingForToolCall(call: Call, order: seq<string>)
      requires Listing(pending, order)
      modifies this
      ensures pending == Remaining(old(pending), call)
      ensures events == old(events) + Events(old(pending), order, call)
      ensures forall id :: id in pending <==> id in old(pending) && Outlasts(old(pending)[id], call)
      ensures forall id :: id in pending ==>
        pending[id] == if InContext(old(pending)[id], call)
                       then old(pending)[id].(observed := old(pending)[id].observed + 1) else old(pending)[id]
      ensures var more := events[|old(events)|..];
        && old(events) <= events && OncePerId(more)
        && forall e :: e in more <==> e.id in old(pending) && Means(old(pending)[e.id], call, e.kind)
    {
      TableMeans(pending, order, call);
      hide Means, Outlasts, InContext, Events, Remaining, Listing, OncePerId;
      ResolveListed(call, order);
      assert events[|old(events)|..] == Events(old(pending), order, call);
    }

    /** The loop over the files. */
    method ResolveListed(call: Call, order: seq<string>)
      requires Listing(pending, order)
      modifies this
      ensures pending == Remaining(old(pending), call)
      ensures events == old(events) + Events(old(pending), order, call)
    {
      hide Matches, PastTtl, SameContext, Limit, Events, Settled, Remaining;
      ghost var before := pending;
      ghost var done: set<string> := {};
      NothingSettled(before, call);
      assert order[..0] == [];
      for i := 0 to |order|
        invariant done == set id | id in order[..i]
        invariant events == old(events) + Events(before, order[..i], call)
        invariant pending == Settled(before, done, call)
      {
        var id := order[i];
        assert order[..i + 1] == order[..i] + [id];
        assert id in before && id !in order[..i];
        EventsStep(before, order, i, call);
        SettledStep(before, done, id, call);
        done := done + {id};
        var nudge := pending[id];
        if !SameContext(nudge.context, call.context) {
          continue;
        }
        if PastTtl(nudge, call) {
          events := events + [Event(id, Expired)];
          pending := pending - {id};
          continue;
        }
        if Matches(nudge, call) {
          events := events + [Event(id, Followed)];
          pending := pending - {id};
          continue;
        }
        var limit := Limit(nudge, call);
        nudge := nudge.(observed := nudge.observed + 1);
        if nudge.observed >= limit {
          events := events + [Event(id, Ignored)];
          pending := pending - {id};
        } else {
          pending := pending[id := nudge];
        }
      }
      assert order[..|order|] == order;
      assert done == before.Keys;
      AllSettled(before, call);
    }
  }

  /** What becomes of the files, and what is logged of them. */
  lemma TableMeans(t: Table, order: seq<string>, c: Call)
    requires Listing(t, order)
    ensures forall id :: id in Remaining(t, c) <==> id in t && Outlasts(t[id], c)
    ensures forall id :: id in Remaining(t, c) ==>
      Remaining(t, c)[id] == if InContext(t[id], c) then t[id].(observed := t[id].observed + 1) else t[id]
    ensures OncePerId(Events(t, order, c))
    ensures forall e :: e in Events(t, order, c) <==> e.id in t && Means(t[e.id], c, e.kind)
  {
    hide Matches, PastTtl, Events, Means, Outlasts, SameContext, InContext;
    EventsShape(t, order, c);
    forall id | id in t
      ensures Outlasts(t[id], c) <==> !FateOf(t[id], c).Resolved?
      ensures forall kind :: Means(t[id], c, kind) <==> FateOf(t[id], c) == Resolved(kind)
    {
      FateMeans(t[id], c);
    }
    forall id | id in t
      ensures InContext(t[id], c) <==> SameContext(t[id].context, c.context)
    {
      ConditionsIff(t[id], c);
    }
  }

  /** The files when these have been looked at. */
  function Settled(t: Table, done: set<string>, c: Call): Table {
    map id | id in t && (id in done ==> !FateOf(t[id], c).Resolved?) :: if id in done then Touched(t[id], c) else t[id]
  }

  lemma NothingSettled(t: Table, c: Call)
    ensures Settled(t, {}, c) == t && Events(t, [], c) == []
  {}

  lemma AllSettled(t: Table, c: Call)
    ensures Settled(t, t.Keys, c) == Remaining(t, c)
  {}

  lemma SettledStep(t: Table, done: set<string>, id: string, c: Call)
    requires id in t && id !in done
    ensures var s, fate := Settled(t, done, c), FateOf(t[id], c);
      && id in s && s[id] == t[id]
      && Settled(t, done + {id}, c) == if fate.Resolved? then s - {id} else s[id := Touched(t[id], c)]
  {
    hide FateOf, Touched;
  }

  lemma EventsStep(t: Table, order: seq<string>, i: nat, c: Call)
    requires i < |order| && forall id :: id in order ==> id in t
    ensures var fate := FateOf(t[order[i]], c);
      Events(t, order[..i + 1], c) == Events(t, order[..i], c) + if fate.Resolved? then [Event(order[i], fate.kind)] else []
  {
    hide FateOf;
    assert order[..i + 1][..i] == order[..i];
  }

  // ---------------------------------------------------------------- runs

  datatype Step = Created(id: string, nudge: Nudge, maxActions: int) | Called(call: Call, order: seq<string>)

  function TableAfter(steps: seq<Step>): Table {
    if steps == [] then map[]
    else
      var t, s := TableAfter(steps[..|steps| - 1]), steps[|steps| - 1];
      match s
      case Called(call, _) => Remaining(t, call)
      case Created(id, nudge, maxActions) => Put(t, id, nudge, maxActions)
  }

  /** Every listing is one, and every correlation id is new. */
  ghost predicate Run(steps: seq<Step>) {
    steps == [] || (
      var init, s := steps[..|steps| - 1], steps[|steps| - 1];
      Run(init) && match s
        case Called(_, order) => Listing(TableAfter(init), order)
        case Created(id, _, _) => id !in Written(init) && id !in Discarded(init))
  }

  /** The ids for which a file was written. */
  function Written(steps: seq<Step>): set<string> {
    if steps == [] then {}
    else
      var s := steps[|steps| - 1];
      Written(steps[..|steps| - 1]) + if s.Created? && NewPending(s.nudge, s.maxActions).Some? then {s.id} else {}
  }

  /** The ids of nudges that suggest nothing, for which no file is written. */
  function Discarded(steps: seq<Step>): set<string> {
    if steps == [] then {}
    else
      var s := steps[|steps| - 1];
      Discarded(steps[..|steps| - 1]) + if s.Created? && NewPending(s.nudge, s.maxActions).None? then {s.id} else {}
  }

  function Log(steps: seq<Step>): seq<Event>
    requires Run(steps)
  {
    if steps == [] then []
    else
      var init, s := steps[..|steps| - 1], steps[|steps| - 1];
      Log(init) + if s.Called? then Events(TableAfter(init), s.order, s.call) else []
  }

  function Ids(log: seq<Event>): set<string> { set e | e in log :: e.id }

  function Count(log: seq<Event>, kind: Kind): nat {
    if log == [] then 0 else Count(log[..|log| - 1], kind) + if log[|log| - 1].kind == kind then 1 else 0
  }

  ghost predicate OncePerId(log: seq<Event>) { forall i, j :: 0 <= i < j < |log| ==> log[i].id != log[j].id }

  lemma {:induction false} EventsShape(t: Table, order: seq<string>, c: Call)
    requires (forall id :: id in order ==> id in t) && forall i, j :: 0 <= i < j < |order| ==> order[i] != order[j]
    ensures var log := Events(t, order, c);
      && OncePerId(log)
      && (forall e :: e in log ==> e.id in order && FateOf(t[e.id], c) == Resolved(e.kind))
      && (forall id :: id in order && FateOf(t[id], c).Resolved? ==> Event(id, FateOf(t[id], c).kind) in log)
  {
    hide FateOf;
    if order != [] {
      var init, id := order[..|order| - 1], order[|order| - 1];
      assert order == init + [id] && id !in init;
      EventsShape(t, init, c);
    }
  }

  lemma {:induction false} CountsAddUp(log: seq<Event>)
    ensures Count(log, Expired) + Count(log, Followed) + Count(log, Ignored) == |log|
  {
    if log != [] {
      CountsAddUp(log[..|log| - 1]);
    }
  }

  lemma {:induction false} IdsCounted(log: seq<Event>)
    requires OncePerId(log)
    ensures |Ids(log)| == |log|
  {
    if log != [] {
      var init, e := log[..|log| - 1], log[|log| - 1];
      assert log == init + [e];
      IdsCounted(init);
      assert Ids(log) == Ids(init) + {e.id};
      assert e.id !in Ids(init);
    }
  }

  lemma {:induction false} Ledger(steps: seq<Step>)
    requires Run(steps)
    ensures var log := Log(steps);
      && OncePerId(log) && Ids(log) !! TableAfter(steps).Keys
      && Ids(log) + TableAfter(steps).Keys == Written(steps)
    decreases |steps|
  {
    hide FateOf, NewPending, Touched;
    if steps != [] {
      var init, s := steps[..|steps| - 1], steps[|steps| - 1];
      Ledger(init);
      if s.Called? {
        var t, before := TableAfter(init), Log(init);
        var more := Events(t, s.order, s.call);
        EventsShape(t, s.order, s.call);
        assert Log(steps) == before + more;
        forall e | e in before
          ensures e.id !in t
        {
          assert e.id in Ids(before);
        }
        forall id | id in t && FateOf(t[id], s.call).Resolved?
          ensures id in Ids(more)
        {
          assert Event(id, FateOf(t[id], s.call).kind) in more;
        }
        assert Ids(before + more) == Ids(before) + Ids(more);
      }
    }
  }

  /** Every outcome on record is that of a call which found the nudge pending, and means what it says. */
  lemma {:induction false} OutcomesMean(steps: seq<Step>, e: Event) returns (k: nat)
    requires Run(steps) && e in Log(steps)
    ensures k < |steps| && steps[k].Called? && e.id in TableAfter(steps[..k])
    ensures Means(TableAfter(steps[..k])[e.id], steps[k].call, e.kind)
    decreases |steps|
  {
    hide FateOf, Means, Remaining, Put;
    var init, s := steps[..|steps| - 1], steps[|steps| - 1];
    if e in Log(init) {
      k := OutcomesMean(init, e);
      assert init[..k] == steps[..k];
    } else {
      k := |steps| - 1;
      TableMeans(TableAfter(init), s.order, s.call);
    }
  }

  /**
   After any run, the nudges created are those followed, ignored, expired and still pending, and no
   nudge has two outcomes.
   */
  lemma NudgesAreConserved(steps: seq<Step>)
    requires Run(steps)
    ensures var log := Log(steps);
      && OncePerId(log)
      && |Written(steps)| == Count(log, Followed) + Count(log, Ignored) + Count(log, Expired) + |TableAfter(steps)|
  {
    Ledger(steps);
    hide Written, TableAfter, Log;
    CountsAddUp(Log(steps));
    IdsCounted(Log(steps));
    assert |Ids(Log(steps)) + TableAfter(steps).Keys| == |Ids(Log(steps))| + |TableAfter(steps).Keys|;
  }

  // ---------------------------------------------------------------- the action limit

  /** The tool calls in the nudge's context since it was created. */
  function CallsSince(steps: seq<Step>, id: string, context: Context): nat {
    if steps == [] then 0
    else
      var s := steps[|steps| - 1];
      match s
      case Created(i, _, _) => if i == id then 0 else CallsSince(steps[..|steps| - 1], id, context)
      case Called(call, _) =>
        CallsSince(steps[..|steps| - 1], id, context) + if SameContext(context, call.context) then 1 else 0
  }

  /** No process of the run has a default limit above this. */
  predicate FallbackUpTo(steps: seq<Step>, bound: int) {
    forall i :: 0 <= i < |steps| && steps[i].Called? ==> steps[i].call.fallback <= bound
  }

  /** The calls a nudge can outlast, one less than its limit; a recorded zero leaves it to the processes. */
  function Bound(p: Pending, fallback: int): int { Max(1, if p.maxActions == 0 then fallback else p.maxActions) }

  lemma {:induction false} StillPending(steps: seq<Step>, id: string, fallback: int)
    requires Run(steps) && FallbackUpTo(steps, fallback) && id in TableAfter(steps)
    ensures var p := TableAfter(steps)[id];
      p.observed == CallsSince(steps, id, p.context) < Bound(p, fallback)
    decreases |steps|
  {
    hide Matches, PastTtl, SameContext, Collect, ListsOnce, NamesSomething, Discarded, Events, Listing;
    var init, s := steps[..|steps| - 1], steps[|steps| - 1];
    assert FallbackUpTo(init, fallback);
    if s.Called? {
      StillPending(init, id, fallback);
      assert s == steps[|steps| - 1];
    } else if id in TableAfter(init) {
      Ledger(init);
      StillPending(init, id, fallback);
    }
  }

  /**
   Every nudge is resolved by the call in its context that reaches its limit, the first one at the
   latest for a limit below two: what is still pending has seen fewer, and a call that it does not
   match and that finds it in time resolves it as ignored exactly when it is the one that reaches it.
   */
  lemma ResolvedByLimit(steps: seq<Step>, id: string, fallback: int, call: Call)
    requires Run(steps) && FallbackUpTo(steps, fallback) && id in TableAfter(steps)
    requires SameContext(TableAfter(steps)[id].context, call.context)
    ensures var p := TableAfter(steps)[id];
      var nth := CallsSince(steps, id, p.context) + 1;
      && nth <= Bound(p, fallback)
      && (nth >= Bound(p, call.fallback) ==> FateOf(p, call).Resolved?)
      && (!Matches(p, call) && !PastTtl(p, call) ==>
            if nth >= Bound(p, call.fallback) then FateOf(p, call) == Resolved(Ignored) else FateOf(p, call) == Waits)
  {
    hide Matches, PastTtl, SameContext, Run, TableAfter, CallsSince;
    StillPending(steps, id, fallback);
  }

  /** A limit of zero, recorded by one process, is not the limit another process applies. */
  lemma ZeroLimitIsOutlived()
    ensures var steps := [Created("n", Nudge(None, ["ssh"], "", [], "", Context("s", "", "")), 0)];
      var call := Call("ios", "agent-do ios", Context("s", "", ""), 0, 600, 5);
      && "n" in TableAfter(steps)
      && FateOf(TableAfter(steps)["n"], call) == Waits
  {
    var nudge := Nudge(None, ["ssh"], "", [], "", Context("s", "", ""));
    var steps := [Created("n", nudge, 0)];
    assert steps[..0] == [];
    assert nudge.tools[0] == "ssh" && NamesSomething(nudge);
    var p := TableAfter(steps)["n"];
    hide Collect;
    assert Records(p, nudge, 0);
    assert "ios" !in p.tools && p.commands == [] by {
      assert ["ssh"] + [""] == ["ssh", ""];
      EmptyIff(p.commands, [], "");
    }
  }
}
