/** Notify rules, their cooldown and the delivery record (lib/notify.py). */
module NotifyCooldown {
  import opened Text

  datatype Key = Key(rule: string, fingerprint: string)

  /** The delivery record: when each fingerprint of a rule was last sent with success. */
  type Deliveries = map<Key, real>

  /** What rendering a rule gives: its fingerprint, a template error, or another exception. */
  datatype Rendering = Fingerprint(text: string) | TemplateError | Broken

  /** What `send_notification` would do. */
  datatype Sending = Succeeds | Fails | Raises

  /** A rule as it meets one event. */
  datatype Rule = Rule(name: string, matches: bool, rendering: Rendering, cooldown: int, sending: Sending)

  /** What became of a matching rule. */
  datatype Outcome = BadTemplate | Cooling(elapsed: int, remaining: int) | Planned | Sent(success: bool)

  // ---------------------------------------------------------------- the cooldown

  /** Truncation towards zero. */
  function Truncate(x: real): int { if x >= 0.0 then x.Floor else -(-x).Floor }

  function Elapsed(last: real, now: real): int { Max(0, Truncate(now - last)) }

  /** `should_send_rule`: None allows, Some is the cooldown payload. */
  function Refusal(last: Option<real>, cooldown: int, now: real): Option<Outcome> {
    if cooldown <= 0 || last.None? then None
    else
      var remaining := Max(0, cooldown - Elapsed(last.value, now));
      if remaining <= 0 then None else Some(Cooling(Elapsed(last.value, now), remaining))
  }

  function LastSent(d: Deliveries, key: Key): Option<real> { if key in d then Some(d[key]) else None }

  /**
   Whole seconds and a clock going back make no difference: a rule is allowed exactly when the last
   success is at least the cooldown old; a refusal says how long is left.
   */
  lemma AllowedIffOldEnough(last: real, cooldown: int, now: real)
    requires cooldown > 0
    ensures Refusal(Some(last), cooldown, now).None? <==> now - last >= cooldown as real
    ensures Refusal(Some(last), cooldown, now).Some? ==>
              var r := Refusal(Some(last), cooldown, now).value;
              r.Cooling? && r.elapsed >= 0 && 0 < r.remaining == cooldown - r.elapsed
  {
    var x := now - last;
    if x >= 0.0 {
      assert x.Floor as real <= x < x.Floor as real + 1.0;
      assert x.Floor >= cooldown <==> x >= cooldown as real;
    } else {
      assert Truncate(x) <= 0;
    }
  }

  // ---------------------------------------------------------------- one event

  /** What the rule comes to under the delivery record; None is an exception. */
  function Verdict(d: Deliveries, r: Rule, now: real, dryRun: bool): Option<Outcome> {
    match r.rendering
    case TemplateError => Some(BadTemplate)
    case Broken => None
    case Fingerprint(text) =>
      var refusal := Refusal(LastSent(d, Key(r.name, text)), r.cooldown, now);
      if refusal.Some? then refusal
      else if r.sending.Raises? then None
      else if dryRun then Some(Planned)
      else Some(Sent(r.sending.Succeeds?))
  }

  predicate Stops(d: Deliveries, r: Rule, now: real, dryRun: bool) { r.matches && Verdict(d, r, now, dryRun).None? }

  predicate Delivers(d: Deliveries, r: Rule, now: real, dryRun: bool) {
    r.matches && Verdict(d, r, now, dryRun) == Some(Sent(true))
  }

  predicate DeliversAs(d: Deliveries, r: Rule, now: real, dryRun: bool, key: Key) {
    Delivers(d, r, now, dryRun) && Key(r.name, r.rendering.text) == key
  }

  /** A dictionary holds each name once. */
  ghost predicate DistinctNames(rules: seq<Rule>) { forall i, j :: 0 <= i < j < |rules| ==> rules[i].name != rules[j].name }

  /** The results of the rules that match, in order, each judged by the record before the event. */
  function Outcomes(d: Deliveries, rules: seq<Rule>, now: real, dryRun: bool): seq<Outcome>
    requires forall r :: r in rules ==> !Stops(d, r, now, dryRun)
  {
    if rules == [] then []
    else
      var init, r := rules[..|rules| - 1], rules[|rules| - 1];
      assert !Stops(d, r, now, dryRun);
      Outcomes(d, init, now, dryRun) + if r.matches then [Verdict(d, r, now, dryRun).value] else []
  }

  predicate Delivered(d: Deliveries, rules: seq<Rule>, now: real, dryRun: bool, key: Key) {
    exists i :: 0 <= i < |rules| && DeliversAs(d, rules[i], now, dryRun, key)
  }

  /** `after` differs from `before` by the time of each delivery. */
  ghost predicate Recorded(before: Deliveries, after: Deliveries, rules: seq<Rule>, now: real, dryRun: bool) {
    forall key :: LastSent(after, key) == if Delivered(before, rules, now, dryRun, key) then Some(now) else LastSent(before, key)
  }

  // What the outcomes mean.

  /** The rule may be sent: it has no cooldown, was never sent, or was sent long enough ago. */
  predicate Due(d: Deliveries, r: Rule, now: real)
    requires r.rendering.Fingerprint?
  {
    var key := Key(r.name, r.rendering.text);
    r.cooldown <= 0 || key !in d || now - d[key] >= r.cooldown as real
  }

  /** A matching rule ends the event: rendering breaks, or sending does where it is due. */
  predicate Breaks(d: Deliveries, r: Rule, now: real) {
    r.matches && (r.rendering.Broken? || (r.rendering.Fingerprint? && Due(d, r, now) && r.sending.Raises?))
  }

  /** A due rule is sent, or only planned in a dry run; any other waits for the rest of its cooldown. */
  predicate Judged(d: Deliveries, r: Rule, now: real, dryRun: bool, o: Outcome) {
    if r.rendering.TemplateError? then o == BadTemplate
    else if r.rendering.Broken? then false
    else if !Due(d, r, now) then o.Cooling? && 0 <= o.elapsed && 0 < o.remaining && o.elapsed + o.remaining == r.cooldown
    else o == if dryRun then Planned else Sent(r.sending == Succeeds)
  }

  /** A success is due, meant seriously, and succeeds. */
  predicate Succeeded(d: Deliveries, r: Rule, now: real, dryRun: bool, key: Key) {
    r.matches && r.rendering.Fingerprint? && Key(r.name, r.rendering.text) == key && Due(d, r, now) && !dryRun && r.sending == Succeeds
  }

  function Matching(rules: seq<Rule>): seq<Rule> {
    if rules == [] then []
    else Matching(rules[..|rules| - 1]) + if rules[|rules| - 1].matches then [rules[|rules| - 1]] else []
  }

  lemma RefusalIs(last: Option<real>, cooldown: int, now: real)
    ensures Refusal(last, cooldown, now).None? <==> cooldown <= 0 || last.None? || now - last.value >= cooldown as real
    ensures Refusal(last, cooldown, now).Some? ==>
      var r := Refusal(last, cooldown, now).value; r.Cooling? && 0 <= r.elapsed && 0 < r.remaining && r.elapsed + r.remaining == cooldown
  {
    if cooldown > 0 && last.Some? {
      AllowedIffOldEnough(last.value, cooldown, now);
    }
  }

  lemma VerdictIs(d: Deliveries, r: Rule, now: real, dryRun: bool)
    ensures Stops(d, r, now, dryRun) <==> Breaks(d, r, now)
    ensures r.matches && !Breaks(d, r, now) ==> Judged(d, r, now, dryRun, Verdict(d, r, now, dryRun).value)
    ensures forall key :: DeliversAs(d, r, now, dryRun, key) <==> Succeeded(d, r, now, dryRun, key)
  {
    hide Refusal;
    if r.rendering.Fingerprint? {
      RefusalIs(LastSent(d, Key(r.name, r.rendering.text)), r.cooldown, now);
    }
  }

  lemma {:induction false} OutcomesAre(d: Deliveries, rules: seq<Rule>, now: real, dryRun: bool)
    requires forall r :: r in rules ==> !Stops(d, r, now, dryRun)
    ensures var outcomes, matching := Outcomes(d, rules, now, dryRun), Matching(rules);
      |outcomes| == |matching| && forall k :: 0 <= k < |matching| ==> Judged(d, matching[k], now, dryRun, outcomes[k])
  {
    hide Verdict, Judged, Breaks;
    if rules != [] {
      var r := rules[|rules| - 1];
      assert !Stops(d, r, now, dryRun);
      OutcomesAre(d, rules[..|rules| - 1], now, dryRun);
      VerdictIs(d, r, now, dryRun);
    }
  }

  lemma DeliveredIs(d: Deliveries, rules: seq<Rule>, now: real, dryRun: bool, key: Key)
    ensures Delivered(d, rules, now, dryRun, key) <==> exists r :: r in rules && Succeeded(d, r, now, dryRun, key)
  {
    hide DeliversAs, Succeeded;
    forall r
      ensures DeliversAs(d, r, now, dryRun, key) <==> Succeeded(d, r, now, dryRun, key)
    {
      VerdictIs(d, r, now, dryRun);
    }
    if r :| r in rules && Succeeded(d, r, now, dryRun, key) {
      var i :| 0 <= i < |rules| && rules[i] == r;
      assert DeliversAs(d, rules[i], now, dryRun, key);
    }
  }

  /** What an event that returns answers and leaves on record. */
  ghost predicate Answers(before: Deliveries, after: Deliveries, rules: seq<Rule>, now: real, dryRun: bool, outcomes: seq<Outcome>) {
    && |outcomes| == |Matching(rules)|
    && (forall k :: 0 <= k < |outcomes| ==> Judged(before, Matching(rules)[k], now, dryRun, outcomes[k]))
    && (forall key :: LastSent(after, key) ==
          if exists r :: r in rules && Succeeded(before, r, now, dryRun, key) then Some(now) else LastSent(before, key))
  }

  lemma AnswersHold(before: Deliveries, after: Deliveries, rules: seq<Rule>, now: real, dryRun: bool)
    ensures (exists r :: r in rules && Stops(before, r, now, dryRun)) <==> exists r :: r in rules && Breaks(before, r, now)
    ensures (forall r :: r in rules ==> !Stops(before, r, now, dryRun)) && Recorded(before, after, rules, now, dryRun) ==>
      Answers(before, after, rules, now, dryRun, Outcomes(before, rules, now, dryRun))
  {
    hide Stops, Breaks, Succeeded, Judged, Outcomes, Delivered;
    forall r
      ensures Stops(before, r, now, dryRun) <==> Breaks(before, r, now)
    {
      VerdictIs(before, r, now, dryRun);
    }
    if forall r :: r in rules ==> !Stops(before, r, now, dryRun) {
      OutcomesAre(before, rules, now, dryRun);
      forall key
        ensures Delivered(before, rules, now, dryRun, key) <==> exists r :: r in rules && Succeeded(before, r, now, dryRun, key)
      {
        DeliveredIs(before, rules, now, dryRun, key);
      }
    }
  }

  /** A dry run and a failed sending leave the record alone. */
  lemma DryOrFailedRecordsNothing(before: Deliveries, after: Deliveries, rules: seq<Rule>, now: real, dryRun: bool, outcomes: seq<Outcome>)
    requires Answers(before, after, rules, now, dryRun, outcomes)
    requires dryRun || forall r :: r in rules && r.matches ==> r.sending != Succeeds
    ensures after == before
  {
    hide Due, Judged, Matching;
    forall key
      ensures LastSent(after, key) == LastSent(before, key)
    {
      assert forall r :: r in rules ==> !Succeeded(before, r, now, dryRun, key);
    }
    SameRecord(before, after);
  }

  lemma SameRecord(before: Deliveries, after: Deliveries)
    requires forall key :: LastSent(after, key) == LastSent(before, key)
    ensures after == before
  {
    forall key
      ensures key in after <==> key in before
      ensures key in after ==> after[key] == before[key]
    {
      assert LastSent(after, key) == LastSent(before, key);
    }
  }

  function Acceptable(o: Outcome): bool { o.BadTemplate? || o.Cooling? || o.Planned? || (o.Sent? && o.success) }

  predicate AllAcceptable(results: seq<Outcome>) { forall i :: 0 <= i < |results| ==> Acceptable(results[i]) }

  /** Every matching rule that is due is sent with success, unless nothing is to be sent at all. */
  ghost predicate AllSent(d: Deliveries, rules: seq<Rule>, now: real, dryRun: bool) {
    dryRun || forall r :: r in rules && r.matches && r.rendering.Fingerprint? && Due(d, r, now) ==> r.sending == Succeeds
  }

  lemma {:induction false} MatchingMembers(rules: seq<Rule>, r: Rule)
    ensures r in Matching(rules) <==> r in rules && r.matches
  {
    if rules != [] {
      var n := |rules| - 1;
      MatchingMembers(rules[..n], r);
      assert rules == rules[..n] + [rules[n]];
    }
  }

  /** The event succeeds exactly when all due rules do. */
  lemma AcceptableIffSent(before: Deliveries, after: Deliveries, rules: seq<Rule>, now: real, dryRun: bool, outcomes: seq<Outcome>)
    requires Answers(before, after, rules, now, dryRun, outcomes)
    ensures AllAcceptable(outcomes) <==> AllSent(before, rules, now, dryRun)
  {
    hide Due;
    var matching := Matching(rules);
    forall r
      ensures r in matching <==> r in rules && r.matches
    {
      MatchingMembers(rules, r);
    }
    hide Matching;
    forall k | 0 <= k < |outcomes|
      ensures Acceptable(outcomes[k]) <==>
        (matching[k].rendering.Fingerprint? && Due(before, matching[k], now) && !dryRun ==> matching[k].sending == Succeeds)
    {
      assert Judged(before, matching[k], now, dryRun, outcomes[k]);
    }
    if !AllSent(before, rules, now, dryRun) {
      var r :| r in rules && r.matches && r.rendering.Fingerprint? && Due(before, r, now) && r.sending != Succeeds;
      var k :| 0 <= k < |matching| && matching[k] == r;
      assert !Acceptable(outcomes[k]);
    }
    if AllSent(before, rules, now, dryRun) {
      forall k | 0 <= k < |outcomes|
        ensures Acceptable(outcomes[k])
      {
        assert matching[k] in matching;
      }
    }
  }

  class Notifier {
    var deliveries: Deliveries

    /** `emit_event`; None is an exception from a rule, before which nothing is saved. */
    method EmitEvent(rules: seq<Rule>, now: real, dryRun: bool) returns (results: Option<seq<Outcome>>, success: bool)
      requires DistinctNames(rules)
      modifies this
      ensures Step(old(deliveries), Emission(rules, now, dryRun), deliveries)
      ensures results.None? <==> exists r :: r in rules && Stops(old(deliveries), r, now, dryRun)
      ensures results.None? ==> deliveries == old(deliveries)
      ensures results.Some? ==> results.value == Outcomes(old(deliveries), rules, now, dryRun)
      ensures results.Some? ==> Recorded(old(deliveries), deliveries, rules, now, dryRun)
      ensures results.None? <==> exists r :: r in rules && Breaks(old(deliveries), r, now)
      ensures results.Some? ==> Answers(old(deliveries), deliveries, rules, now, dryRun, results.value)
      ensures results.Some? ==> (success <==> AllAcceptable(results.value))
      ensures results.Some? ==> (success <==> AllSent(old(deliveries), rules, now, dryRun))
    {
      hide Answers, Breaks, AllSent, AllAcceptable;
      var triggered: seq<Outcome> := [];
      var state := deliveries;
      var dirty := false;
      success := false;
      for i := 0 to |rules|
        invariant deliveries == old(deliveries)
        invariant forall r :: r in rules[..i] ==> !Stops(deliveries, r, now, dryRun)
        invariant triggered == Outcomes(deliveries, rules[..i], now, dryRun)
        invariant Recorded(deliveries, state, rules[..i], now, dryRun)
        invariant !dirty ==> state == deliveries
      {
        var rule := rules[i];
        Untouched(deliveries, state, rules, i, now, dryRun);
        OneMore(deliveries, rules, i, now, dryRun);
        if !rule.matches {
          continue;
        }
        if rule.rendering.Broken? {
          results := None;
          assert rule in rules;
          AnswersHold(deliveries, deliveries, rules, now, dryRun);
          return;
        }
        if rule.rendering.TemplateError? {
          triggered := triggered + [BadTemplate];
          continue;
        }
        var key := Key(rule.name, rule.rendering.text);
        var refusal := Refusal(LastSent(state, key), rule.cooldown, now);
        if refusal.Some? {
          triggered := triggered + [refusal.value];
          continue;
        }
        if rule.sending.Raises? {
          results := None;
          assert rule in rules;
          AnswersHold(deliveries, deliveries, rules, now, dryRun);
          return;
        }
        if dryRun {
          triggered := triggered + [Planned];
          continue;
        }
        triggered := triggered + [Sent(rule.sending.Succeeds?)];
        if rule.sending.Succeeds? {
          state := state[key := now];
          dirty := true;
        }
      }
      assert rules[..|rules|] == rules;
      AnswersHold(deliveries, state, rules, now, dryRun);
      if dirty {
        deliveries := state;
      }
      success := AllAcceptable(triggered);
      AcceptableIffSent(old(deliveries), state, rules, now, dryRun, triggered);
      results := Some(triggered);
    }
  }

  /** The rules before the i-th leave its own entry of the record alone. */
  lemma Untouched(d: Deliveries, state: Deliveries, rules: seq<Rule>, i: nat, now: real, dryRun: bool)
    requires i < |rules| && DistinctNames(rules) && Recorded(d, state, rules[..i], now, dryRun)
    ensures rules[i].rendering.Fingerprint? ==>
              var key := Key(rules[i].name, rules[i].rendering.text); LastSent(state, key) == LastSent(d, key)
  {
    hide Delivers, LastSent;
  }

  lemma OneMore(d: Deliveries, rules: seq<Rule>, i: nat, now: real, dryRun: bool)
    requires i < |rules|
    ensures rules[..i + 1] == rules[..i] + [rules[i]]
    ensures forall key :: Delivered(d, rules[..i + 1], now, dryRun, key) <==>
              Delivered(d, rules[..i], now, dryRun, key)
              || DeliversAs(d, rules[i], now, dryRun, key)
  {
    hide DeliversAs;
    var next := rules[..i + 1];
    assert next == rules[..i] + [rules[i]] && next[i] == rules[i];
    forall key | Delivered(d, rules[..i], now, dryRun, key)
      ensures Delivered(d, next, now, dryRun, key)
    {
      var j :| 0 <= j < i && DeliversAs(d, rules[..i][j], now, dryRun, key);
      assert next[j] == rules[..i][j];
    }
  }

  // ---------------------------------------------------------------- runs

  datatype Emission = Emission(rules: seq<Rule>, now: real, dryRun: bool)

  predicate Raised(d: Deliveries, e: Emission) { exists r :: r in e.rules && Stops(d, r, e.now, e.dryRun) }

  /** What one call does to the saved record, as `EmitEvent` promises. */
  ghost predicate Step(before: Deliveries, e: Emission, after: Deliveries) {
    if Raised(before, e) then after == before else Recorded(before, after, e.rules, e.now, e.dryRun)
  }

  /** `records[i]` is the saved record before the i-th call; no assumption is made on the clock. */
  ghost predicate Run(records: seq<Deliveries>, calls: seq<Emission>) {
    |records| == |calls| + 1 && forall i :: 0 <= i < |calls| ==> Step(records[i], calls[i], records[i + 1])
  }

  /** The call really delivered a success for the key: a rule did, before any rule raised. */
  predicate SentIn(d: Deliveries, e: Emission, key: Key) {
    exists i :: 0 <= i < |e.rules| && DeliversAs(d, e.rules[i], e.now, e.dryRun, key)
      && forall j :: 0 <= j < i ==> !Stops(d, e.rules[j], e.now, e.dryRun)
  }

  /** The times of all successes of the key that were delivered, in order. */
  function Sends(records: seq<Deliveries>, calls: seq<Emission>, key: Key): seq<real>
    requires |records| == |calls| + 1
    decreases |calls|
  {
    if calls == [] then []
    else
      var n := |calls| - 1;
      Sends(records[..n + 1], calls[..n], key) + if SentIn(records[n], calls[n], key) then [calls[n].now] else []
  }

  /** No success of the key is delivered by a call that then raises. */
  predicate Kept(records: seq<Deliveries>, calls: seq<Emission>, key: Key)
    requires |records| == |calls| + 1
  {
    forall i :: 0 <= i < |calls| ==> !(Raised(records[i], calls[i]) && SentIn(records[i], calls[i], key))
  }

  predicate Cools(r: Rule, key: Key, cooldown: int) {
    r.rendering.Fingerprint? && Key(r.name, r.rendering.text) == key ==> r.cooldown >= cooldown
  }

  /** Whenever a rule renders to the key, its cooldown is at least this. */
  predicate CooledBy(calls: seq<Emission>, key: Key, cooldown: int) {
    forall i :: 0 <= i < |calls| ==> forall r :: r in calls[i].rules ==> Cools(r, key, cooldown)
  }

  lemma SentIsDelivered(d: Deliveries, e: Emission, key: Key)
    requires !Raised(d, e)
    ensures SentIn(d, e, key) <==> Delivered(d, e.rules, e.now, e.dryRun, key)
  {
    hide Stops, DeliversAs;
    if Delivered(d, e.rules, e.now, e.dryRun, key) {
      var i :| 0 <= i < |e.rules| && DeliversAs(d, e.rules[i], e.now, e.dryRun, key);
      assert forall j :: 0 <= j < i ==> !Stops(d, e.rules[j], e.now, e.dryRun);
    }
  }

  /** The last success the run delivered for the key, or else the record it began with. */
  function LastOf(sends: seq<real>, start: Option<real>): Option<real> {
    if sends == [] then start else Some(sends[|sends| - 1])
  }

  lemma {:induction false} RecordIsLastSend(records: seq<Deliveries>, calls: seq<Emission>, key: Key)
    requires Run(records, calls) && Kept(records, calls, key)
    ensures LastSent(records[|calls|], key) == LastOf(Sends(records, calls, key), LastSent(records[0], key))
    decreases |calls|
  {
    hide SentIn, Raised, LastSent;
    if calls != [] {
      var n := |calls| - 1;
      Shorter(records, calls, key);
      RecordIsLastSend(records[..n + 1], calls[..n], key);
      StepRecords(records[n], calls[n], records[n + 1], key);
    }
  }

  lemma Shorter(records: seq<Deliveries>, calls: seq<Emission>, key: Key)
    requires calls != [] && Run(records, calls)
    ensures var n := |calls| - 1; Run(records[..n + 1], calls[..n])
    ensures Kept(records, calls, key) ==> var n := |calls| - 1; Kept(records[..n + 1], calls[..n], key)
  {
    hide SentIn, Raised, Step;
    var n := |calls| - 1;
    forall i | 0 <= i < n
      ensures Step(records[..n + 1][i], calls[..n][i], records[..n + 1][i + 1])
    {
      assert Step(records[i], calls[i], records[i + 1]);
    }
  }

  lemma StepRecords(before: Deliveries, e: Emission, after: Deliveries, key: Key)
    requires Step(before, e, after) && !(Raised(before, e) && SentIn(before, e, key))
    ensures LastSent(after, key) == if SentIn(before, e, key) then Some(e.now) else LastSent(before, key)
  {
    hide SentIn, Raised, LastSent, Delivered;
    if !Raised(before, e) {
      SentIsDelivered(before, e, key);
    }
  }

  /**
   A delivered success is on record after its call exactly when the call returned, or the same
   time was on record already.
   */
  lemma SuccessRecordedIff(before: Deliveries, e: Emission, after: Deliveries, key: Key)
    requires Step(before, e, after) && SentIn(before, e, key)
    ensures LastSent(after, key) == Some(e.now) <==> !Raised(before, e) || LastSent(before, key) == Some(e.now)
  {
    hide SentIn, Raised, LastSent, Delivered;
    if !Raised(before, e) {
      SentIsDelivered(before, e, key);
    }
  }

  lemma SentMeansOldEnough(d: Deliveries, e: Emission, key: Key, cooldown: int)
    requires cooldown > 0 && SentIn(d, e, key) && forall r :: r in e.rules ==> Cools(r, key, cooldown)
    ensures key in d ==> e.now - d[key] >= cooldown as real
  {
    var i :| 0 <= i < |e.rules| && DeliversAs(d, e.rules[i], e.now, e.dryRun, key);
    var r := e.rules[i];
    assert Cools(r, key, cooldown);
    if key in d {
      AllowedIffOldEnough(d[key], r.cooldown, e.now);
    }
  }

  /** Consecutive times, the starting record included, are at least the cooldown apart. */
  predicate Spaced(sends: seq<real>, start: Option<real>, cooldown: int) {
    && (sends != [] && start.Some? ==> sends[0] - start.value >= cooldown as real)
    && forall k :: 0 <= k < |sends| - 1 ==> sends[k + 1] - sends[k] >= cooldown as real
  }

  /** The `i`-th call sends the key and raises, and the next call to send it comes too early. */
  ghost predicate RepeatedEarly(records: seq<Deliveries>, calls: seq<Emission>, key: Key, cooldown: int, i: nat, j: nat)
    requires |records| == |calls| + 1 && i < j < |calls|
  {
    && SentIn(records[i], calls[i], key) && Raised(records[i], calls[i])
    && SentIn(records[j], calls[j], key) && (forall k :: i < k < j ==> !SentIn(records[k], calls[k], key))
    && calls[j].now - calls[i].now < cooldown as real
  }

  ghost predicate NeverEarly(records: seq<Deliveries>, calls: seq<Emission>, key: Key, cooldown: int)
    requires |records| == |calls| + 1
  {
    forall i, j :: 0 <= i < j < |calls| ==> !RepeatedEarly(records, calls, key, cooldown, i, j)
  }

  /** The last call is no early repeat. */
  ghost predicate EndsOnTime(records: seq<Deliveries>, calls: seq<Emission>, key: Key, cooldown: int)
    requires |records| == |calls| + 1 && calls != []
  {
    var n := |calls| - 1;
    forall i :: 0 <= i < n ==> !RepeatedEarly(records, calls, key, cooldown, i, n)
  }

  /** The last call that sent the key, and what the record then says. */
  lemma {:induction false} LastSender(records: seq<Deliveries>, calls: seq<Emission>, key: Key) returns (last: Option<nat>)
    requires Run(records, calls)
    ensures var n, sends := |calls|, Sends(records, calls, key);
      match last
      case None =>
        && sends == [] && LastSent(records[n], key) == LastSent(records[0], key)
        && (forall k :: 0 <= k < n ==> !SentIn(records[k], calls[k], key))
      case Some(i) =>
        && i < n && SentIn(records[i], calls[i], key) && sends != [] && sends[|sends| - 1] == calls[i].now
        && (forall k :: i < k < n ==> !SentIn(records[k], calls[k], key))
        && (Raised(records[i], calls[i]) || LastSent(records[n], key) == Some(calls[i].now))
    decreases |calls|
  {
    hide SentIn, Raised, LastSent;
    last := None;
    if calls != [] {
      var n := |calls| - 1;
      Shorter(records, calls, key);
      assert Step(records[n], calls[n], records[n + 1]);
      hide Step;
      if SentIn(records[n], calls[n], key) {
        last := Some(n);
        if !Raised(records[n], calls[n]) {
          StepRecords(records[n], calls[n], records[n + 1], key);
        }
      } else {
        last := LastSender(records[..n + 1], calls[..n], key);
        StepRecords(records[n], calls[n], records[n + 1], key);
      }
    }
  }

  /** The send of the last call keeps its distance from the one before, unless that is the early repeat. */
  lemma LastGap(records: seq<Deliveries>, calls: seq<Emission>, key: Key, cooldown: int)
    requires cooldown > 0 && calls != [] && Run(records, calls) && CooledBy(calls, key, cooldown)
    requires var n := |calls| - 1; SentIn(records[n], calls[n], key)
    ensures var n := |calls| - 1;
      var before := LastOf(Sends(records[..n + 1], calls[..n], key), LastSent(records[0], key));
      (before.Some? ==> calls[n].now - before.value >= cooldown as real) <==> EndsOnTime(records, calls, key, cooldown)
  {
    hide SentIn, Raised, Step;
    var n := |calls| - 1;
    Shorter(records, calls, key);
    var rs, cs := records[..n + 1], calls[..n];
    var last := LastSender(rs, cs, key);
    SentMeansOldEnough(records[n], calls[n], key, cooldown);
    assert rs[n] == records[n] && rs[0] == records[0];
    assert forall k :: 0 <= k < n ==> rs[k] == records[k] && cs[k] == calls[k];
    hide Run, CooledBy, Sends;
    forall i | 0 <= i < n && last != Some(i)
      ensures !RepeatedEarly(records, calls, key, cooldown, i, n)
    {
      if last.Some? && i < last.value {
        assert SentIn(records[last.value], calls[last.value], key);
      } else {
        assert !SentIn(rs[i], cs[i], key);
      }
    }
    if last.Some? {
      var l := last.value;
      forall k | l < k < n
        ensures !SentIn(records[k], calls[k], key)
      {
        assert !SentIn(rs[k], cs[k], key);
      }
      assert RepeatedEarly(records, calls, key, cooldown, l, n) <==>
        Raised(records[l], calls[l]) && calls[n].now - calls[l].now < cooldown as real;
    }
  }

  lemma NeverEarlyShorter(records: seq<Deliveries>, calls: seq<Emission>, key: Key, cooldown: int)
    requires |records| == |calls| + 1 && calls != []
    ensures var n := |calls| - 1;
      NeverEarly(records, calls, key, cooldown) <==>
        NeverEarly(records[..n + 1], calls[..n], key, cooldown) && EndsOnTime(records, calls, key, cooldown)
  {
    hide SentIn, Raised;
    var n := |calls| - 1;
    var rs, cs := records[..n + 1], calls[..n];
    forall i, j | 0 <= i < j < n
      ensures RepeatedEarly(records, calls, key, cooldown, i, j) <==> RepeatedEarly(rs, cs, key, cooldown, i, j)
    {
      assert forall k :: i < k < j ==> rs[k] == records[k] && cs[k] == calls[k];
    }
    hide RepeatedEarly;
    if NeverEarly(rs, cs, key, cooldown) && EndsOnTime(records, calls, key, cooldown) {
      forall i, j | 0 <= i < j < |calls|
        ensures !RepeatedEarly(records, calls, key, cooldown, i, j)
      {
        assert j < n ==> !RepeatedEarly(rs, cs, key, cooldown, i, j);
      }
    }
    if NeverEarly(records, calls, key, cooldown) {
      forall i, j | 0 <= i < j < |cs|
        ensures !RepeatedEarly(rs, cs, key, cooldown, i, j)
      {
        assert !RepeatedEarly(records, calls, key, cooldown, i, j);
      }
    }
  }

  lemma SpacedExtend(sends: seq<real>, now: real, start: Option<real>, cooldown: int)
    ensures Spaced(sends + [now], start, cooldown) <==>
      Spaced(sends, start, cooldown)
      && (LastOf(sends, start).Some? ==> now - LastOf(sends, start).value >= cooldown as real)
  {
    var all := sends + [now];
    assert forall k :: 0 <= k < |sends| ==> all[k] == sends[k];
    if Spaced(all, start, cooldown) {
      assert forall k :: 0 <= k < |sends| - 1 ==> all[k + 1] - all[k] == sends[k + 1] - sends[k];
      if sends != [] {
        assert all[|sends| - 1 + 1] - all[|sends| - 1] == now - sends[|sends| - 1];
      }
    }
  }

  /**
   Under any clock, the successes of a fingerprint are spaced by its cooldown if and only if no call
   that raises after delivering one is followed by a repeat before the cooldown is over.
   */
  lemma {:induction false} SpacedIff(records: seq<Deliveries>, calls: seq<Emission>, key: Key, cooldown: int)
    requires cooldown > 0 && Run(records, calls) && CooledBy(calls, key, cooldown)
    ensures Spaced(Sends(records, calls, key), LastSent(records[0], key), cooldown)
       <==> NeverEarly(records, calls, key, cooldown)
    decreases |calls|
  {
    hide SentIn, Raised, Step, RepeatedEarly;
    if calls != [] {
      var n := |calls| - 1;
      Shorter(records, calls, key);
      assert CooledBy(calls[..n], key, cooldown);
      SpacedIff(records[..n + 1], calls[..n], key, cooldown);
      NeverEarlyShorter(records, calls, key, cooldown);
      if SentIn(records[n], calls[n], key) {
        LastGap(records, calls, key, cooldown);
        SpacedExtend(Sends(records[..n + 1], calls[..n], key), calls[n].now, LastSent(records[0], key), cooldown);
      } else {
        NotSentNotEarly(records, calls, key, cooldown);
        assert Sends(records, calls, key) == Sends(records[..n + 1], calls[..n], key);
      }
    }
  }

  lemma NotSentNotEarly(records: seq<Deliveries>, calls: seq<Emission>, key: Key, cooldown: int)
    requires |records| == |calls| + 1 && calls != [] && !SentIn(records[|calls| - 1], calls[|calls| - 1], key)
    ensures EndsOnTime(records, calls, key, cooldown)
  {
    hide SentIn, Raised;
  }

  /** So they are spaced if no call raises after delivering one. */
  lemma SuccessesSpaced(records: seq<Deliveries>, calls: seq<Emission>, key: Key, cooldown: int)
    requires cooldown > 0 && Run(records, calls) && Kept(records, calls, key) && CooledBy(calls, key, cooldown)
    ensures Spaced(Sends(records, calls, key), LastSent(records[0], key), cooldown)
  {
    hide SentIn, Raised, Step;
    SpacedIff(records, calls, key, cooldown);
  }

  /** Every run of permitted calls spaces the successes of the fingerprint. */
  ghost predicate AlwaysSpaced(permitted: Emission -> bool, key: Key, cooldown: int) {
    forall records, calls :: Run(records, calls) && (forall e :: e in calls ==> permitted(e))
      ==> Spaced(Sends(records, calls, key), LastSent(records[0], key), cooldown)
  }

  /** The same call again at once. */
  lemma RaisingTwice(d: Deliveries, e: Emission, key: Key, cooldown: int)
    requires cooldown > 0 && SentIn(d, e, key) && Raised(d, e)
    ensures Run([d, d, d], [e, e]) && !Spaced(Sends([d, d, d], [e, e], key), LastSent(d, key), cooldown)
  {
    hide SentIn, Raised, LastSent;
    assert [d, d, d][..2] == [d, d] && [e, e][..1] == [e] && [d, d][..1] == [d] && [e][..0] == [];
    assert Sends([d], [], key) == [];
    assert Sends([d, d], [e], key) == [e.now];
    var sends := Sends([d, d, d], [e, e], key);
    assert sends == [e.now, e.now] && sends[0 + 1] - sends[0] == 0.0;
  }

  /**
   Spacing is certain exactly when no permitted call can deliver the fingerprint and raise, whatever
   record it finds.
   */
  lemma AlwaysSpacedIff(permitted: Emission -> bool, key: Key, cooldown: int)
    requires cooldown > 0 && forall e, r :: permitted(e) && r in e.rules ==> Cools(r, key, cooldown)
    ensures AlwaysSpaced(permitted, key, cooldown) <==>
      forall d, e :: permitted(e) && SentIn(d, e, key) ==> !Raised(d, e)
  {
    hide SentIn, Raised, Step;
    if forall d, e :: permitted(e) && SentIn(d, e, key) ==> !Raised(d, e) {
      forall records, calls | Run(records, calls) && (forall e :: e in calls ==> permitted(e))
        ensures Spaced(Sends(records, calls, key), LastSent(records[0], key), cooldown)
      {
        assert CooledBy(calls, key, cooldown) by {
          assert forall i :: 0 <= i < |calls| ==> permitted(calls[i]);
        }
        SuccessesSpaced(records, calls, key, cooldown);
      }
    } else {
      var d, e :| permitted(e) && SentIn(d, e, key) && Raised(d, e);
      RaisingTwice(d, e, key, cooldown);
      assert [d, d, d][0] == d;
    }
  }

  /** So a fingerprint is sent at most once more than the cooldown fits into the time elapsed. */
  lemma {:induction false} RateLimit(sends: seq<real>, start: Option<real>, cooldown: int, i: nat, j: nat)
    requires cooldown > 0 && Spaced(sends, start, cooldown) && i <= j < |sends|
    ensures sends[j] - sends[i] >= (j - i) as real * cooldown as real
    decreases j
  {
    if i < j {
      RateLimit(sends, start, cooldown, i, j - 1);
      assert (j - i) as real == (j - 1 - i) as real + 1.0;
      Distribute((j - 1 - i) as real, cooldown as real);
    }
  }

  lemma Distribute(a: real, b: real)
    ensures (a + 1.0) * b == a * b + b
  {}

  /**
   A rule that matches and renders is delivered by a call that returns exactly when its sending
   succeeds and its history allows it: nothing was sent, or the last success is old enough.
   */
  lemma DeliveredIffHistoryAllows(records: seq<Deliveries>, calls: seq<Emission>, r: Rule, now: real)
    requires Run(records, calls) && r.matches && r.rendering.Fingerprint? && r.cooldown > 0 && r.sending.Succeeds?
    requires Kept(records, calls, Key(r.name, r.rendering.text))
    ensures var key := Key(r.name, r.rendering.text);
      var last := LastOf(Sends(records, calls, key), LastSent(records[0], key));
      DeliversAs(records[|calls|], r, now, false, key) <==> (last.None? || now - last.value >= r.cooldown as real)
  {
    assert |records| == |calls| + 1;
    hide Run, Kept, Sends, LastSent;
    var key := Key(r.name, r.rendering.text);
    RecordIsLastSend(records, calls, key);
    var last := LastSent(records[|calls|], key);
    if last.Some? {
      AllowedIffOldEnough(last.value, r.cooldown, now);
    }
  }

  /** When a later rule raises, the success before it is not saved, and the next call repeats it. */
  lemma RaisingCallRepeats()
    ensures var key := Key("disk", "full");
      var e := Emission([Rule("disk", true, Fingerprint("full"), 60, Succeeds), Rule("other", true, Broken, 0, Fails)], 0.0, false);
      && Run([map[], map[], map[]], [e, e])
      && Sends([map[], map[], map[]], [e, e], key) == [0.0, 0.0]
  {
    var key := Key("disk", "full");
    var d: Deliveries := map[];
    var first, second := Rule("disk", true, Fingerprint("full"), 60, Succeeds), Rule("other", true, Broken, 0, Fails);
    var e := Emission([first, second], 0.0, false);
    assert second in e.rules && Stops(d, second, 0.0, false);
    assert Raised(d, e);
    assert DeliversAs(d, e.rules[0], 0.0, false, key);
    assert SentIn(d, e, key);
    assert [d, d, d][..2] == [d, d] && [e, e][..1] == [e] && [d, d][..1] == [d] && [e][..0] == [];
    assert Sends([d], [], key) == [];
    assert Sends([d, d], [e], key) == [0.0];
  }
}
