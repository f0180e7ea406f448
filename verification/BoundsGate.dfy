/**
 The bounds gate and the drift check for one tool (lib/bounds.py): every gated literal must be
 covered by a declaration, and every declaration must agree with the authority it cites.
 Together they say which number each shipped literal is.
 */
module BoundsGate {
  import opened Text
  import opened RefText
  import opened RefArithmetic
  import opened RefResolve

  const TOOL_WIDE := "*"

  datatype Declaration = Declaration(source: string, ref: string, why: string, unknownFields: bool)

  /** A literal in a bounding position. */
  datatype Site = Site(verb: Option<string>, eligible: bool, value: int)

  /** The declared bounds of a tool, its commands, and its bounding literals. */
  datatype Tool = Tool(declarations: map<string, Declaration>, commands: set<string>, sites: seq<Site>)

  datatype Authority = Authority(known: seq<string>, numbers: map<string, Number>)

  predicate Readable(a: Authority) { forall k :: k in a.known ==> k in a.numbers && k != "" }

  /** The declaration that governs a site: its verb's own, else the tool-wide one. */
  function CoveringKey(site: Site, declarations: map<string, Declaration>): Option<string> {
    if site.verb.Some? && site.verb.value != "" && site.verb.value in declarations then site.verb
    else if TOOL_WIDE in declarations then Some(TOOL_WIDE)
    else None
  }

  predicate Covers(verb: string, site: Site, t: Tool) {
    site.eligible && CoveringKey(site, t.declarations) == Some(verb)
  }

  // ---------------------------------------------------------------- the gate

  datatype GateCode =
    | UnknownCommand | UnknownSource | NoWhy | NoRef | RefOnNone | UnknownField | Undeclared

  datatype GateError = GateError(code: GateCode, verb: Option<string>)

  predicate IsSource(s: string) { s == "registry" || s == "derived" || s == "measured" || s == "none" }

  /** `validate_bound_shape`. */
  function ShapeErrors(d: Declaration): seq<GateCode> {
    var source := Trim(d.source);
    (if !IsSource(source) then [UnknownSource] else [])
    + (if Trim(d.why) == "" then [NoWhy] else [])
    + (if source == "registry" || source == "derived" || source == "measured" then
         (if Trim(d.ref) == "" then [NoRef] else [])
       else if source == "none" && Trim(d.ref) != "" then [RefOnNone] else [])
    + (if d.unknownFields then [UnknownField] else [])
  }

  /** The gate has nothing to say. */
  predicate GateClean(t: Tool) {
    && (forall verb :: verb in t.declarations ==>
          (verb == TOOL_WIDE || CommandExists(verb, t.commands)) && ShapeErrors(t.declarations[verb]) == [])
    && (forall i :: 0 <= i < |t.sites| && t.sites[i].eligible ==> CoveringKey(t.sites[i], t.declarations).Some?)
  }

  /** `verbs` lists the declared verbs, each once, in the order they are visited. */
  ghost predicate Enumerates(verbs: seq<string>, t: Tool) {
    NoRepeat(verbs) && forall verb :: verb in verbs <==> verb in t.declarations
  }

  // What the gate is for, in its documentation's terms.

  /** The site's verb has a declaration of its own. */
  predicate HasOwn(t: Tool, site: Site) {
    site.verb.Some? && site.verb.value != "" && site.verb.value in t.declarations
  }

  /** The verb stands for the tool as a whole, or is one that the tool has. */
  predicate VerbKnown(t: Tool, verb: string) {
    verb == "*" || t.commands == {} || verb in t.commands || FirstWord(verb) in t.commands
  }

  /** A known source, a reason, a ref exactly for the sources that cite one, and no other field. */
  predicate WellShaped(d: Declaration) {
    && (Trim(d.source) == "registry" || Trim(d.source) == "derived" || Trim(d.source) == "measured" || Trim(d.source) == "none")
    && Trim(d.why) != ""
    && (Trim(d.source) == "none" <==> Trim(d.ref) == "")
    && !d.unknownFields
  }

  lemma ShapeErrorsIff(d: Declaration)
    ensures ShapeErrors(d) == [] <==> WellShaped(d)
  {
    hide Trim;
  }

  lemma CoveringKeyIs(t: Tool, site: Site)
    ensures HasOwn(t, site) ==> CoveringKey(site, t.declarations) == site.verb
    ensures !HasOwn(t, site) ==> CoveringKey(site, t.declarations) == if "*" in t.declarations then Some("*") else None
  {}

  /** Nothing to say: well-shaped declarations of known verbs, and a declaration for every gated site. */
  ghost predicate GateSilent(t: Tool) {
    && (forall verb :: verb in t.declarations ==> VerbKnown(t, verb) && WellShaped(t.declarations[verb]))
    && (forall site :: site in t.sites && site.eligible ==> HasOwn(t, site) || "*" in t.declarations)
  }

  lemma GateCleanIff(t: Tool)
    ensures GateClean(t) <==> GateSilent(t)
  {
    hide ShapeErrors, WellShaped, HasOwn, FirstWord, CoveringKey;
    forall verb | verb in t.declarations
      ensures ShapeErrors(t.declarations[verb]) == [] <==> WellShaped(t.declarations[verb])
    {
      ShapeErrorsIff(t.declarations[verb]);
    }
    forall site
      ensures CoveringKey(site, t.declarations).Some? <==> HasOwn(t, site) || "*" in t.declarations
    {
      CoveringKeySome(t, site);
    }
    if GateClean(t) {
      forall site | site in t.sites && site.eligible
        ensures HasOwn(t, site) || "*" in t.declarations
      {
        var i :| 0 <= i < |t.sites| && t.sites[i] == site;
        assert CoveringKey(t.sites[i], t.declarations).Some?;
      }
    }
  }

  lemma CoveringKeySome(t: Tool, site: Site)
    ensures CoveringKey(site, t.declarations).Some? <==> HasOwn(t, site) || "*" in t.declarations
  {}

  /**
   `validate_tool_bounds`: its error list is empty exactly when every declaration is well shaped and
   for a verb the tool has, and every gated site has its verb's own declaration or the tool-wide one.
   */
  method ValidateToolBounds(t: Tool, verbs: seq<string>) returns (errors: seq<GateError>)
    requires Enumerates(verbs, t)
    ensures errors == [] <==> GateSilent(t)
    ensures errors == [] <==> GateClean(t)
  {
    GateCleanIff(t);
    hide ShapeErrors, CommandExists, GateSilent;
    errors := [];
    for i := 0 to |verbs|
      invariant errors == [] <==> forall j :: 0 <= j < i ==>
        (verbs[j] == TOOL_WIDE || CommandExists(verbs[j], t.commands)) && ShapeErrors(t.declarations[verbs[j]]) == []
    {
      var verb := verbs[i];
      if verb != TOOL_WIDE && !CommandExists(verb, t.commands) {
        errors := errors + [GateError(UnknownCommand, Some(verb))];
      }
      var shape := ShapeErrors(t.declarations[verb]);
      for k := 0 to |shape|
        invariant errors == [] <==>
          && (forall j :: 0 <= j < i ==>
                (verbs[j] == TOOL_WIDE || CommandExists(verbs[j], t.commands)) && ShapeErrors(t.declarations[verbs[j]]) == [])
          && (verb == TOOL_WIDE || CommandExists(verb, t.commands)) && k == 0
      {
        errors := errors + [GateError(shape[k], Some(verb))];
      }
    }
    assert errors == [] <==> forall verb :: verb in t.declarations ==>
      (verb == TOOL_WIDE || CommandExists(verb, t.commands)) && ShapeErrors(t.declarations[verb]) == [];
    ghost var shapeClean := errors == [];
    for i := 0 to |t.sites|
      invariant errors == [] <==> shapeClean && forall j :: 0 <= j < i && t.sites[j].eligible ==>
        CoveringKey(t.sites[j], t.declarations).Some?
    {
      if t.sites[i].eligible && CoveringKey(t.sites[i], t.declarations).None? {
        errors := errors + [GateError(Undeclared, t.sites[i].verb)];
      }
    }
  }

  // ---------------------------------------------------------------- the floor

  /** The two published numbers of a model record, when they are positive numbers. */
  datatype Record = Record(delivery: Option<real>, capacity: Option<real>)

  predicate Publishes(r: Record) {
    r.delivery.Some? && r.delivery.value > 0.0 && r.capacity.Some? && r.capacity.value > 0.0
  }

  function Ratio(r: Record): real
    requires Publishes(r)
  {
    r.delivery.value / r.capacity.value
  }

  /** The record publishes this delivery and this capacity, both positive. */
  predicate Pairs(r: Record, delivery: real, capacity: real) {
    r.delivery == Some(delivery) && r.capacity == Some(capacity) && delivery > 0.0 && capacity > 0.0
  }

  /** The tightest published delivery-to-capacity ratio, or nothing when none is published. */
  ghost predicate IsFloor(floor: Option<real>, records: seq<Record>) {
    match floor
    case None => forall r, delivery, capacity :: r in records ==> !Pairs(r, delivery, capacity)
    case Some(least) =>
      && (exists r, delivery, capacity :: r in records && Pairs(r, delivery, capacity) && delivery / capacity == least)
      && (forall r, delivery, capacity :: r in records && Pairs(r, delivery, capacity) ==> least <= delivery / capacity)
  }

  lemma PublishesIff(r: Record)
    ensures Publishes(r) <==> exists delivery, capacity :: Pairs(r, delivery, capacity)
    ensures Publishes(r) ==> Pairs(r, r.delivery.value, r.capacity.value) && Ratio(r) == r.delivery.value / r.capacity.value
    ensures forall delivery, capacity :: Pairs(r, delivery, capacity) ==> Publishes(r) && Ratio(r) == delivery / capacity
  {
    if Publishes(r) {
      assert Pairs(r, r.delivery.value, r.capacity.value);
    }
  }

  /** What the loop keeps of the records it has seen. */
  predicate IsLeast(best: Option<real>, records: seq<Record>) {
    && (best.None? <==> forall i :: 0 <= i < |records| ==> !Publishes(records[i]))
    && (best.Some? ==>
          && (exists i :: 0 <= i < |records| && Publishes(records[i]) && Ratio(records[i]) == best.value)
          && (forall i :: 0 <= i < |records| && Publishes(records[i]) ==> best.value <= Ratio(records[i])))
  }

  lemma IsFloorIff(best: Option<real>, records: seq<Record>)
    ensures IsFloor(best, records) <==> IsLeast(best, records)
  {
    forall r
      ensures Publishes(r) <==> exists delivery, capacity :: Pairs(r, delivery, capacity)
      ensures Publishes(r) ==> Pairs(r, r.delivery.value, r.capacity.value) && Ratio(r) == r.delivery.value / r.capacity.value
      ensures forall delivery, capacity :: Pairs(r, delivery, capacity) ==> Publishes(r) && Ratio(r) == delivery / capacity
    {
      PublishesIff(r);
    }
  }

  /** `authority_delivery_floor`. */
  method AuthorityDeliveryFloor(records: seq<Record>) returns (best: Option<real>)
    ensures IsFloor(best, records)
  {
    hide Ratio, IsFloor;
    best := None;
    for i := 0 to |records|
      invariant IsLeast(best, records[..i])
    {
      assert records[..i + 1] == records[..i] + [records[i]];
      ghost var before := best;
      if Publishes(records[i]) {
        var ratio := Ratio(records[i]);
        if best.None? || ratio < best.value {
          best := Some(ratio);
          assert Ratio(records[..i + 1][i]) == best.value;
        } else {
          var w :| 0 <= w < i && Publishes(records[..i][w]) && Ratio(records[..i][w]) == best.value;
          assert records[..i + 1][w] == records[..i][w];
        }
      } else if best.Some? {
        var w :| 0 <= w < i && Publishes(records[..i][w]) && Ratio(records[..i][w]) == best.value;
        assert records[..i + 1][w] == records[..i][w];
      }
      assert forall j :: 0 <= j < i ==> records[..i + 1][j] == records[..i][j];
    }
    assert records[..|records|] == records;
    IsFloorIff(best, records);
  }

  // ---------------------------------------------------------------- drift

  datatype Finding =
    | MeasuredShipsLiteral(verb: string, value: int)
    | DanglingRef(verb: string, reason: Reason)
    | StaleCopy(verb: string, expected: real, actual: int)
    | ExpressionMismatch(verb: string, expected: real, actual: int)
    | BelowFloor(verb: string, expected: real)

  function Distance(x: real, y: real): real { if x >= y then x - y else y - x }

  function ResolveIn(ref: string, a: Authority): (r: Resolution)
    requires Readable(a)
    ensures r.Resolved? ==> r.used != [] && r.value > 0.0 && forall k :: k in r.used ==> k in a.numbers
  {
    Resolve(ref, a.known, a.numbers)
  }

  /** The largest value among the cited keys. */
  function Ceiling(used: seq<string>, m: map<string, Number>): (r: real)
    requires used != [] && forall k :: k in used ==> k in m
    ensures exists k :: k in used && NumberValue(m[k]) == r
    ensures forall k :: k in used ==> NumberValue(m[k]) <= r
  {
    hide NumberValue;
    var v := NumberValue(m[used[0]]);
    assert forall k :: k in used <==> k == used[0] || k in used[1..];
    if |used| == 1 then v
    else
      var w := Ceiling(used[1..], m);
      if w > v then w else v
  }

  predicate LiteralAgrees(source: string, actual: int, expected: real) {
    && (source == "registry" ==> actual as real == expected)
    && (source == "derived" ==> Distance(actual as real, expected) <= 0.5)
  }

  predicate Cites(r: Resolution, a: Authority) { r.Resolved? && r.used != [] && forall k :: k in r.used ==> k in a.numbers }

  /** Not below the tightest published ratio of the largest cited ceiling. */
  predicate AboveFloor(source: string, r: Resolution, a: Authority, floor: Option<real>)
    requires Cites(r, a)
  {
    var ceiling := Ceiling(r.used, a.numbers);
    floor.Some? && (source == "registry" || source == "derived") && ceiling != 0.0 ==>
      r.value / ceiling >= floor.value
  }

  predicate VerbClean(t: Tool, verb: string, a: Authority, floor: Option<real>)
    requires verb in t.declarations && Readable(a)
  {
    var d := t.declarations[verb];
    if d.source == "none" then true
    else if d.source == "measured" then forall i :: 0 <= i < |t.sites| ==> !Covers(verb, t.sites[i], t)
    else
      var r := ResolveIn(d.ref, a);
      && r.Resolved?
      && (forall i :: 0 <= i < |t.sites| && Covers(verb, t.sites[i], t) ==> LiteralAgrees(d.source, t.sites[i].value, r.value))
      && AboveFloor(d.source, r, a, floor)
  }

  predicate DriftClean(t: Tool, a: Authority, floor: Option<real>)
    requires Readable(a)
  {
    forall verb :: verb in t.declarations ==> VerbClean(t, verb, a, floor)
  }

  /** The literals of one resolved declaration against the number it cites. */
  method CompareLiterals(t: Tool, verb: string, source: string, expected: real) returns (findings: seq<Finding>)
    ensures findings == [] <==>
      forall i :: 0 <= i < |t.sites| && Covers(verb, t.sites[i], t) ==> LiteralAgrees(source, t.sites[i].value, expected)
  {
    hide Covers;
    findings := [];
    for i := 0 to |t.sites|
      invariant findings == [] <==>
        forall j :: 0 <= j < i && Covers(verb, t.sites[j], t) ==> LiteralAgrees(source, t.sites[j].value, expected)
    {
      var actual := t.sites[i].value;
      if Covers(verb, t.sites[i], t) {
        if source == "registry" && actual as real != expected {
          findings := findings + [StaleCopy(verb, expected, actual)];
        } else if source == "derived" && Distance(actual as real, expected) > 0.5 {
          findings := findings + [ExpressionMismatch(verb, expected, actual)];
        }
      }
    }
  }

  // What the drift check is for.

  function Gap(n: int, x: real): real { Distance(n as real, x) }

  /** No integer is nearer. */
  ghost predicate NearestInteger(n: int, x: real) { forall k: int :: Gap(n, x) <= Gap(k, x) }

  /** The rounding tolerance admits exactly the nearest integers. */
  lemma ToleranceIsNearest(n: int, x: real)
    ensures Gap(n, x) <= 0.5 <==> NearestInteger(n, x)
  {
    if Gap(n, x) <= 0.5 {
      forall k: int
        ensures Gap(n, x) <= Gap(k, x)
      {
        assert k > n ==> k as real >= n as real + 1.0;
        assert k < n ==> k as real <= n as real - 1.0;
      }
    } else {
      var k := if x > n as real then n + 1 else n - 1;
      assert k as real == if x > n as real then n as real + 1.0 else n as real - 1.0;
      assert Gap(k, x) < Gap(n, x);
    }
  }

  /** The declaration that governs a gated site: its verb's own, for any other site the tool-wide one. */
  predicate GovernedBy(t: Tool, site: Site, verb: string) {
    site.eligible && if HasOwn(t, site) then verb == site.verb.value else verb == "*" && "*" in t.declarations
  }

  /** No largest cited number of which this one is less than the share. */
  ghost predicate KeepsShare(r: Resolution, a: Authority, share: real)
    requires Cites(r, a)
  {
    forall k | k in r.used && NumberValue(a.numbers[k]) != 0.0
      && forall j :: j in r.used ==> NumberValue(a.numbers[j]) <= NumberValue(a.numbers[k]) ::
      r.value / NumberValue(a.numbers[k]) >= share
  }

  /** The declaration agrees with what it cites, and so does every literal it governs. */
  ghost predicate Agrees(t: Tool, verb: string, a: Authority, floor: Option<real>)
    requires verb in t.declarations && Readable(a)
  {
    var d := t.declarations[verb];
    var r := ResolveIn(d.ref, a);
    d.source == "none"
    || (d.source == "measured" && forall site :: site in t.sites ==> !GovernedBy(t, site, verb))
    || (d.source != "measured" && r.Resolved?
        && (d.source == "registry" ==> forall site :: site in t.sites && GovernedBy(t, site, verb) ==> site.value as real == r.value)
        && (d.source == "derived" ==> forall site :: site in t.sites && GovernedBy(t, site, verb) ==> NearestInteger(site.value, r.value))
        && ((d.source == "registry" || d.source == "derived") && floor.Some? ==> KeepsShare(r, a, floor.value)))
  }

  ghost predicate DriftSilent(t: Tool, a: Authority, floor: Option<real>)
    requires Readable(a)
  {
    forall verb :: verb in t.declarations ==> Agrees(t, verb, a, floor)
  }

  lemma CoversIff(t: Tool, verb: string, site: Site)
    ensures Covers(verb, site, t) <==> GovernedBy(t, site, verb)
  {}

  lemma AboveFloorIff(source: string, r: Resolution, a: Authority, floor: Option<real>)
    requires Cites(r, a)
    ensures AboveFloor(source, r, a, floor) <==>
      ((source == "registry" || source == "derived") && floor.Some? ==> KeepsShare(r, a, floor.value))
  {
    hide NumberValue;
    var ceiling := Ceiling(r.used, a.numbers);
    hide Ceiling;
    var top :| top in r.used && NumberValue(a.numbers[top]) == ceiling;
    assert forall j :: j in r.used ==> NumberValue(a.numbers[j]) <= NumberValue(a.numbers[top]);
    forall k | k in r.used && forall j :: j in r.used ==> NumberValue(a.numbers[j]) <= NumberValue(a.numbers[k])
      ensures NumberValue(a.numbers[k]) == ceiling
    {
      assert NumberValue(a.numbers[top]) <= NumberValue(a.numbers[k]);
    }
  }

  lemma LiteralAgreesIff(source: string, actual: int, expected: real)
    ensures LiteralAgrees(source, actual, expected) <==>
      (source == "registry" ==> actual as real == expected) && (source == "derived" ==> NearestInteger(actual, expected))
  {
    hide NearestInteger;
    ToleranceIsNearest(actual, expected);
  }

  lemma VerbCleanIff(t: Tool, verb: string, a: Authority, floor: Option<real>)
    requires verb in t.declarations && Readable(a)
    ensures VerbClean(t, verb, a, floor) <==> Agrees(t, verb, a, floor)
  {
    hide Covers, GovernedBy, NearestInteger, LiteralAgrees, ResolveIn, AboveFloor, KeepsShare;
    var d := t.declarations[verb];
    var r := ResolveIn(d.ref, a);
    forall site
      ensures Covers(verb, site, t) <==> GovernedBy(t, site, verb)
    {
      CoversIff(t, verb, site);
    }
    if r.Resolved? {
      AboveFloorIff(d.source, r, a, floor);
      forall actual
        ensures LiteralAgrees(d.source, actual, r.value) <==>
          (d.source == "registry" ==> actual as real == r.value) && (d.source == "derived" ==> NearestInteger(actual, r.value))
      {
        LiteralAgreesIff(d.source, actual, r.value);
      }
    }
    forall site | site in t.sites
      ensures exists i :: 0 <= i < |t.sites| && t.sites[i] == site
    {}
  }

  lemma DriftCleanIff(t: Tool, a: Authority, floor: Option<real>)
    requires Readable(a)
    ensures DriftClean(t, a, floor) <==> DriftSilent(t, a, floor)
  {
    hide VerbClean, Agrees;
    forall verb | verb in t.declarations
      ensures VerbClean(t, verb, a, floor) <==> Agrees(t, verb, a, floor)
    {
      VerbCleanIff(t, verb, a, floor);
    }
  }

  method DriftVerb(t: Tool, verb: string, a: Authority, floor: Option<real>) returns (findings: seq<Finding>)
    requires verb in t.declarations && Readable(a)
    ensures findings == [] <==> VerbClean(t, verb, a, floor)
  {
    hide Covers, ResolveIn, LiteralAgrees, Ceiling;
    var d := t.declarations[verb];
    findings := [];
    if d.source == "none" {
      return;
    }
    if d.source == "measured" {
      for i := 0 to |t.sites|
        invariant findings == [] <==> forall j :: 0 <= j < i ==> !Covers(verb, t.sites[j], t)
      {
        if Covers(verb, t.sites[i], t) {
          findings := findings + [MeasuredShipsLiteral(verb, t.sites[i].value)];
        }
      }
      return;
    }
    var r := ResolveIn(d.ref, a);
    if r.Refused? {
      return [DanglingRef(verb, r.reason)];
    }
    findings := CompareLiterals(t, verb, d.source, r.value);
    if floor.Some? && (d.source == "registry" || d.source == "derived") {
      var ceiling := Ceiling(r.used, a.numbers);
      if ceiling != 0.0 && r.value / ceiling < floor.value {
        findings := findings + [BelowFloor(verb, r.value)];
      }
    }
  }

  lemma NothingAdded<T>(a: seq<T>, b: seq<T>)
    ensures a + b == [] <==> a == [] && b == []
  {}

  /** The first verbs have nothing against them. */
  predicate CleanUpTo(t: Tool, verbs: seq<string>, i: nat, a: Authority, floor: Option<real>)
    requires i <= |verbs| && Readable(a)
  {
    forall j :: 0 <= j < i ==> verbs[j] in t.declarations && VerbClean(t, verbs[j], a, floor)
  }

  lemma CleanStep(t: Tool, verbs: seq<string>, i: nat, a: Authority, floor: Option<real>)
    requires i < |verbs| && Enumerates(verbs, t) && Readable(a)
    ensures verbs[i] in t.declarations
    ensures CleanUpTo(t, verbs, i + 1, a, floor) <==> CleanUpTo(t, verbs, i, a, floor) && VerbClean(t, verbs[i], a, floor)
  {
    hide VerbClean, Readable;
  }

  lemma CleanAll(t: Tool, verbs: seq<string>, a: Authority, floor: Option<real>)
    requires Enumerates(verbs, t) && Readable(a)
    ensures CleanUpTo(t, verbs, 0, a, floor) && (DriftClean(t, a, floor) <==> CleanUpTo(t, verbs, |verbs|, a, floor))
  {
    hide VerbClean, Readable;
    assert forall j :: 0 <= j < |verbs| ==> verbs[j] in verbs;
  }

  /** `drift_bounds` for one tool: its findings are empty exactly when every declaration agrees with what it cites. */
  method DriftBounds(t: Tool, verbs: seq<string>, a: Authority, floor: Option<real>) returns (findings: seq<Finding>)
    requires Enumerates(verbs, t) && Readable(a)
    ensures findings == [] <==> DriftSilent(t, a, floor)
    ensures findings == [] <==> DriftClean(t, a, floor)
  {
    DriftCleanIff(t, a, floor);
    CleanAll(t, verbs, a, floor);
    hide VerbClean, DriftSilent, DriftClean, Readable, Enumerates, CleanUpTo;
    findings := [];
    for i := 0 to |verbs|
      invariant findings == [] <==> CleanUpTo(t, verbs, i, a, floor)
    {
      CleanStep(t, verbs, i, a, floor);
      var more := DriftVerb(t, verbs[i], a, floor);
      NothingAdded(findings, more);
      findings := findings + more;
    }
  }

  // ---------------------------------------------------------------- what a clean report means

  /** The number a declaration promises for the literals it covers. */
  ghost predicate Governed(site: Site, source: string, r: Resolution, a: Authority, floor: Option<real>) {
    match source
    case "none" => true
    case "registry" => Cites(r, a) && site.value as real == r.value && AboveFloor(source, r, a, floor)
    case "derived" => Cites(r, a) && NearestInteger(site.value, r.value) && AboveFloor(source, r, a, floor)
    case _ => false
  }

  ghost predicate AllGoverned(t: Tool, a: Authority, floor: Option<real>)
    requires Readable(a)
  {
    forall i :: 0 <= i < |t.sites| && t.sites[i].eligible ==>
      var own := HasOwn(t, t.sites[i]);
      && (!own ==> "*" in t.declarations)
      && var d := t.declarations[if own then t.sites[i].verb.value else "*"];
         Governed(t.sites[i], Trim(d.source), ResolveIn(d.ref, a), a, floor)
  }

  /** `drift_bounds` compares the source as written; the gate compares it trimmed. */
  predicate Unpadded(t: Tool) {
    forall verb :: verb in t.declarations ==>
      Trimmed(t.declarations[verb].source) || Trim(t.declarations[verb].source) == "none"
  }

  lemma ShapeSource(d: Declaration)
    requires ShapeErrors(d) == []
    ensures IsSource(Trim(d.source)) && (Trim(d.source) == "none" <==> Trim(d.ref) == "")
  {
    var source := Trim(d.source);
    var refErrors := if source == "registry" || source == "derived" || source == "measured" then
                       (if Trim(d.ref) == "" then [NoRef] else [])
                     else if source == "none" && Trim(d.ref) != "" then [RefOnNone] else [];
    assert |refErrors| <= |ShapeErrors(d)|;
  }

  /**
   If the gate reports no error and drift reports no finding, and no source is padded with
   blanks, every gated literal is governed, by its verb's own declaration if there is one and
   otherwise by the tool-wide one: registry literals equal the resolved ref, derived
   literals are a nearest integer to it, measured covers none, and no registry or derived bound
   lies below the published ratio of its largest cited ceiling.
   */
  lemma CleanReportsGovern(t: Tool, a: Authority, floor: Option<real>)
    requires Readable(a) && GateClean(t) && DriftClean(t, a, floor) && Unpadded(t)
    ensures AllGoverned(t, a, floor)
  {
    hide ShapeErrors, ResolveIn, AboveFloor, Distance, Trim, Trimmed, NearestInteger;
    forall i | 0 <= i < |t.sites| && t.sites[i].eligible
      ensures var own := HasOwn(t, t.sites[i]);
        && (!own ==> "*" in t.declarations)
        && var d := t.declarations[if own then t.sites[i].verb.value else "*"];
           Governed(t.sites[i], Trim(d.source), ResolveIn(d.ref, a), a, floor)
    {
      CoveringKeyIs(t, t.sites[i]);
      var key := CoveringKey(t.sites[i], t.declarations).value;
      var d := t.declarations[key];
      ShapeSource(d);
      assert VerbClean(t, key, a, floor);
      assert Covers(key, t.sites[i], t);
      if d.source == "derived" {
        ToleranceIsNearest(t.sites[i].value, ResolveIn(d.ref, a).value);
      }
      if Trim(d.source) != "none" {
        assert Trim(d.source) == d.source by {
          TrimTrimmed(d.source);
        }
      }
    }
  }

  /** The number is, for each key it cites, at least the key's value times the least published ratio. */
  ghost predicate Backed(r: Resolution, a: Authority, records: seq<Record>)
    requires Cites(r, a)
  {
    exists j :: 0 <= j < |records| && Publishes(records[j])
      && forall k :: k in r.used ==> Ratio(records[j]) * NumberValue(a.numbers[k]) <= r.value
  }

  lemma AboveShare(value: real, ceiling: real, floor: real, cited: real)
    requires floor > 0.0 && value > 0.0 && cited <= ceiling && (ceiling != 0.0 ==> value / ceiling >= floor)
    ensures floor * cited <= value
  {
    if ceiling > 0.0 {
      assert value / ceiling * ceiling == value;
      assert floor * ceiling <= value / ceiling * ceiling;
      assert floor * cited <= floor * ceiling;
    } else {
      assert floor * cited <= 0.0;
    }
  }

  lemma RatioPositive(r: Record)
    requires Publishes(r)
    ensures Ratio(r) > 0.0
  {}

  lemma FloorBacks(source: string, r: Resolution, a: Authority, floor: Option<real>, records: seq<Record>)
    requires Cites(r, a) && r.value > 0.0 && AboveFloor(source, r, a, floor) && (source == "registry" || source == "derived")
    requires IsFloor(floor, records) && floor.Some?
    ensures Backed(r, a, records)
  {
    IsFloorIff(floor, records);
    hide Ratio, NumberValue, Publishes, Ceiling, IsFloor;
    var j :| 0 <= j < |records| && Publishes(records[j]) && Ratio(records[j]) == floor.value;
    RatioPositive(records[j]);
    var ceiling := Ceiling(r.used, a.numbers);
    assert ceiling != 0.0 ==> r.value / ceiling >= floor.value;
    hide AboveFloor, IsLeast;
    forall k | k in r.used
      ensures Ratio(records[j]) * NumberValue(a.numbers[k]) <= r.value
    {
      CeilingCovers(r.used, a.numbers, k);
      AboveShare(r.value, ceiling, floor.value, NumberValue(a.numbers[k]));
    }
  }

  lemma CeilingCovers(used: seq<string>, m: map<string, Number>, k: string)
    requires k in used && forall x :: x in used ==> x in m
    ensures NumberValue(m[k]) <= Ceiling(used, m)
  {
    hide NumberValue;
  }

  /**
   With the floor computed from the model records, two clean reports mean that no registry or derived
   number lies below the least published share of any key it cites, once a record publishes one.
   */
  lemma CleanReportsBack(t: Tool, a: Authority, floor: Option<real>, records: seq<Record>, site: Site)
    requires Readable(a) && GateClean(t) && DriftClean(t, a, floor) && Unpadded(t) && IsFloor(floor, records)
    requires site in t.sites && site.eligible && exists i :: 0 <= i < |records| && Publishes(records[i])
    ensures var own := HasOwn(t, site);
      && (!own ==> "*" in t.declarations)
      && var d := t.declarations[if own then site.verb.value else "*"];
         var r := ResolveIn(d.ref, a);
         Trim(d.source) == "registry" || Trim(d.source) == "derived" ==> Cites(r, a) && Backed(r, a, records)
  {
    IsFloorIff(floor, records);
    hide GateClean, DriftClean, Unpadded, Trim, ResolveIn, AboveFloor, Backed, Ratio;
    CleanReportsGovern(t, a, floor);
    var i :| 0 <= i < |t.sites| && t.sites[i] == site;
    var d := t.declarations[if HasOwn(t, site) then site.verb.value else "*"];
    var r := ResolveIn(d.ref, a);
    assert Governed(site, Trim(d.source), r, a, floor);
    if Trim(d.source) == "registry" || Trim(d.source) == "derived" {
      FloorBacks(Trim(d.source), r, a, floor, records);
    }
  }

  /** A clean tool whose one declaration has this source is always governed. */
  ghost predicate SourceEnforced(source: string, a: Authority, floor: Option<real>)
    requires Readable(a)
  {
    forall t: Tool :: GateClean(t) && DriftClean(t, a, floor)
      && (forall verb :: verb in t.declarations ==> t.declarations[verb].source == source)
      ==> AllGoverned(t, a, floor)
  }

  function OneSiteTool(source: string, ref: string, value: int): Tool {
    Tool(map[TOOL_WIDE := Declaration(source, ref, "x", false)], {}, [Site(None, true, value)])
  }

  lemma PaddedEscapes(source: string, ref: string, a: Authority, floor: Option<real>, value: int)
    requires Readable(a) && ResolveIn(ref, a).Resolved? && Trim(ref) != ""
    requires IsSource(Trim(source)) && Trim(source) != "none" && !Trimmed(source)
    requires Distance(value as real, ResolveIn(ref, a).value) > 0.5
    ensures var t := OneSiteTool(source, ref, value);
      GateClean(t) && DriftClean(t, a, floor) && !AllGoverned(t, a, floor)
  {
    hide ResolveIn, Trim, Trimmed, ShapeErrors, Distance, NearestInteger, AboveFloor, LiteralAgrees;
    var t := OneSiteTool(source, ref, value);
    var d := t.declarations[TOOL_WIDE];
    NotTrimmed(source);
    PaddedShape(d);
    PaddedLiteral(source, value, ResolveIn(ref, a), a, floor);
    assert CoveringKey(t.sites[0], t.declarations) == Some(TOOL_WIDE);
    assert t.sites[0].eligible;
  }

  lemma PaddedShape(d: Declaration)
    requires IsSource(Trim(d.source)) && Trim(d.source) != "none" && Trim(d.ref) != "" && d.why == "x" && !d.unknownFields
    ensures ShapeErrors(d) == []
  {
    PlainWhy();
    hide Trim;
  }

  lemma PaddedLiteral(source: string, value: int, r: Resolution, a: Authority, floor: Option<real>)
    requires IsSource(Trim(source)) && Trim(source) != "none" && !IsSource(source)
    requires Cites(r, a) && Distance(value as real, r.value) > 0.5
    ensures LiteralAgrees(source, value, r.value) && AboveFloor(source, r, a, floor)
    ensures !Governed(Site(None, true, value), Trim(source), r, a, floor)
  {
    hide Trim, NearestInteger, Ceiling;
    ToleranceIsNearest(value, r.value);
  }

  lemma PlainWhy()
    ensures Trim("x") == "x"
  {
    assert !IsSpace("x"[0]);
  }

  lemma NotTrimmed(s: string)
    requires !Trimmed(s)
    ensures Trim(s) != s && !IsSource(s)
  {
    hide IsSpace, Trim;
    if IsSource(s) {
      VisibleChar(s[0]);
      VisibleChar(s[|s| - 1]);
    }
  }

  /**
   Which sources the two checks really enforce: those written without blanks around them, and
   `none`. Any other spelling passes both checks with literals that agree with nothing.
   */
  lemma SourceEnforcedIffUnpadded(source: string, ref: string, a: Authority, floor: Option<real>)
    requires Readable(a) && ResolveIn(ref, a).Resolved? && Trim(ref) != "" && IsSource(Trim(source))
    ensures SourceEnforced(source, a, floor) <==> Trimmed(source) || Trim(source) == "none"
  {
    hide GateClean, DriftClean, AllGoverned, ResolveIn, Trim, Trimmed, IsSource;
    if Trimmed(source) || Trim(source) == "none" {
      forall t: Tool | GateClean(t) && DriftClean(t, a, floor)
        && (forall verb :: verb in t.declarations ==> t.declarations[verb].source == source)
        ensures AllGoverned(t, a, floor)
      {
        CleanReportsGovern(t, a, floor);
      }
    } else {
      var v := ResolveIn(ref, a).value;
      var value := v.Floor + 2;
      assert value as real == v.Floor as real + 2.0;
      PaddedEscapes(source, ref, a, floor, value);
    }
  }

  // ---------------------------------------------------------------- an example

  function FiveAuthority(): Authority { Authority(["a.b.c"], map["a.b.c" := Number(false, "5")]) }

  lemma FiveNumber()
    ensures ProperNumber(Number(false, "5")) && NumberValue(Number(false, "5")) == 5.0
  {
    assert "5"[1..] == "" && "5"[..0] == "" && "5"[0] == '5';
    assert Digits("5") == "5" && ReadNat("5") == 5;
    assert Before("5", '.') == "5" && After("5", '.') == "";
  }

  lemma FiveKey()
    ensures IsKey("a.b.c") && Trimmed("a.b.c")
  {
    var k := "a.b.c";
    assert k[1..] == ".b.c" && ".b.c"[1..] == "b.c" && "b.c"[1..] == ".c" && ".c"[1..] == "c" && "c"[1..] == "";
    assert Dots(k) == 2;
    VisibleChar('a');
    VisibleChar('c');
  }

  lemma FiveResolves()
    ensures Readable(FiveAuthority())
    ensures var r := ResolveIn("a.b.c", FiveAuthority()); r.Resolved? && r.value == 5.0
  {
    hide Resolve, NumberValue, IsKey, ProperNumber, Trimmed;
    var k, a := "a.b.c", FiveAuthority();
    FiveNumber();
    FiveKey();
    assert a.known[0] == k && a.numbers.Keys == set j | j in a.known;
    BareKeyResolves(k, a.known, a.numbers);
  }

  lemma PaddedRegistry()
    ensures Trim(" registry") == "registry" && !Trimmed(" registry")
  {
    VisibleChar('r');
    VisibleChar('y');
    assert " registry"[1..] == "registry";
    assert TrimLeft("registry") == "registry";
  }

  /** A literal 7 declared ` registry` against a published 5: the gate and the drift check are silent. */
  lemma PaddedSourceExample()
    ensures var a, t := FiveAuthority(), OneSiteTool(" registry", "a.b.c", 7);
      Readable(a) && GateClean(t) && DriftClean(t, a, None) && !AllGoverned(t, a, None)
  {
    hide ResolveIn, Trim, Trimmed, TrimLeft, IsSpace, GateClean, DriftClean, AllGoverned;
    FiveResolves();
    FiveKey();
    PaddedRegistry();
    TrimTrimmed("a.b.c");
    assert Distance(7.0, 5.0) == 2.0;
    PaddedEscapes(" registry", "a.b.c", FiveAuthority(), None, 7);
  }
}
