/** The table of live leases (lib/live/lease.py) against the history of its activations. */
module LiveLease {
  import opened Text

  /** An `expires_at` entry: absent or empty, not a timestamp, or a time. */
  datatype Expiry = Never | Unreadable | At(time: int)

  datatype Lease = Lease(scope: string, app: Option<string>, reason: Option<string>, created: int, updated: int,
                         ttl: int, expires: Expiry)

  // ---------------------------------------------------------------- what a lease allows

  predicate Falsy(s: Option<string>) { s.None? || s.value == "" }

  predicate ScopeAllows(lease: string, required: string) {
    lease == "any" || lease == required || (lease == "desktop" && required == "browser")
  }

  predicate AppAllows(lease: Option<string>, required: Option<string>) {
    Falsy(required) || Falsy(lease) || lease == required
  }

  function OrDesktop(scope: string): string { if scope == "" then "desktop" else scope }

  predicate Allows(l: Lease, scope: string, app: Option<string>) {
    ScopeAllows(OrDesktop(l.scope), scope) && AppAllows(l.app, app)
  }

  // ---------------------------------------------------------------- the table

  predicate Unexpired(l: Lease, now: int) { l.expires.Never? || (l.expires.At? && l.expires.time > now) }

  function Active(leases: seq<Lease>, now: int): seq<Lease> {
    if leases == [] then []
    else
      var l := leases[|leases| - 1];
      Active(leases[..|leases| - 1], now) + if Unexpired(l, now) then [l] else []
  }

  predicate SamePair(l: Lease, scope: string, app: Option<string>) { l.scope == scope && l.app == app }

  /** The first lease of the pair is renewed; without one, a new lease is appended. */
  function Renewed(leases: seq<Lease>, newer: Lease): seq<Lease> {
    if leases == [] then [newer]
    else if SamePair(leases[0], newer.scope, newer.app) then [Renew(leases[0], newer)] + leases[1..]
    else [leases[0]] + Renewed(leases[1..], newer)
  }

  function Renew(l: Lease, newer: Lease): Lease {
    l.(updated := newer.updated, ttl := newer.ttl, expires := newer.expires,
       reason := if Falsy(newer.reason) then l.reason else newer.reason)
  }

  function Fresh(scope: string, app: Option<string>, reason: Option<string>, ttl: int, now: int): Lease {
    Lease(OrDesktop(scope), app, reason, now, now, ttl, At(now + ttl))
  }

  /**
   The lease a lookup answers with: the first matching lease without an app if there is one, else
   the first matching lease, else none.
   */
  ghost predicate IsBest(leases: seq<Lease>, scope: string, app: Option<string>, answer: Option<Lease>) {
    match answer
    case None => forall l :: l in leases ==> !Allows(l, scope, app)
    case Some(best) =>
      exists i :: 0 <= i < |leases| && leases[i] == best && Allows(best, scope, app)
        && (forall j :: 0 <= j < i && Allows(leases[j], scope, app) ==> Falsy(best.app) && !Falsy(leases[j].app))
        && (!Falsy(best.app) ==> forall j :: 0 <= j < |leases| && Allows(leases[j], scope, app) ==> !Falsy(leases[j].app))
  }

  /** The lease serves the request: its scope covers it, the desktop also the browser, and no other app is meant. */
  predicate Serves(l: Lease, scope: string, app: Option<string>) {
    && (l.scope == "any" || (l.scope != "" && l.scope == scope)
        || ((l.scope == "desktop" || l.scope == "") && (scope == "desktop" || scope == "browser")))
    && (app == None || app == Some("") || l.app == None || l.app == Some("") || l.app == app)
  }

  lemma ServesIff(l: Lease, scope: string, app: Option<string>)
    ensures Serves(l, scope, app) <==> Allows(l, scope, app)
  {}

  /** The pair's lease again: with its creation, for another while, and with its old reason unless a new one is given. */
  predicate IsRenewal(l: Lease, renewed: Lease, reason: Option<string>, ttl: int, now: int) {
    && renewed.scope == l.scope && renewed.app == l.app && renewed.created == l.created
    && renewed.updated == now && renewed.ttl == ttl && renewed.expires == At(now + ttl)
    && renewed.reason == if reason == None || reason == Some("") then l.reason else reason
  }

  /** The first lease of the pair is renewed in its place; without one, a new lease comes last. */
  ghost predicate IsActivated(kept: seq<Lease>, leases: seq<Lease>, lease: Lease,
                              scope: string, app: Option<string>, reason: Option<string>, ttl: int, now: int) {
    if exists i :: 0 <= i < |kept| && SamePair(kept[i], scope, app) then
      exists i :: 0 <= i < |kept| && SamePair(kept[i], scope, app) && (forall j :: 0 <= j < i ==> !SamePair(kept[j], scope, app))
        && leases == kept[i := lease] && IsRenewal(kept[i], lease, reason, ttl, now)
    else leases == kept + [lease] && lease == Lease(scope, app, reason, now, now, ttl, At(now + ttl))
  }

  class LeaseTable {
    var leases: seq<Lease>

    constructor ()
      ensures leases == []
    {
      leases := [];
    }

    /** `prune_expired_leases`. */
    method Prune(now: int) returns (active: seq<Lease>)
      modifies this
      ensures leases == active == Active(old(leases), now)
    {
      active := [];
      var changed := false;
      for i := 0 to |leases|
        invariant active == Active(leases[..i], now)
        invariant !changed ==> active == leases[..i]
        invariant leases == old(leases)
      {
        assert leases[..i + 1][..i] == leases[..i];
        var lease := leases[i];
        match lease.expires {
          case Never => active := active + [lease];
          case Unreadable => changed := true;
          case At(time) =>
            if time > now {
              active := active + [lease];
            } else {
              changed := true;
            }
        }
      }
      assert leases[..|leases|] == leases;
      if changed {
        leases := active;
      }
    }

    /** `activate_lease`; the table is pruned by a second, later reading of the clock. */
    method Activate(scope: string, app: Option<string>, reason: Option<string>, ttl: int, now: int, pruned: int)
      returns (lease: Option<Lease>)
      modifies this
      ensures ttl <= 0 ==> lease.None? && leases == old(leases)
      ensures ttl > 0 ==> leases == Renewed(Active(old(leases), pruned), Fresh(scope, app, reason, ttl, now))
      ensures ttl > 0 ==> lease.Some? && lease.value in leases
      ensures ttl > 0 ==> SamePair(lease.value, OrDesktop(scope), app) && lease.value.expires == At(now + ttl)
      ensures ttl > 0 ==>
        IsActivated(Active(old(leases), pruned), leases, lease.value, if scope == "" then "desktop" else scope, app, reason, ttl, now)
    {
      if ttl <= 0 {
        return None;
      }
      var newer := Fresh(scope, app, reason, ttl, now);
      var active := Prune(pruned);
      var found := |active|;
      for i := 0 to |active|
        invariant found == |active|
        invariant forall j :: 0 <= j < i ==> !SamePair(active[j], newer.scope, app)
      {
        if SamePair(active[i], newer.scope, app) {
          found := i;
          break;
        }
      }
      RenewedAt(active, newer, found);
      ActivatedAt(active, found, scope, app, reason, ttl, now);
      hide Active, Renewed, Fresh, Renew, IsActivated;
      if found == |active| {
        leases := active + [newer];
      } else {
        leases := active[found := Renew(active[found], newer)];
      }
      lease := Some(leases[found]);
    }

    /** `find_matching_lease`. */
    method Find(scope: string, app: Option<string>, now: int) returns (answer: Option<Lease>)
      modifies this
      ensures leases == Active(old(leases), now)
      ensures IsBest(leases, scope, app, answer)
      ensures answer.Some? <==> exists l :: l in leases && Serves(l, scope, app)
      ensures answer.Some? ==> answer.value in leases && Serves(answer.value, scope, app)
    {
      var active := Prune(now);
      answer := None;
      ghost var at := 0;
      for i := 0 to |active|
        invariant answer.None? ==> forall j :: 0 <= j < i ==> !Allows(active[j], scope, app)
        invariant answer.Some? ==> 0 <= at < i && active[at] == answer.value && Allows(answer.value, scope, app)
        invariant answer.Some? ==>
                    forall j :: 0 <= j < at && Allows(active[j], scope, app) ==> Falsy(answer.value.app) && !Falsy(active[j].app)
        invariant answer.Some? && !Falsy(answer.value.app) ==>
                    forall j :: 0 <= j < i && Allows(active[j], scope, app) ==> !Falsy(active[j].app)
      {
        var lease := active[i];
        if !ScopeAllows(OrDesktop(lease.scope), scope) {
          continue;
        }
        if !AppAllows(lease.app, app) {
          continue;
        }
        if answer.None? || (!Falsy(answer.value.app) && Falsy(lease.app)) {
          answer := Some(lease);
          at := i;
        }
      }
      forall l
        ensures Serves(l, scope, app) <==> Allows(l, scope, app)
      {
        ServesIff(l, scope, app);
      }
    }
  }

  lemma ActivatedAt(kept: seq<Lease>, k: nat, scope: string, app: Option<string>, reason: Option<string>, ttl: int, now: int)
    requires k <= |kept|
    requires forall j :: 0 <= j < k ==> !SamePair(kept[j], OrDesktop(scope), app)
    requires k < |kept| ==> SamePair(kept[k], OrDesktop(scope), app)
    ensures var newer := Fresh(scope, app, reason, ttl, now);
      var lease := if k == |kept| then newer else Renew(kept[k], newer);
      && IsActivated(kept, if k == |kept| then kept + [newer] else kept[k := lease], lease,
                     if scope == "" then "desktop" else scope, app, reason, ttl, now)
      && SamePair(lease, OrDesktop(scope), app) && lease.expires == At(now + ttl)
  {}

  lemma {:induction false} RenewedAt(leases: seq<Lease>, newer: Lease, k: nat)
    requires k <= |leases|
    requires forall j :: 0 <= j < k ==> !SamePair(leases[j], newer.scope, newer.app)
    requires k < |leases| ==> SamePair(leases[k], newer.scope, newer.app)
    ensures Renewed(leases, newer) == if k == |leases| then leases + [newer] else leases[k := Renew(leases[k], newer)]
  {
    if leases != [] && k > 0 {
      RenewedAt(leases[1..], newer, k - 1);
    }
  }

  // ---------------------------------------------------------------- histories

  /** One call: an activation reads the clock twice, a lookup or a listing once. */
  datatype Call =
    | Activated(scope: string, app: Option<string>, reason: Option<string>, ttl: int, now: int, pruned: int)
    | Pruned(now: int)

  function Apply(leases: seq<Lease>, c: Call): seq<Lease> {
    match c
    case Activated(scope, app, reason, ttl, now, pruned) =>
      if ttl <= 0 then leases else Renewed(Active(leases, pruned), Fresh(scope, app, reason, ttl, now))
    case Pruned(now) => Active(leases, now)
  }

  /** The table after the calls, from an empty file. */
  function Table(calls: seq<Call>): seq<Lease> {
    if calls == [] then [] else Apply(Table(calls[..|calls| - 1]), calls[|calls| - 1])
  }

  /** A call that prunes, and the reading of the clock it prunes by. */
  predicate Prunes(c: Call) { c.Pruned? || c.ttl > 0 }

  function Reading(c: Call): int { if c.Activated? then c.pruned else c.now }

  /** The end of an activation. */
  function EndOf(c: Call): int { if c.Activated? then c.now + c.ttl else c.now }

  predicate Activates(c: Call, scope: string, app: Option<string>) {
    c.Activated? && c.ttl > 0 && OrDesktop(c.scope) == scope && c.app == app
  }

  /** The time up to which the last activation of a pair reaches; None if it was never activated. */
  function Until(calls: seq<Call>, scope: string, app: Option<string>): Option<int> {
    if calls == [] then None
    else
      var c := calls[|calls| - 1];
      if Activates(c, scope, app) then Some(EndOf(c)) else Until(calls[..|calls| - 1], scope, app)
  }

  /** The k-th call is the last activation of the pair. */
  ghost predicate IsLast(calls: seq<Call>, k: nat, scope: string, app: Option<string>) {
    k < |calls| && Activates(calls[k], scope, app) && forall j :: k < j < |calls| ==> !Activates(calls[j], scope, app)
  }

  /** Every reading of the clock since the pair's last activation was below the time it reaches to. */
  ghost predicate Uninterrupted(calls: seq<Call>, scope: string, app: Option<string>) {
    exists k: nat :: IsLast(calls, k, scope, app) && NotReached(calls, k)
  }

  ghost predicate NotReached(calls: seq<Call>, k: nat)
    requires k < |calls|
  {
    forall j :: k < j < |calls| && Prunes(calls[j]) ==> Reading(calls[j]) < EndOf(calls[k])
  }

  ghost predicate OnePerPair(leases: seq<Lease>) {
    forall i, j :: 0 <= i < j < |leases| ==> !SamePair(leases[i], leases[j].scope, leases[j].app)
  }

  ghost predicate Holds(leases: seq<Lease>, scope: string, app: Option<string>) {
    exists l :: l in leases && SamePair(l, scope, app)
  }

  /** What is left of a pair's last activation: nothing once a later reading has reached its end. */
  function Surviving(calls: seq<Call>, scope: string, app: Option<string>): Option<int> {
    if calls == [] then None
    else
      var c := calls[|calls| - 1];
      var before := Surviving(calls[..|calls| - 1], scope, app);
      if Activates(c, scope, app) then Some(EndOf(c))
      else if Prunes(c) && before.Some? && before.value <= Reading(c) then None
      else before
  }

  /** The table is exactly what survives: no lease is wrong, none is missing, none is twice. */
  ghost predicate Exact(leases: seq<Lease>, calls: seq<Call>) {
    && OnePerPair(leases)
    && (forall l :: l in leases ==> l.scope != "" && l.expires.At? && Surviving(calls, l.scope, l.app) == Some(l.expires.time))
    && (forall scope, app :: Surviving(calls, scope, app).Some? ==> Holds(leases, scope, app))
  }

  lemma {:induction false} ActiveMembers(leases: seq<Lease>, now: int)
    ensures forall l :: l in Active(leases, now) <==> l in leases && Unexpired(l, now)
    ensures OnePerPair(leases) ==> OnePerPair(Active(leases, now))
  {
    if leases != [] {
      var rest := leases[..|leases| - 1];
      ActiveMembers(rest, now);
      var last := leases[|leases| - 1];
      assert leases == rest + [last];
      if OnePerPair(leases) {
        assert OnePerPair(rest);
        forall l | l in Active(rest, now)
          ensures !SamePair(l, last.scope, last.app)
        {
          var i :| 0 <= i < |rest| && rest[i] == l;
          assert leases[i] == l;
        }
      }
    }
  }

  lemma {:induction false} RenewedMembers(leases: seq<Lease>, newer: Lease)
    requires OnePerPair(leases)
    ensures var r := Renewed(leases, newer);
      && OnePerPair(r)
      && Holds(r, newer.scope, newer.app)
      && (forall l :: l in r && SamePair(l, newer.scope, newer.app) ==> l.expires == newer.expires)
      && (forall l :: !SamePair(l, newer.scope, newer.app) ==> (l in r <==> l in leases))
  {
    if leases != [] && !SamePair(leases[0], newer.scope, newer.app) {
      RenewedMembers(leases[1..], newer);
      var tail := Renewed(leases[1..], newer);
      assert Renewed(leases, newer) == [leases[0]] + tail;
      assert forall l :: l in tail ==> l in Renewed(leases, newer);
    } else {
      var r := Renewed(leases, newer);
      assert SamePair(r[0], newer.scope, newer.app);
      assert forall l :: l in r <==> l == r[0] || (leases != [] && l in leases[1..]);
    }
  }

  lemma SurvivingSnoc(calls: seq<Call>, c: Call, scope: string, app: Option<string>)
    ensures var before := Surviving(calls, scope, app);
      Surviving(calls + [c], scope, app) ==
        if Activates(c, scope, app) then Some(EndOf(c))
        else if Prunes(c) && before.Some? && before.value <= Reading(c) then None
        else before
  {
    assert (calls + [c])[..|calls|] == calls;
  }

  lemma PruneExact(leases: seq<Lease>, calls: seq<Call>, now: int)
    requires Exact(leases, calls)
    ensures Exact(Active(leases, now), calls + [Pruned(now)])
  {
    hide Active, Surviving;
    ActiveMembers(leases, now);
    var active := Active(leases, now);
    forall l | l in active
      ensures Surviving(calls + [Pruned(now)], l.scope, l.app) == Some(l.expires.time)
    {
      SurvivingSnoc(calls, Pruned(now), l.scope, l.app);
    }
    forall scope, app | Surviving(calls + [Pruned(now)], scope, app).Some?
      ensures Holds(active, scope, app)
    {
      SurvivingSnoc(calls, Pruned(now), scope, app);
      assert Holds(leases, scope, app);
      var l :| l in leases && SamePair(l, scope, app);
      assert l in active;
    }
  }

  /** After pruning, an activation only puts its own pair's end in place. */
  lemma ActivateExact(leases: seq<Lease>, calls: seq<Call>, c: Call)
    requires c.Activated? && c.ttl > 0 && Exact(leases, calls + [Pruned(c.pruned)])
    ensures Exact(Renewed(leases, Fresh(c.scope, c.app, c.reason, c.ttl, c.now)), calls + [c])
  {
    hide Renewed, Surviving;
    var newer := Fresh(c.scope, c.app, c.reason, c.ttl, c.now);
    var r := Renewed(leases, newer);
    RenewedMembers(leases, newer);
    forall scope, app
      ensures Surviving(calls + [c], scope, app) ==
              if SamePair(newer, scope, app) then Some(EndOf(c)) else Surviving(calls + [Pruned(c.pruned)], scope, app)
    {
      SurvivingSnoc(calls, c, scope, app);
      SurvivingSnoc(calls, Pruned(c.pruned), scope, app);
    }
    forall scope, app | Surviving(calls + [c], scope, app).Some?
      ensures Holds(r, scope, app)
    {
      if !SamePair(newer, scope, app) {
        assert Holds(leases, scope, app);
        var l :| l in leases && SamePair(l, scope, app);
        assert l in r;
      }
    }
  }

  lemma QuietExact(leases: seq<Lease>, calls: seq<Call>, c: Call)
    requires Exact(leases, calls) && !Prunes(c)
    ensures Exact(leases, calls + [c])
  {
    hide Surviving;
    forall scope, app
      ensures Surviving(calls + [c], scope, app) == Surviving(calls, scope, app)
    {
      SurvivingSnoc(calls, c, scope, app);
    }
  }

  /** After any run, whatever the clock did, the table is exactly what survives. */
  lemma {:induction false} TableIsExact(calls: seq<Call>)
    ensures Exact(Table(calls), calls)
    decreases |calls|
  {
    hide Exact, Active, Renewed;
    if calls == [] {
      NothingExact();
    } else {
      var init, c := calls[..|calls| - 1], calls[|calls| - 1];
      assert calls == init + [c];
      TableIsExact(init);
      if !Prunes(c) {
        QuietExact(Table(init), init, c);
      } else {
        PruneExact(Table(init), init, Reading(c));
        if c.Activated? {
          ActivateExact(Active(Table(init), c.pruned), init, c);
        }
      }
    }
  }

  lemma NothingExact()
    ensures Exact([], [])
  {}

  /** No pair ever has two leases. */
  lemma NoPairTwice(calls: seq<Call>)
    ensures OnePerPair(Table(calls))
  {
    hide Table;
    TableIsExact(calls);
  }

  /** A pair survives exactly if no reading since its last activation has reached that activation's end. */
  lemma {:induction false} SurvivingIff(calls: seq<Call>, scope: string, app: Option<string>)
    ensures Until(calls, scope, app).Some? <==> exists k: nat :: IsLast(calls, k, scope, app)
    ensures Surviving(calls, scope, app) == if Uninterrupted(calls, scope, app) then Until(calls, scope, app) else None
    ensures forall k: nat :: IsLast(calls, k, scope, app) ==> Until(calls, scope, app) == Some(EndOf(calls[k]))
    decreases |calls|
  {
    hide Activates, Prunes, Reading, EndOf;
    if calls != [] {
      var n := |calls| - 1;
      var init, c := calls[..n], calls[n];
      SurvivingIff(init, scope, app);
      if Activates(c, scope, app) {
        assert IsLast(calls, n, scope, app) && NotReached(calls, n);
      } else {
        forall k: nat
          ensures IsLast(calls, k, scope, app) <==> IsLast(init, k, scope, app)
          ensures IsLast(init, k, scope, app) ==>
                    (NotReached(calls, k) <==> NotReached(init, k) && (Prunes(c) ==> Reading(c) < EndOf(init[k])))
        {
          LastBefore(calls, k, scope, app);
        }
      }
    }
  }

  lemma LastBefore(calls: seq<Call>, k: nat, scope: string, app: Option<string>)
    requires calls != [] && !Activates(calls[|calls| - 1], scope, app)
    ensures var init, c := calls[..|calls| - 1], calls[|calls| - 1];
      && (IsLast(calls, k, scope, app) <==> IsLast(init, k, scope, app))
      && (IsLast(init, k, scope, app) ==>
            (NotReached(calls, k) <==> NotReached(init, k) && (Prunes(c) ==> Reading(c) < EndOf(init[k]))))
  {
    hide Activates, Prunes, Reading, EndOf;
    var init := calls[..|calls| - 1];
    assert forall j :: 0 <= j < |init| ==> init[j] == calls[j];
  }

  // ---------------------------------------------------------------- lookups

  /** The pair's last activation reaches beyond `now`. */
  predicate Reaches(calls: seq<Call>, s: string, a: Option<string>, now: int) {
    Until(calls, s, a).Some? && Until(calls, s, a).value > now
  }

  /** A pair the request accepts whose last activation reaches beyond `now`. */
  predicate Grants(calls: seq<Call>, s: string, a: Option<string>, scope: string, app: Option<string>, now: int) {
    ScopeAllows(s, scope) && AppAllows(a, app) && Reaches(calls, s, a, now)
  }

  ghost predicate Granted(calls: seq<Call>, scope: string, app: Option<string>, now: int) {
    exists s, a :: Grants(calls, s, a, scope, app, now)
  }

  /** Such a pair, without a reading in between that had reached its end. */
  ghost predicate Keeps(calls: seq<Call>, s: string, a: Option<string>, scope: string, app: Option<string>, now: int) {
    Grants(calls, s, a, scope, app, now) && Uninterrupted(calls, s, a)
  }

  ghost predicate Kept(calls: seq<Call>, scope: string, app: Option<string>, now: int) {
    exists s, a :: Keeps(calls, s, a, scope, app, now)
  }

  ghost predicate KeptWithoutApp(calls: seq<Call>, scope: string, app: Option<string>, now: int) {
    exists s, a :: Falsy(a) && Keeps(calls, s, a, scope, app, now)
  }

  /** The leases a lookup chooses from, pair by pair. */
  lemma ActiveIff(calls: seq<Call>, now: int, s: string, a: Option<string>)
    ensures Holds(Active(Table(calls), now), s, a) <==>
            Uninterrupted(calls, s, a) && Reaches(calls, s, a, now)
    ensures Holds(Active(Table(calls), now), s, a) ==> s != ""
  {
    hide Active, Table, Until, Uninterrupted, Surviving;
    TableIsExact(calls);
    ActiveMembers(Table(calls), now);
    SurvivingIff(calls, s, a);
    if Surviving(calls, s, a).Some? {
      assert Holds(Table(calls), s, a);
    }
  }

  /**
   Under any clock, a lookup succeeds exactly when an accepted pair's last activation reaches beyond
   `now` and beyond every reading since; it answers with such a pair, and without an app exactly
   when there is one without.
   */
  lemma LookupIff(calls: seq<Call>, scope: string, app: Option<string>, now: int, answer: Option<Lease>)
    requires IsBest(Active(Table(calls), now), scope, app, answer)
    ensures answer.Some? <==> Kept(calls, scope, app, now)
    ensures answer.Some? ==> Keeps(calls, answer.value.scope, answer.value.app, scope, app, now)
    ensures answer.Some? ==> (Falsy(answer.value.app) <==> KeptWithoutApp(calls, scope, app, now))
  {
    hide Active, Until, Table, Uninterrupted;
    var active := Active(Table(calls), now);
    forall s, a | Keeps(calls, s, a, scope, app, now)
      ensures exists j :: 0 <= j < |active| && SamePair(active[j], s, a) && Allows(active[j], scope, app)
    {
      ActiveIff(calls, now, s, a);
      var l :| l in active && SamePair(l, s, a);
      var j :| 0 <= j < |active| && active[j] == l;
    }
    if answer.Some? {
      var best := answer.value;
      assert best in active && SamePair(best, best.scope, best.app);
      ActiveIff(calls, now, best.scope, best.app);
      assert Keeps(calls, best.scope, best.app, scope, app, now);
    }
  }

  /**
   The documented promise, that a lookup succeeds exactly when some accepted pair's last activation
   is unexpired, is kept for a request if and only if one such pair, where there is any, has not
   been reached by a reading in between.
   */
  lemma PromiseKeptIff(calls: seq<Call>, scope: string, app: Option<string>, now: int, answer: Option<Lease>)
    requires IsBest(Active(Table(calls), now), scope, app, answer)
    ensures (answer.Some? <==> Granted(calls, scope, app, now))
            <==> (Granted(calls, scope, app, now) ==> Kept(calls, scope, app, now))
  {
    hide Active, Until, Table, Uninterrupted, IsBest;
    LookupIff(calls, scope, app, now, answer);
    if s, a :| Keeps(calls, s, a, scope, app, now) {
      assert Grants(calls, s, a, scope, app, now);
    }
  }

  /**
   Pair by pair: the unexpired activations are exactly the leases if and only if no reading has
   reached the end of an unexpired activation since it was made.
   */
  lemma PairsAgreeIff(calls: seq<Call>, now: int)
    ensures (forall s, a :: Holds(Active(Table(calls), now), s, a) <==> Reaches(calls, s, a, now))
            <==> forall s, a :: Reaches(calls, s, a, now) ==> Uninterrupted(calls, s, a)
  {
    hide Active, Until, Table, Uninterrupted, Holds;
    forall s, a
      ensures Holds(Active(Table(calls), now), s, a) <==> Uninterrupted(calls, s, a) && Reaches(calls, s, a, now)
    {
      ActiveIff(calls, now, s, a);
    }
  }

  /** No reading of the clock is below an earlier one, and none is above `now`. */
  predicate Monotone(calls: seq<Call>, now: int) {
    calls == [] || (
      var c := calls[|calls| - 1];
      c.now <= Reading(c) <= now && Monotone(calls[..|calls| - 1], c.now))
  }

  lemma {:induction false} ReadingsBelow(calls: seq<Call>, now: int, j: nat)
    requires Monotone(calls, now) && j < |calls|
    ensures Reading(calls[j]) <= now
    decreases |calls|
  {
    if j < |calls| - 1 {
      ReadingsBelow(calls[..|calls| - 1], calls[|calls| - 1].now, j);
    }
  }

  lemma MonotoneUninterrupted(calls: seq<Call>, now: int, s: string, a: Option<string>)
    requires Monotone(calls, now) && Reaches(calls, s, a, now)
    ensures Uninterrupted(calls, s, a)
  {
    hide Monotone, Until, Reading;
    SurvivingIff(calls, s, a);
    var k: nat :| IsLast(calls, k, s, a);
    forall j | k < j < |calls| && Prunes(calls[j])
      ensures Reading(calls[j]) < EndOf(calls[k])
    {
      ReadingsBelow(calls, now, j);
    }
    assert NotReached(calls, k);
  }

  /** So with a clock that never steps back the promise is always kept. */
  lemma MonotoneKeepsPromise(calls: seq<Call>, scope: string, app: Option<string>, now: int, answer: Option<Lease>)
    requires Monotone(calls, now)
    requires IsBest(Active(Table(calls), now), scope, app, answer)
    ensures answer.Some? <==> Granted(calls, scope, app, now)
  {
    hide Active, Until, Table, Uninterrupted, IsBest, Monotone;
    LookupIff(calls, scope, app, now, answer);
    if s, a :| Grants(calls, s, a, scope, app, now) {
      MonotoneUninterrupted(calls, now, s, a);
      assert Keeps(calls, s, a, scope, app, now);
    }
  }

  /** The clock matters: a clock that steps back loses a lease that has not run out. */
  lemma SteppedBackClockLoses()
    ensures var calls := [Activated("ios", None, None, 5, 0, 0), Pruned(9)];
      && Grants(calls, "ios", None, "ios", None, 3)
      && Active(Table(calls), 3) == []
  {
    var first := [Activated("ios", None, None, 5, 0, 0)];
    var calls := first + [Pruned(9)];
    assert calls[..1] == first && first[..0] == [];
    assert Table(first) == [Fresh("ios", None, None, 5, 0)];
    assert Table(first)[..0] == [];
    assert Active(Table(first), 9) == [];
    assert calls[1] == Pruned(9) && Table(calls) == Apply(Table(first), calls[1]);
    assert Until(first, "ios", None) == Some(5);
    assert Grants(calls, "ios", None, "ios", None, 3);
  }
}
