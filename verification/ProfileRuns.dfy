/** What the profile protocol guarantees over whole runs. */
module ProfileRuns {
  import opened Text
  import opened ProfileUri
  import opened ProfileProtocol

  // ---------------------------------------------------------------- the sequential run

  lemma {:induction false} PublisherMembers(ps: seq<Pid>, procs: map<Pid, Proc>, p: Pid)
    ensures p in Publishers(ps, procs) <==> p in ps && p in procs && procs[p].published
  {
    if ps != [] {
      PublisherMembers(ps[..|ps| - 1], procs, p);
      assert ps == ps[..|ps| - 1] + [ps[|ps| - 1]];
    }
  }

  lemma InitialInv(s: State, g: Guard)
    requires Initial(s)
    ensures Inv(s.published, s, g)
  {}

  /** Calls may name any account, and anything may happen outside. */
  const Unguarded := Guard(false, _ => true)

  /**
   The published map is the result of the logged commits made one after another, each adding an
   absent name or removing a present one; the commits stand in the order in which their processes
   took the lock; a call that returned answers Ok exactly when its commit is logged and releasing
   the lock did not fail; and no returned call leaves a staged file, unless unlinking it failed.
   */
  ghost predicate Sequential(start: Profiles, t: State) {
    && t.published == Replay(start, t.log).profiles
    && LegalRun(start, t.log)
    && Pids(t.log) == Publishers(t.acquired, t.procs)
    && (forall c :: c in t.log ==> c.pid in t.procs && c == CommitOf(c.pid, t.procs[c.pid].op))
    && (forall p :: p in t.procs && t.procs[p].phase.Returned? ==>
          && (t.procs[p].phase.code == Ok <==> p in Pids(t.log) && !t.procs[p].unlockFailed)
          && (p in t.staged ==> t.procs[p].leaked))
  }

  lemma InvIsSequential(start: Profiles, t: State, g: Guard)
    requires Inv(start, t, g)
    ensures Sequential(start, t)
  {
    hide Replay, LegalRun, CommitOf, Consistent, Plan, EarlyExit, ValidAccount, AccountFits, Sendable;
    forall p | p in t.procs && t.procs[p].phase.Returned?
      ensures t.procs[p].phase.code == Ok <==> p in Pids(t.log) && !t.procs[p].unlockFailed
      ensures p in t.staged ==> t.procs[p].leaked
    {
      assert ProcOk(t, p, g);
      PublisherMembers(t.acquired, t.procs, p);
    }
  }

  /** In every run, whatever fails or crashes and whatever else changes the Keychain. */
  lemma SequentialRun(s: State, es: seq<Event>)
    requires Initial(s) && ValidRun(s, es)
    ensures Sequential(s.published, Final(s, es))
  {
    hide Inv, Step, Enabled, Sequential;
    InitialInv(s, Unguarded);
    RunKeepsInv(s.published, s, es, Unguarded);
    InvIsSequential(s.published, Final(s, es), Unguarded);
  }

  /** At most one process is ever inside the critical section. */
  lemma MutualExclusion(s: State, es: seq<Event>, p: Pid, q: Pid)
    requires Initial(s) && ValidRun(s, es)
    ensures var t := Final(s, es);
      p in t.procs && q in t.procs && Holding(t.procs[p].phase) && Holding(t.procs[q].phase) ==> p == q
  {
    InitialInv(s, Unguarded);
    RunKeepsInv(s.published, s, es, Unguarded);
    var t := Final(s, es);
    if p in t.procs && q in t.procs {
      assert ProcOk(t, p, Unguarded) && ProcOk(t, q, Unguarded);
    }
  }

  // ---------------------------------------------------------------- secrets

  /**
   What may happen outside the calls on this profiles file: passwords written and erased without
   a profile, which is what calls on another profiles file do to this one, and helpers that
   outlive a crashed parent.
   */
  datatype Surroundings = Surroundings(written: Accounts, erased: Accounts, late: bool)

  predicate Permitted(own: Accounts, around: Surroundings, e: Event) {
    && (e.Spawn? ==> own(e.op.account))
    && (e.DirectWrite? ==> around.written(e.account))
    && (e.DirectErase? ==> around.erased(e.account))
    && (e.LateHelper? ==> around.late)
  }

  predicate PermittedRun(own: Accounts, around: Surroundings, s: State, es: seq<Event>) {
    Initial(s) && ValidRun(s, es) && forall e :: e in es ==> Permitted(own, around, e)
  }

  /** Every permitted run keeps each published profile's secret. */
  ghost predicate AlwaysConsistent(own: Accounts, around: Surroundings) {
    forall s, es :: PermittedRun(own, around, s, es) ==> Consistent(s.published, Final(s, es))
  }

  /** No account that a profile can have, with a secret, is written or erased outside, and no helper comes late. */
  ghost predicate Confined(own: Accounts, around: Surroundings) {
    forall a :: Bindable(own, a) ==> !around.written(a) && !around.erased(a) && !around.late
  }

  lemma ConfinedAdmits(own: Accounts, around: Surroundings, e: Event)
    requires Confined(own, around) && Permitted(own, around, e)
    ensures Admits(e, Guard(!around.late, own))
  {
    hide ValidAccount, AccountFits, Sendable;
  }

  lemma ConfinedRunsConsistent(own: Accounts, around: Surroundings)
    requires Confined(own, around)
    ensures AlwaysConsistent(own, around)
  {
    var g := Guard(!around.late, own);
    forall s, es | PermittedRun(own, around, s, es)
      ensures Consistent(s.published, Final(s, es))
    {
      InitialInv(s, g);
      forall e | e in es
        ensures Admits(e, g)
      {
        ConfinedAdmits(own, around, e);
      }
      RunKeepsInv(s.published, s, es, g);
      GuardedConsistent(s.published, Final(s, es), own, around);
    }
  }

  /** Where helpers come late, nothing is bound at all. */
  lemma GuardedConsistent(start: Profiles, s: State, own: Accounts, around: Surroundings)
    requires Confined(own, around) && Inv(start, s, Guard(!around.late, own))
    ensures Consistent(start, s)
  {
    hide ValidAccount, AccountFits, Sendable, ProcsOk, HistoryOk, Replay, LegalRun;
  }

  // Runs are built one event at a time.

  lemma {:induction false} RunExtend(s: State, es: seq<Event>, e: Event)
    requires ValidRun(s, es) && Enabled(Final(s, es), e)
    ensures ValidRun(s, es + [e]) && Final(s, es + [e]) == Step(Final(s, es), e)
    decreases |es|
  {
    hide Enabled, Step;
    if es == [] {
      assert [e][1..] == [];
      assert es + [e] == [e];
    } else {
      RunExtend(Step(s, es[0]), es[1..], e);
      assert (es + [e])[1..] == es[1..] + [e];
    }
  }

  lemma {:induction false} RunConcat(s: State, a: seq<Event>, b: seq<Event>)
    requires ValidRun(s, a) && ValidRun(Final(s, a), b)
    ensures ValidRun(s, a + b) && Final(s, a + b) == Final(Final(s, a), b)
    decreases |b|
  {
    hide Enabled, Step;
    if b == [] {
      assert a + b == a;
    } else {
      RunExtend(s, a, b[0]);
      RunConcat(s, a + [b[0]], b[1..]);
      assert a + [b[0]] + b[1..] == a + b;
    }
  }

  function SampleStore(account: string, secret: seq<Byte>): Op {
    Store(account, secret, SampleConnection(), true, true)
  }

  /** A store up to the point where the helper has been started. */
  function Opening(p: Pid, op: Op): seq<Event> {
    ([Spawn(p, op)] + [TryLock(p, true)]) + ([Load(p, true)] + [Stage(p, true, false)])
  }

  function Closing(p: Pid): seq<Event> {
    [RunWrite(p, true, true)] + [Replace(p, true)]
  }

  lemma SendableSecret(account: string, secret: seq<Byte>)
    requires Sendable(account, secret)
    ensures secret != []
  {}

  /** The process has the lock. */
  function Locked(s: State, p: Pid, op: Op): State {
    s.(lock := Some(p), acquired := s.acquired + [p], procs := s.procs[p := Proc(op, AtLoad, false, false, false)])
  }

  /** And has staged its candidate. */
  function Staged(s: State, p: Pid, op: Op): State
    requires op.Store?
  {
    s.(staged := s.staged[p := s.published[op.account := StoredEntry(op)]],
       procs := s.procs[p := Proc(op, AtKeychain, false, false, false)])
  }

  lemma LockedRuns(s: State, p: Pid, account: string, secret: seq<Byte>)
    requires s.lock == None && p !in s.procs && p !in s.staged && ValidAccount(account) && secret != []
    ensures var op := SampleStore(account, secret); var es := [Spawn(p, op)] + [TryLock(p, true)];
      ValidRun(s, es) && Final(s, es) == Locked(s, p, op)
  {
    hide ValidAccount, SampleConnection, Plan, AfterPublish, HelperOf, Put, CommitOf, Sendable;
    var op := SampleStore(account, secret);
    var e1, e2 := Spawn(p, op), TryLock(p, true);
    assert [] + [e1] == [e1];
    RunExtend(s, [], e1);
    RunExtend(s, [e1], e2);
  }

  lemma StagedRuns(s: State, p: Pid, account: string, secret: seq<Byte>)
    requires p in s.procs && s.procs[p] == Proc(SampleStore(account, secret), AtLoad, false, false, false)
    requires account !in s.published
    ensures var op := SampleStore(account, secret); var es := [Load(p, true)] + [Stage(p, true, false)];
      ValidRun(s, es) && Final(s, es) == Staged(s, p, op)
  {
    SampleRecordAccepted(s.hosts);
    hide ProfileRecord, SampleConnection, AfterPublish, HelperOf, Put, CommitOf, Sendable, EarlyExit;
    var e3, e4 := Load(p, true), Stage(p, true, false);
    assert [] + [e3] == [e3];
    RunExtend(s, [], e3);
    RunExtend(s, [e3], e4);
  }

  lemma OpeningRuns(s: State, p: Pid, account: string, secret: seq<Byte>)
    requires s.lock == None && p !in s.procs && p !in s.staged && account !in s.published
    requires ValidAccount(account) && Sendable(account, secret)
    ensures var op := SampleStore(account, secret);
      ValidRun(s, Opening(p, op)) && Final(s, Opening(p, op)) == Staged(Locked(s, p, op), p, op)
  {
    SendableSecret(account, secret);
    hide Step, Enabled, ValidAccount, Sendable, SampleConnection, Staged, ValidRun, Final;
    var op := SampleStore(account, secret);
    LockedRuns(s, p, account, secret);
    StagedRuns(Locked(s, p, op), p, account, secret);
    RunConcat(s, [Spawn(p, op)] + [TryLock(p, true)], [Load(p, true)] + [Stage(p, true, false)]);
  }

  lemma ClosingRuns(s: State, p: Pid, account: string, secret: seq<Byte>)
    requires p in s.procs && s.procs[p] == Proc(SampleStore(account, secret), AtKeychain, false, false, false)
    requires p in s.staged && s.lock == Some(p) && Sendable(account, secret)
    ensures var op := SampleStore(account, secret);
      && ValidRun(s, Closing(p))
      && Final(s, Closing(p)).published == s.staged[p]
      && Final(s, Closing(p)).keychain == s.keychain[account := secret]
      && Final(s, Closing(p)).log == s.log + [CommitOf(p, op)]
      && Final(s, Closing(p)).helpers == s.helpers
      && p in Final(s, Closing(p)).procs && Final(s, Closing(p)).procs[p] == Proc(op, AtUnlock(Ok), true, false, false)
      && p !in Final(s, Closing(p)).staged
  {
    hide ProfileRecord, ValidAccount, SampleConnection, Sendable;
    assert [] + [RunWrite(p, true, true)] == [RunWrite(p, true, true)];
    RunExtend(s, [], RunWrite(p, true, true));
    RunExtend(s, [RunWrite(p, true, true)], Replace(p, true));
  }

  /** A step of calls that name the account. */
  predicate CallsOn(account: string, e: Event) { !Outside(e) && (e.Spawn? ==> e.op.account == account) }

  /** A whole store up to its publication. */
  lemma StoreRuns(s: State, p: Pid, account: string, secret: seq<Byte>) returns (es: seq<Event>)
    requires s.lock == None && p !in s.procs && p !in s.staged && account !in s.published
    requires ValidAccount(account) && Sendable(account, secret)
    ensures ValidRun(s, es) && forall e :: e in es ==> CallsOn(account, e)
    ensures Final(s, es).keychain == s.keychain[account := secret]
    ensures Final(s, es).log == s.log + [CommitOf(p, SampleStore(account, secret))]
    ensures Final(s, es).helpers == s.helpers
    ensures var t, op := Final(s, es), SampleStore(account, secret);
      && t.published == s.published[account := StoredEntry(op)]
      && p in t.procs && t.procs[p] == Proc(op, AtUnlock(Ok), true, false, false) && p !in t.staged
  {
    hide ValidAccount, SampleConnection, Enabled, Step, ProfileRecord, Sendable;
    OpeningRuns(s, p, account, secret);
    var op := SampleStore(account, secret);
    ClosingRuns(Final(s, Opening(p, op)), p, account, secret);
    RunConcat(s, Opening(p, op), Closing(p));
    es := Opening(p, op) + Closing(p);
  }

  /** Nothing stored yet, with a library that accepts every bracketed host. */
  function Empty(): State { State(_ => true, map[], map[], None, map[], map[], [], [], []) }

  lemma InitialEmpty()
    ensures Initial(Empty()) && Empty().published == map[]
  {}

  /** Whether a one-byte secret can be sent does not depend on the byte. */
  lemma OneByteFits(account: string, b: Byte)
    requires AccountFits(account)
    ensures Sendable(account, [b])
  {
    hide Encode, CommandHead;
  }

  lemma HeadSize(account: string)
    ensures |Encode(CommandHead(account))| <= 4 * |Escaped(account)| + 400
  {
    hide Encode, Escaped;
    EncodeBound(CommandHead(account));
  }

  lemma ShortAccountFits()
    ensures ValidAccount("a") && AccountFits("a")
  {
    hide Encode, CommandHead;
    assert Escaped("a") == "a" by {
      assert "a"[1..] == "";
    }
    HeadSize("a");
  }

  lemma BoundAfterStore(p: Pid, account: string, secret: seq<Byte>)
    ensures Replay(map[], [] + [CommitOf(p, SampleStore(account, secret))]).secrets == map[account := secret]
  {
    hide SampleConnection;
    ReplayExtend(map[], [], CommitOf(p, SampleStore(account, secret)));
  }

  /** A store of a one-byte secret in an empty state. */
  lemma SampleStored(own: Accounts, around: Surroundings, account: string) returns (es: seq<Event>)
    requires Bindable(own, account)
    ensures PermittedRun(own, around, Empty(), es)
    ensures Bound(map[], Final(Empty(), es)) == Final(Empty(), es).keychain == map[account := [1]]
  {
    OneByteFits(account, 1);
    hide SampleConnection, Sendable;
    es := StoreRuns(Empty(), 0, account, [1]);
    BoundAfterStore(0, account, [1]);
  }

  /** One password written to a profile's account after its store leaves the wrong secret. */
  lemma DirectWriteBreaks(own: Accounts, around: Surroundings, account: string)
    requires Bindable(own, account) && around.written(account)
    ensures !AlwaysConsistent(own, around)
  {
    OneByteFits(account, 2);
    hide SampleConnection, Sendable;
    var es := SampleStored(own, around, account);
    var e := DirectWrite(account, [2]);
    RunExtend(Empty(), es, e);
    assert PermittedRun(own, around, Empty(), es + [e]);
    var t := Final(Empty(), es + [e]);
    assert account in Bound(map[], t) && Bound(map[], t)[account] == [1] && t.keychain[account] == [2];
  }

  /** One password erased under a profile's account after its store loses the secret. */
  lemma DirectEraseBreaks(own: Accounts, around: Surroundings, account: string)
    requires Bindable(own, account) && around.erased(account)
    ensures !AlwaysConsistent(own, around)
  {
    hide SampleConnection, Sendable;
    var es := SampleStored(own, around, account);
    var e := DirectErase(account);
    RunExtend(Empty(), es, e);
    assert PermittedRun(own, around, Empty(), es + [e]);
    var t := Final(Empty(), es + [e]);
    assert account in Bound(map[], t) && account !in t.keychain;
  }

  lemma CrashStep(s: State, p: Pid)
    requires p in s.procs && s.procs[p].phase.AtKeychain? && s.procs[p].op.Store? && s.lock == Some(p)
    requires Sendable(s.procs[p].op.account, s.procs[p].op.secret)
    ensures var e := Crash(p, true);
      && Enabled(s, e)
      && Step(s, e) == Move(s, p, Crashed).(lock := None, helpers := s.helpers + [HelperOf(s.procs[p].op)])
  {
    hide Sendable, Plan, AfterPublish, EarlyExit, CommitOf, HelperOf, Put;
  }

  /** A store that crashes while its helper runs leaves that helper behind. */
  lemma CrashedStoreRuns(account: string) returns (es: seq<Event>)
    requires ValidAccount(account) && AccountFits(account)
    ensures ValidRun(Empty(), es) && forall e :: e in es ==> CallsOn(account, e)
    ensures var t := Final(Empty(), es);
      && t.helpers == [Write(account, [1])] && t.lock == None && t.log == []
      && t.published == map[] && t.procs.Keys == {0} && t.staged.Keys == {0}
  {
    OneByteFits(account, 1);
    hide SampleConnection, ValidAccount, Sendable, Step, Enabled, ValidRun, Final;
    var op := SampleStore(account, [1]);
    OpeningRuns(Empty(), 0, account, [1]);
    CrashStep(Final(Empty(), Opening(0, op)), 0);
    RunExtend(Empty(), Opening(0, op), Crash(0, true));
    es := Opening(0, op) + [Crash(0, true)];
  }

  /** A helper left running by a crashed store overwrites the secret of a later one. */
  lemma LateHelperRun(account: string) returns (es: seq<Event>)
    requires ValidAccount(account) && AccountFits(account)
    ensures ValidRun(Empty(), es) && !Consistent(map[], Final(Empty(), es))
    ensures forall e :: e in es ==> CallsOn(account, e) || e.LateHelper?
  {
    OneByteFits(account, 2);
    hide SampleConnection, ProfileRecord, ValidAccount, Enabled, SampleStore, Sendable, Step, Consistent, Bound;
    hide ValidRun, Final, HelperOf, CommitOf, CallsOn;
    var a := CrashedStoreRuns(account);
    var crashed := Final(Empty(), a);
    var b := StoreRuns(crashed, 1, account, [2]);
    RunConcat(Empty(), a, b);
    LateHelperOverwrites(a + b, account, 1, [2], [1]);
    es := a + b + [LateHelper(0)];
  }

  lemma LateHelperBreaks(own: Accounts, around: Surroundings, account: string)
    requires Bindable(own, account) && around.late
    ensures !AlwaysConsistent(own, around)
  {
    InitialEmpty();
    hide ValidRun, Final, Consistent, Initial, ValidAccount, AccountFits;
    var es := LateHelperRun(account);
    assert PermittedRun(own, around, Empty(), es);
  }

  lemma LateHelperOverwrites(es: seq<Event>, account: string, p: Pid, secret: seq<Byte>, stale: seq<Byte>)
    requires ValidRun(Empty(), es) && secret != stale
    requires Final(Empty(), es).helpers == [Write(account, stale)]
    requires Final(Empty(), es).log == [] + [CommitOf(p, SampleStore(account, secret))]
    ensures ValidRun(Empty(), es + [LateHelper(0)])
    ensures !Consistent(map[], Final(Empty(), es + [LateHelper(0)]))
  {
    hide SampleConnection, ProfileRecord;
    RunExtend(Empty(), es, LateHelper(0));
    BoundAfterStore(p, account, secret);
    var t := Final(Empty(), es + [LateHelper(0)]);
    assert account in Bound(map[], t) && t.keychain[account] == stale;
  }

  /**
   In every interleaving of stores and removals on one profiles file, with failures and crashes,
   each published profile stored with a credential keeps exactly its secret: true if and only if
   nothing outside writes or erases an account that such a profile can have, and no helper
   outlives a crashed parent, unless there is no such account at all.
   */
  lemma SecretsKeptIffConfined(own: Accounts, around: Surroundings)
    ensures AlwaysConsistent(own, around) <==> Confined(own, around)
  {
    if Confined(own, around) {
      ConfinedRunsConsistent(own, around);
    } else {
      var a :| Bindable(own, a) && (around.written(a) || around.erased(a) || around.late);
      if around.written(a) {
        DirectWriteBreaks(own, around, a);
      } else if around.erased(a) {
        DirectEraseBreaks(own, around, a);
      } else {
        LateHelperBreaks(own, around, a);
      }
    }
  }

  lemma UnlockFails(s: State, es: seq<Event>, p: Pid) returns (all: seq<Event>)
    requires ValidRun(s, es) && p in Final(s, es).procs && Final(s, es).procs[p].phase == AtUnlock(Ok)
    ensures ValidRun(s, all) && p in Final(s, all).procs
    ensures Final(s, all).procs[p].phase == Returned(StateFailure) && Final(s, all).published == Final(s, es).published
  {
    hide ValidRun, Final, Plan, AfterPublish, HelperOf, Put, CommitOf, EarlyExit, Sendable;
    RunExtend(s, es, Unlock(p, false));
    all := es + [Unlock(p, false)];
    RunExtend(s, all, Cleanup(p, true));
    all := all + [Cleanup(p, true)];
  }

  /** A store that publishes and then fails to unlock reports a state failure although the map has changed. */
  lemma FailedUnlockHidesCommit() returns (es: seq<Event>)
    ensures ValidRun(Empty(), es)
    ensures var t := Final(Empty(), es);
      && 0 in t.procs && t.procs[0].phase == Returned(StateFailure)
      && "a" !in Empty().published && "a" in t.published
  {
    ShortAccountFits();
    OneByteFits("a", 1);
    hide ValidRun, Final, Step, Enabled, SampleConnection, ProfileRecord, ValidAccount, Sendable;
    var stored := StoreRuns(Empty(), 0, "a", [1]);
    es := UnlockFails(Empty(), stored, 0);
  }
}
