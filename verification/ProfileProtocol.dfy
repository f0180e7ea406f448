/**
 The protocol by which any number of processes store and remove saved profiles
 (lib/psql_keychain_store.py). Two stores cannot be written together: the profiles file,
 published by a rename, and the Keychain, written by a helper program. Every call takes one
 non-blocking lock; every step may fail and every process may crash between any two steps.

 A run is a sequence of events; an event carries the choices its step makes.
 */
module ProfileProtocol {
  import opened Text
  import opened ProfileUri

  type Pid = nat
  type Profiles = map<string, Entry>
  type Secrets = map<string, seq<Byte>>

  datatype Code = Ok | KeychainFailure | StateFailure | Exists | NotFound | Busy

  datatype Op =
    | Store(account: string, secret: seq<Byte>, connection: string, storeCredential: bool, credentialRequired: bool)
    | Remove(account: string, deleteCredential: bool)

  predicate ValidAccount(account: string) {
    account != "" && !("session-" <= account) && !HasControl(account)
  }

  /** The checks made before anything is touched; None lets the call go on. */
  function EarlyExit(op: Op): Option<Code> {
    if !ValidAccount(op.account) then Some(StateFailure)
    else match op
      case Remove(_, _) => None
      case Store(_, secret, _, storeCredential, required) =>
        if required && secret == [] then Some(KeychainFailure)
        else if !required && secret != [] then Some(StateFailure)
        else if storeCredential && !required then Some(StateFailure)
        else None
  }

  function StoredEntry(op: Op): Entry
    requires op.Store?
  {
    Record(Some(op.connection), Flag(op.credentialRequired))
  }

  // ---------------------------------------------------------------- states

  datatype Phase =
    | AtLock
    | AtLoad
    | AtStage(next: Profiles)
    | AtKeychain
    | AtReplace
    | AtDelete
    | AtUnlock(code: Code)
    | AtCleanup(code: Code)
    | Returned(code: Code)
    | Crashed

  /** One call. `published`, `unlockFailed` and `leaked` record what happened to it. */
  datatype Proc = Proc(op: Op, phase: Phase, published: bool, unlockFailed: bool, leaked: bool)

  /** A helper program left running by a crashed parent. */
  datatype Helper = Write(account: string, secret: seq<Byte>) | Erase(account: string)

  /** A change of the published map, as a sequential run would make it. */
  datatype Commit =
    | Added(pid: Pid, account: string, entry: Entry, secret: Option<seq<Byte>>)
    | Removed(pid: Pid, account: string)

  /** `hosts` is fixed; `log` and `acquired` are history: commits in order, and lock holders in order. */
  datatype State = State(
    hosts: HostCheck,
    published: Profiles,
    keychain: Secrets,
    lock: Option<Pid>,
    staged: map<Pid, Profiles>,
    procs: map<Pid, Proc>,
    helpers: seq<Helper>,
    log: seq<Commit>,
    acquired: seq<Pid>)

  datatype Event =
    | Spawn(pid: Pid, op: Op)
    | TryLock(pid: Pid, ok: bool)
    | Load(pid: Pid, ok: bool)
    | Stage(pid: Pid, ok: bool, leak: bool)
    | RunWrite(pid: Pid, ok: bool, effect: bool)
    | Replace(pid: Pid, ok: bool)
    | RunErase(pid: Pid, effect: bool)
    | Unlock(pid: Pid, ok: bool)
    | Cleanup(pid: Pid, ok: bool)
    | Crash(pid: Pid, orphan: bool)
    | DirectWrite(account: string, secret: seq<Byte>)
    | DirectErase(account: string)
    | LateHelper(index: nat)

  predicate Holding(phase: Phase) {
    phase.AtLoad? || phase.AtStage? || phase.AtKeychain? || phase.AtReplace? || phase.AtDelete? || phase.AtUnlock?
  }

  // ---------------------------------------------------------------- steps

  /** The process may be waiting for a helper program. */
  predicate HelperRuns(proc: Proc) {
    proc.phase.AtDelete? || (proc.phase.AtKeychain? && proc.op.Store? && Sendable(proc.op.account, proc.op.secret))
  }

  predicate Enabled(s: State, e: Event) {
    match e
    case Spawn(p, _) => p !in s.procs && p !in s.staged
    case TryLock(p, _) => p in s.procs && s.procs[p].phase.AtLock?
    case Load(p, _) => p in s.procs && s.procs[p].phase.AtLoad?
    case Stage(p, _, _) => p in s.procs && s.procs[p].phase.AtStage?
    case RunWrite(p, ok, effect) =>
      p in s.procs && s.procs[p].phase.AtKeychain? && s.procs[p].op.Store? && (ok ==> effect)
      && (effect ==> Sendable(s.procs[p].op.account, s.procs[p].op.secret))
    case Replace(p, _) => p in s.procs && s.procs[p].phase.AtReplace? && p in s.staged
    case RunErase(p, _) => p in s.procs && s.procs[p].phase.AtDelete?
    case Unlock(p, _) => p in s.procs && s.procs[p].phase.AtUnlock?
    case Cleanup(p, _) => p in s.procs && s.procs[p].phase.AtCleanup?
    case Crash(p, orphan) =>
      p in s.procs && !s.procs[p].phase.Returned? && !s.procs[p].phase.Crashed?
      && (orphan ==> HelperRuns(s.procs[p]))
    case DirectWrite(_, _) => true
    case DirectErase(_) => true
    case LateHelper(i) => i < |s.helpers|
  }

  function Move(s: State, p: Pid, phase: Phase): State
    requires p in s.procs
  {
    s.(procs := s.procs[p := s.procs[p].(phase := phase)])
  }

  /** What loading leads to: the candidate map, or the code to return. */
  function Plan(hosts: HostCheck, published: Profiles, op: Op): Phase {
    match op
    case Store(account, _, _, _, _) =>
      if account in published then AtUnlock(Exists)
      else if ProfileRecord(hosts, StoredEntry(op)).None? then AtUnlock(StateFailure)
      else AtStage(published[account := StoredEntry(op)])
    case Remove(account, _) =>
      if account !in published then AtUnlock(NotFound)
      else if ProfileRecord(hosts, published[account]).None? then AtUnlock(StateFailure)
      else AtStage(published - {account})
  }

  function CommitOf(p: Pid, op: Op): Commit {
    match op
    case Store(account, secret, _, storeCredential, _) =>
      Added(p, account, StoredEntry(op), if storeCredential then Some(secret) else None)
    case Remove(account, _) => Removed(p, account)
  }

  /** The validator reads a stored record as one that has a credential. */
  predicate NeedsCredential(hosts: HostCheck, entry: Entry) {
    ProfileRecord(hosts, entry).Some? && ProfileRecord(hosts, entry).value.1
  }

  /** After publication a store is done; a removal of a credential goes on to erase it. */
  function AfterPublish(hosts: HostCheck, published: Profiles, op: Op): Phase {
    if op.Remove? && op.deleteCredential && op.account in published && NeedsCredential(hosts, published[op.account])
    then AtDelete
    else AtUnlock(Ok)
  }

  function Put(keychain: Secrets, h: Helper): Secrets {
    match h
    case Write(account, secret) => keychain[account := secret]
    case Erase(account) => keychain - {account}
  }

  /** An argument for the helper's command line, with backslashes before quotes and backslashes. */
  function Escaped(value: string): string {
    if value == "" then ""
    else (if value[0] == '\\' || value[0] == '"' then ['\\', value[0]] else [value[0]]) + Escaped(value[1..])
  }

  /** The command that stores a secret, up to the secret's hexadecimal digits. */
  function CommandHead(account: string): string {
    "add-generic-password -U -a \"" + Escaped(account) + "\" -s \"agent-psql\" -X "
  }

  const SECURITY_INPUT_LIMIT := 4096

  /** What `store_password` refuses before it starts the helper: bad arguments and long commands. */
  predicate Sendable(account: string, secret: seq<Byte>) {
    account != "" && !HasControl(account) && secret != []
    && |Encode(CommandHead(account))| + 2 * |secret| + 1 < SECURITY_INPUT_LIMIT
  }

  /** What `delete_password` does not refuse. */
  predicate Erasable(account: string) { account != "" && !HasControl(account) }

  type Accounts = string -> bool

  /** An account that a profile of this file can have, with a secret stored for it. */
  predicate Bindable(own: Accounts, account: string) { own(account) && ValidAccount(account) && AccountFits(account) }

  /**
   What a run is confined to: the accounts its calls name, and, while `safe`, no harm from outside.
   */
  datatype Guard = Guard(safe: bool, own: Accounts)

  /** Some secret can be stored under the account. */
  predicate AccountFits(account: string) { Sendable(account, [0]) }

  lemma SendableFits(account: string, secret: seq<Byte>)
    requires Sendable(account, secret)
    ensures AccountFits(account)
  {
    hide Encode, CommandHead;
  }

  function HelperOf(op: Op): Helper {
    match op
    case Store(account, secret, _, _, _) => Write(account, secret)
    case Remove(account, _) => Erase(account)
  }

  function Step(s: State, e: Event): State
    requires Enabled(s, e)
  {
    match e
    case Spawn(p, op) =>
      var phase := match EarlyExit(op) case Some(code) => Returned(code) case None => AtLock;
      s.(procs := s.procs[p := Proc(op, phase, false, false, false)])
    case TryLock(p, ok) =>
      if !ok then Move(s, p, AtCleanup(StateFailure))
      else if s.lock.Some? then Move(s, p, AtCleanup(Busy))
      else Move(s, p, AtLoad).(lock := Some(p), acquired := s.acquired + [p])
    case Load(p, ok) =>
      Move(s, p, if ok then Plan(s.hosts, s.published, s.procs[p].op) else AtUnlock(StateFailure))
    case Stage(p, ok, leak) =>
      var proc := s.procs[p];
      if ok then
        var phase := if proc.op.Store? && proc.op.storeCredential then AtKeychain else AtReplace;
        Move(s, p, phase).(staged := s.staged[p := proc.phase.next])
      else
        var failed := s.(procs := s.procs[p := proc.(phase := AtUnlock(StateFailure), leaked := proc.leaked || leak)]);
        if leak then failed.(staged := s.staged[p := proc.phase.next]) else failed
    case RunWrite(p, ok, effect) =>
      var moved := Move(s, p, if ok then AtReplace else AtUnlock(KeychainFailure));
      if effect then moved.(keychain := Put(s.keychain, HelperOf(s.procs[p].op))) else moved
    case Replace(p, ok) =>
      if !ok then Move(s, p, AtUnlock(StateFailure))
      else
        var proc := s.procs[p];
        s.(procs := s.procs[p := proc.(phase := AfterPublish(s.hosts, s.published, proc.op), published := true)],
           published := s.staged[p], staged := s.staged - {p}, log := s.log + [CommitOf(p, proc.op)])
    case RunErase(p, effect) =>
      var moved := Move(s, p, AtUnlock(Ok));
      if effect then moved.(keychain := Put(s.keychain, HelperOf(s.procs[p].op))) else moved
    case Unlock(p, ok) =>
      var proc := s.procs[p];
      var code := if ok then proc.phase.code else StateFailure;
      s.(procs := s.procs[p := proc.(phase := AtCleanup(code), unlockFailed := !ok)], lock := None)
    case Cleanup(p, ok) =>
      var proc := s.procs[p];
      var done := proc.(phase := Returned(proc.phase.code));
      if p !in s.staged || proc.leaked then s.(procs := s.procs[p := done])
      else if ok then s.(procs := s.procs[p := done], staged := s.staged - {p})
      else s.(procs := s.procs[p := done.(leaked := true)])
    case Crash(p, orphan) =>
      var moved := Move(s, p, Crashed).(lock := if s.lock == Some(p) then None else s.lock);
      if orphan then moved.(helpers := s.helpers + [HelperOf(s.procs[p].op)]) else moved
    case DirectWrite(account, secret) =>
      if Sendable(account, secret) then s.(keychain := s.keychain[account := secret]) else s
    case DirectErase(account) =>
      if Erasable(account) then s.(keychain := s.keychain - {account}) else s
    case LateHelper(i) =>
      s.(keychain := Put(s.keychain, s.helpers[i]), helpers := s.helpers[..i] + s.helpers[i + 1..])
  }

  predicate ValidRun(s: State, es: seq<Event>)
    decreases |es|
  {
    es != [] ==> Enabled(s, es[0]) && ValidRun(Step(s, es[0]), es[1..])
  }

  function Final(s: State, es: seq<Event>): State
    requires ValidRun(s, es)
    decreases |es|
  {
    if es == [] then s else Final(Step(s, es[0]), es[1..])
  }

  /** Nothing is going on; the file and the Keychain may hold anything. */
  predicate Initial(s: State) {
    s.lock == None && s.staged == map[] && s.procs == map[] && s.helpers == [] && s.log == [] && s.acquired == []
  }

  // ---------------------------------------------------------------- the sequential run

  /** The map and the secrets bound by the commits of this run. */
  datatype Ledger = Ledger(profiles: Profiles, secrets: Secrets)

  function Apply(l: Ledger, c: Commit): Ledger {
    match c
    case Added(_, account, entry, secret) =>
      Ledger(l.profiles[account := entry],
             if secret.Some? then l.secrets[account := secret.value] else l.secrets - {account})
    case Removed(_, account) => Ledger(l.profiles - {account}, l.secrets - {account})
  }

  function Replay(start: Profiles, log: seq<Commit>): Ledger {
    if log == [] then Ledger(start, map[]) else Apply(Replay(start, log[..|log| - 1]), log[|log| - 1])
  }

  /** A store adds an absent name; a removal deletes a present one. */
  predicate Legal(l: Ledger, c: Commit) {
    match c
    case Added(_, account, _, _) => account !in l.profiles
    case Removed(_, account) => account in l.profiles
  }

  predicate LegalRun(start: Profiles, log: seq<Commit>) {
    log != [] ==>
      && LegalRun(start, log[..|log| - 1])
      && Legal(Replay(start, log[..|log| - 1]), log[|log| - 1])
  }

  lemma ReplayExtend(start: Profiles, log: seq<Commit>, c: Commit)
    ensures Replay(start, log + [c]) == Apply(Replay(start, log), c)
    ensures LegalRun(start, log + [c]) <==> LegalRun(start, log) && Legal(Replay(start, log), c)
  {
    assert (log + [c])[..|log + [c]| - 1] == log;
  }

  /** The secrets with which the published profiles were stored. */
  function Bound(start: Profiles, s: State): Secrets { Replay(start, s.log).secrets }

  /** Every published profile stored with a credential has exactly its secret in the Keychain. */
  predicate Consistent(start: Profiles, s: State) {
    forall a :: a in Bound(start, s) ==> a in s.published && a in s.keychain && s.keychain[a] == Bound(start, s)[a]
  }

  function Pids(log: seq<Commit>): (r: seq<Pid>)
    ensures |r| == |log|
  {
    if log == [] then [] else Pids(log[..|log| - 1]) + [log[|log| - 1].pid]
  }

  /** The processes of `ps` whose publication succeeded, in order. */
  function Publishers(ps: seq<Pid>, procs: map<Pid, Proc>): seq<Pid> {
    if ps == [] then []
    else
      var p := ps[|ps| - 1];
      Publishers(ps[..|ps| - 1], procs) + if p in procs && procs[p].published then [p] else []
  }

  // ---------------------------------------------------------------- the invariant

  /** What a process knows about the shared state in each phase of its critical section. */
  predicate ProcOk(s: State, p: Pid, g: Guard)
    requires p in s.procs
  {
    var proc := s.procs[p];
    var op := proc.op;
    && g.own(op.account)
    && (!proc.phase.Returned? ==> EarlyExit(op).None?)
    && (Holding(proc.phase) <==> s.lock == Some(p))
    && match proc.phase
       case AtLock => !proc.published && p !in s.staged
       case AtLoad => !proc.published && p !in s.staged
       case AtStage(next) => !proc.published && p !in s.staged && Plan(s.hosts, s.published, op) == AtStage(next)
       case AtKeychain =>
         !proc.published && op.Store? && op.storeCredential && p in s.staged
         && Plan(s.hosts, s.published, op) == AtStage(s.staged[p])
       case AtReplace =>
         && !proc.published && p in s.staged && Plan(s.hosts, s.published, op) == AtStage(s.staged[p])
         && (op.Store? && op.storeCredential ==> AccountFits(op.account))
         && (g.safe && op.Store? && op.storeCredential ==>
               op.account in s.keychain && s.keychain[op.account] == op.secret)
       case AtDelete => proc.published && op.Remove? && op.account !in s.published && p !in s.staged
       case AtUnlock(code) => (code == Ok <==> proc.published) && (proc.published ==> p !in s.staged)
       case AtCleanup(code) => code == Ok <==> proc.published && !proc.unlockFailed
       case Returned(code) =>
         && (code == Ok <==> proc.published && !proc.unlockFailed)
         && (p in s.staged ==> proc.leaked)
       case Crashed => true
  }

  /** Who has held the lock: each process once, the holder last, and everyone who has published. */
  predicate HoldersOk(s: State) {
    && (forall i, j :: 0 <= i < j < |s.acquired| ==> s.acquired[i] != s.acquired[j])
    && (forall p :: p in s.acquired ==> p in s.procs && !s.procs[p].phase.AtLock?)
    && (s.lock.Some? ==> s.lock.value in s.procs && s.acquired != [] && s.acquired[|s.acquired| - 1] == s.lock.value)
    && (forall p :: p in s.procs && s.procs[p].published ==> p in s.acquired)
  }

  predicate HistoryOk(s: State) {
    && HoldersOk(s)
    && Pids(s.log) == Publishers(s.acquired, s.procs)
    && (forall c :: c in s.log ==> c.pid in s.procs && c == CommitOf(c.pid, s.procs[c.pid].op))
  }

  predicate LedgerOk(start: Profiles, s: State, g: Guard) {
    && Replay(start, s.log).profiles == s.published
    && LegalRun(start, s.log)
    && (forall a :: a in Bound(start, s) ==> a in s.published && Bindable(g.own, a))
  }

  predicate ProcsOk(s: State, g: Guard) {
    && (forall p :: p in s.procs ==> ProcOk(s, p, g))
    && (forall p :: p in s.staged ==> p in s.procs)
  }

  predicate Inv(start: Profiles, s: State, g: Guard) {
    LedgerOk(start, s, g) && (g.safe ==> Consistent(start, s)) && ProcsOk(s, g) && HistoryOk(s)
  }

  /** Mutations from outside that touch no account whose secret a profile of this file can depend on. */
  predicate Harmless(e: Event, own: Accounts) {
    && (e.DirectWrite? ==> !Bindable(own, e.account) || !Sendable(e.account, e.secret))
    && (e.DirectErase? ==> !Bindable(own, e.account))
    && !e.LateHelper?
  }

  /** Calls name accounts of their own; while the guard is safe, nothing outside does harm. */
  predicate Admits(e: Event, g: Guard) {
    (e.Spawn? ==> g.own(e.op.account)) && (g.safe ==> Harmless(e, g.own))
  }

  predicate Acts(e: Event, p: Pid) { !Outside(e) && e.pid == p }

  predicate Publishes(e: Event) { e.Replace? && e.ok }

  predicate Outside(e: Event) { e.DirectWrite? || e.DirectErase? || e.LateHelper? }

  predicate Entering(e: Event) { e.Spawn? || e.TryLock? }

  predicate Preparing(e: Event) { e.Load? || e.Stage? }

  predicate Leaving(e: Event) { e.Unlock? || e.Cleanup? || e.Crash? }

  predicate Working(e: Event) { e.RunWrite? || e.Replace? || e.RunErase? }

  /** What a step leaves alone, and what it may do to the rest. */
  ghost predicate Frame(s: State, e: Event, t: State)
    requires Enabled(s, e)
  {
    && t.hosts == s.hosts
    && (if Outside(e) then t.procs == s.procs && t.staged == s.staged && t.lock == s.lock else
          && e.pid in t.procs && t.procs == s.procs[e.pid := t.procs[e.pid]]
          && t.staged - {e.pid} == s.staged - {e.pid}
          && (t.lock == s.lock || (e.TryLock? && t.lock == Some(e.pid))
              || (t.lock == None && (e.Unlock? || s.lock == Some(e.pid)))))
    && (if Publishes(e) then t.published == s.staged[e.pid] && t.log == s.log + [CommitOf(e.pid, s.procs[e.pid].op)]
        else t.published == s.published && t.log == s.log)
    && (if e.TryLock? && e.ok && s.lock.None? then t.acquired == s.acquired + [e.pid] && t.lock == Some(e.pid)
        else t.acquired == s.acquired && (t.lock == s.lock || t.lock == None))
    && (t.keychain == s.keychain
        || ((e.RunWrite? || e.RunErase?) && t.keychain == Put(s.keychain, HelperOf(s.procs[e.pid].op)))
        || (e.DirectWrite? && Sendable(e.account, e.secret) && t.keychain == s.keychain[e.account := e.secret])
        || (e.DirectErase? && t.keychain == s.keychain - {e.account})
        || e.LateHelper?)
  }

  /** What becomes of the process that takes the step. */
  predicate ActorFrame(s: State, e: Event, t: State) {
    !Outside(e) ==>
      && e.pid in t.procs
      && t.procs[e.pid].published == (Publishes(e) || (e.pid in s.procs && s.procs[e.pid].published))
      && (t.procs[e.pid].phase.AtLock? ==> e.Spawn?)
      && (e.pid in s.procs ==> t.procs[e.pid].op == s.procs[e.pid].op)
  }

  lemma LaterPhases(hosts: HostCheck, published: Profiles, op: Op)
    ensures !Plan(hosts, published, op).AtLock? && !AfterPublish(hosts, published, op).AtLock?
  {
    hide ProfileRecord, ValidAccount;
  }

  // The frame, one family of events at a time.

  lemma EnterFrame(s: State, e: Event)
    requires Enabled(s, e) && Entering(e)
    ensures Frame(s, e, Step(s, e)) && ActorFrame(s, e, Step(s, e))
  {
    hide Plan, AfterPublish, EarlyExit, HelperOf, Put, ValidAccount, CommitOf, Sendable;
  }

  lemma PrepareFrame(s: State, e: Event)
    requires Enabled(s, e) && Preparing(e)
    ensures Frame(s, e, Step(s, e)) && ActorFrame(s, e, Step(s, e))
  {
    hide Plan, AfterPublish, EarlyExit, HelperOf, Put, ValidAccount, CommitOf, Sendable;
    LaterPhases(s.hosts, s.published, s.procs[e.pid].op);
  }

  lemma WorkFrame(s: State, e: Event)
    requires Enabled(s, e) && Working(e)
    ensures Frame(s, e, Step(s, e)) && ActorFrame(s, e, Step(s, e))
  {
    hide Plan, AfterPublish, EarlyExit, HelperOf, Put, ValidAccount, CommitOf, Sendable;
    LaterPhases(s.hosts, s.published, s.procs[e.pid].op);
  }

  lemma LeaveFrame(s: State, e: Event)
    requires Enabled(s, e) && Leaving(e)
    ensures Frame(s, e, Step(s, e)) && ActorFrame(s, e, Step(s, e))
  {
    if e.Crash? {
      CrashFrame(s, e);
    } else {
      ReturnFrame(s, e);
    }
    hide Step, Enabled, Frame, ActorFrame;
  }

  lemma CrashFrame(s: State, e: Event)
    requires Enabled(s, e) && e.Crash?
    ensures Frame(s, e, Step(s, e)) && ActorFrame(s, e, Step(s, e))
  {
    hide Plan, AfterPublish, EarlyExit, HelperOf, Put, ValidAccount, CommitOf, Sendable;
  }

  lemma ReturnFrame(s: State, e: Event)
    requires Enabled(s, e) && (e.Unlock? || e.Cleanup?)
    ensures Frame(s, e, Step(s, e)) && ActorFrame(s, e, Step(s, e))
  {
    hide Plan, AfterPublish, EarlyExit, HelperOf, Put, ValidAccount, CommitOf, Sendable;
  }

  lemma OutsideFrame(s: State, e: Event)
    requires Enabled(s, e) && Outside(e)
    ensures Frame(s, e, Step(s, e))
  {
    hide Plan, AfterPublish, EarlyExit, HelperOf, Put, ValidAccount, CommitOf, Sendable;
  }

  lemma StepFrame(s: State, e: Event)
    requires Enabled(s, e)
    ensures Frame(s, e, Step(s, e)) && ActorFrame(s, e, Step(s, e))
  {
    hide Step, Enabled, Frame;
    if Entering(e) {
      EnterFrame(s, e);
    } else if Preparing(e) {
      PrepareFrame(s, e);
    } else if Working(e) {
      WorkFrame(s, e);
    } else if Leaving(e) {
      LeaveFrame(s, e);
    } else {
      OutsideFrame(s, e);
    }
  }

  /** Only a successful replacement changes the published map or the log. */
  lemma PublishFrame(s: State, e: Event)
    requires Enabled(s, e)
    ensures !Publishes(e) ==> Step(s, e).published == s.published && Step(s, e).log == s.log
    ensures Publishes(e) ==>
      && Step(s, e).published == s.staged[e.pid]
      && Step(s, e).log == s.log + [CommitOf(e.pid, s.procs[e.pid].op)]
    ensures Step(s, e).hosts == s.hosts
  {
    StepFrame(s, e);
    hide Step, Plan, AfterPublish, HelperOf, Put, Sendable, CommitOf;
  }

  /** Only helpers and mutations from outside change the Keychain. */
  lemma KeychainFrame(s: State, e: Event)
    requires Enabled(s, e)
    ensures e.RunWrite? || e.RunErase? ==>
      Step(s, e).keychain == s.keychain || Step(s, e).keychain == Put(s.keychain, HelperOf(s.procs[e.pid].op))
    ensures e.DirectWrite? ==>
      Step(s, e).keychain == s.keychain
      || (Sendable(e.account, e.secret) && Step(s, e).keychain == s.keychain[e.account := e.secret])
    ensures e.DirectErase? ==> Step(s, e).keychain == s.keychain || Step(s, e).keychain == s.keychain - {e.account}
    ensures !e.RunWrite? && !e.RunErase? && !Outside(e) ==> Step(s, e).keychain == s.keychain
  {
    StepFrame(s, e);
    hide Step, Enabled, Plan, AfterPublish, HelperOf, Put, Sendable, CommitOf;
  }

  /** A step changes no process but its own. */
  lemma ProcFrame(s: State, e: Event)
    requires Enabled(s, e)
    ensures Outside(e) ==> Step(s, e).procs == s.procs
    ensures !Outside(e) ==> e.pid in Step(s, e).procs && Step(s, e).procs == s.procs[e.pid := Step(s, e).procs[e.pid]]
  {
    StepFrame(s, e);
    hide Step, Enabled, Plan, AfterPublish, HelperOf, Put, Sendable, CommitOf;
  }

  /** A step touches no staged file but that of its own process. */
  lemma StagedFrame(s: State, e: Event, q: Pid)
    requires Enabled(s, e) && !Acts(e, q)
    ensures q in Step(s, e).staged <==> q in s.staged
    ensures q in s.staged ==> Step(s, e).staged[q] == s.staged[q]
  {
    StepFrame(s, e);
    hide Step, Enabled, Plan, AfterPublish, HelperOf, Put, Sendable, CommitOf;
    if !Outside(e) {
      assert q in Step(s, e).staged <==> q in Step(s, e).staged - {e.pid};
      assert q in s.staged <==> q in s.staged - {e.pid};
      assert q in s.staged ==> (s.staged - {e.pid})[q] == s.staged[q];
      assert q in Step(s, e).staged ==> (Step(s, e).staged - {e.pid})[q] == Step(s, e).staged[q];
    }
  }

  /** The lock changes hands only between its holder and a process that finds it free. */
  lemma LockFrame(s: State, e: Event, q: Pid)
    requires Enabled(s, e) && !Acts(e, q)
    ensures Step(s, e).lock == Some(q) ==> s.lock == Some(q)
    ensures s.lock == Some(q) && Step(s, e).lock != Some(q) ==> e.Unlock?
  {
    StepFrame(s, e);
    hide Step, Enabled, Plan, AfterPublish, HelperOf, Put, Sendable, CommitOf;
  }

  lemma PlanShape(hosts: HostCheck, published: Profiles, op: Op, next: Profiles)
    requires Plan(hosts, published, op) == AtStage(next)
    ensures op.Store? ==> op.account !in published && next == published[op.account := StoredEntry(op)]
    ensures op.Remove? ==> op.account in published && next == published - {op.account}
  {
    hide ProfileRecord;
  }

  lemma CommitKeepsLedger(hosts: HostCheck, start: Profiles, log: seq<Commit>, p: Pid, op: Op, next: Profiles)
    requires Plan(hosts, Replay(start, log).profiles, op) == AtStage(next)
    requires LegalRun(start, log)
    ensures LegalRun(start, log + [CommitOf(p, op)])
    ensures Replay(start, log + [CommitOf(p, op)]).profiles == next
    ensures var secrets := Replay(start, log + [CommitOf(p, op)]).secrets;
      secrets == if op.Store? && op.storeCredential then Replay(start, log).secrets[op.account := op.secret]
                 else Replay(start, log).secrets - {op.account}
  {
    hide Plan;
    PlanShape(hosts, Replay(start, log).profiles, op, next);
    ReplayExtend(start, log, CommitOf(p, op));
  }

  /** What the process about to publish knows. */
  lemma PublisherKnows(start: Profiles, s: State, e: Event, g: Guard)
    requires Inv(start, s, g) && Enabled(s, e) && Publishes(e)
    ensures Plan(s.hosts, s.published, s.procs[e.pid].op) == AtStage(s.staged[e.pid])
    ensures ValidAccount(s.procs[e.pid].op.account) && g.own(s.procs[e.pid].op.account)
    ensures var op := s.procs[e.pid].op; op.Store? && op.storeCredential ==> AccountFits(op.account)
    ensures var op := s.procs[e.pid].op;
      g.safe && op.Store? && op.storeCredential ==> op.account in s.keychain && s.keychain[op.account] == op.secret
  {
    hide Plan, ValidAccount, HistoryOk, LedgerOk, Consistent;
    assert ProcOk(s, e.pid, g);
  }

  lemma StepKeepsLedger(start: Profiles, s: State, e: Event, g: Guard)
    requires Inv(start, s, g) && Enabled(s, e)
    ensures LedgerOk(start, Step(s, e), g)
  {
    hide Step, Plan, ValidAccount, HistoryOk, ProcsOk, Consistent, CommitOf, Replay, LegalRun;
    PublishFrame(s, e);
    if Publishes(e) {
      PublisherKnows(start, s, e, g);
      PlanShape(s.hosts, s.published, s.procs[e.pid].op, s.staged[e.pid]);
      CommitKeepsLedger(s.hosts, start, s.log, e.pid, s.procs[e.pid].op, s.staged[e.pid]);
    }
  }

  lemma PublishKeepsConsistent(start: Profiles, s: State, e: Event, g: Guard)
    requires Inv(start, s, g) && Enabled(s, e) && Publishes(e)
    ensures g.safe ==> Consistent(start, Step(s, e))
  {
    hide Step, Plan, ValidAccount, HistoryOk, ProcsOk, CommitOf;
    PublishFrame(s, e);
    KeychainFrame(s, e);
    PublisherKnows(start, s, e, g);
    PlanShape(s.hosts, s.published, s.procs[e.pid].op, s.staged[e.pid]);
    CommitKeepsLedger(s.hosts, start, s.log, e.pid, s.procs[e.pid].op, s.staged[e.pid]);
  }

  /** A helper of the protocol works on a name that is not published. */
  lemma HelperIsPrivate(start: Profiles, s: State, e: Event, g: Guard)
    requires Inv(start, s, g) && Enabled(s, e) && (e.RunWrite? || e.RunErase?)
    ensures s.procs[e.pid].op.account !in s.published
  {
    hide Plan, ValidAccount, HistoryOk, LedgerOk, Consistent;
    assert ProcOk(s, e.pid, g);
    if e.RunWrite? {
      PlanShape(s.hosts, s.published, s.procs[e.pid].op, s.staged[e.pid]);
    }
  }

  lemma OutsideKeepsConsistent(start: Profiles, s: State, e: Event, g: Guard)
    requires LedgerOk(start, s, g) && Consistent(start, s) && Enabled(s, e) && Outside(e) && Harmless(e, g.own)
    ensures Consistent(start, Step(s, e))
  {
    hide Step, Enabled, ValidAccount, AccountFits, Sendable, Replay, LegalRun;
    PublishFrame(s, e);
    KeychainFrame(s, e);
    if e.DirectWrite? && Sendable(e.account, e.secret) {
      SendableFits(e.account, e.secret);
    }
  }

  lemma StepKeepsConsistent(start: Profiles, s: State, e: Event, g: Guard)
    requires Inv(start, s, g) && Enabled(s, e) && Admits(e, g)
    ensures g.safe ==> Consistent(start, Step(s, e))
  {
    hide Step, Plan, HistoryOk, ProcsOk, Enabled, CommitOf, ValidAccount, AccountFits, Sendable;
    if Publishes(e) {
      PublishKeepsConsistent(start, s, e, g);
    } else if Outside(e) {
      if g.safe {
        OutsideKeepsConsistent(start, s, e, g);
      }
    } else {
      PublishFrame(s, e);
      KeychainFrame(s, e);
      if e.RunWrite? || e.RunErase? {
        HelperIsPrivate(start, s, e, g);
      }
    }
  }

  /** Mutations from outside leave what a process relies on. */
  lemma OutsideSparesAll(s: State, e: Event, q: Pid, g: Guard)
    requires Enabled(s, e) && Admits(e, g) && Outside(e) && q in s.procs && ProcOk(s, q, g)
    ensures q in Step(s, e).procs && ProcOk(Step(s, e), q, g)
  {
    hide Plan, AccountFits, Sendable, StoredEntry, CommitOf;
    StepFrame(s, e);
    KeychainFrame(s, e);
    hide Step, Enabled, Put, HelperOf;
    if e.DirectWrite? && Sendable(e.account, e.secret) {
      SendableFits(e.account, e.secret);
    }
  }

  /** A step of one process leaves what another one relies on. */
  lemma StepSparesOthers(start: Profiles, s: State, e: Event, q: Pid, g: Guard)
    requires Inv(start, s, g) && Enabled(s, e) && Admits(e, g) && q in s.procs && !Acts(e, q)
    ensures q in Step(s, e).procs && ProcOk(Step(s, e), q, g)
  {
    assert ProcOk(s, q, g);
    if Outside(e) {
      OutsideSparesAll(s, e, q, g);
    } else {
      ProcessSparesOthers(start, s, e, q, g);
    }
    hide Step, Enabled, ProcOk, Inv;
  }

  lemma ProcessSparesOthers(start: Profiles, s: State, e: Event, q: Pid, g: Guard)
    requires Inv(start, s, g) && Enabled(s, e) && !Outside(e) && q in s.procs && !Acts(e, q)
    ensures q in Step(s, e).procs && ProcOk(Step(s, e), q, g)
  {
    hide Step, Plan, HistoryOk, LedgerOk, Consistent, ValidAccount, AccountFits, Sendable;
    assert ProcOk(s, q, g);
    ProcFrame(s, e);
    StagedFrame(s, e, q);
    LockFrame(s, e, q);
    PublishFrame(s, e);
    KeychainFrame(s, e);
    if e.pid in s.procs {
      assert ProcOk(s, e.pid, g);
    }
  }

  lemma EnteringKeepsActor(s: State, e: Event, g: Guard)
    requires Enabled(s, e) && Entering(e)
    requires e.pid in s.procs ==> ProcOk(s, e.pid, g)
    requires e.Spawn? ==> g.own(e.op.account)
    requires s.lock.Some? ==> s.lock.value in s.procs
    ensures e.pid in Step(s, e).procs && ProcOk(Step(s, e), e.pid, g)
  {
    if e.Spawn? {
      SpawnKeepsActor(s, e, g);
    } else {
      TryLockKeepsActor(s, e, g);
    }
    hide Step, Enabled, ProcOk;
  }

  lemma SpawnKeepsActor(s: State, e: Event, g: Guard)
    requires Enabled(s, e) && e.Spawn? && g.own(e.op.account) && (s.lock.Some? ==> s.lock.value in s.procs)
    ensures e.pid in Step(s, e).procs && ProcOk(Step(s, e), e.pid, g)
  {
    hide ValidAccount, ProfileRecord, AfterPublish, HelperOf, Put, CommitOf, Plan, Sendable;
  }

  lemma TryLockKeepsActor(s: State, e: Event, g: Guard)
    requires Enabled(s, e) && e.TryLock? && ProcOk(s, e.pid, g)
    ensures e.pid in Step(s, e).procs && ProcOk(Step(s, e), e.pid, g)
  {
    hide ValidAccount, ProfileRecord, AfterPublish, HelperOf, Put, CommitOf, Plan, EarlyExit, Sendable;
  }

  lemma PreparingKeepsActor(s: State, e: Event, g: Guard)
    requires Enabled(s, e) && Preparing(e)
    requires ProcOk(s, e.pid, g)
    ensures e.pid in Step(s, e).procs && ProcOk(Step(s, e), e.pid, g)
  {
    if e.Load? {
      LoadKeepsActor(s, e, g);
    } else {
      StageKeepsActor(s, e, g);
    }
    hide Step, Enabled, ProcOk;
  }

  lemma LoadKeepsActor(s: State, e: Event, g: Guard)
    requires Enabled(s, e) && e.Load? && ProcOk(s, e.pid, g)
    ensures e.pid in Step(s, e).procs && ProcOk(Step(s, e), e.pid, g)
  {
    hide ValidAccount, ProfileRecord, AfterPublish, HelperOf, Put, CommitOf, EarlyExit;
  }

  lemma StageKeepsActor(s: State, e: Event, g: Guard)
    requires Enabled(s, e) && e.Stage? && ProcOk(s, e.pid, g)
    ensures e.pid in Step(s, e).procs && ProcOk(Step(s, e), e.pid, g)
  {
    hide ValidAccount, Plan, AfterPublish, HelperOf, Put, CommitOf, EarlyExit;
  }

  lemma WorkingKeepsActor(s: State, e: Event, g: Guard)
    requires Enabled(s, e) && (e.RunWrite? || e.Replace? || e.RunErase?)
    requires ProcOk(s, e.pid, g)
    ensures e.pid in Step(s, e).procs && ProcOk(Step(s, e), e.pid, g)
  {
    if e.Replace? {
      ReplaceKeepsActor(s, e, g);
    } else {
      HelperKeepsActor(s, e, g);
    }
    hide Step, Enabled, ProcOk;
  }

  lemma ReplaceKeepsActor(s: State, e: Event, g: Guard)
    requires Enabled(s, e) && e.Replace? && ProcOk(s, e.pid, g)
    ensures e.pid in Step(s, e).procs && ProcOk(Step(s, e), e.pid, g)
  {
    hide ValidAccount, ProfileRecord, EarlyExit, CommitOf, HelperOf, Put;
  }

  lemma HelperKeepsActor(s: State, e: Event, g: Guard)
    requires Enabled(s, e) && (e.RunWrite? || e.RunErase?) && ProcOk(s, e.pid, g)
    ensures e.pid in Step(s, e).procs && ProcOk(Step(s, e), e.pid, g)
  {
    if e.RunWrite? {
      WriteKeepsActor(s, e, g);
    } else {
      EraseKeepsActor(s, e, g);
    }
    hide Step, Enabled, ProcOk;
  }

  lemma WriteKeepsActor(s: State, e: Event, g: Guard)
    requires Enabled(s, e) && e.RunWrite? && ProcOk(s, e.pid, g)
    ensures e.pid in Step(s, e).procs && ProcOk(Step(s, e), e.pid, g)
  {
    hide ValidAccount, ProfileRecord, EarlyExit, CommitOf, Plan, AfterPublish, Sendable, AccountFits;
    if e.effect {
      SendableFits(s.procs[e.pid].op.account, s.procs[e.pid].op.secret);
    }
  }

  lemma EraseKeepsActor(s: State, e: Event, g: Guard)
    requires Enabled(s, e) && e.RunErase? && ProcOk(s, e.pid, g)
    ensures e.pid in Step(s, e).procs && ProcOk(Step(s, e), e.pid, g)
  {
    hide ValidAccount, ProfileRecord, EarlyExit, CommitOf, Plan, AfterPublish, Sendable;
  }

  lemma LeavingKeepsActor(s: State, e: Event, g: Guard)
    requires Enabled(s, e) && Leaving(e)
    requires ProcOk(s, e.pid, g)
    ensures e.pid in Step(s, e).procs && ProcOk(Step(s, e), e.pid, g)
  {
    if e.Cleanup? {
      CleanupKeepsActor(s, e, g);
    } else {
      ReleaseKeepsActor(s, e, g);
    }
    hide Step, Enabled, ProcOk;
  }

  lemma CleanupKeepsActor(s: State, e: Event, g: Guard)
    requires Enabled(s, e) && e.Cleanup? && ProcOk(s, e.pid, g)
    ensures e.pid in Step(s, e).procs && ProcOk(Step(s, e), e.pid, g)
  {
    hide ValidAccount, Plan, AfterPublish, HelperOf, Put, EarlyExit, CommitOf;
  }

  lemma ReleaseKeepsActor(s: State, e: Event, g: Guard)
    requires Enabled(s, e) && (e.Unlock? || e.Crash?) && ProcOk(s, e.pid, g)
    ensures e.pid in Step(s, e).procs && ProcOk(Step(s, e), e.pid, g)
  {
    hide ValidAccount, Plan, AfterPublish, HelperOf, Put, EarlyExit, CommitOf;
  }

  lemma StepKeepsProcs(start: Profiles, s: State, e: Event, g: Guard)
    requires Inv(start, s, g) && Enabled(s, e) && Admits(e, g)
    ensures ProcsOk(Step(s, e), g)
  {
    assert s.lock.Some? ==> s.lock.value in s.procs;
    assert !Outside(e) && !e.Spawn? ==> ProcOk(s, e.pid, g);
    hide ProcOk, LedgerOk, Consistent, HistoryOk, Step, ValidAccount, Harmless;
    var t := Step(s, e);
    ProcFrame(s, e);
    forall q | q in t.procs
      ensures ProcOk(t, q, g)
    {
      if !Acts(e, q) {
        StepSparesOthers(start, s, e, q, g);
      } else if Entering(e) {
        EnteringKeepsActor(s, e, g);
      } else if Preparing(e) {
        PreparingKeepsActor(s, e, g);
      } else if Leaving(e) {
        LeavingKeepsActor(s, e, g);
      } else {
        WorkingKeepsActor(s, e, g);
      }
    }
    forall q | q in t.staged
      ensures q in t.procs
    {
      if !Acts(e, q) {
        StagedFrame(s, e, q);
      }
    }
  }

  // ---------------------------------------------------------------- lock order

  lemma {:induction false} PublishersFrame(ps: seq<Pid>, a: map<Pid, Proc>, b: map<Pid, Proc>)
    requires forall p :: p in ps ==> (p in a && a[p].published <==> p in b && b[p].published)
    ensures Publishers(ps, a) == Publishers(ps, b)
  {
    if ps != [] {
      PublishersFrame(ps[..|ps| - 1], a, b);
      assert ps[|ps| - 1] in ps;
    }
  }

  lemma PublishersExtend(ps: seq<Pid>, p: Pid, procs: map<Pid, Proc>)
    ensures Publishers(ps + [p], procs) == Publishers(ps, procs) + if p in procs && procs[p].published then [p] else []
  {
    assert (ps + [p])[..|ps + [p]| - 1] == ps;
  }

  lemma PidsExtend(log: seq<Commit>, c: Commit)
    ensures Pids(log + [c]) == Pids(log) + [c.pid]
  {
    assert (log + [c])[..|log + [c]| - 1] == log;
  }

  /** Which processes have published, and who acquired the lock, after a step. */
  lemma HistoryFrame(s: State, e: Event)
    requires Enabled(s, e)
    ensures e.TryLock? && e.ok && s.lock.None? ==>
      Step(s, e).acquired == s.acquired + [e.pid] && Step(s, e).lock == Some(e.pid)
    ensures !(e.TryLock? && e.ok && s.lock.None?) ==>
      Step(s, e).acquired == s.acquired && (Step(s, e).lock == s.lock || Step(s, e).lock == None)
    ensures ActorFrame(s, e, Step(s, e))
  {
    StepFrame(s, e);
    hide Step, Enabled, Plan, AfterPublish, HelperOf, Put, Sendable, CommitOf, ActorFrame;
  }

  lemma StepKeepsHolders(start: Profiles, s: State, e: Event, g: Guard)
    requires Inv(start, s, g) && Enabled(s, e)
    ensures HoldersOk(Step(s, e))
  {
    ActorHistory(start, s, e, g);
    assert HoldersOk(s);
    ProcFrame(s, e);
    HistoryFrame(s, e);
    hide Step, Inv, Enabled;
    HoldersStep(s, e, Step(s, e));
  }

  lemma HoldersStep(s: State, e: Event, t: State)
    requires HoldersOk(s) && ActorFrame(s, e, t)
    requires if Outside(e) then t.procs == s.procs else e.pid in t.procs && t.procs == s.procs[e.pid := t.procs[e.pid]]
    requires if e.TryLock? && e.ok && s.lock.None? then t.acquired == s.acquired + [e.pid] && t.lock == Some(e.pid)
             else t.acquired == s.acquired && (t.lock == s.lock || t.lock == None)
    requires Publishes(e) ==> s.acquired != [] && s.acquired[|s.acquired| - 1] == e.pid
    requires e.TryLock? ==> e.pid in s.procs && s.procs[e.pid].phase.AtLock?
    requires e.Spawn? ==> e.pid !in s.procs
    ensures HoldersOk(t)
  {}

  lemma LastPublishes(ps: seq<Pid>, p: Pid, a: map<Pid, Proc>, b: map<Pid, Proc>)
    requires ps != [] && ps[|ps| - 1] == p && forall i, j :: 0 <= i < j < |ps| ==> ps[i] != ps[j]
    requires p in a && !a[p].published && p in b && b == a[p := b[p]] && b[p].published
    ensures Publishers(ps, b) == Publishers(ps, a) + [p]
  {
    var before := ps[..|ps| - 1];
    assert ps == before + [p];
    PublishersExtend(before, p, a);
    PublishersExtend(before, p, b);
    PublishersFrame(before, a, b);
  }

  lemma NobodyPublishes(ps: seq<Pid>, p: Pid, a: map<Pid, Proc>, b: map<Pid, Proc>)
    requires p in b && b == a[p := b[p]] && b[p].published == (p in a && a[p].published)
    ensures Publishers(ps, b) == Publishers(ps, a)
    ensures !b[p].published ==> Publishers(ps + [p], b) == Publishers(ps, a)
  {
    PublishersFrame(ps, a, b);
    PublishersExtend(ps, p, b);
  }

  /** Whoever publishes holds the lock, and was the last to get it; whoever gets it has not published. */
  lemma ActorHistory(start: Profiles, s: State, e: Event, g: Guard)
    requires Inv(start, s, g) && Enabled(s, e)
    ensures Publishes(e) ==>
      e.pid in s.procs && !s.procs[e.pid].published && s.acquired != [] && s.acquired[|s.acquired| - 1] == e.pid
    ensures e.TryLock? ==> e.pid in s.procs && !s.procs[e.pid].published
    ensures forall i, j :: 0 <= i < j < |s.acquired| ==> s.acquired[i] != s.acquired[j]
    ensures Pids(s.log) == Publishers(s.acquired, s.procs)
  {
    hide LedgerOk, Consistent, Plan, EarlyExit, ValidAccount, Publishers, Pids, CommitOf;
    if Publishes(e) || e.TryLock? {
      assert ProcOk(s, e.pid, g);
    }
  }

  lemma StepKeepsOrder(start: Profiles, s: State, e: Event, g: Guard)
    requires Inv(start, s, g) && Enabled(s, e)
    ensures Pids(Step(s, e).log) == Publishers(Step(s, e).acquired, Step(s, e).procs)
  {
    hide Step, Inv, Enabled, CommitOf, Publishers, Pids;
    ProcFrame(s, e);
    HistoryFrame(s, e);
    PublishFrame(s, e);
    ActorHistory(start, s, e, g);
    var t := Step(s, e);
    if Publishes(e) {
      CommitPid(e.pid, s.procs[e.pid].op);
      PidsExtend(s.log, CommitOf(e.pid, s.procs[e.pid].op));
      LastPublishes(s.acquired, e.pid, s.procs, t.procs);
    } else if !Outside(e) {
      NobodyPublishes(s.acquired, e.pid, s.procs, t.procs);
    }
  }

  lemma CommitPid(p: Pid, op: Op)
    ensures CommitOf(p, op).pid == p
  {}

  lemma StepKeepsCommits(start: Profiles, s: State, e: Event, g: Guard)
    requires Inv(start, s, g) && Enabled(s, e)
    ensures forall c :: c in Step(s, e).log ==>
      c.pid in Step(s, e).procs && c == CommitOf(c.pid, Step(s, e).procs[c.pid].op)
  {
    ProcFrame(s, e);
    HistoryFrame(s, e);
    PublishFrame(s, e);
    assert Publishes(e) ==> e.pid in s.procs;
    hide Step, LedgerOk, Consistent, ProcsOk, Enabled, CommitOf;
    if Publishes(e) {
      CommitPid(e.pid, s.procs[e.pid].op);
    }
  }

  /** Every step keeps the invariant, unless something outside touches a profile's Keychain item. */
  lemma StepKeepsInv(start: Profiles, s: State, e: Event, g: Guard)
    requires Inv(start, s, g) && Enabled(s, e) && Admits(e, g)
    ensures Inv(start, Step(s, e), g)
  {
    StepKeepsLedger(start, s, e, g);
    StepKeepsConsistent(start, s, e, g);
    StepKeepsProcs(start, s, e, g);
    StepKeepsHolders(start, s, e, g);
    StepKeepsOrder(start, s, e, g);
    StepKeepsCommits(start, s, e, g);
    hide Step, LedgerOk, Consistent, ProcsOk, Enabled, Harmless, Publishers, Pids, CommitOf;
  }

  lemma {:induction false} RunKeepsInv(start: Profiles, s: State, es: seq<Event>, g: Guard)
    requires Inv(start, s, g) && ValidRun(s, es) && (forall e :: e in es ==> Admits(e, g))
    ensures Inv(start, Final(s, es), g)
    decreases |es|
  {
    hide Inv, Step, Enabled, Harmless;
    if es != [] {
      StepKeepsInv(start, s, es[0], g);
      RunKeepsInv(start, Step(s, es[0]), es[1..], g);
    }
  }
}
