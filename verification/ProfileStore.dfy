/**
 `store_profile` and `remove_profile` as one process runs them: the statements of
 lib/psql_keychain_store.py in their order, with every fallible call decided by a fault
 schedule. Each method is shown to perform a run of the protocol.
 */
module ProfileStore {
  import opened Text
  import opened ProfileUri
  import opened ProfileProtocol
  import ProfileRuns

  /** Which calls succeed; for the helpers, whether they took effect. */
  datatype Faults = Faults(
    lockOk: bool, loadOk: bool, stageOk: bool, stageLeak: bool, writeOk: bool, writeEffect: bool,
    replaceOk: bool, eraseEffect: bool, unlockOk: bool, unlinkOk: bool)

  /** The event is a step of this call, with the outcome that the fault schedule gives it. */
  predicate Follows(e: Event, p: Pid, op: Op, f: Faults) {
    match e
    case Spawn(q, o) => q == p && o == op
    case TryLock(q, ok) => q == p && ok == f.lockOk
    case Load(q, ok) => q == p && ok == f.loadOk
    case Stage(q, ok, leak) => q == p && ok == f.stageOk && leak == f.stageLeak
    case RunWrite(q, ok, effect) =>
      q == p && op.Store? && ok == (Sendable(op.account, op.secret) && f.writeOk)
      && effect == (Sendable(op.account, op.secret) && (f.writeOk || f.writeEffect))
    case Replace(q, ok) => q == p && ok == f.replaceOk
    case RunErase(q, effect) => q == p && effect == f.eraseEffect
    case Unlock(q, ok) => q == p && ok == f.unlockOk
    case Cleanup(q, ok) => q == p && ok == f.unlinkOk
    case Crash(_, _) => false
    case DirectWrite(_, _) => false
    case DirectErase(_) => false
    case LateHelper(_) => false
  }

  predicate Scheduled(es: seq<Event>, p: Pid, op: Op, f: Faults) {
    forall i :: 0 <= i < |es| ==> Follows(es[i], p, op, f)
  }

  lemma EarlyExitFails(op: Op)
    ensures EarlyExit(op) != Some(Ok)
  {}

  // ---------------------------------------------------------------- what a call needs

  /** A name that a profile can have. */
  predicate ProperName(account: string) {
    account != "" && !("session-" <= account) && '\0' !in account && '\r' !in account && '\n' !in account
  }

  /** The arguments of a store fit together: a secret exactly where one is required, stored only if required. */
  predicate ProperStore(account: string, secret: seq<Byte>, storeCredential: bool, credentialRequired: bool) {
    ProperName(account) && (credentialRequired <==> secret != []) && (storeCredential ==> credentialRequired)
  }

  lemma ProperNameIff(account: string)
    ensures ProperName(account) <==> ValidAccount(account)
  {}

  lemma StoreExit(op: Op)
    requires op.Store?
    ensures EarlyExit(op) ==
      if ProperStore(op.account, op.secret, op.storeCredential, op.credentialRequired) then None
      else if ProperName(op.account) && op.credentialRequired && op.secret == [] then Some(KeychainFailure)
      else Some(StateFailure)
  {
    ProperNameIff(op.account);
    hide ProperName, ValidAccount;
  }

  lemma RemoveExit(op: Op)
    requires op.Remove?
    ensures EarlyExit(op) == if ProperName(op.account) then None else Some(StateFailure)
  {
    ProperNameIff(op.account);
  }

  /** The map lets the operation go ahead: the name is absent and its record accepted, or present and readable. */
  predicate Plannable(hosts: HostCheck, published: Profiles, op: Op) {
    match op
    case Store(account, _, connection, _, required) =>
      account !in published && ProfileRecord(hosts, Record(Some(connection), Flag(required))).Some?
    case Remove(account, _) => account in published && ProfileRecord(hosts, published[account]).Some?
  }

  /** The code of an operation that the map does not let go ahead. */
  function Refusal(published: Profiles, op: Op): Code {
    if op.Store? && op.account in published then Exists
    else if op.Remove? && op.account !in published then NotFound
    else StateFailure
  }

  /** Inside the lock, the operation gets as far as having staged its candidate. */
  predicate Ready(hosts: HostCheck, published: Profiles, op: Op, f: Faults) { f.loadOk && Plannable(hosts, published, op) }

  /** There is no credential to store, or its helper succeeds. */
  predicate Sent(op: Op, f: Faults) {
    op.Store? && op.storeCredential ==> Sendable(op.account, op.secret) && f.writeOk
  }

  /** A helper writes the credential, whether it then reports success or not. */
  predicate Written(op: Op, f: Faults) {
    op.Store? && op.storeCredential && Sendable(op.account, op.secret) && (f.writeOk || f.writeEffect)
  }

  /** The code inside the lock. */
  function Result(hosts: HostCheck, published: Profiles, op: Op, f: Faults): Code {
    if !f.loadOk then StateFailure
    else if !Plannable(hosts, published, op) then Refusal(published, op)
    else if !f.stageOk then StateFailure
    else if !Sent(op, f) then KeychainFailure
    else if f.replaceOk then Ok else StateFailure
  }

  /** A staged file is left when the operation leaves the lock. */
  predicate LeftStaged(hosts: HostCheck, published: Profiles, op: Op, f: Faults) {
    Ready(hosts, published, op, f) && if f.stageOk then Result(hosts, published, op, f) != Ok else f.stageLeak
  }

  predicate Entered(op: Op, lock: Option<Pid>, f: Faults) { EarlyExit(op).None? && f.lockOk && lock == None }

  /** The code of the whole call. */
  function Answer(hosts: HostCheck, published: Profiles, lock: Option<Pid>, op: Op, f: Faults): Code {
    match EarlyExit(op)
    case Some(code) => code
    case None =>
      if !f.lockOk then StateFailure
      else if lock.Some? then Busy
      else if f.unlockOk then Result(hosts, published, op, f) else StateFailure
  }

  /** When a store answers which code, and what it leaves behind. */
  lemma StoreAnswers(hosts: HostCheck, published: Profiles, lock: Option<Pid>, op: Op, f: Faults)
    requires op.Store?
    ensures var proper := ProperStore(op.account, op.secret, op.storeCredential, op.credentialRequired);
      var entered := proper && f.lockOk && lock == None;
      var ready := entered && f.loadOk && op.account !in published && ProfileRecord(hosts, StoredEntry(op)).Some?;
      var sent := op.storeCredential ==> Sendable(op.account, op.secret) && f.writeOk;
      var committed := ready && f.stageOk && sent && f.replaceOk;
      var code := Answer(hosts, published, lock, op, f);
      && (code == Ok <==> committed && f.unlockOk)
      && (code == Exists <==> entered && f.loadOk && op.account in published && f.unlockOk)
      && (code == Busy <==> proper && f.lockOk && lock.Some?)
      && (code == KeychainFailure <==>
            || (ProperName(op.account) && op.credentialRequired && op.secret == [])
            || (ready && f.stageOk && !sent && f.unlockOk))
      && code != NotFound
      && (code == StateFailure <==>
            || !ProperName(op.account) || (!op.credentialRequired && (op.secret != [] || op.storeCredential))
            || (proper && !f.lockOk)
            || (entered && (!f.unlockOk || !f.loadOk))
            || (entered && op.account !in published && (!ready || !f.stageOk || (sent && !f.replaceOk))))
      && (Entered(op, lock, f) && Result(hosts, published, op, f) == Ok <==> committed)
      && (Entered(op, lock, f) && Ready(hosts, published, op, f) <==> ready)
      && (Entered(op, lock, f) && LeftStaged(hosts, published, op, f) <==> ready && if f.stageOk then !committed else f.stageLeak)
      && (Written(op, f) <==> op.storeCredential && Sendable(op.account, op.secret) && (f.writeOk || f.writeEffect))
  {
    StoreExit(op);
    hide EarlyExit, ProperName, ProfileRecord, Sendable;
  }

  /** A parsed URI has a secret exactly where it requires a credential. */
  lemma ParsedSecret(hosts: HostCheck, text: string)
    requires ParseProfileUri(hosts, text).Some?
    ensures ParseProfileUri(hosts, text).value.credential <==> ParseProfileUri(hosts, text).value.secret != []
  {
    hide Validated, Unquote, UrlUnsplit, Encode, HasControl, UserInfo, Endpoint, Before, After, Credentials;
  }

  /** The same for a removal. */
  lemma RemoveAnswers(hosts: HostCheck, published: Profiles, lock: Option<Pid>, op: Op, f: Faults)
    requires op.Remove?
    ensures var entered := ProperName(op.account) && f.lockOk && lock == None;
      var ready := entered && f.loadOk && op.account in published && ProfileRecord(hosts, published[op.account]).Some?;
      var committed := ready && f.stageOk && f.replaceOk;
      var code := Answer(hosts, published, lock, op, f);
      && (code == Ok <==> committed && f.unlockOk)
      && (code == NotFound <==> entered && f.loadOk && op.account !in published && f.unlockOk)
      && (code == Busy <==> ProperName(op.account) && f.lockOk && lock.Some?)
      && code != Exists && code != KeychainFailure
      && (code == StateFailure <==>
            || !ProperName(op.account) || !f.lockOk
            || (entered && (!f.unlockOk || !f.loadOk))
            || (entered && op.account in published && !committed))
      && (Entered(op, lock, f) && Result(hosts, published, op, f) == Ok <==> committed)
      && (Entered(op, lock, f) && LeftStaged(hosts, published, op, f) <==> ready && if f.stageOk then !committed else f.stageLeak)
  {
    RemoveExit(op);
    hide EarlyExit, ProperName, ProfileRecord;
  }

  lemma PlannedRecord(hosts: HostCheck, published: Profiles, op: Op, next: Profiles)
    requires Plan(hosts, published, op) == AtStage(next) && op.Remove?
    ensures op.account in published && ProfileRecord(hosts, published[op.account]).Some?
  {
    hide ProfileRecord;
  }

  lemma NoSteps(s: State, p: Pid, op: Op, f: Faults)
    ensures ValidRun(s, []) && Final(s, []) == s && Scheduled([], p, op, f)
  {}

  class Store {
    const hosts: HostCheck
    var published: Profiles
    var keychain: Secrets
    var lock: Option<Pid>
    var staged: map<Pid, Profiles>
    ghost var machine: State

    /** Nothing is going on yet. */
    constructor (hosts: HostCheck, published: Profiles, keychain: Secrets)
      ensures Coupled() && Initial(machine)
      ensures this.hosts == hosts && this.published == published && this.keychain == keychain
    {
      this.hosts := hosts;
      this.published := published;
      this.keychain := keychain;
      lock := None;
      staged := map[];
      machine := State(hosts, published, keychain, None, map[], map[], [], [], []);
    }

    /** The fields are the shared part of the protocol's state. */
    ghost predicate Coupled()
      reads this
    {
      machine.hosts == hosts && machine.published == published && machine.keychain == keychain
      && machine.lock == lock && machine.staged == staged
    }

    /** The state is that after these steps of the call, which follow its fault schedule. */
    ghost predicate Performed(start: State, es: seq<Event>, p: Pid, op: Op, f: Faults)
      reads this
    {
      ValidRun(start, es) && machine == Final(start, es) && Scheduled(es, p, op, f)
    }

    /** The protocol takes one more step. */
    ghost method Advance(start: State, es: seq<Event>, p: Pid, op: Op, f: Faults, e: Event) returns (more: seq<Event>)
      requires Performed(start, es, p, op, f) && Enabled(machine, e) && Follows(e, p, op, f)
      modifies this`machine
      ensures machine == Step(old(machine), e)
      ensures more == es + [e] && Performed(start, more, p, op, f)
    {
      hide Enabled, Step, Follows;
      ProfileRuns.RunExtend(start, es, e);
      machine := Step(machine, e);
      more := es + [e];
    }

    /** Load the profiles and make the candidate map; None goes on, Some returns. */
    method LoadCandidate(p: Pid, op: Op, faults: Faults, ghost start: State, ghost es: seq<Event>)
      returns (code: Option<Code>, candidate: Profiles, ghost more: seq<Event>)
      requires Coupled() && Performed(start, es, p, op, faults) && lock == Some(p)
      requires p in machine.procs && machine.procs[p] == Proc(op, AtLoad, false, false, false) && p !in staged
      modifies this`machine
      ensures Coupled() && Performed(start, more, p, op, faults) && p in machine.procs && p !in staged
      ensures code.Some? ==> code.value != Ok && machine.procs[p] == Proc(op, AtUnlock(code.value), false, false, false)
      ensures code.None? ==>
        machine.procs[p] == Proc(op, AtStage(candidate), false, false, false) && Plan(hosts, published, op) == AtStage(candidate)
      ensures code == if !faults.loadOk then Some(StateFailure)
                      else if Plannable(hosts, published, op) then None else Some(Refusal(published, op))
    {
      hide ProfileRecord, Scheduled, ValidRun, Final;
      candidate := published;
      more := Advance(start, es, p, op, faults, Load(p, faults.loadOk));
      if !faults.loadOk {
        return Some(StateFailure), candidate, more;
      }
      if op.Store? {
        if op.account in published {
          return Some(Exists), candidate, more;
        }
        if ProfileRecord(hosts, StoredEntry(op)).None? {
          return Some(StateFailure), candidate, more;
        }
        candidate := published[op.account := StoredEntry(op)];
      } else {
        if op.account !in published {
          return Some(NotFound), candidate, more;
        }
        if ProfileRecord(hosts, published[op.account]).None? {
          return Some(StateFailure), candidate, more;
        }
        candidate := published - {op.account};
      }
      code := None;
    }

    /** Write the candidate file beside the published one. */
    method StageCandidate(p: Pid, op: Op, faults: Faults, candidate: Profiles, ghost start: State, ghost es: seq<Event>)
      returns (code: Option<Code>, ghost more: seq<Event>)
      requires Coupled() && Performed(start, es, p, op, faults) && p in machine.procs && p !in staged
      requires machine.procs[p] == Proc(op, AtStage(candidate), false, false, false)
      modifies this`staged, this`machine
      ensures Coupled() && Performed(start, more, p, op, faults) && p in machine.procs && machine.procs[p].op == op
      ensures machine.procs[p].leaked <==> code.Some? && p in staged
      ensures code.Some? ==> code.value != Ok && machine.procs[p].phase == AtUnlock(code.value)
      ensures staged == if code.None? || p in staged then old(staged)[p := candidate] else old(staged)
      ensures code == (if faults.stageOk then None else Some(StateFailure))
      ensures p in staged <==> faults.stageOk || faults.stageLeak
      ensures code.None? ==>
        && p in staged && staged[p] == candidate
        && machine.procs[p].phase == if op.Store? && op.storeCredential then AtKeychain else AtReplace
    {
      hide Scheduled, ValidRun, Final, Plan;
      more := Advance(start, es, p, op, faults, Stage(p, faults.stageOk, faults.stageLeak));
      if !faults.stageOk {
        if faults.stageLeak {
          staged := staged[p := candidate];
        }
        return Some(StateFailure), more;
      }
      staged := staged[p := candidate];
      code := None;
    }

    /** Load and check, then stage the candidate file; None goes on, Some returns. */
    method Prepare(p: Pid, op: Op, faults: Faults, ghost start: State, ghost es: seq<Event>)
      returns (code: Option<Code>, ghost more: seq<Event>)
      requires Coupled() && Performed(start, es, p, op, faults) && lock == Some(p)
      requires p in machine.procs && machine.procs[p] == Proc(op, AtLoad, false, false, false) && p !in staged
      modifies this`staged, this`machine
      ensures Coupled() && Performed(start, more, p, op, faults) && p in machine.procs && machine.procs[p].op == op
      ensures machine.procs[p].leaked <==> code.Some? && p in staged
      ensures staged - {p} == old(staged)
      ensures code.Some? ==> code.value != Ok && machine.procs[p].phase == AtUnlock(code.value)
      ensures code == if !faults.loadOk then Some(StateFailure)
                      else if !Plannable(hosts, published, op) then Some(Refusal(published, op))
                      else if faults.stageOk then None else Some(StateFailure)
      ensures p in staged <==> faults.loadOk && Plannable(hosts, published, op) && (faults.stageOk || faults.stageLeak)
      ensures code.None? ==>
        && p in staged && Plan(hosts, published, op) == AtStage(staged[p])
        && machine.procs[p].phase == if op.Store? && op.storeCredential then AtKeychain else AtReplace
    {
      hide Scheduled, ValidRun, Final, Plan, Step, Enabled, Plannable, Refusal;
      var candidate;
      code, candidate, more := LoadCandidate(p, op, faults, start, es);
      if code.None? {
        code, more := StageCandidate(p, op, faults, candidate, start, more);
      }
    }

    /** Run the helper that writes the credential. */
    method WriteCredential(p: Pid, op: Op, faults: Faults, ghost start: State, ghost es: seq<Event>)
      returns (ok: bool, ghost more: seq<Event>)
      requires Coupled() && Performed(start, es, p, op, faults) && op.Store? && p in staged && p in machine.procs
      requires machine.procs[p].op == op && machine.procs[p].phase == AtKeychain
      modifies this`keychain, this`machine
      ensures Coupled() && Performed(start, more, p, op, faults) && ok == (Sendable(op.account, op.secret) && faults.writeOk)
      ensures ok ==> keychain == old(keychain)[op.account := op.secret]
      ensures keychain == if Sendable(op.account, op.secret) && (faults.writeOk || faults.writeEffect)
                          then old(keychain)[op.account := op.secret] else old(keychain)
      ensures p in machine.procs && machine.procs[p].op == op
      ensures machine.procs[p] == old(machine).procs[p].(phase := if ok then AtReplace else AtUnlock(KeychainFailure))
    {
      hide ProfileRecord, Plan, Scheduled, ValidRun, Final, Sendable;
      var sendable := Sendable(op.account, op.secret);
      ok := sendable && faults.writeOk;
      var effect := sendable && (faults.writeOk || faults.writeEffect);
      more := Advance(start, es, p, op, faults, RunWrite(p, ok, effect));
      if effect {
        keychain := keychain[op.account := op.secret];
      }
    }

    /** Rename the staged file over the published one. */
    method PublishStaged(p: Pid, op: Op, faults: Faults, ghost start: State, ghost es: seq<Event>)
      returns (ok: bool, ghost more: seq<Event>)
      requires Coupled() && Performed(start, es, p, op, faults) && p in staged && p in machine.procs
      requires machine.procs[p].op == op && machine.procs[p].phase == AtReplace
      modifies this`published, this`staged, this`machine
      ensures Coupled() && Performed(start, more, p, op, faults) && ok == faults.replaceOk
      ensures p in machine.procs && machine.procs[p].op == op && machine.procs[p].leaked == old(machine).procs[p].leaked
      ensures machine.procs[p].phase == if ok then AfterPublish(hosts, old(published), op) else AtUnlock(StateFailure)
      ensures ok ==> published == old(staged)[p] && staged == old(staged) - {p}
      ensures !ok ==> published == old(published) && staged == old(staged)
    {
      hide ProfileRecord, Plan, AfterPublish, Scheduled, ValidRun, Final, Sendable;
      ok := faults.replaceOk;
      more := Advance(start, es, p, op, faults, Replace(p, ok));
      if ok {
        published := staged[p];
        staged := staged - {p};
      }
    }

    /** Erase the credential of a removed profile, as far as that works. */
    method EraseCredential(p: Pid, op: Op, faults: Faults, ghost start: State, ghost es: seq<Event>)
      returns (ghost more: seq<Event>)
      requires Coupled() && Performed(start, es, p, op, faults) && op.Remove? && p in machine.procs
      requires machine.procs[p].op == op && machine.procs[p].phase == AtDelete
      modifies this`keychain, this`machine
      ensures Coupled() && Performed(start, more, p, op, faults)
      ensures keychain == if faults.eraseEffect then old(keychain) - {op.account} else old(keychain)
      ensures p in machine.procs && machine.procs[p] == old(machine).procs[p].(phase := AtUnlock(Ok))
    {
      hide ProfileRecord, Plan, Scheduled, ValidRun, Final, Sendable;
      more := Advance(start, es, p, op, faults, RunErase(p, faults.eraseEffect));
      if faults.eraseEffect {
        keychain := keychain - {op.account};
      }
    }

    /** Leave the critical section; a failure to unlock replaces the code. */
    method Release(p: Pid, op: Op, result: Code, faults: Faults, ghost start: State, ghost es: seq<Event>)
      returns (code: Code, ghost more: seq<Event>)
      requires Coupled() && Performed(start, es, p, op, faults) && p in machine.procs && machine.procs[p].phase == AtUnlock(result)
      modifies this`lock, this`machine
      ensures Coupled() && Performed(start, more, p, op, faults) && p in machine.procs && lock == None
      ensures machine.procs[p].phase == AtCleanup(code) && machine.procs[p].leaked == old(machine).procs[p].leaked
      ensures code == if faults.unlockOk then result else StateFailure
    {
      hide Plan, Scheduled, ValidRun, Final, EarlyExit, AfterPublish, HelperOf, Put, CommitOf, Sendable;
      more := Advance(start, es, p, op, faults, Unlock(p, faults.unlockOk));
      lock := None;
      code := if faults.unlockOk then result else StateFailure;
    }

    /** Unlink the staged file, if there is one, and return. */
    method Unlink(p: Pid, op: Op, code: Code, stagedPath: bool, faults: Faults, ghost start: State, ghost es: seq<Event>)
      returns (ghost more: seq<Event>)
      requires Coupled() && Performed(start, es, p, op, faults) && p in machine.procs && machine.procs[p].phase == AtCleanup(code)
      requires stagedPath <==> p in staged && !machine.procs[p].leaked
      modifies this`staged, this`machine
      ensures Coupled() && Performed(start, more, p, op, faults)
      ensures p in machine.procs && machine.procs[p].phase == Returned(code)
      ensures staged == if stagedPath && faults.unlinkOk then old(staged) - {p} else old(staged)
    {
      hide Plan, Scheduled, ValidRun, Final, EarlyExit, AfterPublish, HelperOf, Put, CommitOf, Sendable;
      more := Advance(start, es, p, op, faults, Cleanup(p, faults.unlinkOk));
      if stagedPath && faults.unlinkOk {
        staged := staged - {p};
      }
    }

    /** Leave the critical section, then unlink the staged file if there is one. */
    method Finish(p: Pid, op: Op, result: Code, stagedPath: bool, faults: Faults, ghost start: State, ghost es: seq<Event>)
      returns (code: Code, ghost more: seq<Event>)
      requires Coupled() && Performed(start, es, p, op, faults) && p in machine.procs && machine.procs[p].phase == AtUnlock(result)
      requires stagedPath <==> p in staged && !machine.procs[p].leaked
      modifies this`lock, this`staged, this`machine
      ensures Coupled() && Performed(start, more, p, op, faults)
      ensures p in machine.procs && machine.procs[p].phase == Returned(code)
      ensures code == if faults.unlockOk then result else StateFailure
      ensures lock == None && staged == if stagedPath && faults.unlinkOk then old(staged) - {p} else old(staged)
    {
      hide Performed, Step, Enabled;
      code, more := Release(p, op, result, faults, start, es);
      more := Unlink(p, op, code, stagedPath, faults, start, more);
    }

    /** The non-blocking lock; None goes on inside it, Some returns. */
    method Acquire(p: Pid, op: Op, faults: Faults, ghost start: State, ghost es: seq<Event>)
      returns (code: Option<Code>, ghost more: seq<Event>)
      requires Coupled() && Performed(start, es, p, op, faults) && p in machine.procs && p !in staged
      requires machine.procs[p] == Proc(op, AtLock, false, false, false)
      modifies this`lock, this`machine
      ensures Coupled() && Performed(start, more, p, op, faults) && p in machine.procs
      ensures code.Some? ==> code.value != Ok && machine.procs[p].phase == Returned(code.value) && lock == old(lock)
      ensures code == if !faults.lockOk then Some(StateFailure) else if old(lock).Some? then Some(Busy) else None
      ensures code.None? ==>
        old(lock) == None && lock == Some(p) && machine.procs[p] == Proc(op, AtLoad, false, false, false)
    {
      hide ProfileRecord, Plan, ValidAccount, Scheduled, ValidRun, Final, EarlyExit, AfterPublish, HelperOf, Put, CommitOf;
      hide Sendable;
      more := Advance(start, es, p, op, faults, TryLock(p, faults.lockOk));
      if !faults.lockOk || lock.Some? {
        code := Some(if faults.lockOk then Busy else StateFailure);
        more := Advance(start, more, p, op, faults, Cleanup(p, faults.unlinkOk));
        return;
      }
      lock := Some(p);
      code := None;
    }

    /** Start a call: the early checks, then the lock. */
    method Enter(p: Pid, op: Op, faults: Faults)
      returns (code: Option<Code>, ghost es: seq<Event>)
      requires Coupled() && p !in machine.procs && p !in staged
      modifies this`lock, this`machine
      ensures Coupled() && Performed(old(machine), es, p, op, faults) && p in machine.procs
      ensures code.Some? ==> code.value != Ok && machine.procs[p].phase == Returned(code.value) && lock == old(lock)
      ensures code == if EarlyExit(op).Some? then EarlyExit(op)
                      else if !faults.lockOk then Some(StateFailure) else if old(lock).Some? then Some(Busy) else None
      ensures code.None? ==>
        old(lock) == None && lock == Some(p) && machine.procs[p] == Proc(op, AtLoad, false, false, false)
    {
      NoSteps(machine, p, op, faults);
      EarlyExitFails(op);
      hide ProfileRecord, Plan, ValidAccount, Scheduled, ValidRun, Final, EarlyExit, AfterPublish, HelperOf, Put, CommitOf;
      hide Sendable;
      ghost var start := machine;
      es := Advance(start, [], p, op, faults, Spawn(p, op));
      code := EarlyExit(op);
      if code.None? {
        code, es := Acquire(p, op, faults, start, es);
      }
    }

    /** Write the credential, if there is one to store, and publish. */
    method CommitStore(p: Pid, op: Op, faults: Faults, ghost start: State, ghost es: seq<Event>)
      returns (result: Code, stagedPath: bool, ghost more: seq<Event>)
      requires Coupled() && Performed(start, es, p, op, faults) && op.Store? && p in staged && p in machine.procs
      requires machine.procs[p].op == op && !machine.procs[p].leaked
      requires machine.procs[p].phase == if op.storeCredential then AtKeychain else AtReplace
      modifies this`published, this`keychain, this`staged, this`machine
      ensures Coupled() && Performed(start, more, p, op, faults)
      ensures p in machine.procs && machine.procs[p].phase == AtUnlock(result) && !machine.procs[p].leaked
      ensures stagedPath <==> p in staged
      ensures result == Ok ==>
        && published == old(staged)[p] && staged == old(staged) - {p}
        && keychain == if op.storeCredential then old(keychain)[op.account := op.secret] else old(keychain)
      ensures result != Ok ==> published == old(published) && staged == old(staged)
      ensures result == if op.storeCredential && !(Sendable(op.account, op.secret) && faults.writeOk) then KeychainFailure
                        else if faults.replaceOk then Ok else StateFailure
      ensures keychain == if op.storeCredential && Sendable(op.account, op.secret) && (faults.writeOk || faults.writeEffect)
                          then old(keychain)[op.account := op.secret] else old(keychain)
    {
      hide ProfileRecord, Plan, EarlyExit, Step, Enabled, Scheduled, ValidRun, Final, Sendable, StoredEntry;
      stagedPath := true;
      result := StateFailure;
      more := es;
      var ok := true;
      if op.storeCredential {
        ok, more := WriteCredential(p, op, faults, start, more);
        result := KeychainFailure;
      }
      if ok {
        ok, more := PublishStaged(p, op, faults, start, more);
        result := if ok then Ok else StateFailure;
        stagedPath := !ok;
      }
    }

    /** What `store_profile` does inside the lock. */
    method StoreInside(p: Pid, op: Op, faults: Faults, ghost start: State, ghost es: seq<Event>)
      returns (result: Code, stagedPath: bool, ghost more: seq<Event>)
      requires Coupled() && Performed(start, es, p, op, faults) && lock == Some(p) && op.Store?
      requires p in machine.procs && machine.procs[p] == Proc(op, AtLoad, false, false, false) && p !in staged
      modifies this`published, this`keychain, this`staged, this`machine
      ensures Coupled() && Performed(start, more, p, op, faults)
      ensures p in machine.procs && machine.procs[p].phase == AtUnlock(result)
      ensures stagedPath <==> p in staged && !machine.procs[p].leaked
      ensures staged - {p} == old(staged)
      ensures result == Ok ==>
        && op.account !in old(published) && published == old(published)[op.account := StoredEntry(op)] && p !in staged
        && keychain == if op.storeCredential then old(keychain)[op.account := op.secret] else old(keychain)
      ensures result != Ok ==> published == old(published)
      ensures result == Result(hosts, old(published), op, faults)
      ensures keychain == if Ready(hosts, old(published), op, faults) && faults.stageOk && Written(op, faults)
                          then old(keychain)[op.account := op.secret] else old(keychain)
      ensures p in staged <==> LeftStaged(hosts, old(published), op, faults)
      ensures stagedPath <==> p in staged && faults.stageOk
    {
      hide ProfileRecord, Plan, EarlyExit, Step, Enabled, Sendable, StoredEntry, Performed, Plannable, Refusal;
      result, stagedPath := StateFailure, false;
      var early;
      early, more := Prepare(p, op, faults, start, es);
      if early.Some? {
        result := early.value;
      } else {
        PlanShape(hosts, published, op, staged[p]);
        result, stagedPath, more := CommitStore(p, op, faults, start, more);
      }
    }

    /** A store from its early checks to its return. */
    method RunStore(p: Pid, op: Op, faults: Faults)
      returns (code: Code, ghost es: seq<Event>)
      requires Coupled() && p !in machine.procs && p !in staged && op.Store?
      modifies this
      ensures Coupled() && Performed(old(machine), es, p, op, faults)
      ensures p in machine.procs && machine.procs[p].phase == Returned(code)
      ensures lock == old(lock) && staged - {p} == old(staged)
      ensures code == Answer(hosts, old(published), old(lock), op, faults)
      ensures published == if Entered(op, old(lock), faults) && Result(hosts, old(published), op, faults) == Ok
                           then old(published)[op.account := StoredEntry(op)] else old(published)
      ensures keychain == if Entered(op, old(lock), faults) && Ready(hosts, old(published), op, faults)
                             && faults.stageOk && Written(op, faults)
                          then old(keychain)[op.account := op.secret] else old(keychain)
      ensures p in staged <==>
        Entered(op, old(lock), faults) && LeftStaged(hosts, old(published), op, faults) && !(faults.stageOk && faults.unlinkOk)
    {
      hide Performed, ProfileRecord, Plan, EarlyExit, Step, Enabled, Sendable, Result, Ready, Written, StoredEntry;
      ghost var start := machine;
      var early;
      early, es := Enter(p, op, faults);
      if early.Some? {
        return early.value, es;
      }
      var result, stagedPath;
      result, stagedPath, es := StoreInside(p, op, faults, start, es);
      code, es := Finish(p, op, result, stagedPath, faults, start, es);
    }

    /** `store_profile`: its result is that of a run of the protocol in which nobody else moves. */
    method StoreProfile(p: Pid, account: string, secret: seq<Byte>, connection: string,
                        storeCredential: bool, credentialRequired: bool, faults: Faults)
      returns (code: Code, ghost es: seq<Event>)
      requires Coupled() && p !in machine.procs && p !in staged
      modifies this
      ensures var op := Op.Store(account, secret, connection, storeCredential, credentialRequired);
        Coupled() && Performed(old(machine), es, p, op, faults)
      ensures p in machine.procs && machine.procs[p].phase == Returned(code)
      ensures lock == old(lock) && staged - {p} == old(staged)
      ensures var proper := ProperStore(account, secret, storeCredential, credentialRequired);
        var entered := proper && faults.lockOk && old(lock) == None;
        var ready := entered && faults.loadOk && account !in old(published)
          && ProfileRecord(hosts, Record(Some(connection), Flag(credentialRequired))).Some?;
        var sent := storeCredential ==> Sendable(account, secret) && faults.writeOk;
        var committed := ready && faults.stageOk && sent && faults.replaceOk;
        && (code == Ok <==> committed && faults.unlockOk)
        && (code == Exists <==> entered && faults.loadOk && account in old(published) && faults.unlockOk)
        && (code == Busy <==> proper && faults.lockOk && old(lock).Some?)
        && (code == KeychainFailure <==>
              || (ProperName(account) && credentialRequired && secret == [])
              || (ready && faults.stageOk && !sent && faults.unlockOk))
        && code != NotFound
        && (code == StateFailure <==>
              || !ProperName(account) || (!credentialRequired && (secret != [] || storeCredential))
              || (proper && !faults.lockOk)
              || (entered && (!faults.unlockOk || !faults.loadOk))
              || (entered && account !in old(published) && (!ready || !faults.stageOk || (sent && !faults.replaceOk))))
        && published == (if committed then old(published)[account := Record(Some(connection), Flag(credentialRequired))]
                         else old(published))
        && keychain == (if ready && faults.stageOk && storeCredential && Sendable(account, secret)
                           && (faults.writeOk || faults.writeEffect)
                        then old(keychain)[account := secret] else old(keychain))
        && (p in staged <==> ready && if faults.stageOk then !committed && !faults.unlinkOk else faults.stageLeak)
    {
      hide Performed, ProfileRecord, EarlyExit, Sendable, ProperStore, ProperName, Answer, Result, Entered, LeftStaged, Ready, Written;
      var op := Op.Store(account, secret, connection, storeCredential, credentialRequired);
      StoreAnswers(hosts, published, lock, op, faults);
      code, es := RunStore(p, op, faults);
    }

    /** `store_profile_uri` on decoded input; on other systems than macOS no credential is stored. */
    method StoreProfileUri(p: Pid, account: string, text: string, darwin: bool, faults: Faults)
      returns (code: Code, credential: bool)
      requires Coupled() && p !in machine.procs && p !in staged
      modifies this
      ensures Coupled()
      ensures ParseProfileUri(hosts, text).None? ==>
        && code == StateFailure && !credential
        && published == old(published) && keychain == old(keychain) && lock == old(lock) && staged == old(staged)
      ensures ParseProfileUri(hosts, text).Some? ==>
        var q := ParseProfileUri(hosts, text).value;
        && credential == q.credential
        && (code == Ok <==>
              && ProperName(account) && faults.lockOk && old(lock) == None && faults.loadOk && account !in old(published)
              && RecordFits(hosts, text) && faults.stageOk
              && (q.credential && darwin ==> Sendable(account, q.secret) && faults.writeOk)
              && faults.replaceOk && faults.unlockOk)
        && (code == Ok ==>
              && published == old(published)[account := RecordOf(q)]
              && keychain == if q.credential && darwin then old(keychain)[account := q.secret] else old(keychain))
    {
      var parsed := ParseProfileUri(hosts, text);
      if parsed.None? {
        return StateFailure, false;
      }
      ParsedSecret(hosts, text);
      RecordOfParsedUri(hosts, text);
      hide Performed, ParseProfileUri, ProfileRecord, ProperName, Sendable, RecordFits;
      var q := parsed.value;
      credential := q.credential;
      ghost var es;
      code, es := StoreProfile(p, account, q.secret, q.connection, q.credential && darwin, q.credential, faults);
    }

    /** Publish the smaller map, then erase the credential that the removed record stands for. */
    method CommitRemove(p: Pid, op: Op, faults: Faults, ghost start: State, ghost es: seq<Event>)
      returns (result: Code, stagedPath: bool, ghost more: seq<Event>)
      requires Coupled() && Performed(start, es, p, op, faults) && op.Remove? && p in staged && p in machine.procs
      requires machine.procs[p].op == op && machine.procs[p].phase == AtReplace && !machine.procs[p].leaked
      requires op.account in published && ProfileRecord(hosts, published[op.account]).Some?
      modifies this`published, this`keychain, this`staged, this`machine
      ensures Coupled() && Performed(start, more, p, op, faults)
      ensures p in machine.procs && machine.procs[p].phase == AtUnlock(result) && !machine.procs[p].leaked
      ensures stagedPath <==> p in staged
      ensures result == Ok ==>
        && published == old(staged)[p] && staged == old(staged) - {p}
        && keychain == if op.deleteCredential && faults.eraseEffect && NeedsCredential(hosts, old(published)[op.account])
                       then old(keychain) - {op.account} else old(keychain)
      ensures result != Ok ==> published == old(published) && staged == old(staged) && keychain == old(keychain)
      ensures result == if faults.replaceOk then Ok else StateFailure
    {
      hide ProfileRecord, Plan, EarlyExit, Step, Enabled, Scheduled, ValidRun, Final, Sendable, Performed;
      var required := ProfileRecord(hosts, published[op.account]).value.1;
      var ok;
      ok, more := PublishStaged(p, op, faults, start, es);
      stagedPath := !ok;
      result := if ok then Ok else StateFailure;
      if ok && op.deleteCredential && required {
        more := EraseCredential(p, op, faults, start, more);
      }
    }

    /** What `remove_profile` does inside the lock. */
    method RemoveInside(p: Pid, op: Op, faults: Faults, ghost start: State, ghost es: seq<Event>)
      returns (result: Code, stagedPath: bool, ghost more: seq<Event>)
      requires Coupled() && Performed(start, es, p, op, faults) && lock == Some(p) && op.Remove?
      requires p in machine.procs && machine.procs[p] == Proc(op, AtLoad, false, false, false) && p !in staged
      modifies this`published, this`keychain, this`staged, this`machine
      ensures Coupled() && Performed(start, more, p, op, faults)
      ensures p in machine.procs && machine.procs[p].phase == AtUnlock(result)
      ensures stagedPath <==> p in staged && !machine.procs[p].leaked
      ensures staged - {p} == old(staged)
      ensures result == Ok ==>
        && op.account in old(published) && published == old(published) - {op.account} && p !in staged
        && keychain == if op.deleteCredential && faults.eraseEffect && NeedsCredential(hosts, old(published)[op.account])
                       then old(keychain) - {op.account} else old(keychain)
      ensures result != Ok ==> published == old(published) && keychain == old(keychain)
      ensures result == Result(hosts, old(published), op, faults)
      ensures p in staged <==> LeftStaged(hosts, old(published), op, faults)
      ensures stagedPath <==> p in staged && faults.stageOk
    {
      hide Performed, ProfileRecord, Plan, EarlyExit, Step, Enabled, Sendable, Plannable, Refusal;
      result, stagedPath := StateFailure, false;
      var early;
      early, more := Prepare(p, op, faults, start, es);
      if early.Some? {
        result := early.value;
      } else {
        PlanShape(hosts, published, op, staged[p]);
        PlannedRecord(hosts, published, op, staged[p]);
        result, stagedPath, more := CommitRemove(p, op, faults, start, more);
      }
    }

    /** A removal from its early checks to its return. */
    method RunRemove(p: Pid, op: Op, faults: Faults)
      returns (code: Code, ghost es: seq<Event>)
      requires Coupled() && p !in machine.procs && p !in staged && op.Remove?
      modifies this
      ensures Coupled() && Performed(old(machine), es, p, op, faults)
      ensures p in machine.procs && machine.procs[p].phase == Returned(code)
      ensures lock == old(lock) && staged - {p} == old(staged)
      ensures code == Answer(hosts, old(published), old(lock), op, faults)
      ensures var committed := Entered(op, old(lock), faults) && Result(hosts, old(published), op, faults) == Ok;
        && published == (if committed then old(published) - {op.account} else old(published))
        && keychain == (if committed && op.deleteCredential && faults.eraseEffect && op.account in old(published)
                           && NeedsCredential(hosts, old(published)[op.account])
                        then old(keychain) - {op.account} else old(keychain))
      ensures p in staged <==>
        Entered(op, old(lock), faults) && LeftStaged(hosts, old(published), op, faults) && !(faults.stageOk && faults.unlinkOk)
    {
      hide Performed, ProfileRecord, Plan, EarlyExit, Step, Enabled, Sendable, Result, Ready, NeedsCredential;
      ghost var start := machine;
      var early;
      early, es := Enter(p, op, faults);
      if early.Some? {
        return early.value, es;
      }
      var result, stagedPath;
      result, stagedPath, es := RemoveInside(p, op, faults, start, es);
      code, es := Finish(p, op, result, stagedPath, faults, start, es);
    }

    /** `remove_profile`, likewise. */
    method RemoveProfile(p: Pid, account: string, deleteCredential: bool, faults: Faults)
      returns (code: Code, ghost es: seq<Event>)
      requires Coupled() && p !in machine.procs && p !in staged
      modifies this
      ensures Coupled() && Performed(old(machine), es, p, Op.Remove(account, deleteCredential), faults)
      ensures p in machine.procs && machine.procs[p].phase == Returned(code)
      ensures lock == old(lock) && staged - {p} == old(staged)
      ensures var entered := ProperName(account) && faults.lockOk && old(lock) == None;
        var ready := entered && faults.loadOk && account in old(published) && ProfileRecord(hosts, old(published)[account]).Some?;
        var committed := ready && faults.stageOk && faults.replaceOk;
        && (code == Ok <==> committed && faults.unlockOk)
        && (code == NotFound <==> entered && faults.loadOk && account !in old(published) && faults.unlockOk)
        && (code == Busy <==> ProperName(account) && faults.lockOk && old(lock).Some?)
        && code != Exists && code != KeychainFailure
        && (code == StateFailure <==>
              || !ProperName(account) || !faults.lockOk
              || (entered && (!faults.unlockOk || !faults.loadOk))
              || (entered && account in old(published) && !committed))
        && published == (if committed then old(published) - {account} else old(published))
        && keychain == (if committed && deleteCredential && faults.eraseEffect && ProfileRecord(hosts, old(published)[account]).value.1
                        then old(keychain) - {account} else old(keychain))
        && (p in staged <==> ready && if faults.stageOk then !committed && !faults.unlinkOk else faults.stageLeak)
    {
      hide Performed, ProfileRecord, EarlyExit, ProperName, Answer, Result, Entered, LeftStaged, Ready;
      var op := Op.Remove(account, deleteCredential);
      RemoveAnswers(hosts, published, lock, op, faults);
      code, es := RunRemove(p, op, faults);
    }
  }
}
