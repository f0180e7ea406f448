/**
 Several profiles files over one Keychain. The path of a file, and with it the lock, is an argument
 of every call; the Keychain is the user's, and its items are named by the account alone. So what a
 call on one file does to the Keychain is done to all of them.
 */
module ProfileFiles {
  import opened Text
  import opened ProfileProtocol
  import opened ProfileRuns

  type File = string

  /** The Keychain, and of each file everything else. */
  datatype System = System(keychain: Secrets, files: map<File, State>)

  /** A step of the calls on one file. */
  datatype Act = Act(file: File, event: Event)

  /** What the calls on the file work on. */
  function View(w: System, f: File): State
    requires f in w.files
  {
    w.files[f].(keychain := w.keychain)
  }

  predicate Possible(w: System, a: Act) { a.file in w.files && Enabled(View(w, a.file), a.event) }

  function Next(w: System, a: Act): System
    requires Possible(w, a)
  {
    var t := Step(View(w, a.file), a.event);
    System(t.keychain, w.files[a.file := t])
  }

  predicate ValidActs(w: System, acts: seq<Act>)
    decreases |acts|
  {
    acts != [] ==> Possible(w, acts[0]) && ValidActs(Next(w, acts[0]), acts[1..])
  }

  function FinalSystem(w: System, acts: seq<Act>): (t: System)
    requires ValidActs(w, acts)
    ensures t.files.Keys == w.files.Keys
    decreases |acts|
  {
    if acts == [] then w else FinalSystem(Next(w, acts[0]), acts[1..])
  }

  /** Which accounts the calls on each file may name. */
  type Names = File -> Accounts

  predicate PermittedActs(own: Names, around: Surroundings, w: System, acts: seq<Act>) {
    && (forall f :: f in w.files ==> Initial(w.files[f]))
    && ValidActs(w, acts)
    && (forall a :: a in acts ==> Permitted(own(a.file), around, a.event))
  }

  /** Every run keeps the secret of each profile of each file. */
  ghost predicate AllKept(files: set<File>, own: Names, around: Surroundings) {
    forall w: System, acts, f | w.files.Keys == files && PermittedActs(own, around, w, acts) && f in files ::
      Consistent(w.files[f].published, View(FinalSystem(w, acts), f))
  }

  /** No account that can have a secret is touched outside, and none belongs to two files. */
  ghost predicate Separate(files: set<File>, own: Names, around: Surroundings) {
    && (forall f | f in files :: Confined(own(f), around))
    && (forall f, g, a | f in files && g in files && f != g :: !(Bindable(own(f), a) && Bindable(own(g), a)))
  }

  // ---------------------------------------------------------------- one file as the others see it

  /** What a step of the calls on one file is for all the other files. */
  function Echo(s: State, e: Event): Option<Event>
    requires Enabled(s, e)
  {
    match e
    case RunWrite(p, _, effect) => if effect then Some(DirectWrite(s.procs[p].op.account, s.procs[p].op.secret)) else None
    case RunErase(p, effect) => if effect then Some(DirectErase(s.procs[p].op.account)) else None
    case DirectWrite(_, _) => Some(e)
    case DirectErase(_) => Some(e)
    case _ => None
  }

  /** The accounts of processes at work are those of the file, and have passed the early checks. */
  lemma WorkerIsOwn(start: Profiles, s: State, p: Pid, g: Guard)
    requires Inv(start, s, g) && p in s.procs && !s.procs[p].phase.Returned?
    ensures ValidAccount(s.procs[p].op.account) && g.own(s.procs[p].op.account)
    ensures s.procs[p].phase.AtDelete? ==> s.procs[p].op.Remove?
  {
    hide LedgerOk, Consistent, HistoryOk, ValidAccount, Plan;
    assert ProcOk(s, p, g);
  }

  lemma NameErasable(account: string)
    requires ValidAccount(account)
    ensures Erasable(account)
  {}

  /** What an outside mutation does, in any state. */
  lemma OutsideStep(s: State, e: Event)
    requires e.DirectWrite? || e.DirectErase?
    ensures Enabled(s, e) && Outside(e)
    ensures e.DirectWrite? ==>
      Step(s, e) == if Sendable(e.account, e.secret) then s.(keychain := s.keychain[e.account := e.secret]) else s
    ensures e.DirectErase? ==>
      Step(s, e) == if Erasable(e.account) then s.(keychain := s.keychain - {e.account}) else s
  {
    hide Sendable, Erasable, Plan, AfterPublish, EarlyExit, CommitOf, HelperOf, Put;
  }

  lemma HelperStep(s: State, e: Event)
    requires Enabled(s, e) && (e.RunWrite? || e.RunErase?)
    ensures e.pid in s.procs && !s.procs[e.pid].phase.Returned? && (e.RunErase? ==> s.procs[e.pid].phase.AtDelete?)
    ensures e.RunWrite? ==> s.procs[e.pid].op.Store? && (e.effect ==> Sendable(s.procs[e.pid].op.account, s.procs[e.pid].op.secret))
    ensures Step(s, e).keychain == if e.effect then Put(s.keychain, HelperOf(s.procs[e.pid].op)) else s.keychain
  {
    hide Sendable, Plan, AfterPublish, EarlyExit, CommitOf, HelperOf, Put;
  }

  lemma EchoIsOutside(s: State, e: Event)
    requires Enabled(s, e)
    ensures Echo(s, e).Some? ==> Echo(s, e).value.DirectWrite? || Echo(s, e).value.DirectErase?
  {
    hide Sendable;
  }

  /** Apart from late helpers, a step under one file is for another file an outside mutation, or nothing. */
  lemma EchoIsSeen(start: Profiles, s: State, e: Event, g: Guard, other: State)
    requires Inv(start, s, g) && Enabled(s, e) && !e.LateHelper? && other.keychain == s.keychain
    ensures other.(keychain := Step(s, e).keychain) ==
      match Echo(s, e) case Some(echo) => (OutsideStep(other, echo); Step(other, echo)) case None => other
  {
    hide Inv, Step, Enabled, ValidAccount, Sendable, Erasable;
    EchoIsOutside(s, e);
    if Echo(s, e).Some? {
      OutsideStep(other, Echo(s, e).value);
    }
    if e.RunWrite? || e.RunErase? {
      HelperStep(s, e);
      WorkerIsOwn(start, s, e.pid, g);
      NameErasable(s.procs[e.pid].op.account);
    } else if Outside(e) {
      OutsideStep(s, e);
    } else {
      KeychainFrame(s, e);
    }
  }

  /** Where no account belongs to two files, it does no harm. */
  lemma EchoIsHarmless(start: Profiles, s: State, e: Event, own: Accounts, around: Surroundings, theirs: Accounts)
    requires Inv(start, s, Guard(true, own)) && Enabled(s, e) && Permitted(own, around, e) && Confined(theirs, around)
    requires forall a :: !(Bindable(own, a) && Bindable(theirs, a))
    ensures Echo(s, e).Some? ==> Harmless(Echo(s, e).value, theirs)
  {
    hide Inv, Step, ValidAccount, AccountFits, Sendable;
    if e.RunWrite? && e.effect {
      HelperStep(s, e);
      var op := s.procs[e.pid].op;
      WorkerIsOwn(start, s, e.pid, Guard(true, own));
      SendableFits(op.account, op.secret);
      assert Bindable(own, op.account);
    } else if e.RunErase? {
      HelperStep(s, e);
      WorkerIsOwn(start, s, e.pid, Guard(true, own));
      assert Bindable(theirs, s.procs[e.pid].op.account) ==> Bindable(own, s.procs[e.pid].op.account);
    }
  }

  // ---------------------------------------------------------------- what every run keeps

  /** Every file keeps its own invariant. */
  ghost predicate FilesInv(start: System, w: System, own: Names, safe: bool) {
    && w.files.Keys == start.files.Keys
    && (forall f :: f in w.files ==> Inv(start.files[f].published, View(w, f), Guard(safe, own(f))))
  }

  /** Without promises about secrets, the Keychain does not matter. */
  lemma UnsafeIgnoresKeychain(start: Profiles, s: State, own: Accounts, keychain: Secrets)
    requires Inv(start, s, Guard(false, own))
    ensures Inv(start, s.(keychain := keychain), Guard(false, own))
  {
    hide Plan, ValidAccount, AccountFits, Sendable, Replay, LegalRun, Pids, Publishers, CommitOf, EarlyExit;
    var g := Guard(false, own);
    var t := s.(keychain := keychain);
    forall p | p in t.procs
      ensures ProcOk(t, p, g)
    {
      assert ProcOk(s, p, g);
    }
  }

  lemma ActKeepsOthers(start: System, w: System, a: Act, own: Names, around: Surroundings, f: File)
    requires FilesInv(start, w, own, true) && Possible(w, a) && Permitted(own(a.file), around, a.event)
    requires Separate(w.files.Keys, own, around) && !around.late && f in w.files && f != a.file
    ensures Inv(start.files[f].published, View(Next(w, a), f), Guard(true, own(f)))
  {
    hide Inv, Step, Enabled, Bindable, Harmless;
    var s := View(w, a.file);
    EchoIsSeen(start.files[a.file].published, s, a.event, Guard(true, own(a.file)), View(w, f));
    EchoIsHarmless(start.files[a.file].published, s, a.event, own(a.file), around, own(f));
    EchoIsOutside(s, a.event);
    if Echo(s, a.event).Some? {
      OutsideStep(View(w, f), Echo(s, a.event).value);
      StepKeepsInv(start.files[f].published, View(w, f), Echo(s, a.event).value, Guard(true, own(f)));
    }
  }

  lemma ActKeepsOwn(start: System, w: System, a: Act, own: Names, around: Surroundings, safe: bool)
    requires FilesInv(start, w, own, safe) && Possible(w, a) && Permitted(own(a.file), around, a.event)
    requires safe ==> Separate(w.files.Keys, own, around) && !around.late
    ensures Inv(start.files[a.file].published, View(Next(w, a), a.file), Guard(safe, own(a.file)))
  {
    hide Inv, Step, Enabled, Bindable;
    var s := View(w, a.file);
    assert View(Next(w, a), a.file) == Step(s, a.event);
    if safe {
      ConfinedAdmits(own(a.file), around, a.event);
    }
    hide Next, FilesInv, Separate, Confined;
    StepKeepsInv(start.files[a.file].published, s, a.event, Guard(safe, own(a.file)));
  }

  lemma ActKeepsInv(start: System, w: System, a: Act, own: Names, around: Surroundings, safe: bool)
    requires FilesInv(start, w, own, safe) && Possible(w, a) && Permitted(own(a.file), around, a.event)
    requires safe ==> Separate(w.files.Keys, own, around) && !around.late
    ensures FilesInv(start, Next(w, a), own, safe)
  {
    hide Inv, Step, Enabled, Bindable;
    forall f | f in w.files
      ensures Inv(start.files[f].published, View(Next(w, a), f), Guard(safe, own(f)))
    {
      if f == a.file {
        ActKeepsOwn(start, w, a, own, around, safe);
      } else if safe {
        ActKeepsOthers(start, w, a, own, around, f);
      } else {
        UnsafeIgnoresKeychain(start.files[f].published, View(w, f), own(f), Next(w, a).keychain);
      }
    }
  }

  lemma {:induction false} ActsKeepInv(start: System, w: System, acts: seq<Act>, own: Names, around: Surroundings, safe: bool)
    requires FilesInv(start, w, own, safe) && ValidActs(w, acts)
    requires forall a :: a in acts ==> Permitted(own(a.file), around, a.event)
    requires safe ==> Separate(w.files.Keys, own, around) && !around.late
    ensures FilesInv(start, FinalSystem(w, acts), own, safe)
    decreases |acts|
  {
    hide FilesInv, Possible, Next, Separate, Permitted;
    if acts != [] {
      ActKeepsInv(start, w, acts[0], own, around, safe);
      NextFiles(w, acts[0]);
      ActsKeepInv(start, Next(w, acts[0]), acts[1..], own, around, safe);
    }
  }

  lemma StartKeepsInv(w: System, own: Names, safe: bool)
    requires forall f :: f in w.files ==> Initial(w.files[f])
    ensures FilesInv(w, w, own, safe)
  {
    hide Inv;
    forall f | f in w.files
      ensures Inv(w.files[f].published, View(w, f), Guard(safe, own(f)))
    {
      InitialInv(View(w, f), Guard(safe, own(f)));
    }
  }

  lemma NextFiles(w: System, a: Act)
    requires Possible(w, a)
    ensures Next(w, a).files.Keys == w.files.Keys
  {}

  lemma SeparateFilesKept(files: set<File>, own: Names, around: Surroundings)
    requires Separate(files, own, around)
    ensures AllKept(files, own, around)
  {
    hide Step, Enabled, Bindable, Inv, Permitted, Initial;
    forall w: System, acts, f | w.files.Keys == files && PermittedActs(own, around, w, acts) && f in files
      ensures Consistent(w.files[f].published, View(FinalSystem(w, acts), f))
    {
      StartKeepsInv(w, own, !around.late);
      ActsKeepInv(w, w, acts, own, around, !around.late);
      GuardedConsistent(w.files[f].published, View(FinalSystem(w, acts), f), own(f), around);
    }
  }

  /** Whatever is done under other files, or outside, the map of each file is that of a sequential run. */
  lemma EachFileSequential(w: System, acts: seq<Act>, f: File)
    requires (forall h :: h in w.files ==> Initial(w.files[h])) && ValidActs(w, acts) && f in w.files
    ensures Sequential(w.files[f].published, View(FinalSystem(w, acts), f))
  {
    hide Step, Enabled, Inv, Initial, Sequential;
    var own := _ => _ => true;
    var around := Surroundings(_ => true, _ => true, true);
    StartKeepsInv(w, own, false);
    ActsKeepInv(w, w, acts, own, around, false);
    InvIsSequential(w.files[f].published, View(FinalSystem(w, acts), f), Guard(false, own(f)));
  }

  // ---------------------------------------------------------------- runs of one file

  function Lift(f: File, es: seq<Event>): (acts: seq<Act>)
    ensures |acts| == |es| && forall i :: 0 <= i < |es| ==> acts[i] == Act(f, es[i])
  {
    seq(|es|, i requires 0 <= i < |es| => Act(f, es[i]))
  }

  /** A run on one file is a run of the system, which leaves the other files as they are. */
  lemma {:induction false} LiftRuns(w: System, f: File, es: seq<Event>)
    requires f in w.files && ValidRun(View(w, f), es)
    ensures ValidActs(w, Lift(f, es))
    ensures var t := FinalSystem(w, Lift(f, es));
      && View(t, f) == Final(View(w, f), es)
      && (forall g :: g in w.files && g != f ==> t.files[g] == w.files[g])
    decreases |es|
  {
    hide Step, Enabled;
    if es != [] {
      var a := Act(f, es[0]);
      assert Lift(f, es)[1..] == Lift(f, es[1..]);
      assert View(Next(w, a), f) == Step(View(w, f), es[0]);
      LiftRuns(Next(w, a), f, es[1..]);
    }
  }

  lemma {:induction false} ActsConcat(w: System, a: seq<Act>, b: seq<Act>)
    requires ValidActs(w, a) && ValidActs(FinalSystem(w, a), b)
    ensures ValidActs(w, a + b) && FinalSystem(w, a + b) == FinalSystem(FinalSystem(w, a), b)
    decreases |a|
  {
    hide Possible, Next;
    if a == [] {
      assert a + b == b;
    } else {
      assert (a + b)[1..] == a[1..] + b;
      ActsConcat(Next(w, a[0]), a[1..], b);
    }
  }

  /** What the system promises for all files, it promises for each. */
  lemma EachFileKept(files: set<File>, own: Names, around: Surroundings, f: File)
    requires AllKept(files, own, around) && f in files
    ensures AlwaysConsistent(own(f), around)
  {
    hide Step, Enabled, Consistent, Permitted, Initial;
    forall s, es | PermittedRun(own(f), around, s, es)
      ensures Consistent(s.published, Final(s, es))
    {
      InitialEmpty();
      var w := System(s.keychain, map g | g in files :: if g == f then s else Empty());
      assert View(w, f) == s;
      LiftRuns(w, f, es);
      assert w.files.Keys == files;
      assert PermittedActs(own, around, w, Lift(f, es));
    }
  }

  /** A state of the calls on one file in which the account can be stored. */
  predicate Ready(s: State, account: string) {
    s.lock == None && 0 !in s.procs && 0 !in s.staged && account !in s.published
  }

  /** A store under one file, as a run of the system. */
  lemma StoreActs(w: System, f: File, account: string, secret: seq<Byte>) returns (acts: seq<Act>)
    requires f in w.files && Ready(View(w, f), account) && ValidAccount(account) && Sendable(account, secret)
    ensures ValidActs(w, acts) && forall a :: a in acts ==> a.file == f && CallsOn(account, a.event)
    ensures var t := FinalSystem(w, acts);
      && t.keychain == w.keychain[account := secret]
      && t.files[f].log == w.files[f].log + [CommitOf(0, SampleStore(account, secret))]
      && (forall g :: g in w.files && g != f ==> t.files[g] == w.files[g])
  {
    hide Step, Enabled, Sendable, ValidAccount, SampleStore, ValidRun, Final;
    var es := StoreRuns(View(w, f), 0, account, secret);
    LiftRuns(w, f, es);
    acts := Lift(f, es);
    assert View(FinalSystem(w, acts), f) == Final(View(w, f), es);
  }

  lemma EmptyReady(account: string)
    ensures Initial(Empty()) && forall keychain :: Ready(Empty().(keychain := keychain), account)
  {}

  lemma OverwrittenSecret(t: State, account: string)
    requires t.log == [] + [CommitOf(0, SampleStore(account, [1]))] && t.keychain == map[account := [1]][account := [2]]
    ensures !Consistent(map[], t)
  {
    hide SampleStore;
    BoundAfterStore(0, account, [1]);
    assert account in Bound(map[], t);
  }

  /** No file holds a profile yet. */
  function Blank(files: set<File>): System { System(map[], map f | f in files :: Empty()) }

  /** The same account stored under two files: the second store replaces the secret of the first profile. */
  lemma TwoStores(files: set<File>, f: File, g: File, account: string) returns (acts: seq<Act>)
    requires f in files && g in files && f != g && ValidAccount(account) && AccountFits(account)
    ensures ValidActs(Blank(files), acts) && !Consistent(map[], View(FinalSystem(Blank(files), acts), f))
    ensures forall a :: a in acts ==> (a.file == f || a.file == g) && CallsOn(account, a.event)
  {
    OneByteFits(account, 1);
    OneByteFits(account, 2);
    EmptyReady(account);
    hide Step, Enabled, Sendable, ValidAccount, SampleStore, Initial, Ready, Consistent, Empty, ValidActs, FinalSystem, CallsOn;
    var w := Blank(files);
    assert View(w, f) == Empty().(keychain := map[]);
    var a := StoreActs(w, f, account, [1]);
    var between := FinalSystem(w, a);
    assert View(between, g) == Empty().(keychain := between.keychain);
    var b := StoreActs(between, g, account, [2]);
    ActsConcat(w, a, b);
    acts := a + b;
    BlankLog(files, f);
    OverwrittenSecret(View(FinalSystem(w, acts), f), account);
  }

  lemma BlankLog(files: set<File>, f: File)
    requires f in files
    ensures Blank(files).files[f].log == [] && Blank(files).files[f].published == map[] && Initial(Blank(files).files[f])
  {}

  lemma SharedAccountBreaks(files: set<File>, own: Names, around: Surroundings, f: File, g: File, account: string)
    requires f in files && g in files && f != g && Bindable(own(f), account) && Bindable(own(g), account)
    ensures !AllKept(files, own, around)
  {
    hide Step, Enabled, Sendable, ValidAccount, AccountFits, Initial, Consistent, Empty, ValidActs, FinalSystem;
    var acts := TwoStores(files, f, g, account);
    forall h | h in files
      ensures Initial(Blank(files).files[h]) && Blank(files).files[h].published == map[]
    {
      BlankLog(files, h);
    }
    assert PermittedActs(own, around, Blank(files), acts);
  }

  /**
   Over any number of profiles files with their own locks and one Keychain, in every interleaving of
   calls, failures and crashes, each profile stored with a credential keeps exactly its secret: true
   if and only if each file is confined and no account that can have a secret is named in two files.
   */
  lemma SecretsKeptIffSeparate(files: set<File>, own: Names, around: Surroundings)
    ensures AllKept(files, own, around) <==> Separate(files, own, around)
  {
    hide AllKept, Confined, AlwaysConsistent, Bindable;
    if Separate(files, own, around) {
      SeparateFilesKept(files, own, around);
    } else if f, g, a :| f in files && g in files && f != g && Bindable(own(f), a) && Bindable(own(g), a) {
      SharedAccountBreaks(files, own, around, f, g, a);
    } else {
      var f :| f in files && !Confined(own(f), around);
      SecretsKeptIffConfined(own(f), around);
      if AllKept(files, own, around) {
        EachFileKept(files, own, around, f);
      }
    }
  }
}
