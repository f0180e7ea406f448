/**
 The four readings of a tool's declared verbs as reads or writes (lib/contracts.py,
 lib/contracts_audit.py, lib/quantities.py, lib/registry.py).
 */
module SafetySurface {
  import opened Text

  /** One entry of a contracts block, normalised: a beat and the verbs declared under it. */
  datatype Beat = Beat(name: string, verbs: seq<string>)

  type Contracts = seq<Beat>

  datatype Concurrency = Read | Write | Mixed | Unstated

  /** A tool's registry entry, as far as the four readings use it. */
  datatype Info = Info(contracts: Contracts, attributes: map<string, seq<string>>, commands: set<string>,
                       placeholders: set<string>, credentialed: bool, concurrency: Concurrency)

  const BEATS := ["connect", "snapshot", "interact", "verify", "save"]
  const READS := {"snapshot", "verify"}
  const WRITES := {"connect", "interact", "save"}
  const ATTRIBUTES := {"destructive", "long_running", "polymorphic", "composite", "sensitive", "passthrough", "own_state"}

  /** A dictionary has each beat once. */
  ghost predicate IsDict(c: Contracts) { forall i, j :: 0 <= i < j < |c| ==> c[i].name != c[j].name }

  /** All beats a verb is declared under. */
  function BeatsOf(c: Contracts, verb: string): set<string> {
    set i | 0 <= i < |c| && verb in c[i].verbs :: c[i].name
  }

  function Known(beats: set<string>): set<string> { set b | b in beats && b in BEATS }

  lemma BeatsSplit(beats: set<string>)
    ensures Known(beats) == beats * READS + beats * WRITES
    ensures Known(beats) <= READS <==> beats !! WRITES
  {
    assert forall b :: b in BEATS <==> b in READS || b in WRITES;
    assert forall b :: b in WRITES ==> b !in READS;
    if beats !! WRITES {
      assert Known(beats) <= READS;
    } else {
      var b :| b in beats && b in WRITES;
      assert b in Known(beats);
    }
  }

  // ---------------------------------------------------------------- gathering the beats

  /** What a table of beats by verb says. */
  function Lookup(m: map<string, set<string>>, verb: string): set<string> { if verb in m then m[verb] else {} }

  /** Put the beat down for each of its verbs. */
  method AddBeat(m: map<string, set<string>>, b: Beat) returns (r: map<string, set<string>>)
    requires {} !in m.Values
    ensures {} !in r.Values
    ensures forall v :: Lookup(r, v) == Lookup(m, v) + if v in b.verbs then {b.name} else {}
  {
    r := m;
    for i := 0 to |b.verbs|
      invariant {} !in r.Values
      invariant forall v :: Lookup(r, v) == Lookup(m, v) + if v in b.verbs[..i] then {b.name} else {}
    {
      assert b.verbs[..i + 1] == b.verbs[..i] + [b.verbs[i]];
      r := r[b.verbs[i] := Lookup(r, b.verbs[i]) + {b.name}];
    }
    assert b.verbs[..|b.verbs|] == b.verbs;
  }

  lemma BeatsSnoc(c: Contracts, b: Beat, verb: string)
    ensures BeatsOf(c + [b], verb) == BeatsOf(c, verb) + if verb in b.verbs then {b.name} else {}
  {
    var d := c + [b];
    assert d[|c|] == b;
    forall i | 0 <= i < |c|
      ensures d[i] == c[i]
    {}
    forall n | n in BeatsOf(c, verb)
      ensures n in BeatsOf(d, verb)
    {
      var i :| 0 <= i < |c| && verb in c[i].verbs && c[i].name == n;
      assert d[i] == c[i];
    }
  }

  /** `_beat_union`. */
  method BeatUnion(c: Contracts) returns (union: map<string, set<string>>)
    ensures {} !in union.Values && forall v :: Lookup(union, v) == BeatsOf(c, v)
  {
    union := map[];
    for i := 0 to |c|
      invariant {} !in union.Values
      invariant forall v :: Lookup(union, v) == BeatsOf(c[..i], v)
    {
      assert c[..i + 1] == c[..i] + [c[i]];
      forall v
        ensures BeatsOf(c[..i + 1], v) == BeatsOf(c[..i], v) + if v in c[i].verbs then {c[i].name} else {}
      {
        BeatsSnoc(c[..i], c[i], v);
      }
      union := AddBeat(union, c[i]);
    }
    assert c[..|c|] == c;
  }

  /** `contracts.get(beat) or []`. */
  function VerbsOf(c: Contracts, name: string): seq<string> {
    if c == [] then [] else if c[0].name == name then c[0].verbs else VerbsOf(c[1..], name)
  }

  lemma {:induction false} VerbsOfBeat(c: Contracts, name: string, verb: string)
    requires IsDict(c)
    ensures verb in VerbsOf(c, name) <==> name in BeatsOf(c, verb)
    decreases |c|
  {
    if c != [] {
      var rest := c[1..];
      VerbsOfBeat(rest, name, verb);
      assert forall i :: 0 <= i < |rest| ==> rest[i] == c[i + 1];
      if c[0].name == name {
        assert forall i :: 0 < i < |c| ==> c[i].name != name;
      } else {
        forall i | 0 <= i < |c| && verb in c[i].verbs && c[i].name == name
          ensures name in BeatsOf(rest, verb)
        {
          assert rest[i - 1] == c[i];
        }
      }
    }
  }

  /** The membership table of `safety_surface`: only the five beats are looked up. */
  method Membership(c: Contracts) returns (m: map<string, set<string>>)
    requires IsDict(c)
    ensures {} !in m.Values && forall v :: Lookup(m, v) == Known(BeatsOf(c, v))
  {
    hide VerbsOf, BeatsOf, IsDict;
    m := map[];
    for i := 0 to |BEATS|
      invariant {} !in m.Values
      invariant forall v :: Lookup(m, v) == set b | b in BeatsOf(c, v) && b in BEATS[..i]
    {
      assert BEATS[..i + 1] == BEATS[..i] + [BEATS[i]];
      forall v
        ensures v in VerbsOf(c, BEATS[i]) <==> BEATS[i] in BeatsOf(c, v)
      {
        VerbsOfBeat(c, BEATS[i], v);
      }
      m := AddBeat(m, Beat(BEATS[i], VerbsOf(c, BEATS[i])));
    }
    assert BEATS[..|BEATS|] == BEATS;
  }

  // ---------------------------------------------------------------- order

  /** The order of texts by code points. */
  predicate TextLess(a: string, b: string) {
    b != "" && (a == "" || a[0] < b[0] || (a[0] == b[0] && TextLess(a[1..], b[1..])))
  }

  lemma {:induction false} TextIrreflexive(a: string)
    ensures !TextLess(a, a)
  {
    if a != "" {
      TextIrreflexive(a[1..]);
    }
  }

  lemma {:induction false} TextTotal(a: string, b: string)
    ensures a == b || TextLess(a, b) || TextLess(b, a)
  {
    if a != "" && b != "" && a[0] == b[0] {
      TextTotal(a[1..], b[1..]);
      assert a == [a[0]] + a[1..] && b == [b[0]] + b[1..];
    }
  }

  lemma {:induction false} TextTransitive(a: string, b: string, c: string)
    requires TextLess(a, b) && TextLess(b, c)
    ensures TextLess(a, c)
  {
    if a != "" && a[0] == b[0] && b[0] == c[0] {
      TextTransitive(a[1..], b[1..], c[1..]);
    }
  }

  ghost predicate Increasing(s: seq<string>) { forall i, j :: 0 <= i < j < |s| ==> TextLess(s[i], s[j]) }

  method Least(keys: set<string>) returns (least: string)
    requires keys != {}
    ensures least in keys && forall k :: k in keys && k != least ==> TextLess(least, k)
  {
    hide TextLess;
    least :| least in keys;
    var left := keys - {least};
    while left != {}
      invariant left <= keys && least in keys - left
      invariant forall k :: k in keys - left && k != least ==> TextLess(least, k)
      decreases |left|
    {
      var next :| next in left;
      left := left - {next};
      TextTotal(next, least);
      if TextLess(next, least) {
        forall k | k in keys - left && k != next
          ensures TextLess(next, k)
        {
          if k != least {
            TextTransitive(next, least, k);
          }
        }
        least := next;
      }
    }
  }

  /** `sorted` over the keys of a dictionary. */
  method SortedKeys(keys: set<string>) returns (r: seq<string>)
    ensures Increasing(r) && forall k :: k in r <==> k in keys
  {
    hide TextLess;
    r := [];
    var left := keys;
    while left != {}
      invariant left <= keys && (forall k :: k in r <==> k in keys - left)
      invariant Increasing(r) && forall k, l :: k in r && l in left ==> TextLess(k, l)
      decreases |left|
    {
      var least := Least(left);
      r := r + [least];
      left := left - {least};
    }
  }

  // ---------------------------------------------------------------- the surface

  predicate SurfaceRead(c: Contracts, v: string) { Known(BeatsOf(c, v)) != {} && Known(BeatsOf(c, v)) <= READS }

  predicate SurfaceWrite(c: Contracts, v: string) { !(Known(BeatsOf(c, v)) <= READS) }

  /** The two buckets of one tool, in order. */
  method Surface(c: Contracts) returns (readOnly: seq<string>, write: seq<string>)
    requires IsDict(c)
    ensures forall v :: v in readOnly <==> SurfaceRead(c, v)
    ensures forall v :: v in write <==> SurfaceWrite(c, v)
    ensures Increasing(readOnly) && Increasing(write)
  {
    hide BeatsOf, Known, IsDict, TextLess;
    var membership := Membership(c);
    var verbs := SortedKeys(membership.Keys);
    readOnly, write := [], [];
    for i := 0 to |verbs|
      invariant forall v :: v in readOnly <==> v in verbs[..i] && membership[v] <= READS
      invariant forall v :: v in write <==> v in verbs[..i] && !(membership[v] <= READS)
      invariant Increasing(readOnly) && Increasing(write)
    {
      assert verbs[..i + 1] == verbs[..i] + [verbs[i]];
      assert forall v :: v in verbs[..i] ==> TextLess(v, verbs[i]);
      if membership[verbs[i]] <= READS {
        readOnly := readOnly + [verbs[i]];
      } else {
        write := write + [verbs[i]];
      }
    }
    assert verbs[..|verbs|] == verbs;
    forall v
      ensures v in membership <==> Known(BeatsOf(c, v)) != {}
    {
      assert Lookup(membership, v) == Known(BeatsOf(c, v));
      assert v in membership ==> membership[v] in membership.Values;
    }
  }

  /** What a tool declares, normalised. */
  datatype Proposal = Proposal(contracts: Contracts, attributes: map<string, seq<string>>)

  type Payload = map<string, Proposal>

  datatype Entry = Entry(tool: string, verb: string)

  predicate EntryLess(a: Entry, b: Entry) {
    TextLess(a.tool, b.tool) || (a.tool == b.tool && TextLess(a.verb, b.verb))
  }

  ghost predicate EntriesIncrease(es: seq<Entry>) { forall i, j :: 0 <= i < j < |es| ==> EntryLess(es[i], es[j]) }

  /** A dictionary has each beat of a tool once. */
  ghost predicate IsPayload(ps: Payload) { forall tool :: tool in ps ==> IsDict(ps[tool].contracts) }

  predicate ListedRead(ps: Payload, e: Entry) { e.tool in ps && SurfaceRead(ps[e.tool].contracts, e.verb) }

  predicate ListedWrite(ps: Payload, e: Entry) { e.tool in ps && SurfaceWrite(ps[e.tool].contracts, e.verb) }

  /** The entries of one tool. */
  method Entries(tool: string, verbs: seq<string>) returns (entries: seq<Entry>)
    requires Increasing(verbs)
    ensures EntriesIncrease(entries)
    ensures forall e :: e in entries <==> e.tool == tool && e.verb in verbs
  {
    hide TextLess;
    entries := [];
    for i := 0 to |verbs|
      invariant |entries| == i && forall j :: 0 <= j < i ==> entries[j] == Entry(tool, verbs[j])
    {
      entries := entries + [Entry(tool, verbs[i])];
    }
    forall e: Entry | e.tool == tool && e.verb in verbs
      ensures e in entries
    {
      var i :| 0 <= i < |verbs| && verbs[i] == e.verb;
      assert entries[i] == e;
    }
  }

  lemma EntriesJoin(a: seq<Entry>, b: seq<Entry>)
    requires EntriesIncrease(a) && EntriesIncrease(b) && forall x, y :: x in a && y in b ==> EntryLess(x, y)
    ensures EntriesIncrease(a + b)
  {
    hide EntryLess;
    forall i, j | 0 <= i < j < |a + b|
      ensures EntryLess((a + b)[i], (a + b)[j])
    {
      assert i < |a| <= j ==> a[i] in a && b[j - |a|] in b;
    }
  }

  /** The read and the write bucket of `safety_surface`: entries once each, ordered by tool and verb. */
  method Buckets(ps: Payload) returns (readOnly: seq<Entry>, write: seq<Entry>)
    requires IsPayload(ps)
    ensures EntriesIncrease(readOnly) && EntriesIncrease(write)
    ensures forall e :: e in readOnly <==> ListedRead(ps, e)
    ensures forall e :: e in write <==> ListedWrite(ps, e)
  {
    hide SurfaceRead, SurfaceWrite, IsDict, TextLess;
    var tools := SortedKeys(ps.Keys);
    readOnly, write := [], [];
    for i := 0 to |tools|
      invariant EntriesIncrease(readOnly) && EntriesIncrease(write)
      invariant forall e :: e in readOnly <==> e.tool in tools[..i] && ListedRead(ps, e)
      invariant forall e :: e in write <==> e.tool in tools[..i] && ListedWrite(ps, e)
    {
      assert tools[..i + 1] == tools[..i] + [tools[i]];
      assert forall t :: t in tools[..i] ==> TextLess(t, tools[i]);
      var quiet, loud := Surface(ps[tools[i]].contracts);
      var newReads := Entries(tools[i], quiet);
      var newWrites := Entries(tools[i], loud);
      EntriesJoin(readOnly, newReads);
      EntriesJoin(write, newWrites);
      readOnly := readOnly + newReads;
      write := write + newWrites;
    }
    assert tools[..|tools|] == tools;
  }

  // ---------------------------------------------------------------- the attribute buckets

  /** How often the element occurs. */
  function Times<T(==)>(s: seq<T>, x: T): nat {
    if s == [] then 0 else Times(s[..|s| - 1], x) + if s[|s| - 1] == x then 1 else 0
  }

  /** How often the attribute is declared for the entry. */
  function Flags(ps: Payload, attribute: string, e: Entry): nat {
    if e.tool in ps && e.verb in ps[e.tool].attributes then Times(ps[e.tool].attributes[e.verb], attribute) else 0
  }

  /** In order; an attribute declared twice lists its entry twice. */
  ghost predicate EntriesOrdered(es: seq<Entry>) {
    forall i, j :: 0 <= i < j < |es| ==> es[i] == es[j] || EntryLess(es[i], es[j])
  }

  type Flagged = map<string, seq<Entry>>

  lemma TimesSnoc<T>(s: seq<T>, x: T, y: T)
    ensures Times(s + [x], y) == Times(s, y) + if x == y then 1 else 0
  {
    assert (s + [x])[..|s|] == s;
  }

  lemma PrefixSnoc<T>(s: seq<T>, i: nat, y: T)
    requires i < |s|
    ensures Times(s[..i + 1], y) == Times(s[..i], y) + if s[i] == y then 1 else 0
  {
    assert s[..i + 1] == s[..i] + [s[i]];
    TimesSnoc(s[..i], s[i], y);
  }

  lemma {:induction false} TimesMember<T>(s: seq<T>, x: T)
    ensures x in s <==> Times(s, x) > 0
  {
    if s != [] {
      TimesMember(s[..|s| - 1], x);
      assert s == s[..|s| - 1] + [s[|s| - 1]];
    }
  }

  lemma OrderedSnoc(es: seq<Entry>, e: Entry)
    requires EntriesOrdered(es) && forall x :: x in es ==> x == e || EntryLess(x, e)
    ensures EntriesOrdered(es + [e])
  {
    hide EntryLess;
    forall i | 0 <= i < |es|
      ensures es[i] == e || EntryLess(es[i], e)
    {
      assert es[i] in es;
    }
  }

  /** All entries come before this one, or are it. */
  ghost predicate UpTo(es: seq<Entry>, e: Entry) { EntriesOrdered(es) && forall x :: x in es ==> x == e || EntryLess(x, e) }

  lemma UpToSnoc(es: seq<Entry>, e: Entry)
    requires UpTo(es, e)
    ensures UpTo(es + [e], e)
  {
    OrderedSnoc(es, e);
    hide EntryLess, EntriesOrdered;
  }

  /** The entry once for each occurrence of the attribute. */
  function Copies(e: Entry, attributes: seq<string>, a: string): seq<Entry> {
    if attributes == [] then []
    else Copies(e, attributes[..|attributes| - 1], a) + if attributes[|attributes| - 1] == a then [e] else []
  }

  lemma {:induction false} CopiesCount(es: seq<Entry>, e: Entry, attributes: seq<string>, a: string, x: Entry)
    requires UpTo(es, e)
    ensures UpTo(es + Copies(e, attributes, a), e)
    ensures Times(es + Copies(e, attributes, a), x) == Times(es, x) + if x == e then Times(attributes, a) else 0
    decreases |attributes|
  {
    hide UpTo;
    if attributes == [] {
      assert es + [] == es;
    } else {
      var n := |attributes| - 1;
      var before := es + Copies(e, attributes[..n], a);
      CopiesCount(es, e, attributes[..n], a, x);
      assert attributes[..n + 1] == attributes;
      PrefixSnoc(attributes, n, a);
      if attributes[n] == a {
        UpToSnoc(before, e);
        TimesSnoc(before, e, x);
        assert es + Copies(e, attributes, a) == before + [e];
      } else {
        assert es + Copies(e, attributes, a) == before;
      }
    }
  }

  /** The attributes of one verb. */
  method FlagVerb(flagged: Flagged, e: Entry, attributes: seq<string>) returns (r: Flagged)
    requires forall a :: a in flagged ==> UpTo(flagged[a], e)
    ensures r.Keys == flagged.Keys && forall a :: a in r ==> UpTo(r[a], e)
    ensures forall a, x :: a in r ==>
      Times(r[a], x) == Times(flagged[a], x) + if x == e then Times(attributes, a) else 0
  {
    hide UpTo;
    r := flagged;
    for i := 0 to |attributes|
      invariant r.Keys == flagged.Keys && forall a :: a in r ==> r[a] == flagged[a] + Copies(e, attributes[..i], a)
    {
      assert attributes[..i + 1][..i] == attributes[..i];
      if attributes[i] in r {
        r := r[attributes[i] := r[attributes[i]] + [e]];
      }
    }
    assert attributes[..|attributes|] == attributes;
    forall a, x | a in r
      ensures Times(r[a], x) == Times(flagged[a], x) + if x == e then Times(attributes, a) else 0
    {
      CopiesCount(flagged[a], e, attributes, a, x);
    }
    forall a | a in r
      ensures UpTo(r[a], e)
    {
      CopiesCount(flagged[a], e, attributes, a, e);
    }
  }

  /** The attributes of one tool's verbs. */
  method FlagTool(flagged: Flagged, tool: string, attributes: map<string, seq<string>>) returns (r: Flagged)
    requires forall a :: a in flagged ==> EntriesOrdered(flagged[a]) && forall x :: x in flagged[a] ==> TextLess(x.tool, tool)
    ensures r.Keys == flagged.Keys && forall a :: a in r ==> EntriesOrdered(r[a])
    ensures forall a, x :: a in r ==>
      Times(r[a], x) == Times(flagged[a], x)
        + if x.tool == tool && x.verb in attributes then Times(attributes[x.verb], a) else 0
  {
    hide TextLess, EntriesOrdered;
    var verbs := SortedKeys(attributes.Keys);
    r := flagged;
    for i := 0 to |verbs|
      invariant r.Keys == flagged.Keys
      invariant forall a :: a in r ==> EntriesOrdered(r[a])
      invariant forall a, x :: a in r ==>
        Times(r[a], x) == Times(flagged[a], x)
          + if x.tool == tool && x.verb in verbs[..i] then Times(attributes[x.verb], a) else 0
    {
      assert verbs[..i + 1] == verbs[..i] + [verbs[i]];
      forall a, x | a in r && x in r[a]
        ensures EntryLess(x, Entry(tool, verbs[i]))
      {
        TimesMember(r[a], x);
        TimesMember(flagged[a], x);
        assert x in flagged[a] || (x.tool == tool && x.verb in verbs[..i]);
      }
      assert verbs[i] !in verbs[..i] by {
        TextIrreflexive(verbs[i]);
      }
      forall a | a in r
        ensures UpTo(r[a], Entry(tool, verbs[i]))
      {}
      r := FlagVerb(r, Entry(tool, verbs[i]), attributes[verbs[i]]);
    }
    assert verbs[..|verbs|] == verbs;
  }

  /** After the tool's attributes the count is complete for it. */
  lemma FlagsSnoc(ps: Payload, tools: seq<string>, i: nat, a: string, e: Entry)
    requires i < |tools| && tools[i] in ps && tools[i] !in tools[..i]
    ensures (if e.tool in tools[..i + 1] then Flags(ps, a, e) else 0) ==
      (if e.tool in tools[..i] then Flags(ps, a, e) else 0)
      + var attributes := ps[tools[i]].attributes;
        if e.tool == tools[i] && e.verb in attributes then Times(attributes[e.verb], a) else 0
  {
    assert tools[..i + 1] == tools[..i] + [tools[i]];
  }

  /**
   The attribute buckets of `safety_surface`: ordered by tool and verb, each entry as often as its
   verb declares the attribute.
   */
  method AttributeBuckets(ps: Payload) returns (r: Flagged)
    ensures r.Keys == ATTRIBUTES
    ensures forall a :: a in r ==> EntriesOrdered(r[a]) && forall e :: Times(r[a], e) == Flags(ps, a, e)
  {
    r := map a | a in ATTRIBUTES :: [];
    hide TextLess, EntryLess, EntriesOrdered, Flags, ATTRIBUTES;
    var tools := SortedKeys(ps.Keys);
    assert forall a :: a in r ==> r[a] == [];
    NoneOrdered();
    for i := 0 to |tools|
      invariant r.Keys == ATTRIBUTES
      invariant forall a :: a in r ==> EntriesOrdered(r[a])
      invariant forall a, e :: a in r ==> Times(r[a], e) == if e.tool in tools[..i] then Flags(ps, a, e) else 0
    {
      forall a, x | a in r && x in r[a]
        ensures TextLess(x.tool, tools[i])
      {
        TimesMember(r[a], x);
      }
      assert tools[i] !in tools[..i] by {
        TextIrreflexive(tools[i]);
      }
      r := FlagTool(r, tools[i], ps[tools[i]].attributes);
      forall a, e: Entry
        ensures (if e.tool in tools[..i + 1] then Flags(ps, a, e) else 0) ==
          (if e.tool in tools[..i] then Flags(ps, a, e) else 0)
          + var attributes := ps[tools[i]].attributes;
            if e.tool == tools[i] && e.verb in attributes then Times(attributes[e.verb], a) else 0
      {
        FlagsSnoc(ps, tools, i, a, e);
      }
    }
    assert tools[..|tools|] == tools;
    forall a, e | a in r
      ensures Times(r[a], e) == Flags(ps, a, e)
    {
      AbsentUnflagged(ps, a, e);
    }
  }

  lemma NoneOrdered()
    ensures EntriesOrdered([])
  {}

  lemma AbsentUnflagged(ps: Payload, a: string, e: Entry)
    ensures e.tool !in ps ==> Flags(ps, a, e) == 0
  {}

  /**
   A declared verb is in exactly one bucket if and only if one of its beats is one of the five;
   under unknown beats alone it is in neither. It is never in both.
   */
  lemma OneBucketIffKnown(c: Contracts, v: string)
    ensures !(SurfaceRead(c, v) && SurfaceWrite(c, v))
    ensures SurfaceRead(c, v) || SurfaceWrite(c, v) <==> exists b :: b in BeatsOf(c, v) && b in BEATS
  {
    hide BeatsOf;
    if b :| b in BeatsOf(c, v) && b in BEATS {
      assert b in Known(BeatsOf(c, v));
    } else {
      assert Known(BeatsOf(c, v)) == {};
    }
  }

  // ---------------------------------------------------------------- the audit

  datatype Eligibility = Probe | WriteSurface | Attributed | HangRisk | NeedsArgs | Network | Crash

  const NEEDS_TARGET := {"read", "show", "describe", "inspect", "get", "diff", "code", "link", "search", "load", "pr"}
  const HANG_RISK := {"wait", "scan"}

  predicate AuditReads(c: Contracts, v: string) { BeatsOf(c, v) != {} && BeatsOf(c, v) <= READS }

  predicate HasAttributes(info: Info, v: string) { v in info.attributes && info.attributes[v] != [] }

  /** Only reading beats, and nothing else declared about the verb. */
  predicate PlainRead(info: Info, v: string) { AuditReads(info.contracts, v) && !HasAttributes(info, v) }

  /** The audit invokes the verb. */
  predicate Probed(info: Info, v: string, includeNetwork: bool) {
    PlainRead(info, v) && FirstWord(v) !in HANG_RISK + NEEDS_TARGET + {""} && v !in info.placeholders
    && (info.credentialed ==> includeNetwork)
  }

  /** `eligible`. */
  method Eligible(info: Info, verb: string, includeNetwork: bool) returns (e: Eligibility)
    ensures e.WriteSurface? <==> !AuditReads(info.contracts, verb)
    ensures e.Attributed? <==> AuditReads(info.contracts, verb) && HasAttributes(info, verb)
    ensures e.Crash? <==> PlainRead(info, verb) && FirstWord(verb) == ""
    ensures e.HangRisk? <==> PlainRead(info, verb) && FirstWord(verb) in HANG_RISK
    ensures e.NeedsArgs? <==>
            PlainRead(info, verb) && FirstWord(verb) !in HANG_RISK + {""}
            && (verb in info.placeholders || FirstWord(verb) in NEEDS_TARGET)
    ensures e.Network? <==>
            PlainRead(info, verb) && FirstWord(verb) !in HANG_RISK + NEEDS_TARGET + {""} && verb !in info.placeholders
            && info.credentialed && !includeNetwork
    ensures e.Probe? <==> Probed(info, verb, includeNetwork)
  {
    hide BeatsOf, FirstWord;
    var table := BeatUnion(info.contracts);
    var union := Lookup(table, verb);
    if union == {} || !(union <= READS) {
      return WriteSurface;
    }
    if verb in info.attributes && info.attributes[verb] != [] {
      return Attributed;
    }
    var first := FirstWord(verb);
    if first == "" {
      return Crash;
    }
    if first in HANG_RISK {
      return HangRisk;
    }
    if verb in info.placeholders || first in NEEDS_TARGET {
      return NeedsArgs;
    }
    if info.credentialed && !includeNetwork {
      return Network;
    }
    e := Probe;
  }

  // ---------------------------------------------------------------- the census

  datatype Census = Chosen(verb: string) | Refused(verb: string) | Unmatched | NoContracts

  function JoinWords(words: seq<string>): string {
    if words == [] then "" else if |words| == 1 then words[0] else JoinWords(words[..|words| - 1]) + " " + words[|words| - 1]
  }

  function Plain(argv: seq<string>): (words: seq<string>)
    ensures forall w :: w in words <==> w in argv && !("-" <= w)
  {
    if argv == [] then [] else (if "-" <= argv[0] then [] else [argv[0]]) + Plain(argv[1..])
  }

  /** Splitting at the blanks gives the words back. */
  lemma {:induction false} JoinSplit(words: seq<string>)
    requires words != [] && forall w :: w in words ==> ' ' !in w
    ensures SplitOn(JoinWords(words), ' ') == words
  {
    hide SplitOn;
    var n := |words| - 1;
    assert words == words[..n] + [words[n]];
    SplitOnOne(words[n], ' ');
    if n > 0 {
      JoinSplit(words[..n]);
      SplitOnAcross(JoinWords(words[..n]), ' ', words[n]);
      assert JoinWords(words) == JoinWords(words[..n]) + [' '] + words[n];
    } else {
      assert JoinWords(words) == words[0];
    }
  }

  lemma PlainStep(w: string, rest: seq<string>)
    ensures Plain([w] + rest) == (if "-" <= w then [] else [w]) + Plain(rest) && Plain([]) == []
  {
    assert ([w] + rest)[1..] == rest;
  }

  /** What is not a flag is kept, in its order. */
  lemma {:induction false} PlainKeepsOrder(a: seq<string>, b: seq<string>)
    ensures Plain(a + b) == Plain(a) + Plain(b)
  {
    PlainStep("", []);
    hide Plain;
    if a == [] {
      assert a + b == b;
    } else {
      PlainKeepsOrder(a[1..], b);
      PlainStep(a[0], a[1..]);
      PlainStep(a[0], a[1..] + b);
      assert a == [a[0]] + a[1..] && a + b == [a[0]] + (a[1..] + b);
    }
  }

  /** The longest prefix of the words that is declared under any beat. */
  ghost predicate LongestDeclared(c: Contracts, words: seq<string>, count: nat) {
    1 <= count <= |words| && BeatsOf(c, JoinWords(words[..count])) != {}
    && forall k :: count < k <= |words| ==> BeatsOf(c, JoinWords(words[..k])) == {}
  }

  /** The census runs the verb: the longest declared prefix of the words, which only reads. */
  ghost predicate RunBy(c: Contracts, argv: seq<string>, v: string) {
    DeclaredPrefix(c, Plain(argv), v) && BeatsOf(c, v) <= READS
  }

  /** The census refuses the verb: the longest declared prefix, which does not only read. */
  ghost predicate RefusedBy(c: Contracts, argv: seq<string>, v: string) {
    DeclaredPrefix(c, Plain(argv), v) && !(BeatsOf(c, v) <= READS)
  }

  ghost predicate DeclaredPrefix(c: Contracts, words: seq<string>, v: string) {
    exists count: nat :: LongestDeclared(c, words, count) && v == JoinWords(words[..count])
  }

  /** `_read_only_verb`. */
  method ReadOnlyVerb(c: Contracts, argv: seq<string>) returns (r: Census)
    ensures r.NoContracts? <==> c == []
    ensures r.Unmatched? ==> forall k :: 1 <= k <= |Plain(argv)| ==> BeatsOf(c, JoinWords(Plain(argv)[..k])) == {}
    ensures r.Chosen? ==> RunBy(c, argv, r.verb)
    ensures r.Refused? ==> RefusedBy(c, argv, r.verb)
  {
    hide BeatsOf, JoinWords, Plain;
    if c == [] {
      return NoContracts;
    }
    var words := Plain(argv);
    var n := |words|;
    while n > 0
      invariant 0 <= n <= |words|
      invariant forall k :: n < k <= |words| ==> BeatsOf(c, JoinWords(words[..k])) == {}
    {
      var candidate := JoinWords(words[..n]);
      var beats := BeatsOf(c, candidate);
      if beats == {} {
        n := n - 1;
        continue;
      }
      assert LongestDeclared(c, words, n);
      if beats <= READS {
        return Chosen(candidate);
      }
      return Refused(candidate);
    }
    r := Unmatched;
  }

  // ---------------------------------------------------------------- validation

  datatype Error =
    | UnknownBeat(beat: string)
    | UnknownCommand(verb: string)
    | UnknownAttribute(verb: string, attribute: string)
    | ConcurrencyMismatch(verbs: set<string>)

  predicate BeatOk(b: Beat, commands: set<string>) {
    b.name in BEATS && forall i :: 0 <= i < |b.verbs| ==> CommandExists(b.verbs[i], commands)
  }

  predicate AttributesOk(info: Info) {
    forall v :: v in info.attributes ==>
      CommandExists(v, info.commands) && forall a :: a in info.attributes[v] ==> a in ATTRIBUTES
  }

  predicate OwnState(info: Info, v: string) { v in info.attributes && "own_state" in info.attributes[v] }

  /** The verbs that write to the world: under a writing beat, and not only to the tool's own state. */
  predicate WorldWrite(info: Info, v: string) { !(BeatsOf(info.contracts, v) !! WRITES) && !OwnState(info, v) }

  method CheckBeat(b: Beat, commands: set<string>) returns (errors: seq<Error>)
    ensures errors == [] <==> BeatOk(b, commands)
    ensures forall e :: e in errors ==> e == UnknownBeat(b.name) || (e.UnknownCommand? && e.verb in b.verbs)
  {
    hide CommandExists;
    errors := [];
    if b.name !in BEATS {
      return [UnknownBeat(b.name)];
    }
    for i := 0 to |b.verbs|
      invariant errors == [] <==> forall j :: 0 <= j < i ==> CommandExists(b.verbs[j], commands)
      invariant forall e :: e in errors ==> e.UnknownCommand? && e.verb in b.verbs
    {
      if !CommandExists(b.verbs[i], commands) {
        errors := errors + [UnknownCommand(b.verbs[i])];
      }
    }
  }

  method CheckAttributes(info: Info) returns (errors: seq<Error>)
    ensures errors == [] <==> AttributesOk(info)
    ensures forall e :: e in errors ==> e.UnknownCommand? || e.UnknownAttribute?
  {
    hide CommandExists;
    errors := [];
    var left := info.attributes.Keys;
    while left != {}
      invariant left <= info.attributes.Keys
      invariant errors == [] <==> forall v :: v in info.attributes.Keys - left ==>
                  CommandExists(v, info.commands) && forall a :: a in info.attributes[v] ==> a in ATTRIBUTES
      invariant forall e :: e in errors ==> e.UnknownCommand? || e.UnknownAttribute?
      decreases |left|
    {
      var verb :| verb in left;
      left := left - {verb};
      if !CommandExists(verb, info.commands) {
        errors := errors + [UnknownCommand(verb)];
      }
      var attrs := info.attributes[verb];
      ghost var before := errors;
      for i := 0 to |attrs|
        invariant errors == [] <==> before == [] && forall j :: 0 <= j < i ==> attrs[j] in ATTRIBUTES
        invariant forall e :: e in errors ==> e.UnknownCommand? || e.UnknownAttribute?
      {
        if attrs[i] !in ATTRIBUTES {
          errors := errors + [UnknownAttribute(verb, attrs[i])];
        }
      }
    }
  }

  predicate InKnownBeat(c: Contracts, v: string) { Known(BeatsOf(c, v)) != {} }

  /** Known beats, commands and attributes, and no world write in a tool declared `concurrency: read`. */
  ghost predicate Valid(info: Info) {
    && (forall i :: 0 <= i < |info.contracts| ==> BeatOk(info.contracts[i], info.commands))
    && AttributesOk(info)
    && (info.concurrency.Read? ==> forall v :: InKnownBeat(info.contracts, v) ==> !WorldWrite(info, v))
  }

  /** `validate_tool_contracts` on a declared block: what it reports as errors. */
  method Validate(info: Info) returns (errors: seq<Error>)
    ensures errors == [] <==> Valid(info)
    ensures forall e :: e in errors && e.ConcurrencyMismatch? ==>
              forall v :: v in e.verbs <==> InKnownBeat(info.contracts, v) && WorldWrite(info, v)
  {
    hide BeatOk, AttributesOk;
    var c := info.contracts;
    errors := [];
    for i := 0 to |c|
      invariant errors == [] <==> forall j :: 0 <= j < i ==> BeatOk(c[j], info.commands)
      invariant forall e :: e in errors ==> !e.ConcurrencyMismatch?
    {
      var more := CheckBeat(c[i], info.commands);
      errors := errors + more;
    }
    var more := CheckAttributes(info);
    errors := errors + more;
    var seen := KnownBeats(c);
    var writes := set v | v in seen && !(seen[v] !! WRITES) && !OwnState(info, v);
    forall v
      ensures v in writes <==> InKnownBeat(c, v) && WorldWrite(info, v)
    {
      assert Lookup(seen, v) == Known(BeatsOf(c, v));
      KnownWrites(c, v);
    }
    if info.concurrency.Read? && writes != {} {
      errors := errors + [ConcurrencyMismatch(writes)];
    }
  }

  lemma KnownWrites(c: Contracts, v: string)
    ensures Known(BeatsOf(c, v)) !! WRITES <==> BeatsOf(c, v) !! WRITES
  {
    hide BeatsOf;
    BeatsSplit(BeatsOf(c, v));
  }

  /** The `seen` table: unknown beats are reported and skipped. */
  method KnownBeats(c: Contracts) returns (seen: map<string, set<string>>)
    ensures {} !in seen.Values && forall v :: Lookup(seen, v) == Known(BeatsOf(c, v))
  {
    hide Known, BeatsOf;
    seen := map[];
    KnownNothing();
    for i := 0 to |c|
      invariant {} !in seen.Values
      invariant forall v :: Lookup(seen, v) == Known(BeatsOf(c[..i], v))
    {
      assert c[..i + 1] == c[..i] + [c[i]];
      forall v
        ensures Known(BeatsOf(c[..i + 1], v)) ==
                Known(BeatsOf(c[..i], v)) + if c[i].name in BEATS && v in c[i].verbs then {c[i].name} else {}
      {
        BeatsSnoc(c[..i], c[i], v);
        if v in c[i].verbs {
          KnownSnoc(BeatsOf(c[..i], v), c[i].name);
        } else {
          assert BeatsOf(c[..i + 1], v) == BeatsOf(c[..i], v);
        }
      }
      if c[i].name in BEATS {
        seen := AddBeat(seen, c[i]);
      }
    }
    assert c[..|c|] == c;
  }

  lemma KnownNothing()
    ensures forall v :: Known(BeatsOf([], v)) == {}
  {}

  lemma KnownSnoc(beats: set<string>, name: string)
    ensures Known(beats + {name}) == Known(beats) + if name in BEATS then {name} else {}
  {}

  // ---------------------------------------------------------------- the readings agree

  /**
   What the audit probes and the census runs is read-only on the surface; the surface agrees with
   them exactly for the verbs that have no unknown beat beside a reading one.
   */
  lemma ReadingsAgree(c: Contracts, v: string)
    ensures AuditReads(c, v) ==> SurfaceRead(c, v)
    ensures SurfaceRead(c, v) && !AuditReads(c, v) <==>
            BeatsOf(c, v) !! WRITES && !(BeatsOf(c, v) !! READS) && !(BeatsOf(c, v) <= READS)
  {
    hide BeatsOf;
    var beats := BeatsOf(c, v);
    BeatsSplit(beats);
    if beats <= READS && beats != {} {
      assert Known(beats) == beats;
    }
    assert Known(beats) != {} && beats !! WRITES <==> beats * READS != {} && beats !! WRITES;
  }

  /** Once validation has passed there are no unknown beats, and all readings are the same. */
  lemma ValidReadingsSame(info: Info, v: string)
    requires Valid(info)
    ensures AuditReads(info.contracts, v) <==> SurfaceRead(info.contracts, v)
    ensures BeatsOf(info.contracts, v) != {} ==> (SurfaceRead(info.contracts, v) <==> !SurfaceWrite(info.contracts, v))
  {
    var beats := BeatsOf(info.contracts, v);
    assert Known(beats) == beats;
  }

  /** A `concurrency: read` tool that validates has only own-state verbs in the write bucket. */
  lemma ReadToolsWriteOnlyTheirOwn(info: Info, v: string)
    requires Valid(info) && info.concurrency.Read? && SurfaceWrite(info.contracts, v)
    ensures OwnState(info, v)
  {
    hide BeatsOf;
    BeatsSplit(BeatsOf(info.contracts, v));
    assert InKnownBeat(info.contracts, v);
  }

  /**
   What the audit probes and what the census runs is listed as read-only and never as a write; in a
   tool that validates, what the census refuses is listed as a write and never as read-only.
   */
  lemma AcceptedIsReadOnly(info: Info, argv: seq<string>, v: string, includeNetwork: bool)
    ensures Probed(info, v, includeNetwork) || RunBy(info.contracts, argv, v) ==>
              SurfaceRead(info.contracts, v) && !SurfaceWrite(info.contracts, v)
    ensures Valid(info) && RefusedBy(info.contracts, argv, v) ==>
              SurfaceWrite(info.contracts, v) && !SurfaceRead(info.contracts, v)
  {
    hide BeatsOf, Plain, JoinWords, FirstWord, SurfaceRead, SurfaceWrite, Valid;
    ReadingsAgree(info.contracts, v);
    OneBucketIffKnown(info.contracts, v);
    if Valid(info) {
      ValidReadingsSame(info, v);
    }
  }

  /** One verb under a beat nobody knows: in neither bucket, and refused by audit and validation. */
  lemma UnknownBeatExample()
    ensures var info := Info([Beat("observe", ["look"])], map[], {}, {}, false, Unstated);
      && IsDict(info.contracts) && BeatsOf(info.contracts, "look") == {"observe"}
      && !SurfaceRead(info.contracts, "look") && !SurfaceWrite(info.contracts, "look")
      && !AuditReads(info.contracts, "look") && !Valid(info)
  {
    var c := [Beat("observe", ["look"])];
    assert c[0].name == "observe" && "look" in c[0].verbs;
    assert BeatsOf(c, "look") == {"observe"};
    assert "observe" !in BEATS && "observe" !in READS;
    assert Known({"observe"}) == {};
    assert !BeatOk(c[0], {});
  }

  // ---------------------------------------------------------------- the gate

  /** `validate_gate`: new tools must declare, and the baseline must list exactly those that do not. */
  function GateOk(undeclared: set<string>, baseline: set<string>, errors: nat, strict: bool): (ok: bool)
    ensures ok <==> errors == 0 && undeclared == baseline && (strict ==> undeclared == {})
  {
    var newWithout, stale := undeclared - baseline, baseline - undeclared;
    assert newWithout == {} && stale == {} ==> undeclared == baseline;
    errors == 0 && newWithout == {} && stale == {} && !(strict && |undeclared| != 0)
  }
}
