/** The upward walk to the memory store at session start (hooks/codex/agent-do-session-start.py). */
module StoreWalk {
  import opened Text

  // ---------------------------------------------------------------- paths

  /** An absolute path by its components. */
  type Path = seq<string>

  predicate Component(c: string) { c != "" && c != "." && '/' !in c }

  predicate Proper(p: Path) { forall i :: 0 <= i < |p| ==> Component(p[i]) }

  function Slashed(p: Path): string { if p == [] then "" else ['/'] + p[0] + Slashed(p[1..]) }

  /** `str(path)`. */
  function Str(p: Path): string { if p == [] then "/" else Slashed(p) }

  /** `Path(text)` of an absolute text: empty and `.` components are dropped. */
  function PathOf(s: string): Path
    decreases |s|
  {
    if s == "" then []
    else
      var c := Before(s, '/');
      (if c == "" || c == "." then [] else [c]) + PathOf(After(s, '/'))
  }

  /** `path.parent`. */
  function Parent(p: Path): Path { if p == [] then [] else p[..|p| - 1] }

  /** `text.rstrip("/")`. */
  function Bare(s: string): (r: string)
    ensures r != "" ==> r[|r| - 1] != '/'
  {
    if s != "" && s[|s| - 1] == '/' then Bare(s[..|s| - 1]) else s
  }

  lemma {:induction false} PathOfProper(s: string)
    ensures Proper(PathOf(s))
    decreases |s|
  {
    if s != "" {
      PathOfProper(After(s, '/'));
    }
  }

  lemma {:induction false} PathOfRest(c: string, p: Path)
    requires Component(c) && Proper(p)
    ensures PathOf(c + Slashed(p)) == [c] + p
    decreases |p|
  {
    hide IndexOf;
    if p == [] {
      assert c + "" == c && Before(c, '/') == c && After(c, '/') == "";
    } else {
      var rest := p[0] + Slashed(p[1..]);
      assert Slashed(p) == ['/'] + rest;
      assert c + Slashed(p) == c + ['/'] + rest;
      PartitionOf(c, '/', rest);
      PathOfRest(p[0], p[1..]);
    }
  }

  /** Reading back a printed path. */
  lemma PathOfStr(p: Path)
    requires Proper(p)
    ensures PathOf(Slashed(p)) == p
  {
    hide IndexOf;
    if p != [] {
      var rest := p[0] + Slashed(p[1..]);
      assert Slashed(p) == "" + ['/'] + rest;
      PartitionOf("", '/', rest);
      PathOfRest(p[0], p[1..]);
    }
  }

  lemma {:induction false} SlashedConcat(p: Path, q: Path)
    ensures Slashed(p + q) == Slashed(p) + Slashed(q)
    decreases |p|
  {
    if p == [] {
      assert p + q == q;
    } else {
      assert (p + q)[1..] == p[1..] + q;
      SlashedConcat(p[1..], q);
    }
  }

  lemma SlashedLonger(p: Path, t: nat, k: nat)
    requires Proper(p) && t < k <= |p|
    ensures |Slashed(p[..t])| + 2 <= |Slashed(p[..k])|
  {
    var more := p[t..k];
    assert p[..t] + more == p[..k];
    SlashedConcat(p[..t], more);
    assert more[0] == p[t];
  }

  /** A leading text that ends where a component ends is a leading path. */
  lemma {:induction false} CutIsPrefix(p: Path, h: string) returns (k: nat)
    requires Proper(p)
    requires h == Slashed(p) || (|h| < |Slashed(p)| && Slashed(p)[..|h|] == h && Slashed(p)[|h|] == '/')
    ensures k <= |p| && h == Slashed(p[..k])
    decreases |p|
  {
    if h == "" {
      k := 0;
    } else {
      var c, tail := p[0], Slashed(p[1..]);
      var s := Slashed(p);
      assert s == ['/'] + c + tail;
      if |h| < 1 + |c| {
        assert false;
      } else {
        var rest := h[1 + |c|..];
        assert h[..1 + |c|] == ['/'] + c;
        assert h == ['/'] + c + rest;
        assert |h| < |s| ==> rest == tail[..|rest|] && tail[|rest|] == '/';
        var j := CutIsPrefix(p[1..], rest);
        k := j + 1;
        assert p[..k][1..] == p[1..][..j] && p[..k][0] == c;
      }
    }
  }

  // ---------------------------------------------------------------- what is on disk

  /** What a link or a file resolves to. */
  datatype Target = Target(owner: nat, directory: bool)

  /** A name in the file system: its own owner and what it resolves to, if that can be read. */
  datatype Entry = Entry(owner: nat, target: Option<Target>)

  /** The bindings file as far as it is to be trusted: its own ownership and its lines, if readable. */
  datatype Bindings = NoFile | File(ours: bool, lines: Option<seq<string>>)

  datatype World = World(me: nat, entries: map<Path, Entry>, gits: set<Path>, bindings: Bindings)

  /** `zpc_store_is_ours`. */
  predicate Ours(w: World, p: Path) {
    p in w.entries && w.entries[p].owner == w.me && w.entries[p].target.Some? && w.entries[p].target.value.owner == w.me
  }

  predicate IsDirectory(w: World, p: Path) {
    p in w.entries && w.entries[p].target.Some? && w.entries[p].target.value.directory
  }

  predicate OwnStore(w: World, p: Path) { IsDirectory(w, p + [".zpc"]) && Ours(w, p + [".zpc"]) }

  /** The user owns the name and what it leads to. */
  ghost predicate Mine(w: World, p: Path) {
    p in w.entries && exists directory :: w.entries[p] == Entry(w.me, Some(Target(w.me, directory)))
  }

  /** A directory of the user's own, by a name of the user's own. */
  ghost predicate MyDirectory(w: World, p: Path) { p in w.entries && w.entries[p] == Entry(w.me, Some(Target(w.me, true))) }

  lemma OursIsMine(w: World, p: Path)
    ensures Ours(w, p) <==> Mine(w, p)
    ensures IsDirectory(w, p) && Ours(w, p) <==> MyDirectory(w, p)
  {
    if Ours(w, p) {
      assert w.entries[p] == Entry(w.me, Some(Target(w.me, w.entries[p].target.value.directory)));
    }
  }

  // ---------------------------------------------------------------- the worktree and the ceiling

  /** The nearest ancestor-or-self with a `.git`. */
  ghost predicate IsNearest(w: World, p: Path, root: Option<Path>) {
    match root
    case None => forall k :: 0 <= k <= |p| ==> p[..k] !in w.gits
    case Some(r) => r <= p && r in w.gits && forall k :: |r| < k <= |p| ==> p[..k] !in w.gits
  }

  function Nearest(w: World, p: Path): (root: Option<Path>)
    ensures IsNearest(w, p, root)
    decreases |p|
  {
    if p in w.gits then Some(p)
    else if p == [] then None
    else
      assert p[..|p|] == p && forall k :: 0 <= k < |p| ==> Parent(p)[..k] == p[..k];
      Nearest(w, Parent(p))
  }

  lemma NearestUnique(w: World, p: Path, a: Option<Path>, b: Option<Path>)
    requires IsNearest(w, p, a) && IsNearest(w, p, b)
    ensures a == b
  {
    if a.Some? {
      assert a.value == p[..|a.value|];
    }
    if b.Some? {
      assert b.value == p[..|b.value|];
    }
  }

  /** `zpc_worktree_root`. */
  method WorktreeRoot(w: World, cwd: Path) returns (root: Option<Path>)
    ensures IsNearest(w, cwd, root) && root == Nearest(w, cwd)
  {
    var probe := cwd;
    while true
      invariant probe <= cwd
      invariant forall k :: |probe| < k <= |cwd| ==> cwd[..k] !in w.gits
      decreases |probe|
    {
      assert probe == cwd[..|probe|];
      if probe in w.gits {
        NearestUnique(w, cwd, Some(probe), Nearest(w, cwd));
        return Some(probe);
      }
      if Parent(probe) == probe {
        NearestUnique(w, cwd, None, Nearest(w, cwd));
        return None;
      }
      probe := Parent(probe);
    }
  }

  predicate UnderHome(home: string, probe: Path) {
    home != "" && (Str(probe) == home || home + "/" <= Str(probe))
  }

  function Ceiling(toplevel: Option<Path>, home: string, probe: Path): Path {
    if toplevel.Some? then
      if UnderHome(home, probe) && |Str(toplevel.value)| < |home| then PathOf(home) else toplevel.value
    else if UnderHome(home, probe) then PathOf(home)
    else probe
  }

  /** The text comparison finds the home at a cut of the path's text. */
  lemma UnderHomeCut(home: string, probe: Path)
    requires UnderHome(home, probe) && home[|home| - 1] != '/'
    ensures var s := Slashed(probe); home == s || (|home| < |s| && s[..|home|] == home && s[|home|] == '/')
  {
    hide Slashed;
    if Str(probe) != home {
      assert (home + "/")[|home|] == '/';
    }
  }

  /** A home that passes the text comparison is an ancestor-or-self below the root. */
  lemma HomeIsAncestor(home: string, probe: Path)
    requires Proper(probe) && UnderHome(home, probe) && home[|home| - 1] != '/'
    ensures PathOf(home) <= probe && PathOf(home) != [] && home == Slashed(PathOf(home))
  {
    UnderHomeCut(home, probe);
    assert home != "" && Slashed([]) == "";
    hide PathOf, Str, UnderHome, Slashed;
    var k := CutIsPrefix(probe, home);
    assert probe[..k] != [];
    assert Proper(probe[..k]);
    PathOfStr(probe[..k]);
  }

  /** The text comparison finds exactly the homes above the directory, and the directory itself. */
  lemma UnderHomeIff(home: Path, probe: Path)
    requires Proper(home) && Proper(probe) && home != []
    ensures UnderHome(Slashed(home), probe) <==> home <= probe
  {
    SlashedEnds(home);
    PathOfStr(home);
    if UnderHome(Slashed(home), probe) {
      HomeIsAncestor(Slashed(home), probe);
    }
    if home <= probe {
      var rest := probe[|home|..];
      assert probe == home + rest;
      SlashedConcat(home, rest);
      SlashedStarts(rest);
      hide Slashed, PathOf;
      if rest != [] {
        assert Slashed(rest) == "/" + Slashed(rest)[1..];
        assert Slashed(home) + "/" <= Slashed(probe);
      }
    }
  }

  lemma SlashedStarts(p: Path)
    ensures p != [] ==> Slashed(p) != "" && Slashed(p)[0] == '/'
    ensures p == [] ==> Slashed(p) == ""
  {}

  lemma {:induction false} SlashedEnds(p: Path)
    requires Proper(p) && p != []
    ensures Slashed(p) != "" && Slashed(p)[|Slashed(p)| - 1] != '/'
  {
    var n := |p| - 1;
    assert p[..n] + [p[n]] == p;
    SlashedConcat(p[..n], [p[n]]);
    assert Slashed([p[n]]) == ['/'] + p[n] + Slashed([p[n]][1..]);
    var s := Slashed(p);
    assert s[|s| - 1] == p[n][|p[n]| - 1] && p[n][|p[n]| - 1] in p[n];
  }

  /**
   The ceiling is always an ancestor of the working directory or that directory itself. Comparing
   text lengths picks the deeper of worktree and home, so the walk never leaves home; without
   either, there is only the directory itself.
   */
  lemma CeilingBounds(w: World, home: string, probe: Path, toplevel: Option<Path>)
    requires Proper(probe) && (home != "" ==> home[|home| - 1] != '/') && IsNearest(w, probe, toplevel)
    ensures var c := Ceiling(toplevel, home, probe);
      && c <= probe
      && (UnderHome(home, probe) ==> PathOf(home) <= c)
      && (toplevel.Some? ==> toplevel.value <= c)
      && (toplevel.Some? && !UnderHome(home, probe) ==> c == toplevel.value)
      && (toplevel.Some? && UnderHome(home, probe) ==> c == toplevel.value || c == PathOf(home))
      && (toplevel.None? ==> c == if UnderHome(home, probe) then PathOf(home) else probe)
  {
    hide PathOf, IsNearest, UnderHome, Str, Slashed, Proper;
    assert toplevel.Some? ==> toplevel.value <= probe by {
      NearestIsPrefix(w, probe, toplevel);
    }
    if UnderHome(home, probe) {
      assert home != "" by {
        NotEmptyUnder(home, probe);
      }
      HomeIsAncestor(home, probe);
      if toplevel.Some? {
        var t, h := |toplevel.value|, |PathOf(home)|;
        assert toplevel.value == probe[..t] && PathOf(home) == probe[..h];
        LengthDecides(probe, t, h);
        assert t <= h ==> probe[..t] <= probe[..h];
        assert h <= t ==> probe[..h] <= probe[..t];
      }
    }
  }

  /** Among the ancestors of a directory, the text of the one nearer the root is shorter. */
  lemma LengthDecides(p: Path, t: nat, h: nat)
    requires Proper(p) && t <= |p| && 1 <= h <= |p|
    ensures |Str(p[..t])| < |Slashed(p[..h])| <==> t < h
  {
    if t < h {
      SlashedLonger(p, t, h);
    } else if h < t {
      SlashedLonger(p, h, t);
    }
  }

  lemma NearestIsPrefix(w: World, probe: Path, toplevel: Option<Path>)
    requires IsNearest(w, probe, toplevel)
    ensures toplevel.Some? ==> toplevel.value <= probe
  {}

  lemma NotEmptyUnder(home: string, probe: Path)
    requires UnderHome(home, probe)
    ensures home != ""
  {}

  // ---------------------------------------------------------------- bindings

  /** A line that is neither empty nor a comment, and names the directory. */
  predicate Names(line: string, key: string) {
    line != "" && line[0] != '#' && Bare(Before(line, '\t')) == key
  }

  /** The store a row gives, if the row is to be trusted. */
  function Bound(w: World, line: string): Option<Path> {
    var store := After(line, '\t');
    var path := PathOf(Bare(store));
    if store == "" || store[0] != '/' || path == [] || path[|path| - 1] != ".zpc" || !IsDirectory(w, path) then None
    else if Ours(w, path) then Some(path)
    else None
  }

  /** The first row that names the directory decides, whatever it says. */
  function FirstRow(w: World, lines: seq<string>, key: string): Option<Path> {
    if lines == [] then None
    else if Names(lines[0], key) then Bound(w, lines[0])
    else FirstRow(w, lines[1..], key)
  }

  function BindingOf(w: World, p: Path): Option<Path> {
    if w.bindings.NoFile? || !w.bindings.ours || w.bindings.lines.None? then None
    else FirstRow(w, w.bindings.lines.value, Slashed(p))
  }

  lemma {:induction false} FirstRowDecides(w: World, lines: seq<string>, key: string, i: nat)
    requires i < |lines| && Names(lines[i], key) && forall j :: 0 <= j < i ==> !Names(lines[j], key)
    ensures FirstRow(w, lines, key) == Bound(w, lines[i])
  {
    hide Names, Bound;
    if i > 0 {
      FirstRowDecides(w, lines[1..], key, i - 1);
    }
  }

  lemma {:induction false} BareSlashed(p: Path)
    requires Proper(p)
    ensures Bare(Str(p)) == Slashed(p)
  {
    if p == [] {
      assert Bare("/"[..0]) == "" && "/"[..0] == "";
    } else {
      var n := |p| - 1;
      assert p[..n] + [p[n]] == p;
      SlashedConcat(p[..n], [p[n]]);
      assert Slashed([p[n]]) == ['/'] + p[n] + Slashed([p[n]][1..]);
      var s := Slashed(p);
      assert s[|s| - 1] == p[n][|p[n]| - 1] && p[n][|p[n]| - 1] in p[n];
    }
  }

  /** A row of the bindings file: a directory, a tab, and the store it is bound to. */
  function RowOf(directory: Path, store: Path): string { Str(directory) + ['\t'] + Str(store) }

  /** A store that a row may bind: a `.zpc` directory of the user's own. */
  ghost predicate Bindable(w: World, store: Path) {
    store != [] && store[|store| - 1] == ".zpc" && MyDirectory(w, store)
  }

  lemma StrShape(p: Path)
    ensures Str(p) != "" && Str(p)[0] == '/'
  {}

  lemma SlashedInjective(a: Path, b: Path)
    requires Proper(a) && Proper(b) && Slashed(a) == Slashed(b)
    ensures a == b
  {
    hide Slashed, PathOf;
    PathOfStr(a);
    PathOfStr(b);
  }

  /** A row names exactly its directory, and binds exactly its store, if that may be bound. */
  lemma RowBinds(w: World, directory: Path, store: Path, other: Path)
    requires Proper(directory) && Proper(store) && Proper(other) && '\t' !in Str(directory)
    ensures Names(RowOf(directory, store), Slashed(other)) <==> directory == other
    ensures Bound(w, RowOf(directory, store)) == if Bindable(w, store) then Some(store) else None
  {
    PartitionOf(Str(directory), '\t', Str(store));
    OursIsMine(w, store);
    BareSlashed(directory);
    BareSlashed(store);
    PathOfStr(store);
    StrShape(directory);
    StrShape(store);
    assert RowOf(directory, store)[0] == '/';
    hide Str, Slashed, PathOf, Before, After, Bare;
    if Slashed(directory) == Slashed(other) {
      SlashedInjective(directory, other);
    }
  }

  function Lines(rows: seq<(Path, Path)>): (lines: seq<string>)
    ensures |lines| == |rows| && forall i :: 0 <= i < |rows| ==> lines[i] == RowOf(rows[i].0, rows[i].1)
  {
    seq(|rows|, i requires 0 <= i < |rows| => RowOf(rows[i].0, rows[i].1))
  }

  lemma {:induction false} NoRowNames(w: World, lines: seq<string>, key: string)
    requires forall i :: 0 <= i < |lines| ==> !Names(lines[i], key)
    ensures FirstRow(w, lines, key) == None
  {
    hide Names, Bound;
    if lines != [] {
      NoRowNames(w, lines[1..], key);
    }
  }

  /**
   With a bindings file of the user's own, a directory is bound to the store of the first row for it,
   if that store may be bound, and otherwise to none.
   */
  lemma RowsBind(w: World, rows: seq<(Path, Path)>, directory: Path)
    requires w.bindings == File(true, Some(Lines(rows))) && Proper(directory)
    requires forall i :: 0 <= i < |rows| ==> Proper(rows[i].0) && Proper(rows[i].1) && '\t' !in Str(rows[i].0)
    ensures forall i | 0 <= i < |rows| && rows[i].0 == directory && (forall j :: 0 <= j < i ==> rows[j].0 != directory) ::
      BindingOf(w, directory) == if Bindable(w, rows[i].1) then Some(rows[i].1) else None
    ensures (forall i :: 0 <= i < |rows| ==> rows[i].0 != directory) ==> BindingOf(w, directory) == None
  {
    hide Str, Slashed, Names, Bound, RowOf, Bindable, FirstRow, Proper;
    var lines := Lines(rows);
    forall i | 0 <= i < |rows|
      ensures Names(lines[i], Slashed(directory)) <==> rows[i].0 == directory
      ensures Bound(w, lines[i]) == if Bindable(w, rows[i].1) then Some(rows[i].1) else None
    {
      RowBinds(w, rows[i].0, rows[i].1, directory);
    }
    forall i | 0 <= i < |rows| && rows[i].0 == directory && (forall j :: 0 <= j < i ==> rows[j].0 != directory)
      ensures BindingOf(w, directory) == if Bindable(w, rows[i].1) then Some(rows[i].1) else None
    {
      FirstRowDecides(w, lines, Slashed(directory), i);
    }
    if forall i :: 0 <= i < |rows| ==> rows[i].0 != directory {
      NoRowNames(w, lines, Slashed(directory));
    }
  }

  /** `zpc_binding_for`. */
  method BindingFor(w: World, directory: Path) returns (store: Option<Path>)
    requires Proper(directory)
    ensures store == BindingOf(w, directory)
  {
    if w.bindings.NoFile? || !w.bindings.ours {
      return None;
    }
    var key := Bare(Str(directory));
    BareSlashed(directory);
    if w.bindings.lines.None? {
      return None;
    }
    var lines := w.bindings.lines.value;
    for i := 0 to |lines|
      invariant FirstRow(w, lines[i..], key) == FirstRow(w, lines, key)
    {
      var line := lines[i];
      assert lines[i..][0] == line && lines[i..][1..] == lines[i + 1..];
      if line == "" || line[0] == '#' {
        continue;
      }
      if Bare(Before(line, '\t')) != key {
        continue;
      }
      return Bound(w, line);
    }
    return None;
  }

  // ---------------------------------------------------------------- the walk

  /** What one rung answers: its own store first, then its binding. */
  function Rung(w: World, p: Path): Option<Path> {
    if OwnStore(w, p) then Some(p)
    else match BindingOf(w, p)
      case None => None
      case Some(store) => Some(Parent(store))
  }

  /** The deepest rung from `p` up to depth `floor` that answers. */
  function Climb(w: World, p: Path, floor: nat): Option<Path>
    decreases |p|
  {
    var here := Rung(w, p);
    if here.Some? || |p| <= floor then here else Climb(w, Parent(p), floor)
  }

  /** How far up the walk from a directory goes. */
  function Bounds(w: World, cwd: Path, home: string): Path { Ceiling(Nearest(w, cwd), home, cwd) }

  /** Where memory is read from in a session opened in this directory, with this home. */
  function Resolved(w: World, cwd: string, home: string): Option<Path> {
    var p := PathOf(cwd);
    Climb(w, p, |Bounds(w, p, Bare(home))|)
  }

  /** `zpc_store_root`; the working directory and the home are absolute, as the session gives them. */
  method StoreRoot(w: World, cwd: string, homeText: string) returns (root: Option<Path>)
    ensures root == Resolved(w, cwd, homeText)
  {
    hide Rung, PathOf, IsNearest, Nearest;
    var probe := PathOf(cwd);
    PathOfProper(cwd);
    var home := Bare(homeText);
    var toplevel := WorktreeRoot(w, probe);
    var ceiling := Ceiling(toplevel, home, probe);
    CeilingBounds(w, home, probe, toplevel);
    ghost var start := probe;
    while true
      invariant ceiling <= probe <= start
      invariant Climb(w, start, |ceiling|) == Climb(w, probe, |ceiling|)
      decreases |probe|
    {
      assert Proper(probe);
      RungIs(w, probe);
      if OwnStore(w, probe) {
        return Some(probe);
      }
      var bound := BindingFor(w, probe);
      if bound.Some? {
        return Some(Parent(bound.value));
      }
      if probe == ceiling || Parent(probe) == probe {
        break;
      }
      probe := Parent(probe);
    }
    root := None;
  }

  lemma OwnStoreIs(w: World, p: Path)
    ensures OwnStore(w, p) <==> MyDirectory(w, p + [".zpc"])
  {
    OursIsMine(w, p + [".zpc"]);
  }

  lemma RungIs(w: World, p: Path)
    ensures OwnStore(w, p) ==> Rung(w, p) == Some(p)
    ensures !OwnStore(w, p) && BindingOf(w, p).Some? ==> Rung(w, p) == Some(Parent(BindingOf(w, p).value))
    ensures !OwnStore(w, p) && BindingOf(w, p).None? ==> Rung(w, p) == None
  {
    hide OwnStore, BindingOf;
  }

  // ---------------------------------------------------------------- what the answer is

  /** The answer comes from the deepest rung within the bounds that has one; no answer, no such rung. */
  lemma {:induction false} DeepestRungAnswers(w: World, p: Path, floor: nat)
    requires floor <= |p|
    ensures var answer := Climb(w, p, floor);
      match answer
      case None => forall k :: floor <= k <= |p| ==> Rung(w, p[..k]).None?
      case Some(_) => exists k :: floor <= k <= |p| && Rung(w, p[..k]) == answer
                        && forall j :: k < j <= |p| ==> Rung(w, p[..j]).None?
    decreases |p|
  {
    hide Rung;
    assert p[..|p|] == p;
    if Rung(w, p).None? && |p| > floor {
      DeepestRungAnswers(w, Parent(p), floor);
      assert forall k :: 0 <= k <= |p| - 1 ==> Parent(p)[..k] == p[..k];
    }
  }

  predicate StoreOfOurs(w: World, store: Path) {
    store == Parent(store) + [".zpc"] && IsDirectory(w, store) && Ours(w, store)
  }

  lemma BoundIsOurs(w: World, line: string)
    ensures Bound(w, line).Some? ==> StoreOfOurs(w, Bound(w, line).value)
  {
    hide PathOf, Bare, After, IsDirectory, Ours;
    var path := PathOf(Bare(After(line, '\t')));
    if path != [] {
      assert path == path[..|path| - 1] + [path[|path| - 1]];
    }
  }

  lemma {:induction false} FirstRowOurs(w: World, lines: seq<string>, key: string)
    ensures var b := FirstRow(w, lines, key); b.Some? ==> StoreOfOurs(w, b.value)
    decreases |lines|
  {
    hide Names, Bound, StoreOfOurs;
    if lines != [] {
      BoundIsOurs(w, lines[0]);
      FirstRowOurs(w, lines[1..], key);
    }
  }

  /**
   Whatever the walk answers has a store that is a directory of ours. It is a rung between ceiling
   and working directory, or the home of the store that such a rung is bound to.
   */
  lemma AnswerIsTrusted(w: World, p: Path, floor: nat)
    requires floor <= |p| && Climb(w, p, floor).Some?
    ensures var root := Climb(w, p, floor).value;
      && MyDirectory(w, root + [".zpc"])
      && (exists k :: floor <= k <= |p|
            && (if MyDirectory(w, p[..k] + [".zpc"]) then root == p[..k] else BindingOf(w, p[..k]) == Some(root + [".zpc"]))
            && forall j :: k < j <= |p| ==> Rung(w, p[..j]).None?)
  {
    hide Climb, IsDirectory, Ours, FirstRow;
    DeepestRungAnswers(w, p, floor);
    var root := Climb(w, p, floor).value;
    var k :| floor <= k <= |p| && Rung(w, p[..k]) == Some(root) && forall j :: k < j <= |p| ==> Rung(w, p[..j]).None?;
    OursIsMine(w, p[..k] + [".zpc"]);
    OursIsMine(w, root + [".zpc"]);
    if !OwnStore(w, p[..k]) {
      FirstRowOurs(w, w.bindings.lines.value, Slashed(p[..k]));
    }
  }

  /** A world that agrees on everything of ours; it may have any other entries that are not. */
  ghost predicate SameTrusted(w: World, v: World) {
    && w.me == v.me && w.gits == v.gits && w.bindings == v.bindings
    && forall p :: (Mine(w, p) || Mine(v, p)) ==> p in w.entries && p in v.entries && w.entries[p] == v.entries[p]
  }

  lemma SameOurs(w: World, v: World)
    requires SameTrusted(w, v)
    ensures forall p :: Ours(w, p) <==> Ours(v, p)
    ensures forall p :: Ours(w, p) ==> (IsDirectory(w, p) <==> IsDirectory(v, p))
  {
    forall p
      ensures Ours(w, p) <==> Mine(w, p)
      ensures Ours(v, p) <==> Mine(v, p)
    {
      OursIsMine(w, p);
      OursIsMine(v, p);
    }
  }

  lemma {:induction false} FirstRowSame(w: World, v: World, lines: seq<string>, key: string)
    requires SameTrusted(w, v)
    ensures FirstRow(w, lines, key) == FirstRow(v, lines, key)
    decreases |lines|
  {
    hide Names, PathOf, Bare, After;
    SameOurs(w, v);
    if lines != [] {
      FirstRowSame(w, v, lines[1..], key);
    }
  }

  /** Removing, adding or changing what others own does not change where memory is read from. */
  lemma {:induction false} OthersChangeNothing(w: World, v: World, p: Path, floor: nat)
    requires SameTrusted(w, v)
    ensures Climb(w, p, floor) == Climb(v, p, floor)
    decreases |p|
  {
    RungSame(w, v, p);
    hide Rung, SameTrusted;
    if p != [] {
      OthersChangeNothing(w, v, Parent(p), floor);
    }
  }

  lemma RungSame(w: World, v: World, p: Path)
    requires SameTrusted(w, v)
    ensures Rung(w, p) == Rung(v, p)
  {
    hide FirstRow, Slashed;
    SameOurs(w, v);
    if w.bindings.File? && w.bindings.lines.Some? {
      FirstRowSame(w, v, w.bindings.lines.value, Slashed(p));
    }
  }

  /**
   Both locks at once: whatever the world, the answer is a store directory of the user's own, at a
   rung between the working directory and a ceiling at or below home and at or below the worktree
   root where these apply, or bound to such a rung; and other owners have no influence on it.
   */
  lemma WalkIsSafe(w: World, v: World, cwd: string, home: string)
    requires SameTrusted(w, v)
    ensures Resolved(w, cwd, home) == Resolved(v, cwd, home)
    ensures var p := PathOf(cwd);
      var ceiling := Bounds(w, p, Bare(home));
      && ceiling <= p
      && (UnderHome(Bare(home), p) ==> PathOf(Bare(home)) <= ceiling)
      && (Nearest(w, p).Some? ==> Nearest(w, p).value <= ceiling)
      && (Nearest(w, p).None? ==> ceiling == if UnderHome(Bare(home), p) then PathOf(Bare(home)) else p)
      && match Resolved(w, cwd, home)
         case None => forall k :: |ceiling| <= k <= |p| ==> !MyDirectory(w, p[..k] + [".zpc"]) && BindingOf(w, p[..k]).None?
         case Some(root) =>
           MyDirectory(w, root + [".zpc"])
           && exists k :: |ceiling| <= k <= |p|
                && (if MyDirectory(w, p[..k] + [".zpc"]) then root == p[..k] else BindingOf(w, p[..k]) == Some(root + [".zpc"]))
                && forall j :: k < j <= |p| ==> !MyDirectory(w, p[..j] + [".zpc"]) && BindingOf(w, p[..j]).None?
  {
    hide Climb, Rung, OwnStore, BindingOf, IsNearest, PathOf, MyDirectory;
    forall q
      ensures Rung(w, q).None? <==> !MyDirectory(w, q + [".zpc"]) && BindingOf(w, q).None?
    {
      RungIs(w, q);
      OwnStoreIs(w, q);
    }
    var p := PathOf(cwd);
    PathOfProper(cwd);
    CeilingBounds(w, Bare(home), p, Nearest(w, p));
    SameNearest(w, v, p);
    var ceiling := Bounds(w, p, Bare(home));
    OthersChangeNothing(w, v, p, |ceiling|);
    DeepestRungAnswers(w, p, |ceiling|);
    if Climb(w, p, |ceiling|).Some? {
      AnswerIsTrusted(w, p, |ceiling|);
    }
  }

  lemma SameNearest(w: World, v: World, p: Path)
    requires w.gits == v.gits
    ensures Nearest(w, p) == Nearest(v, p)
  {
    NearestUnique(w, p, Nearest(w, p), Nearest(v, p));
  }
}
