/** Expansion of notify groups into recipients (lib/notify.py). */
module NotifyGroups {
  import opened Text

  type Groups = map<string, seq<string>>

  // ---------------------------------------------------------------- the expansion

  /** Append what is not there yet, in order. */
  function Merge(expanded: seq<string>, more: seq<string>): seq<string> {
    if more == [] then expanded
    else
      var r := Merge(expanded, more[..|more| - 1]);
      var last := more[|more| - 1];
      if last in r then r else r + [last]
  }

  lemma Smaller(groups: Groups, name: string, seen: set<string>)
    requires name in groups && name !in seen
    ensures |groups.Keys - (seen + {name})| < |groups.Keys - seen|
  {
    assert groups.Keys - (seen + {name}) == (groups.Keys - seen) - {name};
  }

  /** The expansion of a name under the groups on the path to it; None is the cycle error. */
  function Expand(groups: Groups, name: string, seen: set<string>): Option<seq<string>>
    decreases |groups.Keys - seen|, 1, 0
  {
    if name in seen then None
    else if name !in groups then Some([name])
    else
      Smaller(groups, name, seen);
      ExpandAll(groups, groups[name], seen + {name})
  }

  function ExpandAll(groups: Groups, members: seq<string>, seen: set<string>): Option<seq<string>>
    decreases |groups.Keys - seen|, 2, |members|
  {
    if members == [] then Some([])
    else
      var init := ExpandAll(groups, members[..|members| - 1], seen);
      var last := Expand(groups, members[|members| - 1], seen);
      if init.None? || last.None? then None else Some(Merge(init.value, last.value))
  }

  lemma {:induction false} ExpandAllFails(groups: Groups, members: seq<string>, seen: set<string>)
    ensures ExpandAll(groups, members, seen).None?
            <==> exists k :: 0 <= k < |members| && Expand(groups, members[k], seen).None?
    decreases |members|
  {
    hide Expand, Merge;
    if members != [] {
      var n := |members| - 1;
      ExpandAllFails(groups, members[..n], seen);
      assert forall k :: 0 <= k < n ==> members[..n][k] == members[k];
    }
  }

  lemma ExpandAllExtend(groups: Groups, members: seq<string>, k: nat, seen: set<string>)
    requires k < |members|
    ensures ExpandAll(groups, members[..0], seen) == Some([])
    ensures ExpandAll(groups, members[..k + 1], seen) ==
      var init, last := ExpandAll(groups, members[..k], seen), Expand(groups, members[k], seen);
      if init.None? || last.None? then None else Some(Merge(init.value, last.value))
  {
    hide Expand, Merge;
    var init := members[..k + 1];
    assert init[..k] == members[..k] && init[k] == members[k];
  }

  lemma MergeExtend(a: seq<string>, b: seq<string>, i: nat)
    requires i < |b|
    ensures var m := Merge(a, b[..i]); Merge(a, b[..i + 1]) == if b[i] in m then m else m + [b[i]]
  {
    assert b[..i + 1][..i] == b[..i];
  }

  lemma MergeNone(a: seq<string>, b: seq<string>)
    ensures Merge(a, b[..0]) == a
  {}

  /** Append what is not there yet; `added` is what is there. */
  method AppendNew(expanded: seq<string>, added: set<string>, resolved: seq<string>)
    returns (all: seq<string>, present: set<string>)
    requires added == set x | x in expanded
    ensures all == Merge(expanded, resolved) && present == set x | x in all
  {
    hide Merge;
    all, present := expanded, added;
    MergeNone(expanded, resolved);
    for i := 0 to |resolved|
      invariant all == Merge(expanded, resolved[..i])
      invariant present == set x | x in all
    {
      MergeExtend(expanded, resolved, i);
      if resolved[i] in present {
        continue;
      }
      present := present + {resolved[i]};
      all := all + [resolved[i]];
    }
    assert resolved[..|resolved|] == resolved;
  }

  /** `expand_group_members`. */
  method ExpandGroupMembers(groups: Groups, name: string, seen: set<string>) returns (result: Option<seq<string>>)
    ensures result == Expand(groups, name, seen)
    decreases |groups.Keys - seen|
  {
    if name in seen {
      return None;
    }
    if name !in groups {
      return Some([name]);
    }
    var nextSeen := seen + {name};
    var members := groups[name];
    var expanded: seq<string> := [];
    var added: set<string> := {};
    Smaller(groups, name, seen);
    assert ExpandAll(groups, members[..0], nextSeen) == Some([]);
    hide ExpandAll, Merge;
    for k := 0 to |members|
      invariant ExpandAll(groups, members[..k], nextSeen) == Some(expanded)
      invariant added == set x | x in expanded
    {
      ExpandAllExtend(groups, members, k, nextSeen);
      var inner := ExpandGroupMembers(groups, members[k], nextSeen);
      if inner.None? {
        ExpandAllFails(groups, members, nextSeen);
        return None;
      }
      expanded, added := AppendNew(expanded, added, inner.value);
    }
    assert members[..|members|] == members;
    result := Some(expanded);
  }

  // ---------------------------------------------------------------- the member graph

  /** The name reached from `name` by taking the member at each index in turn. */
  function Follow(groups: Groups, name: string, choices: seq<nat>): Option<string>
    decreases |choices|
  {
    if choices == [] then Some(name)
    else if name in groups && choices[0] < |groups[name]| then Follow(groups, groups[name][choices[0]], choices[1..])
    else None
  }

  /** `x` is a recipient, not a group, at the end of these choices. */
  predicate Visits(groups: Groups, name: string, choices: seq<nat>, x: string) {
    Follow(groups, name, choices) == Some(x) && x !in groups
  }

  ghost predicate OnCycle(groups: Groups, x: string) {
    exists choices :: choices != [] && Follow(groups, x, choices) == Some(x)
  }

  ghost predicate CycleReachable(groups: Groups, name: string) {
    exists choices :: Follow(groups, name, choices).Some? && OnCycle(groups, Follow(groups, name, choices).value)
  }

  /** Lexicographic order of choices: the order in which a depth-first visit makes them. */
  predicate Earlier(c: seq<nat>, d: seq<nat>) {
    d != [] && (c == [] || c[0] < d[0] || (c[0] == d[0] && Earlier(c[1..], d[1..])))
  }

  // ---------------------------------------------------------------- when it raises

  ghost predicate Trouble(groups: Groups, name: string, seen: set<string>) {
    exists choices :: Troubled(groups, name, seen, choices)
  }

  ghost predicate Troubled(groups: Groups, name: string, seen: set<string>, choices: seq<nat>) {
    var end := Follow(groups, name, choices);
    end.Some? && (end.value in seen || OnCycle(groups, end.value))
  }

  lemma FollowMember(groups: Groups, name: string, k: nat, rest: seq<nat>)
    requires name in groups && k < |groups[name]|
    ensures Follow(groups, name, [k] + rest) == Follow(groups, groups[name][k], rest)
  {
    assert ([k] + rest)[1..] == rest;
  }

  lemma TroubleDown(groups: Groups, name: string, seen: set<string>)
    requires name !in seen && Trouble(groups, name, seen)
    ensures name in groups
    ensures exists k :: 0 <= k < |groups[name]| && Trouble(groups, groups[name][k], seen + {name})
  {
    var c :| Troubled(groups, name, seen, c);
    var d :| d != [] && (d == c || (c == [] && Follow(groups, name, d) == Some(name)));
    assert Troubled(groups, groups[name][d[0]], seen + {name}, d[1..]);
  }

  lemma TroubleUp(groups: Groups, name: string, seen: set<string>, k: nat)
    requires name in groups && k < |groups[name]| && Trouble(groups, groups[name][k], seen + {name})
    ensures Trouble(groups, name, seen)
  {
    var d :| Troubled(groups, groups[name][k], seen + {name}, d);
    FollowMember(groups, name, k, d);
    if Follow(groups, name, [k] + d) == Some(name) {
      assert OnCycle(groups, name);
      assert Troubled(groups, name, seen, []);
    } else {
      assert Troubled(groups, name, seen, [k] + d);
    }
  }

  lemma {:induction false} FailsIffTrouble(groups: Groups, name: string, seen: set<string>)
    ensures Expand(groups, name, seen).None? <==> Trouble(groups, name, seen)
    decreases |groups.Keys - seen|
  {
    hide ExpandAll, Trouble;
    if name in seen {
      TroubledHere(groups, name, seen);
    } else if name !in groups {
      if Trouble(groups, name, seen) {
        TroubleDown(groups, name, seen);
      }
    } else {
      var members, below := groups[name], seen + {name};
      Smaller(groups, name, seen);
      forall k | 0 <= k < |members|
        ensures Expand(groups, members[k], below).None? <==> Trouble(groups, members[k], below)
        ensures Trouble(groups, members[k], below) ==> Trouble(groups, name, seen)
      {
        FailsIffTrouble(groups, members[k], below);
        if Trouble(groups, members[k], below) {
          TroubleUp(groups, name, seen, k);
        }
      }
      ExpandAllFails(groups, members, below);
      if Trouble(groups, name, seen) {
        TroubleDown(groups, name, seen);
      }
    }
  }

  lemma TroubledHere(groups: Groups, name: string, seen: set<string>)
    requires name in seen
    ensures Trouble(groups, name, seen)
  {
    assert Troubled(groups, name, seen, []);
  }

  /** The expansion raises exactly when a cycle can be reached from the name. */
  lemma RaisesIffCycle(groups: Groups, name: string)
    ensures Expand(groups, name, {}).None? <==> CycleReachable(groups, name)
  {
    hide Expand, Follow, OnCycle;
    FailsIffTrouble(groups, name, {});
    if CycleReachable(groups, name) {
      var c :| Follow(groups, name, c).Some? && OnCycle(groups, Follow(groups, name, c).value);
      assert Troubled(groups, name, {}, c);
    }
  }

  // ---------------------------------------------------------------- what it returns

  ghost predicate Visited(groups: Groups, name: string, x: string) { exists c :: Visits(groups, name, c, x) }

  /** Some visit of `x` comes before every visit of `y`. */
  ghost predicate FirstBefore(groups: Groups, name: string, x: string, y: string) {
    exists c :: Visits(groups, name, c, x) && forall d :: Visits(groups, name, d, y) ==> Earlier(c, d)
  }

  /** `r` lists the recipients below `name`, each once, by their first visits. */
  ghost predicate Lists(groups: Groups, name: string, r: seq<string>) {
    && NoRepeat(r)
    && (forall x :: x in r <==> Visited(groups, name, x))
    && (forall i, j :: 0 <= i < j < |r| ==> FirstBefore(groups, name, r[i], r[j]))
  }

  /** A visit below one of the members; the first choice says which. */
  predicate VisitsUnder(groups: Groups, members: seq<string>, c: seq<nat>, x: string) {
    c != [] && c[0] < |members| && Visits(groups, members[c[0]], c[1..], x)
  }

  ghost predicate VisitedUnder(groups: Groups, members: seq<string>, x: string) {
    exists c :: VisitsUnder(groups, members, c, x)
  }

  ghost predicate FirstBeforeUnder(groups: Groups, members: seq<string>, x: string, y: string) {
    exists c :: VisitsUnder(groups, members, c, x) && forall d :: VisitsUnder(groups, members, d, y) ==> Earlier(c, d)
  }

  ghost predicate ListsUnder(groups: Groups, members: seq<string>, r: seq<string>) {
    && NoRepeat(r)
    && (forall x :: x in r <==> VisitedUnder(groups, members, x))
    && (forall i, j :: 0 <= i < j < |r| ==> FirstBeforeUnder(groups, members, r[i], r[j]))
  }

  /** `Merge` keeps what is there and adds each new name once. */
  lemma {:induction false} MergeMembers(expanded: seq<string>, more: seq<string>)
    requires NoRepeat(expanded)
    ensures var r := Merge(expanded, more);
      && NoRepeat(r) && |r| >= |expanded| && r[..|expanded|] == expanded
      && (forall x :: x in r <==> x in expanded || x in more)
      && (forall i :: |expanded| <= i < |r| ==> r[i] !in expanded)
    decreases |more|
  {
    if more != [] {
      var init, last := more[..|more| - 1], more[|more| - 1];
      assert more == init + [last];
      MergeMembers(expanded, init);
    }
  }

  ghost predicate InOrder(more: seq<string>, x: string, y: string) {
    exists a, b :: 0 <= a < b < |more| && more[a] == x && more[b] == y
  }

  /** The new names come in their order. */
  lemma {:induction false} MergeOrder(expanded: seq<string>, more: seq<string>)
    requires NoRepeat(expanded)
    ensures var r := Merge(expanded, more);
      forall i, j :: |expanded| <= i < j < |r| ==> InOrder(more, r[i], r[j])
    decreases |more|
  {
    if more != [] {
      var init, last := more[..|more| - 1], more[|more| - 1];
      assert more == init + [last];
      MergeMembers(expanded, init);
      MergeOrder(expanded, init);
      var before, r := Merge(expanded, init), Merge(expanded, more);
      forall i, j | |expanded| <= i < j < |r|
        ensures InOrder(more, r[i], r[j])
      {
        if j < |before| {
          assert r[i] == before[i] && r[j] == before[j] && InOrder(init, r[i], r[j]);
          var a, b :| 0 <= a < b < |init| && init[a] == r[i] && init[b] == r[j];
          assert more[a] == r[i] && more[b] == r[j];
        } else {
          assert r[i] == before[i] && before[i] in before && before[i] !in expanded;
          var a :| 0 <= a < |init| && init[a] == before[i];
          assert more[a] == r[i] && more[|more| - 1] == r[j];
        }
      }
    }
  }

  lemma UnderLast(groups: Groups, members: seq<string>, c: seq<nat>, x: string)
    requires members != []
    ensures VisitsUnder(groups, members, c, x) <==>
            VisitsUnder(groups, members[..|members| - 1], c, x)
            || (c != [] && c[0] == |members| - 1 && Visits(groups, members[|members| - 1], c[1..], x))
  {}

  lemma VisitedUnderLast(groups: Groups, members: seq<string>, x: string)
    requires members != []
    ensures VisitedUnder(groups, members, x)
            <==> VisitedUnder(groups, members[..|members| - 1], x) || Visited(groups, members[|members| - 1], x)
  {
    hide Visits;
    var init, n := members[..|members| - 1], |members| - 1;
    if VisitedUnder(groups, members, x) {
      var c :| VisitsUnder(groups, members, c, x);
      UnderLast(groups, members, c, x);
    }
    if VisitedUnder(groups, init, x) {
      var c :| VisitsUnder(groups, init, c, x);
      UnderLast(groups, members, c, x);
      assert VisitsUnder(groups, members, c, x);
    }
    if Visited(groups, members[n], x) {
      var c :| Visits(groups, members[n], c, x);
      assert ([n] + c)[1..] == c;
      assert VisitsUnder(groups, members, [n] + c, x);
    }
  }

  /** A name first visited below the earlier members precedes what comes later. */
  lemma OldFirst(groups: Groups, members: seq<string>, x: string, y: string)
    requires members != []
    requires var init := members[..|members| - 1];
      FirstBeforeUnder(groups, init, x, y) || (VisitedUnder(groups, init, x) && !VisitedUnder(groups, init, y))
    ensures FirstBeforeUnder(groups, members, x, y)
  {
    hide Visits;
    var init := members[..|members| - 1];
    var c :| VisitsUnder(groups, init, c, x) && forall d :: VisitsUnder(groups, init, d, y) ==> Earlier(c, d);
    UnderLast(groups, members, c, x);
    forall d | VisitsUnder(groups, members, d, y)
      ensures Earlier(c, d)
    {
      UnderLast(groups, members, d, y);
    }
  }

  /** Two names first visited below the last member keep the order they have there. */
  lemma NewFirst(groups: Groups, members: seq<string>, x: string, y: string)
    requires members != []
    requires !VisitedUnder(groups, members[..|members| - 1], y)
    requires FirstBefore(groups, members[|members| - 1], x, y)
    ensures FirstBeforeUnder(groups, members, x, y)
  {
    hide Visits;
    var n := |members| - 1;
    var c :| Visits(groups, members[n], c, x) && forall d :: Visits(groups, members[n], d, y) ==> Earlier(c, d);
    assert ([n] + c)[1..] == c;
    assert VisitsUnder(groups, members, [n] + c, x);
    forall d | VisitsUnder(groups, members, d, y)
      ensures Earlier([n] + c, d)
    {
      UnderLast(groups, members, d, y);
      assert !VisitsUnder(groups, members[..n], d, y);
    }
  }

  lemma MergeLists(groups: Groups, members: seq<string>, expanded: seq<string>, more: seq<string>)
    requires members != []
    requires ListsUnder(groups, members[..|members| - 1], expanded)
    requires Lists(groups, members[|members| - 1], more)
    ensures ListsUnder(groups, members, Merge(expanded, more))
  {
    hide Merge, VisitedUnder, Visited, FirstBefore, FirstBeforeUnder;
    var r := Merge(expanded, more);
    MergeMembers(expanded, more);
    MergeOrder(expanded, more);
    forall x
      ensures x in r <==> VisitedUnder(groups, members, x)
    {
      VisitedUnderLast(groups, members, x);
    }
    forall i, j | 0 <= i < j < |r|
      ensures FirstBeforeUnder(groups, members, r[i], r[j])
    {
      if i < |expanded| {
        assert r[i] == r[..|expanded|][i] == expanded[i];
        assert expanded[i] in expanded;
        if j < |expanded| {
          assert r[j] == r[..|expanded|][j] == expanded[j];
        } else {
          assert r[j] !in expanded;
        }
        OldFirst(groups, members, r[i], r[j]);
      } else {
        assert InOrder(more, r[i], r[j]) && r[j] !in expanded;
        NewFirst(groups, members, r[i], r[j]);
      }
    }
  }

  lemma {:induction false} ExpandAllLists(groups: Groups, members: seq<string>, seen: set<string>)
    requires ExpandAll(groups, members, seen).Some?
    ensures ListsUnder(groups, members, ExpandAll(groups, members, seen).value)
    decreases |groups.Keys - seen|, 2, |members|
  {
    hide Expand, ListsUnder, Lists, Merge;
    if members == [] {
      ListsNothing(groups);
    } else {
      var n := |members| - 1;
      ExpandAllLists(groups, members[..n], seen);
      ExpandLists(groups, members[n], seen);
      MergeLists(groups, members, ExpandAll(groups, members[..n], seen).value, Expand(groups, members[n], seen).value);
    }
  }

  lemma ListsNothing(groups: Groups)
    ensures ListsUnder(groups, [], [])
  {}

  lemma GroupLists(groups: Groups, name: string, r: seq<string>)
    requires name in groups && ListsUnder(groups, groups[name], r)
    ensures Lists(groups, name, r)
  {
    forall c, x
      ensures Visits(groups, name, c, x) <==> VisitsUnder(groups, groups[name], c, x)
    {}
    forall x
      ensures VisitedUnder(groups, groups[name], x) <==> Visited(groups, name, x)
    {
      hide Visits, VisitsUnder;
    }
    forall i, j | 0 <= i < j < |r|
      ensures FirstBefore(groups, name, r[i], r[j])
    {
      hide Visits, VisitsUnder;
      assert FirstBeforeUnder(groups, groups[name], r[i], r[j]);
    }
  }

  lemma LeafLists(groups: Groups, name: string)
    requires name !in groups
    ensures Lists(groups, name, [name])
  {
    assert Visits(groups, name, [], name);
  }

  lemma {:induction false} ExpandLists(groups: Groups, name: string, seen: set<string>)
    requires Expand(groups, name, seen).Some?
    ensures Lists(groups, name, Expand(groups, name, seen).value)
    decreases |groups.Keys - seen|, 1, 0
  {
    hide ExpandAll, Lists, ListsUnder;
    if name !in groups {
      LeafLists(groups, name);
    } else {
      Smaller(groups, name, seen);
      ExpandAllLists(groups, groups[name], seen + {name});
      GroupLists(groups, name, Expand(groups, name, seen).value);
    }
  }

  /**
   A successful expansion lists exactly the recipients that can be reached from the name, each
   once, in the order in which a depth-first visit first meets them.
   */
  lemma ExpansionListsRecipients(groups: Groups, name: string)
    requires !CycleReachable(groups, name)
    ensures Expand(groups, name, {}).Some? && Lists(groups, name, Expand(groups, name, {}).value)
  {
    hide Expand, Lists, CycleReachable;
    RaisesIffCycle(groups, name);
    ExpandLists(groups, name, {});
  }

  lemma {:induction false} EarlierOneWay(c: seq<nat>, d: seq<nat>)
    requires Earlier(c, d)
    ensures !Earlier(d, c)
    decreases |c|
  {
    if c != [] && c[0] == d[0] {
      EarlierOneWay(c[1..], d[1..]);
    }
  }

  lemma FirstOneWay(groups: Groups, name: string, x: string, y: string)
    requires FirstBefore(groups, name, x, y)
    ensures !FirstBefore(groups, name, y, x)
  {
    hide Visits;
    if FirstBefore(groups, name, y, x) {
      var c :| Visits(groups, name, c, x) && forall d :: Visits(groups, name, d, y) ==> Earlier(c, d);
      var d :| Visits(groups, name, d, y) && forall e :: Visits(groups, name, e, x) ==> Earlier(d, e);
      EarlierOneWay(c, d);
    }
  }

  ghost predicate ByFirstVisit(groups: Groups, name: string, r: seq<string>) {
    NoRepeat(r) && forall i, j :: 0 <= i < j < |r| ==> FirstBefore(groups, name, r[i], r[j])
  }

  lemma {:induction false} OrderUnique(groups: Groups, name: string, r: seq<string>, s: seq<string>)
    requires ByFirstVisit(groups, name, r) && ByFirstVisit(groups, name, s)
    requires forall x :: x in r <==> x in s
    ensures r == s
    decreases |r|
  {
    hide FirstBefore;
    if r == [] {
      assert forall i :: 0 <= i < |s| ==> s[i] in r;
    } else {
      assert r[0] in s && s != [] && s[0] in r;
      if r[0] != s[0] {
        var i :| 0 < i < |r| && r[i] == s[0];
        var j :| 0 < j < |s| && s[j] == r[0];
        FirstOneWay(groups, name, r[0], s[0]);
        assert false;
      }
      assert r == [r[0]] + r[1..] && s == [r[0]] + s[1..];
      forall x
        ensures x in r[1..] <==> x in s[1..]
      {
        assert x in r <==> x == r[0] || x in r[1..];
        assert x in s <==> x == r[0] || x in s[1..];
        assert r[0] !in r[1..] && r[0] !in s[1..];
      }
      OrderUnique(groups, name, r[1..], s[1..]);
    }
  }

  /** That description leaves one answer only. */
  lemma ListingUnique(groups: Groups, name: string, r: seq<string>, s: seq<string>)
    requires Lists(groups, name, r) && Lists(groups, name, s)
    ensures r == s
  {
    hide Visited, FirstBefore;
    OrderUnique(groups, name, r, s);
  }
}
