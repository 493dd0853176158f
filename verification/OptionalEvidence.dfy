/** Optional evidence: dropping the fewest damaged groups that lets a report validate. */
module OptionalEvidence {
  import opened Basics
  import opened CopiedDocument
  import opened EvidenceDrop
  import opened Json
  import opened Removal
  import Redaction
  import ProseRedaction

  /** A declared path names at least one key. */
  predicate Declared(groups: seq<Group>) {
    forall g, p :: g in groups && p in g.paths ==> p != []
  }

  function PathsOf(groups: seq<Group>): set<Path> {
    set g, p | g in groups && p in g.paths :: p
  }

  /** `_without`: a deep copy of the document, with every path of the groups popped from it in place. */
  method Without(document: Json, groups: seq<Group>) returns (stripped: Json)
    requires Declared(groups) && document.Obj?
    ensures stripped == Strip(document, PathsOf(groups))
  {
    var copy, root := Copy(document, []);
    var cells := new Cell[|copy|](i requires 0 <= i < |copy| => copy[i]);
    assert cells[..] == copy;
    ghost var done: set<Path> := {};
    StripNothing(document);
    for g := 0 to |groups|
      invariant done == PathsOf(groups[..g]) && Standing(cells[..], root, document, done)
    {
      var paths := groups[g].paths;
      assert groups[g] in groups;
      PopPaths(cells, root.id, paths, document, done);
      done := done + set p | p in paths;
      assert groups[..g + 1] == groups[..g] + [groups[g]];
    }
    assert groups[..|groups|] == groups;
    stripped := Decode(cells[..], root);
  }

  /** The copy with some paths popped. */
  ghost predicate Standing(cells: seq<Cell>, root: Val, document: Json, done: set<Path>) {
    && Copied(cells) && root.Ref? && root.id < |cells| && Unshared(cells, root)
    && Decode(cells, root) == Strip(document, done)
  }

  method PopPaths(cells: array<Cell>, root: nat, paths: seq<Path>, ghost document: Json, ghost done: set<Path>)
    requires Standing(cells[..], Ref(root), document, done) && [] !in paths
    modifies cells
    ensures Standing(cells[..], Ref(root), document, done + set p | p in paths)
  {
    ghost var now := done;
    for i := 0 to |paths|
      invariant now == done + (set p | p in paths[..i]) && Standing(cells[..], Ref(root), document, now)
    {
      assert paths[i] in paths;
      StripInsert(document, now, paths[i]);
      PopPath(cells, root, paths[i]);
      now := now + {paths[i]};
      assert paths[..i + 1] == paths[..i] + [paths[i]];
    }
    assert paths[..|paths|] == paths;
  }

  // ---- The search ----

  /** The choices of `k` groups, in the order of `itertools.combinations`. */
  function Combinations(groups: seq<Group>, k: nat): seq<seq<Group>> {
    if k == 0 then [[]] else if groups == [] then []
    else Prefixed(groups[0], Combinations(groups[1..], k - 1)) + Combinations(groups[1..], k)
  }

  function Prefixed(g: Group, choices: seq<seq<Group>>): seq<seq<Group>> {
    seq(|choices|, i requires 0 <= i < |choices| => [g] + choices[i])
  }

  /** `s` picks some of `groups`, by position, keeping their order. */
  predicate Picks(s: seq<Group>, groups: seq<Group>) {
    s == [] || (groups != [] && ((s[0] == groups[0] && Picks(s[1..], groups[1..])) || Picks(s, groups[1..])))
  }

  /** Positions in ascending order. */
  predicate Climbing(at: seq<nat>, n: nat) {
    (forall i :: 0 <= i < |at| ==> at[i] < n) && forall i, j :: 0 <= i < j < |at| ==> at[i] < at[j]
  }

  ghost predicate PickedAt(s: seq<Group>, groups: seq<Group>, at: seq<nat>) {
    |at| == |s| && Climbing(at, |groups|) && forall i :: 0 <= i < |s| ==> s[i] == groups[at[i]]
  }

  lemma {:induction false} PicksAt(s: seq<Group>, groups: seq<Group>) returns (at: seq<nat>)
    requires Picks(s, groups)
    ensures PickedAt(s, groups, at)
    decreases |groups|
  {
    at := [];
    if s != [] {
      if s[0] == groups[0] && Picks(s[1..], groups[1..]) {
        var rest := PicksAt(s[1..], groups[1..]);
        at := [0] + seq(|rest|, i requires 0 <= i < |rest| => rest[i] + 1);
      } else {
        var rest := PicksAt(s, groups[1..]);
        at := seq(|rest|, i requires 0 <= i < |rest| => rest[i] + 1);
      }
    }
  }

  lemma {:induction false} AtPicks(s: seq<Group>, groups: seq<Group>, at: seq<nat>)
    requires PickedAt(s, groups, at)
    ensures Picks(s, groups)
    decreases |groups|
  {
    if s != [] {
      var down := seq(|at|, i requires 0 <= i < |at| => if at[i] > 0 then at[i] - 1 else 0);
      if at[0] == 0 {
        AtPicks(s[1..], groups[1..], down[1..]);
      } else {
        AtPicks(s, groups[1..], down);
      }
    }
  }

  /** A choice of groups is some of their positions, in order. */
  lemma PicksIs(s: seq<Group>, groups: seq<Group>)
    ensures Picks(s, groups) <==> exists at :: PickedAt(s, groups, at)
  {
    if Picks(s, groups) { var at := PicksAt(s, groups); }
    if at :| PickedAt(s, groups, at) { AtPicks(s, groups, at); }
  }

  lemma PrefixedMember(g: Group, choices: seq<seq<Group>>, s: seq<Group>)
    ensures s in Prefixed(g, choices) <==> s != [] && s[0] == g && s[1..] in choices
  {
    if s != [] && s[0] == g && s[1..] in choices {
      var i :| 0 <= i < |choices| && choices[i] == s[1..];
      assert s == [g] + s[1..];
      assert Prefixed(g, choices)[i] == s;
    }
    if s in Prefixed(g, choices) {
      var i :| 0 <= i < |choices| && Prefixed(g, choices)[i] == s;
      assert s[1..] == choices[i];
    }
  }

  lemma CombinationsSplit(groups: seq<Group>, k: nat, s: seq<Group>)
    requires k > 0 && groups != []
    ensures s in Combinations(groups, k) <==>
      || (s != [] && s[0] == groups[0] && s[1..] in Combinations(groups[1..], k - 1))
      || s in Combinations(groups[1..], k)
  {
    PrefixedMember(groups[0], Combinations(groups[1..], k - 1), s);
  }

  lemma {:induction false} CombinationsExact(groups: seq<Group>, k: nat, s: seq<Group>)
    ensures s in Combinations(groups, k) <==> |s| == k && Picks(s, groups)
    decreases |groups|
  {
    if k > 0 && groups != [] {
      CombinationsSplit(groups, k, s);
      CombinationsExact(groups[1..], k, s);
      if s != [] { CombinationsExact(groups[1..], k - 1, s[1..]); }
    }
  }

  /** Choices of `k` of the positions from `base` to `n`. */
  function Positions(n: nat, k: nat, base: nat): seq<seq<nat>>
    decreases n - base
  {
    if k == 0 then [[]] else if base >= n then []
    else Before(base, Positions(n, k - 1, base + 1)) + Positions(n, k, base + 1)
  }

  function Before(p: nat, choices: seq<seq<nat>>): seq<seq<nat>> {
    seq(|choices|, i requires 0 <= i < |choices| => [p] + choices[i])
  }

  /** At the first place where two choices differ the first has the smaller position. */
  ghost predicate Earlier(a: seq<nat>, b: seq<nat>) {
    exists m :: 0 <= m < |a| && m < |b| && a[..m] == b[..m] && a[m] < b[m]
  }

  lemma EarlierCons(p: nat, a: seq<nat>, b: seq<nat>)
    requires Earlier(a, b)
    ensures Earlier([p] + a, [p] + b)
  {
    var m :| 0 <= m < |a| && m < |b| && a[..m] == b[..m] && a[m] < b[m];
    assert ([p] + a)[..m + 1] == [p] + a[..m] && ([p] + b)[..m + 1] == [p] + b[..m];
    assert ([p] + a)[m + 1] < ([p] + b)[m + 1];
  }

  lemma {:induction false} PositionsFrom(n: nat, k: nat, base: nat, i: nat)
    requires i < |Positions(n, k, base)|
    ensures |Positions(n, k, base)[i]| == k && (k > 0 ==> base <= Positions(n, k, base)[i][0])
    decreases n - base
  {
    if k > 0 && base < n {
      var with := Before(base, Positions(n, k - 1, base + 1));
      if i < |with| { PositionsFrom(n, k - 1, base + 1, i); } else { PositionsFrom(n, k, base + 1, i - |with|); }
    }
  }

  /** Choices are tried in the order of their positions. */
  lemma {:induction false} PositionsInOrder(n: nat, k: nat, base: nat, i: nat, j: nat)
    requires i < j < |Positions(n, k, base)|
    ensures Earlier(Positions(n, k, base)[i], Positions(n, k, base)[j])
    decreases n - base
  {
    var with := Before(base, Positions(n, k - 1, base + 1));
    var a, b := Positions(n, k, base)[i], Positions(n, k, base)[j];
    if j < |with| {
      PositionsInOrder(n, k - 1, base + 1, i, j);
      EarlierCons(base, Positions(n, k - 1, base + 1)[i], Positions(n, k - 1, base + 1)[j]);
    } else if i < |with| {
      PositionsFrom(n, k - 1, base + 1, i);
      PositionsFrom(n, k, base + 1, j - |with|);
      assert a[..0] == b[..0] && a[0] < b[0];
    } else {
      PositionsInOrder(n, k, base + 1, i - |with|, j - |with|);
    }
  }

  /** The choice is the groups at these positions. */
  predicate StandsAt(s: seq<Group>, groups: seq<Group>, at: seq<nat>) {
    |s| == |at| && forall i :: 0 <= i < |at| ==> at[i] < |groups| && s[i] == groups[at[i]]
  }

  ghost predicate AllStand(choices: seq<seq<Group>>, groups: seq<Group>, ats: seq<seq<nat>>) {
    |choices| == |ats| && forall i :: 0 <= i < |ats| ==> StandsAt(choices[i], groups, ats[i])
  }

  lemma AllStandCons(choices: seq<seq<Group>>, groups: seq<Group>, ats: seq<seq<nat>>, p: nat)
    requires AllStand(choices, groups, ats) && p < |groups|
    ensures AllStand(Prefixed(groups[p], choices), groups, Before(p, ats))
  {
    forall i | 0 <= i < |ats| ensures StandsAt([groups[p]] + choices[i], groups, [p] + ats[i]) {
      assert StandsAt(choices[i], groups, ats[i]);
    }
  }

  lemma AllStandConcat(a: seq<seq<Group>>, b: seq<seq<Group>>, groups: seq<Group>, x: seq<seq<nat>>, y: seq<seq<nat>>)
    requires AllStand(a, groups, x) && AllStand(b, groups, y)
    ensures AllStand(a + b, groups, x + y)
  {
  }

  /** The choices, in the order in which they are tried, are the groups at the positions in their
      order. */
  lemma {:induction false} CombinationsAre(groups: seq<Group>, k: nat, base: nat)
    requires base <= |groups|
    ensures AllStand(Combinations(groups[base..], k), groups, Positions(|groups|, k, base))
    decreases |groups| - base
  {
    if k > 0 && base < |groups| {
      var n, rest := |groups|, groups[base + 1..];
      CombinationsAre(groups, k - 1, base + 1);
      CombinationsAre(groups, k, base + 1);
      AllStandCons(Combinations(rest, k - 1), groups, Positions(n, k - 1, base + 1), base);
      AllStandConcat(Prefixed(groups[base], Combinations(rest, k - 1)), Combinations(rest, k), groups,
                     Before(base, Positions(n, k - 1, base + 1)), Positions(n, k, base + 1));
      assert groups[base..][1..] == rest && groups[base..][0] == groups[base];
    }
  }

  function PresentGroups(doc: Json, groups: seq<Group>): seq<Group> {
    if groups == [] then [] else
    (if AnyPresent(doc, groups[0]) then [groups[0]] else []) + PresentGroups(doc, groups[1..])
  }

  lemma {:induction false} PresentPicks(doc: Json, s: seq<Group>, groups: seq<Group>)
    requires Picks(s, groups)
    ensures Picks(PresentGroups(doc, s), PresentGroups(doc, groups)) && |PresentGroups(doc, s)| <= |s|
    decreases |groups|
  {
    if s != [] {
      if s[0] == groups[0] && Picks(s[1..], groups[1..]) {
        PresentPicks(doc, s[1..], groups[1..]);
        var a, b := PresentGroups(doc, s[1..]), PresentGroups(doc, groups[1..]);
        assert ([s[0]] + a)[1..] == a && ([s[0]] + b)[1..] == b && [] + a == a && [] + b == b;
      } else {
        PresentPicks(doc, s, groups[1..]);
        var b := PresentGroups(doc, groups[1..]);
        assert ([groups[0]] + b)[1..] == b && [] + b == b;
      }
    }
  }

  lemma {:induction false} PresentGroupsAre(doc: Json, groups: seq<Group>)
    ensures forall g :: g in PresentGroups(doc, groups) <==> g in groups && AnyPresent(doc, g)
    ensures Picks(PresentGroups(doc, groups), groups)
  {
    if groups != [] {
      PresentGroupsAre(doc, groups[1..]);
      var a := PresentGroups(doc, groups[1..]);
      assert ([groups[0]] + a)[1..] == a && [] + a == a;
    }
  }

  /** Paths that are not there do not matter. */
  lemma {:induction false} StripAbsent(doc: Json, paths: set<Path>, absent: set<Path>)
    requires forall p :: p in absent ==> !Present(doc, p)
    ensures Strip(doc, paths + absent) == Strip(doc, paths)
    decreases doc
  {
    if doc.Obj? {
      var l, r := Strip(doc, paths + absent).fields, Strip(doc, paths).fields;
      forall k | k in doc.fields
        ensures [k] in paths + absent <==> [k] in paths
        ensures Strip(doc.fields[k], Under(paths + absent, k)) == Strip(doc.fields[k], Under(paths, k))
      {
        assert Present(doc, [k]);
        assert Under(paths + absent, k) == Under(paths, k) + Under(absent, k);
        forall q | q in Under(absent, k) ensures !Present(doc.fields[k], q) {
          var p :| p in absent && p != [] && p[0] == k && p[1..] == q;
        }
        StripAbsent(doc.fields[k], Under(paths, k), Under(absent, k));
      }
      assert l == r;
    }
  }

  /** Dropping groups that are not in the document is the same as not dropping them. */
  lemma OnlyPresentMatter(doc: Json, s: seq<Group>)
    ensures Strip(doc, PathsOf(s)) == Strip(doc, PathsOf(PresentGroups(doc, s)))
  {
    PresentGroupsAre(doc, s);
    var keep := PathsOf(PresentGroups(doc, s));
    var absent := PathsOf(s) - keep;
    forall p | p in absent ensures !Present(doc, p) {
      var g :| g in s && p in g.paths;
      assert !AnyPresent(doc, g);
    }
    assert PathsOf(s) == keep + absent;
    StripAbsent(doc, keep, absent);
  }

  /** What the report became. `redacted` says that host paths in prose were replaced; `drops` tells
      what was lost, group by group. */
  datatype Report = Rejected | Accepted(document: Json, redacted: bool, dropped: seq<Group>, drops: seq<Drop>)

  /** No choice of at most `k` declared groups makes the document valid. */
  ghost predicate NoneUpTo(valid: Json -> bool, doc: Json, groups: seq<Group>, k: nat) {
    forall s :: Picks(s, groups) && |s| <= k ==> !valid(Strip(doc, PathsOf(s)))
  }

  lemma {:induction false} PicksSubset(s: seq<Group>, groups: seq<Group>)
    requires Picks(s, groups)
    ensures |s| <= |groups| && forall g :: g in s ==> g in groups
    decreases |groups|
  {
    if s != [] {
      assert s == [s[0]] + s[1..];
      if s[0] == groups[0] && Picks(s[1..], groups[1..]) {
        PicksSubset(s[1..], groups[1..]);
      } else {
        PicksSubset(s, groups[1..]);
      }
    }
  }

  lemma {:induction false} PicksTransitive(a: seq<Group>, b: seq<Group>, c: seq<Group>)
    requires Picks(a, b) && Picks(b, c)
    ensures Picks(a, c)
    decreases |c|
  {
    if a != [] {
      if b[0] == c[0] && Picks(b[1..], c[1..]) {
        if a[0] == b[0] && Picks(a[1..], b[1..]) {
          PicksTransitive(a[1..], b[1..], c[1..]);
        } else {
          PicksTransitive(a, b[1..], c[1..]);
        }
      } else {
        PicksTransitive(a, b, c[1..]);
      }
    }
  }

  lemma SizeDone(valid: Json -> bool, doc: Json, groups: seq<Group>, size: nat)
    requires size > 0 && NoneUpTo(valid, doc, groups, size - 1)
    requires forall j :: 0 <= j < |Combinations(groups, size)| ==>
      !valid(Strip(doc, PathsOf(Combinations(groups, size)[j])))
    ensures NoneUpTo(valid, doc, groups, size)
  {
    forall s | Picks(s, groups) && |s| <= size ensures !valid(Strip(doc, PathsOf(s))) {
      if |s| == size { CombinationsExact(groups, size, s); }
    }
  }

  /** Searching only the groups that are present loses nothing. */
  lemma LessIsEnough(valid: Json -> bool, doc: Json, groups: seq<Group>, k: nat)
    requires NoneUpTo(valid, doc, PresentGroups(doc, groups), k)
    ensures NoneUpTo(valid, doc, groups, k)
  {
    forall s | Picks(s, groups) && |s| <= k ensures !valid(Strip(doc, PathsOf(s))) {
      PresentPicks(doc, s, groups);
      OnlyPresentMatter(doc, s);
    }
  }

  /** The first of some choices that makes the document valid, if any. */
  method FirstValid(valid: Json -> bool, doc: Json, choices: seq<seq<Group>>) returns (i: nat, stripped: Json)
    requires doc.Obj? && forall s :: s in choices ==> Declared(s)
    ensures i <= |choices| && forall j :: 0 <= j < i ==> !valid(Strip(doc, PathsOf(choices[j])))
    ensures i < |choices| ==> stripped == Strip(doc, PathsOf(choices[i])) && valid(stripped)
  {
    i, stripped := 0, doc;
    while i < |choices|
      invariant 0 <= i <= |choices| && forall j :: 0 <= j < i ==> !valid(Strip(doc, PathsOf(choices[j])))
    {
      stripped := Without(doc, choices[i]);
      if valid(stripped) { return; }
      i := i + 1;
    }
  }

  lemma ChoicesDeclared(groups: seq<Group>, k: nat)
    requires Declared(groups)
    ensures forall s :: s in Combinations(groups, k) ==> Declared(s) && |s| == k && Picks(s, groups)
  {
    forall s | s in Combinations(groups, k) ensures Declared(s) && |s| == k && Picks(s, groups) {
      CombinationsExact(groups, k, s);
      PicksSubset(s, groups);
    }
  }

  lemma NothingDropped(valid: Json -> bool, doc: Json, groups: seq<Group>)
    requires !valid(doc)
    ensures NoneUpTo(valid, doc, groups, 0)
  {
    StripNothing(doc);
    assert PathsOf([]) == {};
  }

  /** Of the choices of its size it is the first that makes the document valid. */
  ghost predicate FirstChoice(valid: Json -> bool, doc: Json, groups: seq<Group>, dropped: seq<Group>) {
    var choices := Combinations(PresentGroups(doc, groups), |dropped|);
    exists i :: 0 <= i < |choices| && choices[i] == dropped &&
      forall j :: 0 <= j < i ==> !valid(Strip(doc, PathsOf(choices[j])))
  }

  /** These groups are dropped: what is left is valid, no choice of fewer groups leaves a valid
      document, and it is the first of its size that does. */
  ghost predicate Best(valid: Json -> bool, doc: Json, groups: seq<Group>, dropped: seq<Group>, document: Json) {
    && Picks(dropped, groups) && document == Strip(doc, PathsOf(dropped)) && valid(document)
    && (forall s :: Picks(s, groups) && valid(Strip(doc, PathsOf(s))) ==> |dropped| <= |s|)
    && FirstChoice(valid, doc, groups, dropped)
  }

  /** No choice of declared groups leaves a valid document. */
  ghost predicate Hopeless(valid: Json -> bool, doc: Json, groups: seq<Group>) {
    forall s :: Picks(s, groups) ==> !valid(Strip(doc, PathsOf(s)))
  }

  lemma BestIsNone(valid: Json -> bool, doc: Json, groups: seq<Group>)
    requires valid(doc)
    ensures Best(valid, doc, groups, [], doc) && !Hopeless(valid, doc, groups)
  {
    StripNothing(doc);
    assert PathsOf([]) == {};
    assert Combinations(PresentGroups(doc, groups), 0)[0] == [];
    assert Picks([], groups);
  }

  lemma FewestIsBest(valid: Json -> bool, doc: Json, groups: seq<Group>, dropped: seq<Group>, document: Json)
    requires Picks(dropped, groups) && document == Strip(doc, PathsOf(dropped)) && valid(document)
    requires |dropped| > 0 && NoneUpTo(valid, doc, groups, |dropped| - 1) && FirstChoice(valid, doc, groups, dropped)
    ensures Best(valid, doc, groups, dropped, document) && !Hopeless(valid, doc, groups)
  {
  }

  /** The search by size and combination over the groups that are present: the first valid
      choice, so the fewest groups of all those declared; refused only when none validates. */
  method Search(valid: Json -> bool, doc: Json, groups: seq<Group>) returns (found: Option<(Json, seq<Group>)>)
    requires Declared(groups) && doc.Obj? && !valid(doc)
    ensures found.Some? ==>
      Best(valid, doc, groups, found.value.1, found.value.0) && forall g :: g in found.value.1 ==> AnyPresent(doc, g)
    ensures found.None? <==> Hopeless(valid, doc, groups)
  {
    var present := PresentGroups(doc, groups);
    PresentGroupsAre(doc, groups);
    NothingDropped(valid, doc, present);
    var size := 1;
    while size <= |present|
      invariant 1 <= size <= |present| + 1
      invariant NoneUpTo(valid, doc, present, size - 1)
    {
      var choices := Combinations(present, size);
      ChoicesDeclared(present, size);
      var i, stripped := FirstValid(valid, doc, choices);
      if i < |choices| {
        PicksTransitive(choices[i], present, groups);
        LessIsEnough(valid, doc, groups, size - 1);
        PicksSubset(choices[i], present);
        FewestIsBest(valid, doc, groups, choices[i], stripped);
        return Some((stripped, choices[i]));
      }
      SizeDone(valid, doc, present, size);
      size := size + 1;
    }
    assert NoneUpTo(valid, doc, present, |groups|) by {
      forall s | Picks(s, present) ensures |s| <= |present| { PicksSubset(s, present); }
    }
    LessIsEnough(valid, doc, groups, |groups|);
    forall s | Picks(s, groups) ensures |s| <= |groups| { PicksSubset(s, groups); }
    return None;
  }

  /** What a refused report is searched as: its prose redacted when it holds a host path. */
  function Basis(data: Json, names: set<string>): Json {
    if ProseRedaction.HasHostPath(data, names) then ProseRedaction.Redacted(data, names, Redaction.RedactText) else data
  }

  /** Removal brings in no host path. */
  lemma {:induction false} StripClean(doc: Json, paths: set<Path>, names: set<string>)
    requires !ProseRedaction.HasHostPath(doc, names)
    ensures !ProseRedaction.HasHostPath(Strip(doc, paths), names)
    decreases doc
  {
    if doc.Obj? {
      forall k | k in doc.fields && !(k in names && doc.fields[k].Str?)
        ensures !ProseRedaction.HasHostPath(Strip(doc.fields[k], Under(paths, k)), names)
      {
        StripClean(doc.fields[k], Under(paths, k), names);
      }
    }
  }

  lemma BasisClean(data: Json, names: set<string>)
    ensures !ProseRedaction.HasHostPath(Basis(data, names), names)
  {
    ProseRedaction.RedactedOnce(data, names);
  }

  /** Each dropped group has its drop, located in the document that was refused. */
  ghost predicate Told(drops: seq<Drop>, dropped: seq<Group>, doc: Json, faults: seq<Fault>, lower: string -> string) {
    |drops| == |dropped| && forall i :: 0 <= i < |drops| ==>
      AnyPresent(doc, dropped[i]) && drops[i] == DropOf(dropped[i], doc, faults, lower)
  }

  function DropsOf(dropped: seq<Group>, doc: Json, faults: seq<Fault>, lower: string -> string): (drops: seq<Drop>)
    requires forall i :: 0 <= i < |dropped| ==> AnyPresent(doc, dropped[i])
    ensures Told(drops, dropped, doc, faults, lower)
  {
    seq(|dropped|, i requires 0 <= i < |dropped| => DropOf(dropped[i], doc, faults, lower))
  }

  lemma ToldOnWire(drops: seq<Drop>, dropped: seq<Group>, doc: Json, faults: seq<Fault>, lower: string -> string)
    requires Told(drops, dropped, doc, faults, lower) && forall g :: g in dropped ==> SafePaths(g)
    ensures forall d :: d in drops ==> OnWire(d)
  {
    forall d | d in drops ensures OnWire(d) {
      var i :| 0 <= i < |drops| && drops[i] == d;
      assert dropped[i] in dropped;
      DropOnWire(dropped[i], doc, faults, lower);
    }
  }

  /** `_drop_invalid_optional_evidence`, for any validity, any faults found and any lower-casing: a
      valid report is accepted whole; a refused one is accepted with a minimum number of declared
      groups dropped from its (redacted if needed) document, and tells for each the field that
      refused it; it is rejected only when no choice of groups validates. */
  method DropInvalidOptionalEvidence(valid: Json -> bool, faults: Json -> seq<Fault>, lower: string -> string,
                                     data: Json, groups: seq<Group>, names: set<string>)
    returns (r: Report)
    requires Declared(groups)
    ensures valid(data) ==> r == Accepted(data, false, [], [])
    ensures !valid(data) && !data.Obj? ==> r.Rejected?
    ensures !valid(data) && data.Obj? ==>
      (r.Rejected? <==> Hopeless(valid, Basis(data, names), groups))
    ensures r.Accepted? && !valid(data) ==>
      && r.redacted == ProseRedaction.HasHostPath(data, names)
      && Best(valid, Basis(data, names), groups, r.dropped, r.document)
      && Told(r.drops, r.dropped, Basis(data, names), faults(Basis(data, names)), lower)
    ensures r.Accepted? && (forall g :: g in groups ==> SafePaths(g)) ==> forall d :: d in r.drops ==> OnWire(d)
    ensures r.Accepted? && !valid(data) ==> !ProseRedaction.HasHostPath(r.document, names)
  {
    if valid(data) { return Accepted(data, false, [], []); }
    if !data.Obj? { return Rejected; }
    var prose := ProseRedaction.RedactedProse(data, names);
    var redacted, doc := prose.Some?, if prose.Some? then prose.value else data;
    BasisClean(data, names);
    if redacted && valid(doc) {
      BestIsNone(valid, doc, groups);
      return Accepted(doc, true, [], []);
    }
    var found := Search(valid, doc, groups);
    if found.Some? {
      var (document, dropped) := found.value;
      PicksSubset(dropped, groups);
      StripClean(doc, PathsOf(dropped), names);
      var drops := DropsOf(dropped, doc, faults(doc), lower);
      if forall g :: g in groups ==> SafePaths(g) { ToldOnWire(drops, dropped, doc, faults(doc), lower); }
      return Accepted(document, redacted, dropped, drops);
    }
    return Rejected;
  }
}
