/** The identity checks over a compiled plan's artifacts: one pass with two maps and a set. */
module ArtifactIdentity {
  datatype Model = Model(publisher: string, slug: string, contentSha256: string)

  datatype Artifact = Artifact(
    selectionId: string,
    path: string,
    fileId: string,
    sha256: string,
    sizeBytes: int,
    model: Model,
    target: string)

  datatype Physical = Physical(fileId: string, sha256: string, sizeBytes: int, model: Model)

  datatype Verdict = Accepted | PhysicalConflict | FileConflict | DuplicateMount

  function PhysicalOf(a: Artifact): Physical { Physical(a.fileId, a.sha256, a.sizeBytes, a.model) }

  // ---- Pairwise conditions ----

  predicate SamePlace(a: Artifact, b: Artifact) { a.selectionId == b.selectionId && a.path == b.path }

  predicate SameFile(a: Artifact, b: Artifact) { a.selectionId == b.selectionId && a.fileId == b.fileId }

  predicate SameMount(a: Artifact, b: Artifact) { a.target == b.target && a.path == b.path }

  /** What the plan asks of any two of its artifacts. */
  predicate Agree(a: Artifact, b: Artifact) {
    && (SamePlace(a, b) ==> PhysicalOf(a) == PhysicalOf(b))
    && (SameFile(a, b) ==> a.path == b.path)
    && !SameMount(a, b)
  }

  ghost predicate Pairwise(s: seq<Artifact>) {
    forall i, j :: 0 <= i < j < |s| ==> Agree(s[i], s[j])
  }

  /** How an artifact clashes with those before it: the first of the three checks it fails. */
  ghost function Against(s: seq<Artifact>, a: Artifact): Verdict {
    if OtherPhysical(s, a) then PhysicalConflict
    else if OtherPath(s, a) then FileConflict
    else if MountTaken(s, a) then DuplicateMount
    else Accepted
  }

  ghost predicate OtherPhysical(s: seq<Artifact>, a: Artifact) {
    exists b :: b in s && SamePlace(a, b) && PhysicalOf(a) != PhysicalOf(b)
  }

  ghost predicate OtherPath(s: seq<Artifact>, a: Artifact) { exists b :: b in s && SameFile(a, b) && a.path != b.path }

  ghost predicate MountTaken(s: seq<Artifact>, a: Artifact) { exists b :: b in s && SameMount(a, b) }

  /** The verdict on a list is that of the first artifact that clashes with an earlier one. */
  ghost function FirstClash(s: seq<Artifact>): Verdict {
    if s == [] then Accepted else
    var before := FirstClash(s[..|s| - 1]);
    if before != Accepted then before else Against(s[..|s| - 1], s[|s| - 1])
  }

  lemma AgainstAgrees(s: seq<Artifact>, a: Artifact)
    ensures Against(s, a) == Accepted <==> forall b :: b in s ==> Agree(b, a)
  {
    if Against(s, a) == Accepted {
      forall b | b in s ensures Agree(b, a) {
        assert !(SamePlace(a, b) && PhysicalOf(a) != PhysicalOf(b));
        assert !(SameFile(a, b) && a.path != b.path) && !SameMount(a, b);
      }
    }
  }

  lemma PairwiseSnoc(s: seq<Artifact>, a: Artifact)
    ensures Pairwise(s + [a]) <==> Pairwise(s) && forall b :: b in s ==> Agree(b, a)
  {
    var t := s + [a];
    assert forall i :: 0 <= i < |s| ==> t[i] == s[i];
    if Pairwise(t) {
      forall i, j | 0 <= i < j < |s| ensures Agree(s[i], s[j]) { assert Agree(t[i], t[j]); }
      forall b | b in s ensures Agree(b, a) {
        var i :| 0 <= i < |s| && s[i] == b;
        assert Agree(t[i], t[|s|]);
      }
    }
    if Pairwise(s) && forall b :: b in s ==> Agree(b, a) {
      forall i, j | 0 <= i < j < |t| ensures Agree(t[i], t[j]) { assert s[i] in s; }
    }
  }

  /** The loop's verdict is acceptance exactly when every two artifacts agree. */
  lemma {:induction false} AcceptedIsPairwise(s: seq<Artifact>)
    ensures FirstClash(s) == Accepted <==> Pairwise(s)
  {
    if s != [] {
      var n := |s| - 1;
      AcceptedIsPairwise(s[..n]);
      AgainstAgrees(s[..n], s[n]);
      PairwiseSnoc(s[..n], s[n]);
      assert s == s[..n] + [s[n]];
    }
  }

  // ---- Order independence ----

  ghost predicate AgreeAll(m: multiset<Artifact>) {
    && (forall a :: a in m ==> m[a] == 1)
    && forall a, b :: a in m && b in m && a != b ==> Agree(a, b)
  }

  lemma AgreeSymmetric(a: Artifact, b: Artifact)
    ensures Agree(a, b) <==> Agree(b, a)
    ensures !Agree(a, a)
  {
  }

  lemma Snoc(s: seq<Artifact>)
    requires s != []
    ensures multiset(s) == multiset(s[..|s| - 1]) + multiset{s[|s| - 1]}
  {
    assert s == s[..|s| - 1] + [s[|s| - 1]];
  }

  lemma SnocAll(m: multiset<Artifact>, a: Artifact)
    ensures AgreeAll(m + multiset{a}) <==> AgreeAll(m) && forall b :: b in m ==> Agree(b, a)
  {
    var t := m + multiset{a};
    assert a in t && forall b :: b in m ==> b in t && t[b] >= m[b];
    if AgreeAll(t) {
      assert t[a] == 1 && a !in m;
      forall b | b in m ensures m[b] == 1 && Agree(b, a) { assert t[b] == 1; AgreeSymmetric(a, b); }
      forall b, d | b in m && d in m && b != d ensures Agree(b, d) { assert b in t && d in t; }
    }
    if AgreeAll(m) && forall b :: b in m ==> Agree(b, a) {
      AgreeSymmetric(a, a);
      assert a !in m;
      forall b, d | b in t && d in t && b != d ensures Agree(b, d) { AgreeSymmetric(b, d); }
    }
  }

  lemma {:induction false} PairwiseIsAgreeAll(s: seq<Artifact>)
    ensures FirstClash(s) == Accepted <==> AgreeAll(multiset(s))
  {
    if s != [] {
      var n := |s| - 1;
      PairwiseIsAgreeAll(s[..n]);
      AgainstAgrees(s[..n], s[n]);
      Snoc(s);
      SnocAll(multiset(s[..n]), s[n]);
      assert forall b :: b in s[..n] <==> b in multiset(s[..n]);
    }
  }

  /** Acceptance does not depend on the order of the artifacts. */
  lemma PermutationInvariant(s: seq<Artifact>, t: seq<Artifact>)
    requires multiset(s) == multiset(t)
    ensures FirstClash(s) == Accepted <==> FirstClash(t) == Accepted
  {
    PairwiseIsAgreeAll(s);
    PairwiseIsAgreeAll(t);
  }

  /** In an accepted plan, within one selection a file id and a path stand for each other, either
      one fixes digest, size and model, and no two artifacts share a mount target and path. */
  lemma AcceptedIdentity(s: seq<Artifact>, i: nat, j: nat)
    requires FirstClash(s) == Accepted && i < |s| && j < |s|
    ensures s[i].selectionId == s[j].selectionId ==> (s[i].fileId == s[j].fileId <==> s[i].path == s[j].path)
    ensures s[i].selectionId == s[j].selectionId && s[i].fileId == s[j].fileId ==> PhysicalOf(s[i]) == PhysicalOf(s[j])
    ensures i != j ==> !SameMount(s[i], s[j])
  {
    AcceptedIsPairwise(s);
    if i < j { assert Agree(s[i], s[j]); }
    if j < i { assert Agree(s[j], s[i]); AgreeSymmetric(s[i], s[j]); }
  }

  /** A plan is accepted exactly when, within one selection, artifacts with one path have one file id,
      digest, size and model, artifacts with one file id have one path, and no two artifacts have one
      target and one path. */
  lemma AcceptedExactly(s: seq<Artifact>)
    ensures FirstClash(s) == Accepted <==>
      forall i, j :: 0 <= i < j < |s| ==>
        && (s[i].selectionId == s[j].selectionId && s[i].path == s[j].path ==>
              && s[i].fileId == s[j].fileId && s[i].sha256 == s[j].sha256 && s[i].sizeBytes == s[j].sizeBytes
              && s[i].model.publisher == s[j].model.publisher && s[i].model.slug == s[j].model.slug
              && s[i].model.contentSha256 == s[j].model.contentSha256)
        && (s[i].selectionId == s[j].selectionId && s[i].fileId == s[j].fileId ==> s[i].path == s[j].path)
        && !(s[i].target == s[j].target && s[i].path == s[j].path)
  {
    AcceptedIsPairwise(s);
    if Pairwise(s) {
      forall i, j | 0 <= i < j < |s| ensures Agree(s[i], s[j]) { }
    }
  }

  /** How artifact `k` clashes with an earlier one, field by field. */
  ghost predicate ClashAt(s: seq<Artifact>, k: nat, v: Verdict)
    requires k < |s|
  {
    var a := s[k];
    match v
    case Accepted => false
    case PhysicalConflict =>
      exists b :: b in s[..k] && b.selectionId == a.selectionId && b.path == a.path &&
        !(b.fileId == a.fileId && b.sha256 == a.sha256 && b.sizeBytes == a.sizeBytes && b.model == a.model)
    case FileConflict =>
      exists b :: b in s[..k] && b.selectionId == a.selectionId && b.fileId == a.fileId && b.path != a.path
    case DuplicateMount => exists b :: b in s[..k] && b.target == a.target && b.path == a.path
  }

  /** A refusal names the first artifact's clash, a different file at one path before a different path
      of one file, and both before a mount that is taken. */
  ghost predicate RefusedAt(s: seq<Artifact>, k: nat, v: Verdict) {
    && k < |s| && (forall j, u :: 0 <= j < k ==> !ClashAt(s, j, u)) && ClashAt(s, k, v)
    && (v != PhysicalConflict ==> !ClashAt(s, k, PhysicalConflict))
    && (v == DuplicateMount ==> !ClashAt(s, k, FileConflict))
  }

  lemma AgainstIs(s: seq<Artifact>, k: nat)
    requires k < |s|
    ensures OtherPhysical(s[..k], s[k]) <==> ClashAt(s, k, PhysicalConflict)
    ensures OtherPath(s[..k], s[k]) <==> ClashAt(s, k, FileConflict)
    ensures MountTaken(s[..k], s[k]) <==> ClashAt(s, k, DuplicateMount)
  {
    if ClashAt(s, k, FileConflict) {
      var b :| b in s[..k] && b.selectionId == s[k].selectionId && b.fileId == s[k].fileId && b.path != s[k].path;
      assert SameFile(s[k], b);
    }
    if ClashAt(s, k, PhysicalConflict) {
      var b :| b in s[..k] && b.selectionId == s[k].selectionId && b.path == s[k].path &&
        !(b.fileId == s[k].fileId && b.sha256 == s[k].sha256 && b.sizeBytes == s[k].sizeBytes && b.model == s[k].model);
      assert SamePlace(s[k], b) && PhysicalOf(s[k]) != PhysicalOf(b);
    }
  }

  lemma ClashAtPrefix(s: seq<Artifact>, n: nat, k: nat, v: Verdict)
    requires k < n <= |s|
    ensures ClashAt(s[..n], k, v) <==> ClashAt(s, k, v)
  {
    assert s[..n][..k] == s[..k];
  }

  lemma {:induction false} FirstClashIs(s: seq<Artifact>)
    ensures FirstClash(s) == Accepted <==> forall j, u :: 0 <= j < |s| ==> !ClashAt(s, j, u)
    ensures FirstClash(s) != Accepted ==> exists k: nat :: RefusedAt(s, k, FirstClash(s))
  {
    if s != [] {
      var n := |s| - 1;
      FirstClashIs(s[..n]);
      AgainstIs(s, n);
      forall j, u | 0 <= j < n ensures ClashAt(s[..n], j, u) <==> ClashAt(s, j, u) { ClashAtPrefix(s, n, j, u); }
      if FirstClash(s[..n]) != Accepted {
        var k: nat :| RefusedAt(s[..n], k, FirstClash(s[..n]));
        assert RefusedAt(s, k, FirstClash(s));
      } else if FirstClash(s) != Accepted {
        assert RefusedAt(s, n, FirstClash(s));
      }
    }
  }

  // ---- The loop ----

  function PlaceKey(a: Artifact): (string, string) { (a.selectionId, a.path) }

  function FileKey(a: Artifact): (string, string) { (a.selectionId, a.fileId) }

  function MountKey(a: Artifact): (string, string) { (a.target, a.path) }

  function PathOf(a: Artifact): string { a.path }

  /** A dictionary filled from a list, the last entry for a key winning. */
  function IndexBy<V>(s: seq<Artifact>, key: Artifact -> (string, string), value: Artifact -> V)
    : map<(string, string), V>
  {
    if s == [] then map[] else IndexBy(s[..|s| - 1], key, value)[key(s[|s| - 1]) := value(s[|s| - 1])]
  }

  lemma {:induction false} Lookup<V>(s: seq<Artifact>, key: Artifact -> (string, string), value: Artifact -> V,
                                     k: (string, string))
    ensures k in IndexBy(s, key, value) ==> exists b :: b in s && key(b) == k && value(b) == IndexBy(s, key, value)[k]
    ensures k !in IndexBy(s, key, value) ==> forall b :: b in s ==> key(b) != k
  {
    if s != [] {
      var n := |s| - 1;
      Lookup(s[..n], key, value, k);
      assert s == s[..n] + [s[n]];
      assert s[n] in s && forall b :: b in s <==> b in s[..n] || b == s[n];
    }
  }

  /** The dictionary has another value under the key. */
  predicate Differs<V(==)>(m: map<(string, string), V>, key: (string, string), value: V) { key in m && m[key] != value }

  /** A lookup finds a clash exactly when some earlier artifact is one, if those agree so far. */
  lemma ClashFound<V>(s: seq<Artifact>, key: Artifact -> (string, string), value: Artifact -> V, a: Artifact)
    requires forall b, d :: b in s && d in s && key(b) == key(d) ==> value(b) == value(d)
    ensures (exists b :: b in s && key(b) == key(a) && value(b) != value(a)) <==>
            Differs(IndexBy(s, key, value), key(a), value(a))
  {
    Lookup(s, key, value, key(a));
  }

  lemma AcceptedAgrees(s: seq<Artifact>, b: Artifact, d: Artifact)
    requires FirstClash(s) == Accepted && b in s && d in s
    ensures SamePlace(b, d) ==> PhysicalOf(b) == PhysicalOf(d)
    ensures SameFile(b, d) ==> PathOf(b) == PathOf(d)
  {
    var i :| 0 <= i < |s| && s[i] == b;
    var j :| 0 <= j < |s| && s[j] == d;
    AcceptedIdentity(s, i, j);
  }

  lemma PlaceClash(s: seq<Artifact>, a: Artifact)
    requires FirstClash(s) == Accepted
    ensures OtherPhysical(s, a) <==> Differs(IndexBy(s, PlaceKey, PhysicalOf), PlaceKey(a), PhysicalOf(a))
  {
    forall b, d | b in s && d in s && PlaceKey(b) == PlaceKey(d)
      ensures PhysicalOf(b) == PhysicalOf(d)
    {
      AcceptedAgrees(s, b, d);
    }
    ClashFound(s, PlaceKey, PhysicalOf, a);
    assert forall b :: b in s ==> (SamePlace(a, b) <==> PlaceKey(b) == PlaceKey(a));
  }

  lemma FileClash(s: seq<Artifact>, a: Artifact)
    requires FirstClash(s) == Accepted
    ensures OtherPath(s, a) <==> Differs(IndexBy(s, FileKey, PathOf), FileKey(a), a.path)
  {
    forall b, d | b in s && d in s && FileKey(b) == FileKey(d)
      ensures PathOf(b) == PathOf(d)
    {
      AcceptedAgrees(s, b, d);
    }
    ClashFound(s, FileKey, PathOf, a);
    assert forall b :: b in s ==> (SameFile(a, b) <==> FileKey(b) == FileKey(a));
  }

  function Mounts(s: seq<Artifact>): set<(string, string)> { set b | b in s :: MountKey(b) }

  lemma MountClash(s: seq<Artifact>, a: Artifact)
    ensures MountTaken(s, a) <==> MountKey(a) in Mounts(s)
  {
    assert forall b :: b in s ==> (SameMount(a, b) <==> MountKey(b) == MountKey(a));
  }

  /** The three lookups of one iteration. */
  predicate Clashes(physical: map<(string, string), Physical>, paths: map<(string, string), string>,
                    mounts: set<(string, string)>, a: Artifact, v: Verdict) {
    match v
    case PhysicalConflict => Differs(physical, PlaceKey(a), PhysicalOf(a))
    case FileConflict => Differs(paths, FileKey(a), a.path)
    case DuplicateMount => MountKey(a) in mounts
    case Accepted => false
  }

  lemma ClashesAre(s: seq<Artifact>, a: Artifact, physical: map<(string, string), Physical>,
                   paths: map<(string, string), string>, mounts: set<(string, string)>)
    requires FirstClash(s) == Accepted
    requires physical == IndexBy(s, PlaceKey, PhysicalOf) && paths == IndexBy(s, FileKey, PathOf) && mounts == Mounts(s)
    ensures Against(s, a) ==
      if Clashes(physical, paths, mounts, a, PhysicalConflict) then PhysicalConflict
      else if Clashes(physical, paths, mounts, a, FileConflict) then FileConflict
      else if Clashes(physical, paths, mounts, a, DuplicateMount) then DuplicateMount
      else Accepted
  {
    PlaceClash(s, a);
    FileClash(s, a);
    MountClash(s, a);
  }

  lemma IndexNext(s: seq<Artifact>, a: Artifact)
    ensures IndexBy(s + [a], PlaceKey, PhysicalOf) == IndexBy(s, PlaceKey, PhysicalOf)[PlaceKey(a) := PhysicalOf(a)]
    ensures IndexBy(s + [a], FileKey, PathOf) == IndexBy(s, FileKey, PathOf)[FileKey(a) := a.path]
    ensures Mounts(s + [a]) == Mounts(s) + {MountKey(a)}
  {
    assert (s + [a])[..|s|] == s;
    assert forall b :: b in s + [a] <==> b in s || b == a;
  }

  lemma FirstClashSnoc(s: seq<Artifact>, a: Artifact)
    ensures FirstClash(s + [a]) == if FirstClash(s) != Accepted then FirstClash(s) else Against(s, a)
  {
    assert (s + [a])[..|s|] == s;
  }

  lemma {:induction false} FirstClashStays(s: seq<Artifact>, rest: seq<Artifact>)
    requires FirstClash(s) != Accepted
    ensures FirstClash(s + rest) == FirstClash(s)
    decreases |rest|
  {
    if rest == [] {
      assert s + rest == s;
    } else {
      var n := |rest| - 1;
      FirstClashStays(s, rest[..n]);
      FirstClashSnoc(s + rest[..n], rest[n]);
      assert s + rest == s + rest[..n] + [rest[n]];
    }
  }

  /** The next artifact clashes, and so decides the whole list, or the list is accepted so far. */
  lemma FirstClashNext(seen: seq<Artifact>, a: Artifact, rest: seq<Artifact>)
    requires FirstClash(seen) == Accepted
    ensures FirstClash(seen + [a]) == Against(seen, a)
    ensures Against(seen, a) != Accepted ==> FirstClash(seen + [a] + rest) == Against(seen, a)
  {
    FirstClashSnoc(seen, a);
    if FirstClash(seen + [a]) != Accepted { FirstClashStays(seen + [a], rest); }
  }

  method CheckArtifacts(artifacts: seq<Artifact>) returns (r: Verdict)
    ensures r == FirstClash(artifacts)
    ensures r == Accepted <==> forall j, u :: 0 <= j < |artifacts| ==> !ClashAt(artifacts, j, u)
    ensures r != Accepted ==> exists k: nat :: RefusedAt(artifacts, k, r)
  {
    FirstClashIs(artifacts);
    var physicalByPath: map<(string, string), Physical> := map[];
    var filePaths: map<(string, string), string> := map[];
    var paths: set<(string, string)> := {};
    ghost var seen: seq<Artifact> := [];
    for i := 0 to |artifacts|
      invariant artifacts == seen + artifacts[i..] && FirstClash(seen) == Accepted
      invariant physicalByPath == IndexBy(seen, PlaceKey, PhysicalOf)
      invariant filePaths == IndexBy(seen, FileKey, PathOf) && paths == Mounts(seen)
    {
      var a := artifacts[i];
      assert artifacts == seen + [a] + artifacts[i + 1..];
      FirstClashNext(seen, a, artifacts[i + 1..]);
      ClashesAre(seen, a, physicalByPath, filePaths, paths);
      IndexNext(seen, a);
      if Clashes(physicalByPath, filePaths, paths, a, PhysicalConflict) { return PhysicalConflict; }
      physicalByPath := physicalByPath[PlaceKey(a) := PhysicalOf(a)];
      if Clashes(physicalByPath, filePaths, paths, a, FileConflict) { return FileConflict; }
      filePaths := filePaths[FileKey(a) := a.path];
      if Clashes(physicalByPath, filePaths, paths, a, DuplicateMount) { return DuplicateMount; }
      paths := paths + {MountKey(a)};
      seen := seen + [a];
    }
    assert artifacts == seen;
    r := Accepted;
  }
}
