/** Removing paths from a document: the set of paths removed at once, and the copy whose keys are
    popped in place, one path after the other. */
module Removal {
  import opened Basics
  import opened CopiedDocument
  import opened Json

  /** The keys from the report's root down to one optional field. */
  type Path = seq<string>

  /** Walk down to the last key and pop it, when every step on the way is an object. */
  function RemovePath(doc: Json, path: Path): Json
    requires path != []
    decreases |path|
  {
    if !doc.Obj? || path[0] !in doc.fields then doc
    else if |path| == 1 then Obj(doc.fields - {path[0]})
    else Obj(doc.fields[path[0] := RemovePath(doc.fields[path[0]], path[1..])])
  }

  /** What the paths leave to remove below key `k`. */
  function Under(paths: set<Path>, k: string): set<Path> {
    set p | p in paths && p != [] && p[0] == k :: p[1..]
  }

  /** The document without the subtrees at `paths`. */
  function Strip(doc: Json, paths: set<Path>): Json
    decreases doc
  {
    match doc
    case Obj(fields) => Obj(map k | k in fields && [k] !in paths :: Strip(fields[k], Under(paths, k)))
    case _ => doc
  }

  lemma UnderInsert(paths: set<Path>, p: Path, k: string)
    requires p != []
    ensures Under(paths + {p}, k) == if p[0] == k then Under(paths, k) + {p[1..]} else Under(paths, k)
    ensures [k] in paths + {p} <==> [k] in paths || p == [k]
  {
  }

  /** Popping one more path removes exactly one more subtree, in whatever order they come. */
  lemma {:induction false} StripInsert(doc: Json, paths: set<Path>, p: Path)
    requires p != []
    ensures RemovePath(Strip(doc, paths), p) == Strip(doc, paths + {p})
    decreases |p|
  {
    if doc.Obj? {
      var l, r := RemovePath(Strip(doc, paths), p).fields, Strip(doc, paths + {p}).fields;
      if |p| > 1 && p[0] in doc.fields { StripInsert(doc.fields[p[0]], Under(paths, p[0]), p[1..]); }
      assert |p| == 1 <==> p == [p[0]];
      forall k ensures k in l <==> k in r { UnderInsert(paths, p, k); }
      forall k | k in l ensures l[k] == r[k] { UnderInsert(paths, p, k); }
      assert l == r;
    }
  }

  lemma {:induction false} StripNothing(doc: Json)
    ensures Strip(doc, {}) == doc
    decreases doc
  {
    if doc.Obj? {
      forall k | k in doc.fields ensures Strip(doc.fields[k], Under({}, k)) == doc.fields[k] {
        assert Under({}, k) == {};
        StripNothing(doc.fields[k]);
      }
      assert Strip(doc, {}).fields == doc.fields;
    }
  }

  // ---- Framing ----

  datatype Found = Missing | At(value: Json)

  function Lookup(doc: Json, path: Path): Found
    decreases |path|
  {
    if path == [] then At(doc)
    else if doc.Obj? && path[0] in doc.fields then Lookup(doc.fields[path[0]], path[1..]) else Missing
  }

  /** Some path to remove leads to, or to something above, `q`. */
  predicate Covered(paths: set<Path>, q: Path) {
    exists n :: 1 <= n <= |q| && q[..n] in paths
  }

  function UnderPath(paths: set<Path>, q: Path): set<Path>
    decreases |q|
  {
    if q == [] then paths else UnderPath(Under(paths, q[0]), q[1..])
  }

  lemma CoveredUnder(paths: set<Path>, q: Path)
    requires q != [] && [q[0]] !in paths
    ensures Covered(paths, q) <==> Covered(Under(paths, q[0]), q[1..])
  {
    if n :| 1 <= n <= |q| && q[..n] in paths {
      assert q[..1] == [q[0]] && n != 1;
      assert q[..n][1..] == q[1..][..n - 1];
      assert q[1..][..n - 1] in Under(paths, q[0]);
    }
    if n :| 1 <= n <= |q[1..]| && q[1..][..n] in Under(paths, q[0]) {
      var p :| p in paths && p != [] && p[0] == q[0] && p[1..] == q[1..][..n];
      assert p == [p[0]] + p[1..] && q[..n + 1] == [q[0]] + q[1..][..n];
    }
  }

  /** Removal framing: nothing at or below a removed path is left; everything else is found as
      before, stripped only of what is removed below it. */
  lemma {:induction false} StripFrame(doc: Json, paths: set<Path>, q: Path)
    ensures Covered(paths, q) ==> Lookup(Strip(doc, paths), q) == Missing
    ensures !Covered(paths, q) ==>
      match Lookup(doc, q)
      case Missing => Lookup(Strip(doc, paths), q) == Missing
      case At(v) => Lookup(Strip(doc, paths), q) == At(Strip(v, UnderPath(paths, q)))
    decreases |q|
  {
    if q != [] && doc.Obj? && q[0] in doc.fields {
      if [q[0]] in paths {
        assert q[..1] == [q[0]];
      } else {
        CoveredUnder(paths, q);
        StripFrame(doc.fields[q[0]], Under(paths, q[0]), q[1..]);
      }
    }
  }

  /** A leaf outside the removed paths keeps its value. */
  lemma LeavesKept(doc: Json, paths: set<Path>, q: Path, leaf: Json)
    requires !Covered(paths, q) && Lookup(doc, q) == At(leaf) && !leaf.Obj?
    ensures Lookup(Strip(doc, paths), q) == At(leaf)
  {
    StripFrame(doc, paths, q);
  }

  lemma {:induction false} StripTwice(doc: Json, paths: set<Path>)
    ensures Strip(Strip(doc, paths), paths) == Strip(doc, paths)
    decreases doc
  {
    if doc.Obj? {
      var once := Strip(doc, paths);
      forall k | k in once.fields ensures Strip(once.fields[k], Under(paths, k)) == once.fields[k] {
        StripTwice(doc.fields[k], Under(paths, k));
      }
      assert Strip(once, paths).fields == once.fields;
    }
  }

  // ---- In place ----

  /** The object whose last key a path pops: every step on the way is an object. */
  function Target(cells: seq<Cell>, id: nat, path: Path): Option<nat>
    requires Copied(cells) && id < |cells| && path != []
    decreases |path|
  {
    if !cells[id].Dict? then None
    else if |path| == 1 then Some(id)
    else if path[0] in cells[id].fields && cells[id].fields[path[0]].Ref? then
      assert cells[id].fields[path[0]] in Values(cells[id]);
      Target(cells, cells[id].fields[path[0]].id, path[1..])
    else None
  }

  lemma {:induction false} TargetInside(cells: seq<Cell>, id: nat, path: Path)
    requires Copied(cells) && id < |cells| && path != [] && Target(cells, id, path).Some?
    ensures var t := Target(cells, id, path).value; t in Reach(cells, Ref(id)) && t < |cells| && cells[t].Dict?
    decreases |path|
  {
    if |path| > 1 {
      var child := cells[id].fields[path[0]];
      assert child in Values(cells[id]);
      TargetInside(cells, child.id, path[1..]);
    }
  }

  /** A container popped of one key, all others the same. */
  function Popped(cells: seq<Cell>, t: nat, key: string): seq<Cell>
    requires t < |cells| && cells[t].Dict?
  {
    cells[t := Dict(cells[t].fields - {key})]
  }

  lemma PoppedCopied(cells: seq<Cell>, t: nat, key: string)
    requires Copied(cells) && t < |cells| && cells[t].Dict?
    ensures Copied(Popped(cells, t, key))
    ensures forall i :: 0 <= i < |cells| ==> Values(Popped(cells, t, key)[i]) <= Values(cells[i])
  {
  }

  lemma {:induction false} ReachShrinks(cells: seq<Cell>, now: seq<Cell>, v: Val)
    requires Copied(cells) && Copied(now) && |now| == |cells| && Inside(cells, v)
    requires forall i :: 0 <= i < |cells| ==> Values(now[i]) <= Values(cells[i])
    ensures Reach(now, v) <= Reach(cells, v)
    decreases Rank(v)
  {
    if v.Ref? {
      forall w | w in Values(now[v.id])
        ensures w in Values(cells[v.id]) && Inside(cells, w) && Reach(now, w) <= Reach(cells, w)
      {
        ReachShrinks(cells, now, w);
      }
    }
  }

  /** Nothing of a value changes when a container it does not lead to is popped. */
  lemma PoppedElsewhere(cells: seq<Cell>, t: nat, key: string, v: Val)
    requires Copied(cells) && t < |cells| && cells[t].Dict? && Inside(cells, v) && t !in Reach(cells, v)
    ensures Copied(Popped(cells, t, key)) && Decode(Popped(cells, t, key), v) == Decode(cells, v)
    ensures Reach(Popped(cells, t, key), v) == Reach(cells, v)
    ensures Unshared(Popped(cells, t, key), v) == Unshared(cells, v)
  {
    PoppedCopied(cells, t, key);
    SameBelow(cells, Popped(cells, t, key), v);
  }

  /** `now` is `cells` with the path removed from the document at `v`, and nothing shared in it. */
  ghost predicate Removed(cells: seq<Cell>, now: seq<Cell>, v: Val, path: Path)
    requires Copied(cells) && Inside(cells, v) && path != []
  {
    Copied(now) && Inside(now, v) && Unshared(now, v) && Decode(now, v) == RemovePath(Decode(cells, v), path)
  }

  /** Popping a key of the object itself. */
  lemma PopHere(cells: seq<Cell>, id: nat, key: string)
    requires Copied(cells) && id < |cells| && cells[id].Dict? && Unshared(cells, Ref(id))
    ensures Removed(cells, Popped(cells, id, key), Ref(id), [key])
  {
    var now, fields := Popped(cells, id, key), cells[id].fields;
    PoppedCopied(cells, id, key);
    forall k | k in fields ensures FieldSame(cells, now, fields[k]) {
      assert fields[k] in Values(cells[id]);
      PoppedElsewhere(cells, id, key, fields[k]);
    }
    FewerDecoded(cells, now, id, key);
    FewerUnshared(cells, now, id, key);
  }

  ghost predicate FieldSame(cells: seq<Cell>, now: seq<Cell>, v: Val)
    requires Copied(cells) && Copied(now)
  {
    && Inside(cells, v) && Inside(now, v) && Decode(now, v) == Decode(cells, v)
    && Reach(now, v) == Reach(cells, v) && Unshared(now, v)
  }

  lemma FewerDecoded(cells: seq<Cell>, now: seq<Cell>, id: nat, key: string)
    requires Copied(cells) && Copied(now) && id < |cells| && id < |now| && cells[id].Dict?
    requires now[id] == Dict(cells[id].fields - {key})
    requires forall k :: k in cells[id].fields ==> FieldSame(cells, now, cells[id].fields[k])
    ensures Decode(now, Ref(id)) == RemovePath(Decode(cells, Ref(id)), [key])
  {
    var l, r := Decode(now, Ref(id)).fields, RemovePath(Decode(cells, Ref(id)), [key]).fields;
    assert l.Keys == r.Keys;
    assert l == r;
  }

  lemma FewerUnshared(cells: seq<Cell>, now: seq<Cell>, id: nat, key: string)
    requires Copied(cells) && Copied(now) && id < |cells| && id < |now| && cells[id].Dict? && Unshared(cells, Ref(id))
    requires now[id] == Dict(cells[id].fields - {key})
    requires forall k :: k in cells[id].fields ==> FieldSame(cells, now, cells[id].fields[k])
    ensures Unshared(now, Ref(id))
  {
    var fields := now[id].fields;
    forall k, l | k in fields && l in fields && k != l ensures Reach(now, fields[k]) !! Reach(now, fields[l]) {
      assert Reach(cells, fields[k]) !! Reach(cells, fields[l]);
    }
  }

  /** The fields of an object beside the one a path leads into. */
  lemma PopBeside(cells: seq<Cell>, id: nat, step: string, t: nat, key: string)
    requires Copied(cells) && id < |cells| && cells[id].Dict? && step in cells[id].fields && t < |cells|
    requires cells[t].Dict?
    requires FieldsApart(cells, cells[id].fields) && t in Reach(cells, cells[id].fields[step])
    requires forall k :: k in cells[id].fields ==>
      Inside(cells, cells[id].fields[k]) && Unshared(cells, cells[id].fields[k])
    ensures var now, fields := Popped(cells, t, key), cells[id].fields;
      && Copied(now) && FieldsInside(now, fields) && FieldsApart(now, fields)
      && forall k :: k in fields && k != step ==>
           Decode(now, fields[k]) == Decode(cells, fields[k]) && Unshared(now, fields[k])
  {
    var now, fields := Popped(cells, t, key), cells[id].fields;
    PoppedCopied(cells, t, key);
    forall k | k in fields
      ensures Reach(now, fields[k]) <= Reach(cells, fields[k])
    {
      ReachShrinks(cells, now, fields[k]);
    }
    forall k | k in fields && k != step
      ensures Decode(now, fields[k]) == Decode(cells, fields[k]) && Unshared(now, fields[k])
    {
      assert Reach(cells, fields[k]) !! Reach(cells, fields[step]);
      PoppedElsewhere(cells, t, key, fields[k]);
    }
  }

  /** Popping one key in memory is removing its path from the document. */
  lemma {:induction false} PopIsRemove(cells: seq<Cell>, now: seq<Cell>, id: nat, path: Path, t: nat, key: string)
    requires Copied(cells) && id < |cells| && path != [] && Unshared(cells, Ref(id))
    requires Target(cells, id, path) == Some(t)
    requires t < |cells| && cells[t].Dict? && key == path[|path| - 1] && now == Popped(cells, t, key)
    ensures Removed(cells, now, Ref(id), path)
    decreases |path|
  {
    if |path| == 1 {
      PopHere(cells, id, key);
      assert path == [key];
    } else {
      var child := StepInto(cells, id, path, t);
      PopIsRemove(cells, now, child.id, path[1..], t, key);
      PopDeeper(cells, now, id, path, t, key);
    }
  }

  /** The field a path leads into. */
  lemma StepInto(cells: seq<Cell>, id: nat, path: Path, t: nat) returns (child: Val)
    requires Copied(cells) && id < |cells| && |path| > 1 && Unshared(cells, Ref(id))
    requires Target(cells, id, path) == Some(t)
    ensures cells[id].Dict? && path[0] in cells[id].fields && child == cells[id].fields[path[0]] && child.Ref?
    ensures child.id < id && Unshared(cells, child) && Target(cells, child.id, path[1..]) == Some(t)
    ensures t in Reach(cells, child)
  {
    child := cells[id].fields[path[0]];
    assert child in Values(cells[id]);
    TargetInside(cells, child.id, path[1..]);
  }

  /** From the field a path leads into to the object itself. */
  lemma PopDeeper(cells: seq<Cell>, now: seq<Cell>, id: nat, path: Path, t: nat, key: string)
    requires Copied(cells) && id < |cells| && |path| > 1 && Unshared(cells, Ref(id))
    requires Target(cells, id, path) == Some(t)
    requires t < |cells| && cells[t].Dict? && now == Popped(cells, t, key) && Inside(cells, cells[id].fields[path[0]])
    requires Removed(cells, now, cells[id].fields[path[0]], path[1..])
    ensures Removed(cells, now, Ref(id), path)
  {
    var fields := cells[id].fields;
    var child := StepInto(cells, id, path, t);
    assert t <= child.id < id;
    forall k | k in fields
      ensures Inside(cells, fields[k]) && Unshared(cells, fields[k])
    {
      assert fields[k] in Values(cells[id]);
    }
    PopBeside(cells, id, path[0], t, key);
    PopBelow(cells, now, id, path);
  }

  lemma PopBelow(cells: seq<Cell>, now: seq<Cell>, id: nat, path: Path)
    requires Copied(cells) && Copied(now) && id < |cells| == |now| && |path| > 1 && cells[id].Dict?
    requires now[id] == cells[id]
    requires path[0] in cells[id].fields && FieldsInside(cells, cells[id].fields) && FieldsApart(now, cells[id].fields)
    requires var fields := cells[id].fields;
      forall k :: k in fields && k != path[0] ==>
        Decode(now, fields[k]) == Decode(cells, fields[k]) && Unshared(now, fields[k])
    requires Removed(cells, now, cells[id].fields[path[0]], path[1..])
    ensures Removed(cells, now, Ref(id), path)
  {
    var l, r := Decode(now, Ref(id)).fields, RemovePath(Decode(cells, Ref(id)), path).fields;
    assert l.Keys == r.Keys;
    assert l == r;
  }

  lemma {:induction false} NoTarget(cells: seq<Cell>, id: nat, path: Path)
    requires Copied(cells) && id < |cells| && path != [] && Target(cells, id, path).None?
    ensures RemovePath(Decode(cells, Ref(id)), path) == Decode(cells, Ref(id))
    decreases |path|
  {
    if cells[id].Dict? && path[0] in cells[id].fields {
      var child := cells[id].fields[path[0]];
      assert child in Values(cells[id]);
      if child.Ref? { NoTarget(cells, child.id, path[1..]); }
      var d := Decode(cells, Ref(id));
      assert d.fields[path[0]] == Decode(cells, child);
      assert d.fields[path[0] := d.fields[path[0]]] == d.fields;
    }
  }

  /** The walk along one path, and the pop at its end. */
  method PopPath(cells: array<Cell>, root: nat, path: Path)
    requires Copied(cells[..]) && root < cells.Length && path != [] && Unshared(cells[..], Ref(root))
    modifies cells
    ensures Copied(cells[..]) && Unshared(cells[..], Ref(root))
    ensures Decode(cells[..], Ref(root)) == RemovePath(old(Decode(cells[..], Ref(root))), path)
  {
    ghost var was := cells[..];
    var node: Option<nat>, i := Some(root), 0;
    while i < |path| - 1
      invariant 0 <= i < |path| && cells[..] == was
      invariant node.Some? ==>
        node.value < cells.Length && Target(was, node.value, path[i..]) == Target(was, root, path)
      invariant node.None? ==> Target(was, root, path) == None
    {
      if node.Some? {
        assert path[i..][0] == path[i] && path[i..][1..] == path[i + 1..];
        var here := cells[node.value];
        assert here == was[node.value];
        if here.Dict? && path[i] in here.fields && here.fields[path[i]].Ref? {
          assert here.fields[path[i]] in Values(was[node.value]);
          node := Some(here.fields[path[i]].id);
        } else {
          node := None;
        }
      }
      i := i + 1;
    }
    if node.Some? && cells[node.value].Dict? {
      assert was[node.value] == cells[node.value];
      TargetInside(was, root, path);
      cells[node.value] := Dict(cells[node.value].fields - {path[i]});
      assert cells[..] == Popped(was, node.value, path[i]);
      PopIsRemove(was, cells[..], root, path, node.value, path[i]);
    } else {
      assert node.Some? ==> was[node.value] == cells[node.value];
      NoTarget(was, root, path);
    }
  }
}
