/** Which classes of a source tree are models: the closure of the model roots under having a base
    already known to be a model. */
module ModelClosure {
  /** A class statement: the file it is in, its name and the names of its bases. */
  datatype Class = Class(file: string, name: string, bases: set<string>)

  ghost predicate Closed(names: set<string>, classes: seq<Class>) {
    forall k :: k in classes && k.bases * names != {} ==> k.name in names
  }

  /** The least set of names that has the roots and is closed under having a base in it. */
  ghost predicate Least(names: set<string>, roots: set<string>, classes: seq<Class>) {
    && roots <= names && Closed(names, classes)
    && forall t :: roots <= t && Closed(t, classes) ==> names <= t
  }

  /** A chain of base names from a root. */
  ghost predicate Chain(p: seq<string>, roots: set<string>, classes: seq<Class>) {
    && p != [] && p[0] in roots
    && forall i :: 0 <= i < |p| - 1 ==> Derives(p[i], p[i + 1], classes)
  }

  ghost predicate Derives(base: string, name: string, classes: seq<Class>) {
    exists k :: k in classes && k.name == name && base in k.bases
  }

  ghost predicate Reached(n: string, roots: set<string>, classes: seq<Class>) {
    exists p :: Chain(p, roots, classes) && p[|p| - 1] == n
  }

  lemma ReachedNext(base: string, name: string, roots: set<string>, classes: seq<Class>)
    requires Reached(base, roots, classes) && Derives(base, name, classes)
    ensures Reached(name, roots, classes)
  {
    var p :| Chain(p, roots, classes) && p[|p| - 1] == base;
    var q := p + [name];
    forall i | 0 <= i < |q| - 1 ensures Derives(q[i], q[i + 1], classes) {
      if i < |p| - 1 { assert Derives(p[i], p[i + 1], classes); }
    }
    assert Chain(q, roots, classes) && q[|q| - 1] == name;
  }

  lemma {:induction false} ChainInside(p: seq<string>, names: set<string>, roots: set<string>, classes: seq<Class>)
    requires Chain(p, roots, classes) && roots <= names && Closed(names, classes)
    ensures p[|p| - 1] in names
  {
    var n := |p| - 1;
    if n > 0 {
      var q := p[..n];
      forall i | 0 <= i < |q| - 1 ensures Derives(q[i], q[i + 1], classes) { assert Derives(p[i], p[i + 1], classes); }
      ChainInside(q, names, roots, classes);
      assert Derives(p[n - 1], p[n], classes);
      var k :| k in classes && k.name == p[n] && p[n - 1] in k.bases;
      assert p[n - 1] in k.bases * names;
    }
  }

  /** The least closed set is reachability along base names, cycles included. */
  lemma LeastIsReached(names: set<string>, roots: set<string>, classes: seq<Class>)
    requires Least(names, roots, classes)
    ensures forall n :: n in names <==> Reached(n, roots, classes)
  {
    var t := set n | n in names && Reached(n, roots, classes);
    forall n | n in roots ensures n in t {
      assert Chain([n], roots, classes) && [n][0] == n;
    }
    forall k | k in classes && k.bases * t != {} ensures k.name in t {
      var b :| b in k.bases * t;
      assert b in k.bases * names && Derives(b, k.name, classes);
      ReachedNext(b, k.name, roots, classes);
    }
    assert names <= t;
    forall n | Reached(n, roots, classes) ensures n in names {
      var p :| Chain(p, roots, classes) && p[|p| - 1] == n;
      ChainInside(p, names, roots, classes);
    }
  }

  /** The order and repetition of the classes do not matter. */
  lemma OrderIndependent(a: set<string>, b: set<string>, roots: set<string>, some: seq<Class>, other: seq<Class>)
    requires Least(a, roots, some) && Least(b, roots, other)
    requires forall k :: k in some <==> k in other
    ensures a == b
  {
    assert Closed(a, other) && Closed(b, some);
  }

  // ---- The loop ----

  /** How many class names are not in the set yet. */
  ghost function Missing(names: set<string>, classes: seq<Class>): nat {
    |(set k | k in classes :: k.name) - names|
  }

  /** The set has the roots and stays inside every closed set that has them. */
  ghost predicate Inside(names: set<string>, roots: set<string>, classes: seq<Class>) {
    roots <= names && forall t :: roots <= t && Closed(t, classes) ==> names <= t
  }

  lemma Grows(names: set<string>, roots: set<string>, classes: seq<Class>, k: Class)
    requires Inside(names, roots, classes) && k in classes && k.bases * names != {} && k.name !in names
    ensures Inside(names + {k.name}, roots, classes)
    ensures Missing(names + {k.name}, classes) < Missing(names, classes)
  {
    var all := set c | c in classes :: c.name;
    assert k.name in all && all - (names + {k.name}) == (all - names) - {k.name};
    forall t | roots <= t && Closed(t, classes) ensures names + {k.name} <= t {
      var b :| b in k.bases * names;
      assert b in k.bases * t;
    }
  }

  /** Every class before position `i` is closed under `names`. */
  ghost predicate ClosedTo(names: set<string>, classes: seq<Class>, i: nat) {
    forall j :: 0 <= j < i && j < |classes| && classes[j].bases * names != {} ==> classes[j].name in names
  }

  lemma ClosedToEnd(names: set<string>, classes: seq<Class>)
    requires ClosedTo(names, classes, |classes|)
    ensures Closed(names, classes)
  {
    forall k | k in classes && k.bases * names != {} ensures k.name in names {
      var j :| 0 <= j < |classes| && classes[j] == k;
    }
  }

  method ModelNames(roots: set<string>, classes: seq<Class>) returns (names: set<string>)
    ensures Least(names, roots, classes)
  {
    names := roots;
    var changed := true;
    while changed
      invariant Inside(names, roots, classes)
      invariant !changed ==> ClosedTo(names, classes, |classes|)
      decreases Missing(names, classes), changed
    {
      changed := false;
      ghost var before := names;
      for i := 0 to |classes|
        invariant Inside(names, roots, classes)
        invariant !changed ==> names == before && ClosedTo(names, classes, i)
        invariant changed ==> Missing(names, classes) < Missing(before, classes)
      {
        var k := classes[i];
        if k.name !in names && k.bases * names != {} {
          Grows(names, roots, classes, k);
          names := names + {k.name};
          changed := true;
        }
      }
    }
    ClosedToEnd(names, classes);
  }

  /** A class is a model when one of its bases is reached from a root. */
  ghost predicate IsModel(k: Class, roots: set<string>, classes: seq<Class>) {
    exists b :: b in k.bases && Reached(b, roots, classes)
  }

  lemma ModelIs(k: Class, names: set<string>, roots: set<string>, classes: seq<Class>)
    requires forall n :: n in names <==> Reached(n, roots, classes)
    ensures k.bases * names != {} <==> IsModel(k, roots, classes)
  {
    if k.bases * names != {} {
      var b :| b in k.bases * names;
      assert b in k.bases && Reached(b, roots, classes);
    }
    if IsModel(k, roots, classes) {
      var b :| b in k.bases && Reached(b, roots, classes);
      assert b in k.bases * names;
    }
  }

  /** The model classes among those scanned, in scanning order. */
  method PythonModels(roots: set<string>, classes: seq<Class>) returns (models: seq<Class>)
    ensures forall k :: k in models <==> k in classes && IsModel(k, roots, classes)
  {
    var names := ModelNames(roots, classes);
    LeastIsReached(names, roots, classes);
    models := [];
    for i := 0 to |classes|
      invariant forall k :: k in models <==> k in classes[..i] && IsModel(k, roots, classes)
    {
      assert classes[..i + 1] == classes[..i] + [classes[i]];
      ModelIs(classes[i], names, roots, classes);
      if classes[i].bases * names != {} { models := models + [classes[i]]; }
    }
    assert classes[..|classes|] == classes;
  }
}
