/** `redacted_prose`: redaction of a document's prose leaves, as a recursive map over the tree
    and as the worklist that rewrites a copied tree of dictionaries and lists in place. */
module ProseRedaction {
  import opened CopiedDocument
  import opened Json
  import opened Redaction
  import opened Basics

  /** What is asked of the text rewrite: no separator is left, and a text without one is kept. */
  ghost predicate Cleans(redact: string -> string) {
    forall t :: !HasSeparator(redact(t)) && (!HasSeparator(t) ==> redact(t) == t)
  }

  /** The document with every string stored under a prose name redacted. */
  function Redacted(j: Json, names: set<string>, redact: string -> string): Json
    decreases j
  {
    match j
    case Obj(fields) =>
      Obj(map k | k in fields ::
        if k in names && fields[k].Str? then Str(redact(fields[k].text)) else Redacted(fields[k], names, redact))
    case Arr(items) => Arr(seq(|items|, i requires 0 <= i < |items| => Redacted(items[i], names, redact)))
    case _ => j
  }

  /** Some string stored under a prose name, at any depth, has a separator. */
  predicate HasHostPath(j: Json, names: set<string>)
    decreases j
  {
    match j
    case Obj(fields) =>
      exists k :: k in fields &&
        (if k in names && fields[k].Str? then HasSeparator(fields[k].text) else HasHostPath(fields[k], names))
    case Arr(items) => exists i :: 0 <= i < |items| && HasHostPath(items[i], names)
    case _ => false
  }

  /** Redaction changes nothing exactly when there is nothing to redact, and leaves nothing. */
  lemma {:induction false} RedactedClean(j: Json, names: set<string>, redact: string -> string)
    requires Cleans(redact)
    ensures !HasHostPath(Redacted(j, names, redact), names)
    ensures !HasHostPath(j, names) ==> Redacted(j, names, redact) == j
    decreases j
  {
    match j
    case Obj(fields) =>
      forall k | k in fields
        ensures fields[k].Str? ==>
          var t := fields[k].text; !HasSeparator(redact(t)) && (!HasSeparator(t) ==> redact(t) == t)
        ensures !HasHostPath(Redacted(fields[k], names, redact), names)
        ensures (!HasHostPath(fields[k], names) ==> Redacted(fields[k], names, redact) == fields[k])
      {
        RedactedClean(fields[k], names, redact);
      }
      if !HasHostPath(j, names) { assert Redacted(j, names, redact).fields == fields; }
    case Arr(items) =>
      forall i | 0 <= i < |items|
        ensures !HasHostPath(Redacted(items[i], names, redact), names)
        ensures (!HasHostPath(items[i], names) ==> Redacted(items[i], names, redact) == items[i])
      {
        RedactedClean(items[i], names, redact);
      }
      if !HasHostPath(j, names) { assert Redacted(j, names, redact).items == items; }
    case _ =>
  }

  datatype Step = Field(key: string) | Item(index: nat)

  function ValueAt(j: Json, p: seq<Step>): Option<Json>
    decreases |p|
  {
    if p == [] then Some(j)
    else if p[0].Field? && j.Obj? && p[0].key in j.fields then ValueAt(j.fields[p[0].key], p[1..])
    else if p[0].Item? && j.Arr? && p[0].index < |j.items| then ValueAt(j.items[p[0].index], p[1..])
    else None
  }

  predicate UnderProseName(p: seq<Step>, names: set<string>) {
    p != [] && p[|p| - 1].Field? && p[|p| - 1].key in names
  }

  function RedactedValue(v: Json, p: seq<Step>, names: set<string>, redact: string -> string): Json {
    if v.Str? && UnderProseName(p, names) then Str(redact(v.text)) else Redacted(v, names, redact)
  }

  /** Redaction keeps the shape of the document, and of its leaves changes only the strings stored
      under a prose name. */
  lemma {:induction false} RedactedFrame(j: Json, names: set<string>, redact: string -> string, p: seq<Step>)
    ensures ValueAt(j, p).None? <==> ValueAt(Redacted(j, names, redact), p).None?
    ensures ValueAt(j, p).Some? ==>
      ValueAt(Redacted(j, names, redact), p) == Some(RedactedValue(ValueAt(j, p).value, p, names, redact))
    ensures ValueAt(j, p).Some? && !ValueAt(j, p).value.Obj? && !ValueAt(j, p).value.Arr? ==>
      var v := ValueAt(j, p).value;
      ValueAt(Redacted(j, names, redact), p) ==
      Some(if v.Str? && UnderProseName(p, names) then Str(redact(v.text)) else v)
    decreases |p|
  {
    if p != [] {
      assert |p| > 1 ==> p[1..][|p| - 2] == p[|p| - 1];
      if p[0].Field? && j.Obj? && p[0].key in j.fields {
        RedactedFrame(j.fields[p[0].key], names, redact, p[1..]);
      } else if p[0].Item? && j.Arr? && p[0].index < |j.items| {
        RedactedFrame(j.items[p[0].index], names, redact, p[1..]);
      }
    }
  }

  // ---- Visits ----

  predicate Prose(fields: map<string, Val>, names: set<string>, k: string)
    requires k in fields
  {
    k in names && fields[k].Text?
  }

  /** A container after the loop body has visited it. */
  function Visited(c: Cell, names: set<string>, redact: string -> string): Cell {
    match c
    case Dict(fields) =>
      Dict(map k | k in fields :: if Prose(fields, names, k) then Text(redact(fields[k].text)) else fields[k])
    case List(_) => c
  }

  /** The values a visit leaves to be visited. */
  function Pushed(c: Cell, names: set<string>): set<Val> {
    match c
    case Dict(fields) => set k | k in fields && !Prose(fields, names, k) :: fields[k]
    case List(items) => set v | v in items
  }

  predicate Marked(c: Cell, names: set<string>) {
    c.Dict? && exists k :: k in c.fields && Prose(c.fields, names, k) && HasSeparator(c.fields[k].text)
  }

  lemma VisitAgain(c: Cell, names: set<string>, redact: string -> string)
    requires Cleans(redact)
    ensures Visited(Visited(c, names, redact), names, redact) == Visited(c, names, redact)
    ensures Pushed(Visited(c, names, redact), names) == Pushed(c, names)
    ensures !Marked(Visited(c, names, redact), names)
    ensures forall w: Val :: w.Ref? ==> (w in Values(c) <==> w in Pushed(c, names))
  {
    if c.Dict? {
      var once := Visited(c, names, redact).fields;
      forall k | k in c.fields && Prose(c.fields, names, k)
        ensures redact(once[k].text) == once[k].text && !HasSeparator(once[k].text)
      {
      }
      assert Visited(Visited(c, names, redact), names, redact).fields == once;
      assert forall k :: k in c.fields ==> (Prose(once, names, k) <==> Prose(c.fields, names, k));
      var l, r := Pushed(Visited(c, names, redact), names), Pushed(c, names);
      forall w ensures w in l <==> w in r {
        if w in l { var k :| k in once && !Prose(once, names, k) && once[k] == w; assert c.fields[k] == w; }
        if w in r { var k :| k in c.fields && !Prose(c.fields, names, k) && c.fields[k] == w; assert once[k] == w; }
      }
    }
  }

  /** When every container reached from `v` has been visited, the tree at `v` is the redacted one. */
  lemma {:induction false} VisitedIsRedacted(cells: seq<Cell>, now: seq<Cell>, names: set<string>, v: Val,
                                             redact: string -> string)
    requires Copied(cells) && Copied(now) && |now| == |cells| && Inside(cells, v)
    requires forall i :: i in Reach(cells, v) ==> i < |now| && now[i] == Visited(cells[i], names, redact)
    ensures Decode(now, v) == Redacted(Decode(cells, v), names, redact)
    decreases Rank(v)
  {
    if v.Ref? {
      var c := cells[v.id];
      assert v.id in Reach(cells, v);
      forall w | w in Values(c)
        ensures Inside(cells, w) && Decode(now, w) == Redacted(Decode(cells, w), names, redact)
      {
        forall i | i in Reach(cells, w) ensures i in Reach(cells, v) { }
        VisitedIsRedacted(cells, now, names, w, redact);
      }
      DecodeVisited(cells, now, names, v.id, redact);
    }
  }

  lemma DecodeFields(cells: seq<Cell>, id: nat)
    requires Copied(cells) && id < |cells| && cells[id].Dict?
    ensures var fields, j := cells[id].fields, Decode(cells, Ref(id));
      j.Obj? && j.fields.Keys == fields.Keys &&
      forall k :: k in fields ==>
        fields[k] in Values(cells[id]) && Inside(cells, fields[k]) && j.fields[k] == Decode(cells, fields[k])
  {
    forall k | k in cells[id].fields ensures cells[id].fields[k] in Values(cells[id]) { }
  }

  lemma RedactedField(j: Json, names: set<string>, k: string, redact: string -> string)
    requires j.Obj? && k in j.fields
    ensures var r := Redacted(j, names, redact);
      r.Obj? && r.fields.Keys == j.fields.Keys &&
      r.fields[k] ==
        if k in names && j.fields[k].Str? then Str(redact(j.fields[k].text)) else Redacted(j.fields[k], names, redact)
  {
  }

  /** One field of a dictionary, given its value. */
  lemma FieldVisited(cells: seq<Cell>, now: seq<Cell>, names: set<string>, id: nat, k: string, redact: string -> string)
    requires Copied(cells) && Copied(now) && |now| == |cells| && id < |cells| && cells[id].Dict?
    requires now[id] == Visited(cells[id], names, redact)
    requires k in cells[id].fields && Inside(cells, cells[id].fields[k])
    requires Decode(now, cells[id].fields[k]) == Redacted(Decode(cells, cells[id].fields[k]), names, redact)
    ensures var l, r := Decode(now, Ref(id)), Redacted(Decode(cells, Ref(id)), names, redact);
      l.Obj? && r.Obj? && k in l.fields && k in r.fields && l.fields[k] == r.fields[k]
  {
    var v, j, l := cells[id].fields[k], Decode(cells, Ref(id)), Decode(now, Ref(id));
    assert j.Obj? && k in j.fields && j.fields[k] == Decode(cells, v) by { DecodeFields(cells, id); }
    assert l.Obj? && k in l.fields && l.fields[k] == Decode(now, now[id].fields[k]) by { DecodeFields(now, id); }
    RedactedField(j, names, k, redact);
    if Prose(cells[id].fields, names, k) {
      assert now[id].fields[k] == Text(redact(v.text)) && Decode(cells, v) == Str(v.text);
    } else {
      assert now[id].fields[k] == v && (k in names ==> !Decode(cells, v).Str?);
    }
  }

  /** One dictionary, given its values. */
  lemma DictVisited(cells: seq<Cell>, now: seq<Cell>, names: set<string>, id: nat, redact: string -> string)
    requires Copied(cells) && Copied(now) && |now| == |cells| && id < |cells| && cells[id].Dict?
    requires now[id] == Visited(cells[id], names, redact)
    requires forall w :: w in Values(cells[id]) ==>
      Inside(cells, w) && Decode(now, w) == Redacted(Decode(cells, w), names, redact)
    ensures Decode(now, Ref(id)) == Redacted(Decode(cells, Ref(id)), names, redact)
  {
    var l, r := Decode(now, Ref(id)), Redacted(Decode(cells, Ref(id)), names, redact);
    forall k | k in cells[id].fields
      ensures l.Obj? && r.Obj? && k in l.fields && k in r.fields && l.fields[k] == r.fields[k]
    {
      assert cells[id].fields[k] in Values(cells[id]);
      FieldVisited(cells, now, names, id, k, redact);
    }
    assert l.fields.Keys == cells[id].fields.Keys == r.fields.Keys;
    assert l.fields == r.fields;
  }

  /** One container, given its values. */
  lemma DecodeVisited(cells: seq<Cell>, now: seq<Cell>, names: set<string>, id: nat, redact: string -> string)
    requires Copied(cells) && Copied(now) && |now| == |cells| && id < |cells|
    requires now[id] == Visited(cells[id], names, redact)
    requires forall w :: w in Values(cells[id]) ==>
      Inside(cells, w) && Decode(now, w) == Redacted(Decode(cells, w), names, redact)
    ensures Decode(now, Ref(id)) == Redacted(Decode(cells, Ref(id)), names, redact)
  {
    if cells[id].Dict? {
      DictVisited(cells, now, names, id, redact);
    } else {
      var items := cells[id].items;
      forall i | 0 <= i < |items| ensures Decode(now, items[i]) == Redacted(Decode(cells, items[i]), names, redact) {
        assert items[i] in Values(cells[id]);
      }
      assert Decode(now, Ref(id)).items == Redacted(Decode(cells, Ref(id)), names, redact).items;
    }
  }

  /** A document has a host path exactly when some reached container is marked. */
  lemma {:induction false} HostPathIsMarked(cells: seq<Cell>, names: set<string>, v: Val)
    requires Copied(cells) && Inside(cells, v)
    ensures HasHostPath(Decode(cells, v), names) <==> MarkedFrom(cells, names, v)
    decreases Rank(v)
  {
    if v.Ref? {
      var c := cells[v.id];
      forall w | w in Values(c)
        ensures HasHostPath(Decode(cells, w), names) <==> MarkedFrom(cells, names, w)
      {
        HostPathIsMarked(cells, names, w);
      }
      HostPathInCell(cells, names, v.id);
      MarkedBelow(cells, names, v.id);
    }
  }

  /** The containers reached from a container are itself and those reached from its values. */
  lemma MarkedBelow(cells: seq<Cell>, names: set<string>, id: nat)
    requires Copied(cells) && id < |cells|
    ensures MarkedFrom(cells, names, Ref(id)) <==>
      Marked(cells[id], names) ||
      exists w :: w in Values(cells[id]) && Inside(cells, w) && MarkedFrom(cells, names, w)
  {
    var c := cells[id];
    assert id in Reach(cells, Ref(id));
    if i :| i in Reach(cells, Ref(id)) && Marked(cells[i], names) && i != id {
      var w :| w in Values(c) && i in Reach(cells, w);
      assert Inside(cells, w) && MarkedFrom(cells, names, w);
    }
    if w :| w in Values(c) && Inside(cells, w) && MarkedFrom(cells, names, w) {
      var i :| i in Reach(cells, w) && Marked(cells[i], names);
      assert i in Reach(cells, Ref(id));
    }
  }

  /** Some container that a value leads to is marked. */
  ghost predicate MarkedFrom(cells: seq<Cell>, names: set<string>, v: Val)
    requires Copied(cells) && Inside(cells, v)
  {
    exists i :: i in Reach(cells, v) && Marked(cells[i], names)
  }

  /** A value of the container holds a host path. */
  ghost predicate HostPathInValues(cells: seq<Cell>, names: set<string>, id: nat)
    requires Copied(cells) && id < |cells|
  {
    exists w :: w in Values(cells[id]) && Inside(cells, w) && HasHostPath(Decode(cells, w), names)
  }

  lemma HostPathInCell(cells: seq<Cell>, names: set<string>, id: nat)
    requires Copied(cells) && id < |cells|
    ensures HasHostPath(Decode(cells, Ref(id)), names) <==>
            Marked(cells[id], names) || HostPathInValues(cells, names, id)
  {
    if cells[id].Dict? { HostPathInDict(cells, names, id); } else { HostPathInList(cells, names, id); }
  }

  lemma HostPathInDict(cells: seq<Cell>, names: set<string>, id: nat)
    requires Copied(cells) && id < |cells| && cells[id].Dict?
    ensures HasHostPath(Decode(cells, Ref(id)), names) <==>
            Marked(cells[id], names) || HostPathInValues(cells, names, id)
  {
    var d, fields := Decode(cells, Ref(id)), cells[id].fields;
    assert d.fields.Keys == fields.Keys;
    forall k | k in fields ensures fields[k] in Values(cells[id]) && d.fields[k] == Decode(cells, fields[k]) { }
    if w :| w in Values(cells[id]) && Inside(cells, w) && HasHostPath(Decode(cells, w), names) {
      var k :| k in fields && fields[k] == w;
      assert HasHostPath(d.fields[k], names);
    }
    if Marked(cells[id], names) {
      var k :| k in fields && Prose(fields, names, k) && HasSeparator(fields[k].text);
      assert d.fields[k] == Str(fields[k].text);
    }
  }

  lemma HostPathInList(cells: seq<Cell>, names: set<string>, id: nat)
    requires Copied(cells) && id < |cells| && cells[id].List?
    ensures HasHostPath(Decode(cells, Ref(id)), names) <==> HostPathInValues(cells, names, id)
  {
    var d, items := Decode(cells, Ref(id)), cells[id].items;
    forall i | 0 <= i < |items| ensures items[i] in Values(cells[id]) && d.items[i] == Decode(cells, items[i]) { }
    if w :| w in Values(cells[id]) && Inside(cells, w) && HasHostPath(Decode(cells, w), names) {
      var i :| 0 <= i < |items| && items[i] == w;
      assert HasHostPath(d.items[i], names);
    }
  }

  // ---- The worklist ----

  /** One item of a dictionary. */
  method VisitItem(fields: map<string, Val>, ghost done: set<string>, key: string, node: map<string, Val>,
                   pushed: seq<Val>, changed: bool, names: set<string>, redact: string -> string)
    returns (node': map<string, Val>, pushed': seq<Val>, changed': bool)
    requires Cleans(redact) && key in fields && key !in done
    requires node == PartVisited(fields, done, names, redact) && Collected(fields, done, names, pushed, changed)
    ensures node' == PartVisited(fields, done + {key}, names, redact)
    ensures Collected(fields, done + {key}, names, pushed', changed')
    ensures |pushed'| <= |pushed| + 1
  {
    PartVisitedNext(fields, done, key, names, redact);
    CollectedNext(fields, done, key, names, pushed, changed);
    node', pushed', changed' := node, pushed, changed;
    var value := node[key];
    if key in names && value.Text? {
      if HasSeparator(value.text) {
        node' := node[key := Text(redact(value.text))];
        changed' := true;
      }
    } else {
      pushed' := pushed + [value];
    }
  }

  lemma OneLess(all: set<string>, todo: set<string>, key: string)
    requires key in todo && todo <= all
    ensures all - todo + {key} == all - (todo - {key}) && |todo - {key}| == |todo| - 1
  {
  }

  /** The loop over one dictionary's items, in any order. */
  method VisitItems(fields: map<string, Val>, names: set<string>, redact: string -> string)
    returns (node: map<string, Val>, pushed: seq<Val>, changed: bool)
    requires Cleans(redact)
    ensures Dict(node) == Visited(Dict(fields), names, redact)
    ensures Collected(fields, fields.Keys, names, pushed, changed) && |pushed| <= |fields|
  {
    PartVisitedAll(fields, names, redact);
    node, pushed, changed := fields, [], false;
    var todo := fields.Keys;
    while todo != {}
      invariant todo <= fields.Keys && |pushed| + |todo| <= |fields|
      invariant node == PartVisited(fields, fields.Keys - todo, names, redact)
      invariant Collected(fields, fields.Keys - todo, names, pushed, changed)
      decreases |todo|
    {
      var key :| key in todo;
      OneLess(fields.Keys, todo, key);
      node, pushed, changed := VisitItem(fields, fields.Keys - todo, key, node, pushed, changed, names, redact);
      todo := todo - {key};
    }
    assert fields.Keys - todo == fields.Keys;
  }

  /** Visit one container in place: redact its prose strings, collect the values still to visit. */
  method Visit(cells: array<Cell>, id: nat, names: set<string>, redact: string -> string)
    returns (pushed: seq<Val>, changed: bool)
    requires id < cells.Length && Cleans(redact)
    modifies cells
    ensures cells[..] == old(cells[..])[id := Visited(old(cells[id]), names, redact)]
    ensures (forall v :: v in pushed <==> v in Pushed(old(cells[id]), names)) && |pushed| <= Count(old(cells[id]))
    ensures changed <==> Marked(old(cells[id]), names)
  {
    if cells[id].List? {
      pushed, changed := cells[id].items, false;
    } else {
      var node;
      node, pushed, changed := VisitItems(cells[id].fields, names, redact);
      cells[id] := Dict(node);
    }
  }

  /** What visiting the keys in `done` has pushed, and whether it changed anything. */
  ghost predicate Collected(fields: map<string, Val>, done: set<string>, names: set<string>, pushed: seq<Val>,
                            changed: bool) {
    && done <= fields.Keys
    && (forall v :: v in pushed <==> exists k :: k in done && !Prose(fields, names, k) && fields[k] == v)
    && (changed <==> exists k :: k in done && Prose(fields, names, k) && HasSeparator(fields[k].text))
  }

  lemma CollectedNext(fields: map<string, Val>, done: set<string>, key: string, names: set<string>, pushed: seq<Val>,
                      changed: bool)
    requires Collected(fields, done, names, pushed, changed) && key in fields
    ensures var pushed' := if Prose(fields, names, key) then pushed else pushed + [fields[key]];
      var here := Prose(fields, names, key) && HasSeparator(fields[key].text);
      Collected(fields, done + {key}, names, pushed', changed || here)
  {
    var pushed' := if Prose(fields, names, key) then pushed else pushed + [fields[key]];
    forall v ensures v in pushed' <==> exists k :: k in done + {key} && !Prose(fields, names, k) && fields[k] == v {
      if v in pushed { var k :| k in done && !Prose(fields, names, k) && fields[k] == v; assert k in done + {key}; }
      if v in pushed' && v !in pushed { assert key in done + {key} && fields[key] == v; }
    }
  }

  lemma CountVisited(c: Cell, names: set<string>, redact: string -> string)
    ensures Count(Visited(c, names, redact)) == Count(c)
  {
    if c.Dict? { assert Visited(c, names, redact).fields.Keys == c.fields.Keys; }
  }

  function Count(c: Cell): nat { match c case Dict(fields) => |fields| case List(items) => |items| }

  /** A dictionary with the keys in `done` visited. */
  function PartVisited(fields: map<string, Val>, done: set<string>, names: set<string>, redact: string -> string)
    : map<string, Val>
  {
    map k | k in fields :: if k in done && Prose(fields, names, k) then Text(redact(fields[k].text)) else fields[k]
  }

  lemma PartVisitedAll(fields: map<string, Val>, names: set<string>, redact: string -> string)
    ensures Dict(PartVisited(fields, fields.Keys, names, redact)) == Visited(Dict(fields), names, redact)
    ensures PartVisited(fields, {}, names, redact) == fields
  {
    assert PartVisited(fields, fields.Keys, names, redact) == Visited(Dict(fields), names, redact).fields;
  }

  lemma PartVisitedNext(fields: map<string, Val>, done: set<string>, key: string, names: set<string>,
                        redact: string -> string)
    requires key in fields && key !in done && Cleans(redact)
    ensures PartVisited(fields, done, names, redact)[key] == fields[key]
    ensures PartVisited(fields, done + {key}, names, redact) ==
      if Prose(fields, names, key) && HasSeparator(fields[key].text)
      then PartVisited(fields, done, names, redact)[key := Text(redact(fields[key].text))]
      else PartVisited(fields, done, names, redact)
  {
  }

  /** The containers in `done` are visited, the others as they were copied. */
  ghost predicate Partly(cells: seq<Cell>, now: seq<Cell>, names: set<string>, redact: string -> string, done: set<nat>)
  {
    |now| == |cells| &&
    forall i :: 0 <= i < |now| ==> now[i] == if i in done then Visited(cells[i], names, redact) else cells[i]
  }

  /** Everything below the root is done or reached from a pending value, and nothing else is. */
  ghost predicate Covers(cells: seq<Cell>, root: nat, pending: seq<Val>, done: set<nat>) {
    && Copied(cells) && root < |cells| && done <= Reach(cells, Ref(root))
    && (forall v :: v in pending ==> Inside(cells, v) && Reach(cells, v) <= Reach(cells, Ref(root)))
    && (forall i :: i in Reach(cells, Ref(root)) ==> i in done || exists v :: v in pending && i in Reach(cells, v))
  }

  /** Popping a scalar. */
  lemma PopScalar(cells: seq<Cell>, root: nat, rest: seq<Val>, v: Val, done: set<nat>)
    requires Covers(cells, root, rest + [v], done) && !v.Ref?
    ensures Covers(cells, root, rest, done)
  {
    forall w | w in rest ensures w in rest + [v] { }
  }

  /** What a container pushes stays within what was to be visited. */
  lemma PushedWithin(cells: seq<Cell>, names: set<string>, id: nat, v: Val)
    requires Copied(cells) && id < |cells| && v in Pushed(cells[id], names)
    ensures v in Values(cells[id]) && Inside(cells, v) && Rank(v) <= id && Reach(cells, v) <= Reach(cells, Ref(id))
  {
  }

  /** What is still to be visited is reached from the rest or from what was pushed. */
  lemma StillReached(cells: seq<Cell>, names: set<string>, rest: seq<Val>, pushed: seq<Val>, id: nat, i: nat)
    requires Copied(cells) && id < |cells| && (forall v :: v in rest ==> Inside(cells, v))
    requires (forall v :: v in pushed ==> Inside(cells, v))
    requires forall v :: v in pushed <==> v in Pushed(cells[id], names)
    requires i != id && (i in Reach(cells, Ref(id)) || exists v :: v in rest && i in Reach(cells, v))
    ensures exists v :: v in rest + pushed && i in Reach(cells, v)
  {
    if v :| v in rest && i in Reach(cells, v) {
      assert v in rest + pushed;
    } else {
      var w :| w in Values(cells[id]) && i in Reach(cells, w);
      assert w.Ref? && w in Pushed(cells[id], names) by { PushesReferences(cells[id], names, w); }
      assert w in rest + pushed;
    }
  }

  lemma PushesReferences(c: Cell, names: set<string>, w: Val)
    requires w in Values(c) && w.Ref?
    ensures w in Pushed(c, names)
  {
    if c.Dict? { var k :| k in c.fields && c.fields[k] == w; assert !Prose(c.fields, names, k); }
  }

  /** Popping a container and pushing what it holds. */
  lemma PopContainer(cells: seq<Cell>, root: nat, names: set<string>, rest: seq<Val>, id: nat, done: set<nat>,
                     pushed: seq<Val>)
    requires Covers(cells, root, rest + [Ref(id)], done)
    requires id < |cells| && forall v :: v in pushed <==> v in Pushed(cells[id], names)
    ensures Covers(cells, root, rest + pushed, done + {id})
  {
    var all := Reach(cells, Ref(root));
    assert Ref(id) in rest + [Ref(id)] && id in Reach(cells, Ref(id));
    forall v | v in pushed ensures Inside(cells, v) && Reach(cells, v) <= all { PushedWithin(cells, names, id, v); }
    forall v | v in rest ensures Inside(cells, v) && Reach(cells, v) <= all { assert v in rest + [Ref(id)]; }
    forall i | i in all && i !in done + {id} ensures exists v :: v in rest + pushed && i in Reach(cells, v) {
      var v :| v in rest + [Ref(id)] && i in Reach(cells, v);
      StillReached(cells, names, rest, pushed, id, i);
    }
  }

  /** Visiting a container, perhaps not for the first time. */
  lemma VisitCell(cells: seq<Cell>, now: seq<Cell>, names: set<string>, redact: string -> string, id: nat,
                  done: set<nat>)
    requires Partly(cells, now, names, redact, done) && Cleans(redact) && id < |now|
    ensures Partly(cells, now[id := Visited(now[id], names, redact)], names, redact, done + {id})
    ensures Pushed(now[id], names) == Pushed(cells[id], names) && Count(now[id]) == Count(cells[id])
    ensures Marked(now[id], names) <==> id !in done && Marked(cells[id], names)
  {
    VisitAgain(cells[id], names, redact);
    CountVisited(cells[id], names, redact);
  }

  function Pow(b: nat, n: nat): nat { if n == 0 then 1 else b * Pow(b, n - 1) }

  lemma Times(b: nat, p: nat)
    requires b >= 1
    ensures p <= b * p
  {
  }

  lemma {:induction false} PowGrows(b: nat, m: nat, n: nat)
    requires b >= 1 && m <= n
    ensures 1 <= Pow(b, m) <= Pow(b, n)
  {
    if n > 0 {
      PowGrows(b, if m < n then m else n - 1, n - 1);
      Times(b, Pow(b, n - 1));
    }
  }

  /** A bound on the visits still to come, with fewer than `b` values in any container. */
  function Weight(pending: seq<Val>, b: nat): nat {
    if pending == [] then 0 else Weight(pending[..|pending| - 1], b) + Pow(b, Rank(pending[|pending| - 1]))
  }

  lemma {:induction false} WeightConcat(p: seq<Val>, q: seq<Val>, b: nat)
    ensures Weight(p + q, b) == Weight(p, b) + Weight(q, b)
    decreases |q|
  {
    if q == [] {
      assert p + q == p;
    } else {
      assert (p + q)[..|p + q| - 1] == p + q[..|q| - 1];
      WeightConcat(p, q[..|q| - 1], b);
    }
  }

  lemma OneMore(n: nat, p: nat)
    ensures n * p + p == (n + 1) * p
  {
  }

  lemma {:induction false} WeightBound(q: seq<Val>, b: nat, p: nat)
    requires forall v :: v in q ==> Pow(b, Rank(v)) <= p
    ensures Weight(q, b) <= |q| * p
  {
    if q != [] {
      WeightBound(q[..|q| - 1], b, p);
      OneMore(|q| - 1, p);
    }
  }

  lemma VisitsShrink(rest: seq<Val>, v: Val, pushed: seq<Val>, b: nat)
    requires b >= 1 && |pushed| < b
    requires if v.Ref? then forall w :: w in pushed ==> Rank(w) <= v.id else pushed == []
    ensures Weight(rest + pushed, b) < Weight(rest + [v], b)
  {
    WeightConcat(rest, pushed, b);
    assert (rest + [v])[..|rest|] == rest;
    if v.Ref? { PushedLight(pushed, b, v.id); }
  }

  lemma PushedLight(pushed: seq<Val>, b: nat, id: nat)
    requires b >= 1 && |pushed| < b && forall w :: w in pushed ==> Rank(w) <= id
    ensures Weight(pushed, b) < Pow(b, id + 1)
  {
    forall w | w in pushed ensures Pow(b, Rank(w)) <= Pow(b, id) { PowGrows(b, Rank(w), id); }
    WeightBound(pushed, b, Pow(b, id));
    PowGrows(b, id, id);
    FewerTimes(|pushed|, b, Pow(b, id));
  }

  lemma FewerTimes(a: nat, b: nat, p: nat)
    requires a < b && p >= 1
    ensures a * p < b * p
  {
  }

  ghost function Widest(cells: seq<Cell>): nat {
    if cells == [] then 1 else
    var rest, here := Widest(cells[..|cells| - 1]), Count(cells[|cells| - 1]) + 1;
    if rest >= here then rest else here
  }

  lemma {:induction false} WidestBounds(cells: seq<Cell>)
    ensures Widest(cells) >= 1 && forall i :: 0 <= i < |cells| ==> Count(cells[i]) < Widest(cells)
  {
    if cells != [] { WidestBounds(cells[..|cells| - 1]); }
  }

  lemma VisitedCopied(cells: seq<Cell>, now: seq<Cell>, names: set<string>, redact: string -> string, done: set<nat>)
    requires Copied(cells) && Partly(cells, now, names, redact, done)
    ensures Copied(now)
  {
    forall i, v | 0 <= i < |now| && v in Values(now[i]) && v.Ref? ensures v.id < i {
      assert v in Values(cells[i]) by {
        if now[i].Dict? {
          var k :| k in now[i].fields && now[i].fields[k] == v;
          assert cells[i].fields[k] == v;
        }
      }
    }
  }

  /** The worklist between two pops. */
  ghost predicate Working(copy: seq<Cell>, now: seq<Cell>, root: nat, names: set<string>, redact: string -> string,
                          pending: seq<Val>, done: set<nat>, changed: bool) {
    Covers(copy, root, pending, done) && Partly(copy, now, names, redact, done) &&
    (changed <==> exists i :: i in done && Marked(copy[i], names))
  }

  lemma WorkContainer(copy: seq<Cell>, now: seq<Cell>, root: nat, names: set<string>, redact: string -> string,
                      rest: seq<Val>, id: nat, done: set<nat>, changed: bool, pushed: seq<Val>)
    requires Working(copy, now, root, names, redact, rest + [Ref(id)], done, changed) && Cleans(redact) && id < |now|
    requires forall v :: v in pushed <==> v in Pushed(now[id], names)
    ensures var next := now[id := Visited(now[id], names, redact)];
      Working(copy, next, root, names, redact, rest + pushed, done + {id}, changed || Marked(now[id], names))
    ensures Count(now[id]) == Count(copy[id]) && forall w :: w in pushed ==> Rank(w) <= id
  {
    VisitCell(copy, now, names, redact, id, done);
    PopContainer(copy, root, names, rest, id, done, pushed);
    forall w | w in pushed ensures Rank(w) <= id { PushedWithin(copy, names, id, w); }
  }

  lemma WorkDone(copy: seq<Cell>, now: seq<Cell>, root: nat, names: set<string>, redact: string -> string,
                 done: set<nat>, changed: bool)
    requires Working(copy, now, root, names, redact, [], done, changed)
    ensures Copied(now) && root < |now| && Decode(now, Ref(root)) == Redacted(Decode(copy, Ref(root)), names, redact)
    ensures changed <==> HasHostPath(Decode(copy, Ref(root)), names)
  {
    VisitedCopied(copy, now, names, redact, done);
    VisitedIsRedacted(copy, now, names, Ref(root), redact);
    HostPathIsMarked(copy, names, Ref(root));
  }

  /** One turn: the popped value is visited if it is a container, and what it holds is queued. */
  method Turn(cells: array<Cell>, ghost copy: seq<Cell>, ghost root: nat, names: set<string>, redact: string -> string,
              rest: seq<Val>, v: Val, ghost done: set<nat>, changed: bool, ghost b: nat)
    returns (pending: seq<Val>, ghost done': set<nat>, changed': bool)
    requires Working(copy, cells[..], root, names, redact, rest + [v], done, changed) && Cleans(redact)
    requires b >= 1 && forall i :: 0 <= i < |copy| ==> Count(copy[i]) < b
    modifies cells
    ensures Working(copy, cells[..], root, names, redact, pending, done', changed')
    ensures Weight(pending, b) < Weight(rest + [v], b)
  {
    if v.Ref? {
      assert v in rest + [v];
      ghost var before := cells[..];
      var pushed, here := Visit(cells, v.id, names, redact);
      WorkContainer(copy, before, root, names, redact, rest, v.id, done, changed, pushed);
      VisitsShrink(rest, v, pushed, b);
      return rest + pushed, done + {v.id}, changed || here;
    }
    PopScalar(copy, root, rest, v, done);
    assert rest + [] == rest;
    VisitsShrink(rest, v, [], b);
    return rest, done, changed;
  }

  /** The worklist of `redacted_prose` on a copied document: it ends, the tree it leaves is the
      recursive redaction of the copy, and it reports a change exactly when a prose string
      somewhere had a separator. */
  method RedactInPlace(cells: array<Cell>, root: nat, names: set<string>, redact: string -> string)
    returns (changed: bool)
    requires Copied(cells[..]) && root < cells.Length && Cleans(redact)
    modifies cells
    ensures Copied(cells[..])
    ensures Decode(cells[..], Ref(root)) == Redacted(old(Decode(cells[..], Ref(root))), names, redact)
    ensures changed <==> old(HasHostPath(Decode(cells[..], Ref(root)), names))
  {
    ghost var copy, done: set<nat>, b := cells[..], {}, Widest(cells[..]);
    WidestBounds(copy);
    changed := false;
    var pending := [Ref(root)];
    while pending != []
      invariant Working(copy, cells[..], root, names, redact, pending, done, changed)
      decreases Weight(pending, b)
    {
      var v, rest := pending[|pending| - 1], pending[..|pending| - 1];
      assert pending == rest + [v];
      pending, done, changed := Turn(cells, copy, root, names, redact, rest, v, done, changed, b);
    }
    WorkDone(copy, cells[..], root, names, redact, done, changed);
  }

  lemma RedactTextCleans()
    ensures Cleans(RedactText)
  {
    forall t ensures !HasSeparator(RedactText(t)) && (!HasSeparator(t) ==> RedactText(t) == t) { RedactTextClean(t); }
  }

  /** `redacted_prose` finds nothing when applied to what it returned. */
  lemma RedactedOnce(j: Json, names: set<string>)
    ensures !HasHostPath(Redacted(j, names, RedactText), names)
    ensures Redacted(Redacted(j, names, RedactText), names, RedactText) == Redacted(j, names, RedactText)
    ensures !HasHostPath(j, names) ==> Redacted(j, names, RedactText) == j
  {
    RedactTextCleans();
    RedactedClean(j, names, RedactText);
    RedactedClean(Redacted(j, names, RedactText), names, RedactText);
  }

  // ---- The copy, and the whole operation ----

  /** `redacted_prose`: a copy of the document with its prose redacted in place, or nothing if it is
      not an object or no prose string has a separator. */
  method RedactedProse(document: Json, names: set<string>) returns (r: Option<Json>)
    ensures document.Obj? && HasHostPath(document, names) ==> r == Some(Redacted(document, names, RedactText))
    ensures !document.Obj? || !HasHostPath(document, names) ==> r == None
  {
    if !document.Obj? { return None; }
    var copy, root := Copy(document, []);
    var cells := new Cell[|copy|](i requires 0 <= i < |copy| => copy[i]);
    assert cells[..] == copy;
    RedactTextCleans();
    var changed := RedactInPlace(cells, root.id, names, RedactText);
    r := if changed then Some(Decode(cells[..], root)) else None;
  }
}
