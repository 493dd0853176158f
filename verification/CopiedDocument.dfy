/** A deep copy of a JSON document as a program holds it: containers in memory that refer to one
    another. The containers are numbered in the order in which their copies were finished. */
module CopiedDocument {
  import opened Json

  /** A value in a container: a string, another scalar, or a reference to a container. */
  datatype Val = Text(text: string) | Num(n: int) | Ref(id: nat)

  datatype Cell = Dict(fields: map<string, Val>) | List(items: seq<Val>)

  function Values(c: Cell): set<Val> {
    match c case Dict(fields) => fields.Values case List(items) => set v | v in items
  }

  /** Containers refer only to containers copied before them. Sharing is allowed, cycles are not. */
  predicate Copied(cells: seq<Cell>) {
    forall i, v :: 0 <= i < |cells| && v in Values(cells[i]) && v.Ref? ==> v.id < i
  }

  predicate Inside(cells: seq<Cell>, v: Val) { v.Ref? ==> v.id < |cells| }

  function Rank(v: Val): nat { if v.Ref? then v.id + 1 else 0 }

  /** The document at a value. */
  function Decode(cells: seq<Cell>, v: Val): Json
    requires Copied(cells) && Inside(cells, v)
    decreases Rank(v)
  {
    match v
    case Text(t) => Str(t)
    case Num(n) => Scalar(n)
    case Ref(id) =>
      match cells[id]
      case Dict(fields) =>
        Obj(map k | k in fields :: assert fields[k] in Values(cells[id]); Decode(cells, fields[k]))
      case List(items) =>
        Arr(seq(|items|, i requires 0 <= i < |items| => assert items[i] in Values(cells[id]); Decode(cells, items[i])))
  }

  /** The containers a value leads to. */
  function Reach(cells: seq<Cell>, v: Val): (reached: set<nat>)
    requires Copied(cells) && Inside(cells, v)
    ensures forall i :: i in reached ==> i < |cells| && i < Rank(v)
    decreases Rank(v)
  {
    if !v.Ref? then {} else
    {v.id} + set w, r | w in Values(cells[v.id]) && r in Reach(cells, w) :: r
  }

  /** No two fields of an object share a container. */
  ghost predicate Unshared(cells: seq<Cell>, v: Val)
    requires Copied(cells) && Inside(cells, v)
    decreases Rank(v)
  {
    v.Ref? && cells[v.id].Dict? ==>
      && FieldsApart(cells, cells[v.id].fields)
      && forall k :: k in cells[v.id].fields ==>
           assert cells[v.id].fields[k] in Values(cells[v.id]); Unshared(cells, cells[v.id].fields[k])
  }

  ghost predicate FieldsInside(cells: seq<Cell>, fields: map<string, Val>) {
    forall k :: k in fields ==> Inside(cells, fields[k])
  }

  ghost predicate FieldsApart(cells: seq<Cell>, fields: map<string, Val>)
    requires Copied(cells)
  {
    FieldsInside(cells, fields) &&
    forall k, l :: k in fields && l in fields && k != l ==> Reach(cells, fields[k]) !! Reach(cells, fields[l])
  }

  // ---- What is not touched stays ----

  ghost predicate SameOn(cells: seq<Cell>, now: seq<Cell>, ids: set<nat>) {
    forall i :: i in ids ==> i < |cells| && i < |now| && now[i] == cells[i]
  }

  /** A value whose containers are the same is the same document. */
  lemma {:induction false} SameBelow(cells: seq<Cell>, now: seq<Cell>, v: Val)
    requires Copied(cells) && Copied(now) && Inside(cells, v) && SameOn(cells, now, Reach(cells, v))
    ensures Inside(now, v) && Decode(now, v) == Decode(cells, v) && Reach(now, v) == Reach(cells, v)
    ensures Unshared(now, v) == Unshared(cells, v)
    decreases Rank(v)
  {
    if v.Ref? {
      assert v.id in Reach(cells, v);
      forall w | w in Values(cells[v.id])
        ensures Inside(cells, w) && Inside(now, w) && Decode(now, w) == Decode(cells, w)
        ensures Reach(now, w) == Reach(cells, w) && Unshared(now, w) == Unshared(cells, w)
      {
        assert Reach(cells, w) <= Reach(cells, v);
        SameBelow(cells, now, w);
      }
      if cells[v.id].Dict? { SameDict(cells, now, v.id); } else { SameList(cells, now, v.id); }
    }
  }

  ghost predicate SameValues(cells: seq<Cell>, now: seq<Cell>, id: nat)
    requires Copied(cells) && Copied(now)
  {
    && id < |cells| && id < |now| && now[id] == cells[id]
    && forall w :: w in Values(cells[id]) ==>
         Inside(cells, w) && Inside(now, w) && Decode(now, w) == Decode(cells, w) && Reach(now, w) == Reach(cells, w)
  }

  lemma SameDict(cells: seq<Cell>, now: seq<Cell>, id: nat)
    requires Copied(cells) && Copied(now) && SameValues(cells, now, id) && cells[id].Dict?
    requires forall w :: w in Values(cells[id]) ==> Unshared(now, w) == Unshared(cells, w)
    ensures Decode(now, Ref(id)) == Decode(cells, Ref(id)) && Reach(now, Ref(id)) == Reach(cells, Ref(id))
    ensures Unshared(now, Ref(id)) == Unshared(cells, Ref(id))
  {
    SameDecoded(cells, now, id);
    SameUnshared(cells, now, id);
  }

  lemma SameDecoded(cells: seq<Cell>, now: seq<Cell>, id: nat)
    requires Copied(cells) && Copied(now) && SameValues(cells, now, id) && cells[id].Dict?
    ensures Decode(now, Ref(id)) == Decode(cells, Ref(id))
  {
    var fields := cells[id].fields;
    assert forall k :: k in fields ==> fields[k] in Values(cells[id]);
    assert Decode(now, Ref(id)).fields == Decode(cells, Ref(id)).fields;
  }

  lemma SameUnshared(cells: seq<Cell>, now: seq<Cell>, id: nat)
    requires Copied(cells) && Copied(now) && SameValues(cells, now, id) && cells[id].Dict?
    requires forall w :: w in Values(cells[id]) ==> Unshared(now, w) == Unshared(cells, w)
    ensures Unshared(now, Ref(id)) == Unshared(cells, Ref(id))
  {
    var fields := cells[id].fields;
    forall k | k in fields
      ensures Inside(cells, fields[k]) && Inside(now, fields[k]) && Reach(now, fields[k]) == Reach(cells, fields[k])
      ensures Unshared(now, fields[k]) == Unshared(cells, fields[k])
    {
      assert fields[k] in Values(cells[id]);
    }
    SameApart(cells, now, fields);
  }

  lemma SameApart(cells: seq<Cell>, now: seq<Cell>, fields: map<string, Val>)
    requires Copied(cells) && Copied(now)
    requires forall k :: k in fields ==>
      Inside(cells, fields[k]) && Inside(now, fields[k]) && Reach(now, fields[k]) == Reach(cells, fields[k])
    ensures FieldsApart(now, fields) == FieldsApart(cells, fields)
  {
  }

  lemma SameList(cells: seq<Cell>, now: seq<Cell>, id: nat)
    requires Copied(cells) && Copied(now) && SameValues(cells, now, id) && cells[id].List?
    ensures Decode(now, Ref(id)) == Decode(cells, Ref(id)) && Reach(now, Ref(id)) == Reach(cells, Ref(id))
    ensures Unshared(now, Ref(id)) == Unshared(cells, Ref(id))
  {
    var items := cells[id].items;
    assert forall i :: 0 <= i < |items| ==> items[i] in Values(cells[id]);
    assert Decode(now, Ref(id)).items == Decode(cells, Ref(id)).items;
  }

  // ---- Copying ----

  /** `v` is a copy of `j` made of the containers from number `from` on. */
  ghost predicate IsCopy(cells: seq<Cell>, from: nat, v: Val, j: Json)
    requires Copied(cells)
  {
    Inside(cells, v) && Decode(cells, v) == j && Unshared(cells, v) && forall i :: i in Reach(cells, v) ==> from <= i
  }

  lemma CopyStays(cells: seq<Cell>, more: seq<Cell>, from: nat, v: Val, j: Json)
    requires Copied(cells) && Copied(more) && cells <= more && IsCopy(cells, from, v, j)
    ensures IsCopy(more, from, v, j) && Reach(more, v) == Reach(cells, v)
  {
    SameBelow(cells, more, v);
  }

  /** Some fields of an object, copied one after the other. */
  ghost predicate FieldsCopied(cells: seq<Cell>, from: nat, fields: map<string, Json>, done: map<string, Val>)
    requires Copied(cells)
  {
    && (forall k :: k in done ==> k in fields && IsCopy(cells, from, done[k], fields[k]))
    && FieldsApart(cells, done)
  }

  ghost predicate ItemsCopied(cells: seq<Cell>, from: nat, items: seq<Json>, done: seq<Val>)
    requires Copied(cells)
  {
    |done| <= |items| && forall i :: 0 <= i < |done| ==> IsCopy(cells, from, done[i], items[i])
  }

  lemma FieldAdded(cells: seq<Cell>, more: seq<Cell>, from: nat, fields: map<string, Json>, done: map<string, Val>,
                   k: string, v: Val)
    requires Copied(cells) && Copied(more) && cells <= more && from <= |cells|
    requires FieldsCopied(cells, from, fields, done) && k in fields && k !in done && IsCopy(more, |cells|, v, fields[k])
    ensures FieldsCopied(more, from, fields, done[k := v])
  {
    var now := done[k := v];
    forall l | l in done
      ensures IsCopy(more, from, done[l], fields[l]) && Reach(more, done[l]) == Reach(cells, done[l])
    {
      CopyStays(cells, more, from, done[l], fields[l]);
    }
    forall l, m | l in now && m in now && l != m ensures Reach(more, now[l]) !! Reach(more, now[m]) {
      if l != k && m != k { assert Reach(cells, done[l]) !! Reach(cells, done[m]); }
    }
  }

  lemma CloseDict(cells: seq<Cell>, from: nat, fields: map<string, Json>, done: map<string, Val>)
    requires Copied(cells) && from <= |cells| && FieldsCopied(cells, from, fields, done) && done.Keys == fields.Keys
    ensures Copied(cells + [Dict(done)]) && IsCopy(cells + [Dict(done)], from, Ref(|cells|), Obj(fields))
  {
    var more := cells + [Dict(done)];
    assert Copied(more);
    forall k | k in done
      ensures IsCopy(more, from, done[k], fields[k]) && Reach(more, done[k]) == Reach(cells, done[k])
    {
      CopyStays(cells, more, from, done[k], fields[k]);
    }
    assert FieldsApart(more, done);
    assert Decode(more, Ref(|cells|)).fields == fields;
  }

  lemma CloseList(cells: seq<Cell>, from: nat, items: seq<Json>, done: seq<Val>)
    requires Copied(cells) && from <= |cells| && ItemsCopied(cells, from, items, done) && |done| == |items|
    ensures Copied(cells + [List(done)]) && IsCopy(cells + [List(done)], from, Ref(|cells|), Arr(items))
  {
    var more := cells + [List(done)];
    assert Copied(more);
    forall i | 0 <= i < |done|
      ensures IsCopy(more, from, done[i], items[i])
    {
      CopyStays(cells, more, from, done[i], items[i]);
    }
    assert Decode(more, Ref(|cells|)).items == items;
  }

  /** A deep copy of a document behind the containers copied before: every document has one, and it
      shares nothing. */
  method Copy(j: Json, cells: seq<Cell>) returns (more: seq<Cell>, v: Val)
    requires Copied(cells)
    ensures Copied(more) && cells <= more && IsCopy(more, |cells|, v, j)
    ensures j.Obj? || j.Arr? ==> v.Ref?
    decreases j, 1
  {
    match j
    case Str(text) => return cells, Text(text);
    case Scalar(n) => return cells, Num(n);
    case Obj(fields) =>
      var done: map<string, Val>;
      more, done := CopyFields(j, cells);
      CloseDict(more, |cells|, fields, done);
      return more + [Dict(done)], Ref(|more|);
    case Arr(items) =>
      var done: seq<Val>;
      more, done := CopyItems(j, cells);
      CloseList(more, |cells|, items, done);
      return more + [List(done)], Ref(|more|);
  }

  method CopyFields(j: Json, cells: seq<Cell>) returns (more: seq<Cell>, done: map<string, Val>)
    requires Copied(cells) && j.Obj?
    ensures Copied(more) && cells <= more && FieldsCopied(more, |cells|, j.fields, done) && done.Keys == j.fields.Keys
    decreases j, 0
  {
    more, done := cells, map[];
    var keys := j.fields.Keys;
    while keys != {}
      invariant Copied(more) && cells <= more && FieldsCopied(more, |cells|, j.fields, done)
      invariant done.Keys + keys == j.fields.Keys && done.Keys !! keys
      decreases |keys|
    {
      var k :| k in keys;
      var before := more;
      var v;
      more, v := Copy(j.fields[k], before);
      FieldAdded(before, more, |cells|, j.fields, done, k, v);
      done := done[k := v];
      keys := keys - {k};
    }
  }

  method CopyItems(j: Json, cells: seq<Cell>) returns (more: seq<Cell>, done: seq<Val>)
    requires Copied(cells) && j.Arr?
    ensures Copied(more) && cells <= more && ItemsCopied(more, |cells|, j.items, done) && |done| == |j.items|
    decreases j, 0
  {
    more, done := cells, [];
    for i := 0 to |j.items|
      invariant Copied(more) && cells <= more && |done| == i && ItemsCopied(more, |cells|, j.items, done)
    {
      var before := more;
      var v;
      more, v := Copy(j.items[i], before);
      forall k | 0 <= k < i ensures IsCopy(more, |cells|, done[k], j.items[k]) {
        CopyStays(before, more, |cells|, done[k], j.items[k]);
      }
      done := done + [v];
    }
  }
}
