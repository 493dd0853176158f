/** What a report says it lost: for each dropped group of optional evidence, the field inside it
    that refused the report and the kind of the error. */
module EvidenceDrop {
  import opened Json
  import opened Ordering
  import opened Removal

  /** Optional fields that are valid together or dropped together. */
  datatype Group = Group(code: int, paths: seq<Path>)

  predicate Present(doc: Json, path: Path) { Lookup(doc, path) != Missing }

  predicate AnyPresent(doc: Json, g: Group) { exists i :: 0 <= i < |g.paths| && Present(doc, g.paths[i]) }

  // ---- Locations ----

  /** A validation error names a field by keys, list positions and the tags of union members. */
  datatype Part = Name(key: string) | Index(i: int)

  datatype Fault = Fault(loc: seq<Part>, kind: string)

  predicate KeyChar(c: char) { 'A' <= c <= 'Z' || 'a' <= c <= 'z' || '0' <= c <= '9' || c == '_' || c == '-' }

  /** A key that is safe to show. */
  predicate LocationKey(s: string) { 1 <= |s| <= 64 && forall i :: 0 <= i < |s| ==> KeyChar(s[i]) }

  function Decimal(n: nat): string { (if n < 10 then "" else Decimal(n / 10)) + [(n % 10 + 48) as char] }

  /** `str` of an integer. */
  function Text(i: int): string { if i < 0 then "-" + Decimal(-i) else Decimal(i) }

  function Label(part: Part): string {
    match part
    case Name(key) => if LocationKey(key) then key else "*"
    case Index(i) => Text(i)
  }

  function Child(node: Json, part: Part): Found {
    match part
    case Name(key) => if node.Obj? && key in node.fields then At(node.fields[key]) else Missing
    case Index(i) => if node.Arr? && 0 <= i < |node.items| then At(node.items[i]) else Missing
  }

  /** The parts of a location that lead from `node` to a field; the others are skipped. */
  function Leading(node: Json, loc: seq<Part>): seq<Part>
    decreases |loc|
  {
    if loc == [] then [] else
    match Child(node, loc[0])
    case At(child) => [loc[0]] + Leading(child, loc[1..])
    case Missing => Leading(node, loc[1..])
  }

  function Labels(data: Json, loc: seq<Part>): seq<string> { Map(Leading(data, loc), Label) }

  predicate Reaches(node: Json, parts: seq<Part>)
    decreases |parts|
  {
    parts == [] || match Child(node, parts[0]) case At(child) => Reaches(child, parts[1..]) case Missing => false
  }

  /** What is kept of a location is the way to a field of the document, and all of it if the
      location already was one. */
  lemma {:induction false} LeadingReaches(node: Json, loc: seq<Part>)
    ensures Reaches(node, Leading(node, loc))
    ensures Reaches(node, loc) ==> Leading(node, loc) == loc
    decreases |loc|
  {
    if loc != [] {
      match Child(node, loc[0])
      case At(child) =>
        LeadingReaches(child, loc[1..]);
        assert ([loc[0]] + Leading(child, loc[1..]))[1..] == Leading(child, loc[1..]);
        assert loc == [loc[0]] + loc[1..];
      case Missing =>
        LeadingReaches(node, loc[1..]);
    }
  }

  /** The field that the kept parts of a location lead to. */
  function Reached(node: Json, loc: seq<Part>): Json
    decreases |loc|
  {
    if loc == [] then node else
    match Child(node, loc[0])
    case At(child) => Reached(child, loc[1..])
    case Missing => Reached(node, loc[1..])
  }

  /** A part that addresses nothing where it stands, such as a union member's tag, is skipped, and
      the rest of the location is followed as if it were not there. */
  lemma {:induction false} TagSkipped(node: Json, a: seq<Part>, tag: Part, b: seq<Part>)
    requires Child(Reached(node, a), tag) == Missing
    ensures Leading(node, a + [tag] + b) == Leading(node, a + b)
    decreases |a|
  {
    if a == [] {
      assert [] + [tag] + b == [tag] + b && [] + b == b && ([tag] + b)[1..] == b;
    } else {
      assert (a + [tag] + b)[1..] == a[1..] + [tag] + b && (a + b)[1..] == a[1..] + b;
      match Child(node, a[0])
      case At(child) => TagSkipped(child, a[1..], tag, b);
      case Missing => TagSkipped(node, a[1..], tag, b);
    }
  }

  lemma LabelsNext(node: Json, loc: seq<Part>, keys: seq<string>)
    requires loc != []
    ensures keys + Labels(node, loc) ==
      match Child(node, loc[0])
      case At(child) => keys + [Label(loc[0])] + Labels(child, loc[1..])
      case Missing => keys + Labels(node, loc[1..])
  {
    if Child(node, loc[0]).At? {
      var rest := Leading(Child(node, loc[0]).value, loc[1..]);
      assert Map([loc[0]] + rest, Label) == [Label(loc[0])] + Map(rest, Label);
    }
  }

  /** `_data_location`. */
  method DataLocation(data: Json, loc: seq<Part>) returns (keys: seq<string>)
    ensures keys == Labels(data, loc)
  {
    keys := [];
    var node := data;
    assert loc[0..] == loc;
    for n := 0 to |loc|
      invariant Labels(data, loc) == keys + Labels(node, loc[n..])
    {
      LabelsNext(node, loc[n..], keys);
      assert loc[n..][1..] == loc[n + 1..];
      var child := Child(node, loc[n]);
      if child.At? { keys, node := keys + [Label(loc[n])], child.value; }
    }
  }

  // ---- The drop ----

  function Dotted(keys: seq<string>): string {
    if keys == [] then "" else keys[0] + if |keys| == 1 then "" else "." + Dotted(keys[1..])
  }

  function Cut(s: string, n: nat): string { if |s| <= n then s else s[..n] }

  predicate TypeChar(c: char) { 'a' <= c <= 'z' || '0' <= c <= '9' || c == '_' }

  /** `_error_type`, for any lower-casing. */
  function ErrorType(lower: string -> string, name: string): string {
    var s := Cut(Map(lower(name), (c: char) => if TypeChar(c) then c else '_'), 64);
    if s == "" then "value_error" else s
  }

  datatype Drop = Drop(code: int, location: string, errorType: string)

  /** A fault with the keys of its location that address the document. */
  datatype Placed = Placed(keys: seq<string>, fault: Fault)

  predicate Inside(keys: seq<string>, paths: seq<Path>) { exists i :: 0 <= i < |paths| && paths[i] <= keys }

  function PresentPaths(g: Group, data: Json): seq<Path> { Filter(g.paths, (p: Path) => Present(data, p)) }

  /** The faults located inside one of the paths. */
  function PlacedIn(data: Json, paths: seq<Path>, faults: seq<Fault>): seq<Placed> {
    Filter(Map(faults, (f: Fault) => Placed(Labels(data, f.loc), f)), (x: Placed) => Inside(x.keys, paths))
  }

  /** The first of the deepest. */
  function Deepest(s: seq<Placed>): (r: Placed)
    requires s != []
    ensures r in s && forall x :: x in s ==> |x.keys| <= |r.keys|
    ensures exists i :: 0 <= i < |s| && s[i] == r && forall j :: 0 <= j < i ==> |s[j].keys| < |r.keys|
  {
    var n := |s| - 1;
    assert s == s[..n] + [s[n]];
    if n == 0 then s[0] else
    var r := Deepest(s[..n]);
    if |s[n].keys| > |r.keys| then s[n] else r
  }

  lemma SomePath(g: Group, data: Json)
    requires AnyPresent(data, g)
    ensures PresentPaths(g, data) != []
  {
    var i :| 0 <= i < |g.paths| && Present(data, g.paths[i]);
    FilterCount(g.paths, (p: Path) => Present(data, p), g.paths[i]);
    assert g.paths[i] in multiset(g.paths) && g.paths[i] in multiset(PresentPaths(g, data));
  }

  function FirstKind(faults: seq<Fault>): string { if faults == [] then "value_error" else faults[0].kind }

  /** `_drop`. */
  function DropOf(g: Group, data: Json, faults: seq<Fault>, lower: string -> string): Drop
    requires AnyPresent(data, g)
  {
    SomePath(g, data);
    var present := PresentPaths(g, data);
    var located := PlacedIn(data, present, faults);
    if located != [] then
      var d := Deepest(located);
      Drop(g.code, Cut(Dotted(d.keys), 256), ErrorType(lower, d.fault.kind))
    else
      Drop(g.code, Cut(Dotted(present[0]), 256), ErrorType(lower, FirstKind(faults)))
  }

  lemma PresentPath(g: Group, data: Json, p: Path)
    ensures p in PresentPaths(g, data) <==> p in g.paths && Present(data, p)
  {
    FilterCount(g.paths, (q: Path) => Present(data, q), p);
    assert p in multiset(g.paths) <==> p in g.paths;
    assert p in multiset(PresentPaths(g, data)) <==> p in PresentPaths(g, data);
  }

  lemma PlacedIs(data: Json, paths: seq<Path>, faults: seq<Fault>, x: Placed)
    ensures x in PlacedIn(data, paths, faults) <==>
            x.fault in faults && x.keys == Labels(data, x.fault.loc) && Inside(x.keys, paths)
  {
    var all := Map(faults, (f: Fault) => Placed(Labels(data, f.loc), f));
    FilterCount(all, (y: Placed) => Inside(y.keys, paths), x);
    assert x in multiset(all) <==> x in all;
    assert x in multiset(PlacedIn(data, paths, faults)) <==> x in PlacedIn(data, paths, faults);
    if x.fault in faults && x.keys == Labels(data, x.fault.loc) {
      var i :| 0 <= i < |faults| && faults[i] == x.fault;
      assert all[i] == x;
    }
  }

  /** The fault lies inside the group. */
  ghost predicate Blames(f: Fault, g: Group, data: Json) {
    exists p :: p in g.paths && Present(data, p) && p <= Labels(data, f.loc)
  }

  lemma BlamesIs(f: Fault, g: Group, data: Json)
    ensures Blames(f, g, data) <==> Inside(Labels(data, f.loc), PresentPaths(g, data))
  {
    var keys, present := Labels(data, f.loc), PresentPaths(g, data);
    if p :| p in g.paths && Present(data, p) && p <= keys {
      PresentPath(g, data, p);
      var i :| 0 <= i < |present| && present[i] == p;
    }
    if i :| 0 <= i < |present| && present[i] <= keys {
      PresentPath(g, data, present[i]);
    }
  }

  /** `d` speaks of a fault inside the group, one of the deepest, under its keys. */
  ghost predicate Speaks(d: Drop, f: Fault, g: Group, data: Json, faults: seq<Fault>, lower: string -> string) {
    && f in faults && Blames(f, g, data)
    && d == Drop(g.code, Cut(Dotted(Labels(data, f.loc)), 256), ErrorType(lower, f.kind))
    && forall e :: e in faults && Blames(e, g, data) ==> |Labels(data, e.loc)| <= |Labels(data, f.loc)|
  }

  /** `d` stands for the group's first present path, with the first error's kind. */
  ghost predicate Stands(d: Drop, i: nat, g: Group, data: Json, faults: seq<Fault>, lower: string -> string) {
    && i < |g.paths| && Present(data, g.paths[i]) && (forall j :: 0 <= j < i ==> !Present(data, g.paths[j]))
    && var kind := if faults == [] then "value_error" else faults[0].kind;
      d == Drop(g.code, Cut(Dotted(g.paths[i]), 256), ErrorType(lower, kind))
  }

  /** A drop speaks of a deepest fault inside its group, and stands for the group's first
      present path when the refusal names no field inside it. */
  lemma DropSpeaks(g: Group, data: Json, faults: seq<Fault>, lower: string -> string)
    requires AnyPresent(data, g)
    ensures var d := DropOf(g, data, faults, lower);
      if exists f :: f in faults && Blames(f, g, data)
      then exists f :: Speaks(d, f, g, data, faults, lower)
      else exists i: nat :: Stands(d, i, g, data, faults, lower)
  {
    SomePath(g, data);
    var present := PresentPaths(g, data);
    var located := PlacedIn(data, present, faults);
    forall f | f in faults && Blames(f, g, data) ensures Placed(Labels(data, f.loc), f) in located {
      BlamesIs(f, g, data);
      PlacedIs(data, present, faults, Placed(Labels(data, f.loc), f));
    }
    if located != [] {
      var x := Deepest(located);
      PlacedIs(data, present, faults, x);
      BlamesIs(x.fault, g, data);
      assert Speaks(DropOf(g, data, faults, lower), x.fault, g, data, faults, lower);
    } else {
      var i := FilterFirst(g.paths, (p: Path) => Present(data, p));
      assert Stands(DropOf(g, data, faults, lower), i, g, data, faults, lower);
    }
  }

  // ---- The drop on the wire ----

  predicate LocationChar(c: char) { KeyChar(c) || c == '*' || c == '.' }

  predicate LocationText(s: string) { forall i :: 0 <= i < |s| ==> LocationChar(s[i]) }

  /** The patterns the wire model demands of a drop. */
  predicate OnWire(d: Drop) {
    && 1 <= |d.location| <= 256 && LocationText(d.location)
    && 1 <= |d.errorType| <= 64 && forall i :: 0 <= i < |d.errorType| ==> TypeChar(d.errorType[i])
  }

  /** Declared paths name keys that are safe to show. */
  predicate SafePaths(g: Group) {
    forall p :: p in g.paths ==> p != [] && forall k :: k in p ==> LocationKey(k)
  }

  lemma {:induction false} DecimalText(n: nat)
    ensures Decimal(n) != "" && LocationText(Decimal(n))
  {
    if n >= 10 { DecimalText(n / 10); }
  }

  lemma LabelText(part: Part)
    ensures Label(part) != "" && LocationText(Label(part))
  {
    if part.Index? { DecimalText(if part.i < 0 then -part.i else part.i); }
  }

  lemma {:induction false} DottedText(keys: seq<string>)
    requires forall k :: k in keys ==> k != "" && LocationText(k)
    ensures LocationText(Dotted(keys)) && (keys != [] ==> Dotted(keys) != "")
  {
    if keys != [] {
      assert keys[0] in keys && forall k :: k in keys[1..] ==> k in keys;
      DottedText(keys[1..]);
    }
  }

  lemma LabelsText(data: Json, loc: seq<Part>)
    ensures forall k :: k in Labels(data, loc) ==> k != "" && LocationText(k)
  {
    forall k | k in Labels(data, loc) ensures k != "" && LocationText(k) {
      var i :| 0 <= i < |Leading(data, loc)| && Labels(data, loc)[i] == k;
      LabelText(Leading(data, loc)[i]);
    }
  }

  lemma ErrorTypeText(lower: string -> string, name: string)
    ensures 1 <= |ErrorType(lower, name)| <= 64
    ensures forall i :: 0 <= i < |ErrorType(lower, name)| ==> TypeChar(ErrorType(lower, name)[i])
  {
    var s := Map(lower(name), (c: char) => if TypeChar(c) then c else '_');
    assert forall i :: 0 <= i < |Cut(s, 64)| ==> Cut(s, 64)[i] == s[i];
  }

  /** The error type is the error's lower-cased name, cut to 64 characters, with `_` for each character
      that is not a letter, a digit or `_`; an empty name is a value error. */
  lemma ErrorTypeIs(lower: string -> string, name: string)
    ensures var n, r := lower(name), ErrorType(lower, name);
      if n == "" then r == "value_error" else
      && |r| == (if |n| < 64 then |n| else 64)
      && forall i :: 0 <= i < |r| ==>
        r[i] == if 'a' <= n[i] <= 'z' || '0' <= n[i] <= '9' || n[i] == '_' then n[i] else '_'
  {
    var s := Map(lower(name), (c: char) => if TypeChar(c) then c else '_');
    assert forall i :: 0 <= i < |Cut(s, 64)| ==> Cut(s, 64)[i] == s[i];
  }

  /** Keys are joined by dots. */
  lemma {:induction false} DottedNext(keys: seq<string>, key: string)
    ensures Dotted([]) == "" && Dotted([key]) == key
    ensures keys != [] ==> Dotted(keys + [key]) == Dotted(keys) + "." + key
  {
    if keys != [] {
      DottedNext(keys[1..], key);
      assert (keys + [key])[1..] == keys[1..] + [key];
      if |keys| == 1 { assert keys[1..] + [key] == [key]; }
    }
  }

  function ValueOf(digits: string): int
    decreases |digits|
  {
    if digits == "" then 0 else ValueOf(digits[..|digits| - 1]) * 10 + (digits[|digits| - 1] as int - 48)
  }

  lemma DecimalNext(n: nat)
    ensures Decimal(n) != "" && var d, k := Decimal(n), |Decimal(n)| - 1;
      d[k] as int == n % 10 + 48 && d[..k] == if n < 10 then "" else Decimal(n / 10)
  {
  }

  /** A list position is shown in decimal, a key as it is or as `*`. */
  lemma {:induction false} DecimalIs(n: nat)
    ensures ValueOf(Decimal(n)) == n
  {
    DecimalNext(n);
    if n >= 10 { DecimalIs(n / 10); }
  }

  /** A letter, a digit, `_` or `-`, by code point. */
  predicate Plain(c: char) {
    65 <= c as int <= 90 || 97 <= c as int <= 122 || 48 <= c as int <= 57 || c as int in {95, 45}
  }

  lemma LabelIs(node: Json, part: Part)
    requires Child(node, part).At?
    ensures part.Name? ==> node.Obj? && part.key in node.fields && Child(node, part) == At(node.fields[part.key])
    ensures part.Name? && 1 <= |part.key| <= 64 && (forall i :: 0 <= i < |part.key| ==> Plain(part.key[i])) ==>
      Label(part) == part.key
    ensures part.Name? && !(1 <= |part.key| <= 64 && forall i :: 0 <= i < |part.key| ==> Plain(part.key[i])) ==>
      Label(part) == "*"
    ensures part.Index? ==> node.Arr? && 0 <= part.i < |node.items| && Child(node, part) == At(node.items[part.i])
    ensures part.Index? ==> Label(part) == Decimal(part.i)
  {
  }

  lemma KeysOnWire(d: Drop, keys: seq<string>, lower: string -> string, kind: string)
    requires keys != [] && forall k :: k in keys ==> k != "" && LocationText(k)
    requires d.location == Cut(Dotted(keys), 256) && d.errorType == ErrorType(lower, kind)
    ensures OnWire(d)
  {
    DottedText(keys);
    ErrorTypeText(lower, kind);
  }

  lemma SpeaksOnWire(d: Drop, f: Fault, g: Group, data: Json, faults: seq<Fault>, lower: string -> string)
    requires Speaks(d, f, g, data, faults, lower) && SafePaths(g)
    ensures OnWire(d)
  {
    var p :| p in g.paths && Present(data, p) && p <= Labels(data, f.loc);
    LabelsText(data, f.loc);
    KeysOnWire(d, Labels(data, f.loc), lower, f.kind);
  }

  lemma StandsOnWire(d: Drop, i: nat, g: Group, data: Json, faults: seq<Fault>, lower: string -> string)
    requires Stands(d, i, g, data, faults, lower) && SafePaths(g)
    ensures OnWire(d)
  {
    assert g.paths[i] in g.paths;
    KeysOnWire(d, g.paths[i], lower, FirstKind(faults));
  }

  lemma SpokenOnWire(d: Drop, g: Group, data: Json, faults: seq<Fault>, lower: string -> string)
    requires SafePaths(g)
    requires (exists f :: Speaks(d, f, g, data, faults, lower)) || exists i: nat :: Stands(d, i, g, data, faults, lower)
    ensures OnWire(d)
  {
    if f :| Speaks(d, f, g, data, faults, lower) {
      SpeaksOnWire(d, f, g, data, faults, lower);
    } else {
      var i: nat :| Stands(d, i, g, data, faults, lower);
      StandsOnWire(d, i, g, data, faults, lower);
    }
  }

  /** Reporting a drop never fails, whatever the document, the refusal and its error names: keys of
      the document that are not safe to show, and everything else, stay out of it. */
  lemma DropOnWire(g: Group, data: Json, faults: seq<Fault>, lower: string -> string)
    requires AnyPresent(data, g) && SafePaths(g)
    ensures OnWire(DropOf(g, data, faults, lower))
  {
    DropSpeaks(g, data, faults, lower);
    SpokenOnWire(DropOf(g, data, faults, lower), g, data, faults, lower);
  }
}
