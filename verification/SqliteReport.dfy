/** SQLite's report of a violated unique key: the text it writes and how it is read back. */
module SqliteReport {
  import opened Basics

  function Split(s: string): (parts: seq<string>)
    ensures parts != []
  {
    if s == "" then [""]
    else if s[0] == ',' then [""] + Split(s[1..])
    else var rest := Split(s[1..]); [[s[0]] + rest[0]] + rest[1..]
  }

  function StripLeft(s: string): string { if s != "" && Whitespace(s[0]) then StripLeft(s[1..]) else s }

  function StripRight(s: string): string { if s != "" && Whitespace(s[|s| - 1]) then StripRight(s[..|s| - 1]) else s }

  function Strip(s: string): string { StripRight(StripLeft(s)) }

  /** The two sides of the first dot. */
  function Before(s: string): string { if s == "" || s[0] == '.' then "" else [s[0]] + Before(s[1..]) }

  function After(s: string): string { if s == "" then "" else if s[0] == '.' then s[1..] else After(s[1..]) }

  function Parts(s: string): seq<string> {
    var parts := Split(s);
    seq(|parts|, i requires 0 <= i < |parts| => Strip(parts[i]))
  }

  datatype Columns = Columns(table: string, names: seq<string>)

  /** The table and columns a report names, when all its parts name one table. */
  function Parse(s: string): Option<Columns> {
    var parts := Parts(s);
    if parts == [] || exists i :: 0 <= i < |parts| && Before(parts[i]) != Before(parts[0]) then None
    else Some(Columns(Before(parts[0]), seq(|parts|, i requires 0 <= i < |parts| => After(parts[i]))))
  }

  /** The report SQLite writes for a key over some columns. */
  function Render(table: string, names: seq<string>): string
    requires names != []
  {
    table + "." + names[0] + if |names| == 1 then "" else ", " + Render(table, names[1..])
  }

  // ---- Reading back ----

  /** Identifiers the report can carry: no dot or comma in the table, no comma in a column, no
      white space at the outer ends. */
  predicate PlainTable(t: string) { '.' !in t && ',' !in t && (t == "" || !Whitespace(t[0])) }

  predicate PlainColumn(c: string) { ',' !in c && (c == "" || !Whitespace(c[|c| - 1])) }

  lemma {:induction false} SplitAt(p: string, rest: string)
    requires ',' !in p
    ensures Split(p + "," + rest) == [p] + Split(rest)
  {
    var s := p + "," + rest;
    if p == "" {
      assert s[0] == ',' && s[1..] == rest;
    } else {
      assert s[0] == p[0] && s[1..] == p[1..] + "," + rest;
      SplitAt(p[1..], rest);
      assert [p[0]] + p[1..] == p;
    }
  }

  lemma {:induction false} SplitNone(p: string)
    requires ',' !in p
    ensures Split(p) == [p]
  {
    if p != "" {
      SplitNone(p[1..]);
      assert [p[0]] + p[1..] == p;
    }
  }

  lemma {:induction false} BeforeAfter(t: string, c: string)
    requires '.' !in t
    ensures Before(t + "." + c) == t && After(t + "." + c) == c
  {
    var s := t + "." + c;
    if t == "" {
      assert s[0] == '.' && s[1..] == c;
    } else {
      assert s[0] == t[0] && s[1..] == t[1..] + "." + c;
      BeforeAfter(t[1..], c);
      assert [t[0]] + t[1..] == t;
    }
  }

  lemma StripPart(lead: string, t: string, c: string)
    requires (lead == "" || lead == " ") && PlainTable(t) && PlainColumn(c)
    ensures Strip(lead + t + "." + c) == t + "." + c
  {
    var x := t + "." + c;
    assert lead + t + "." + c == lead + x;
    assert !Whitespace(x[0]) && x[|x| - 1] == if c == "" then '.' else c[|c| - 1];
    if lead == " " {
      assert (lead + x)[0] == ' ' && Whitespace(' ') && (lead + x)[1..] == x;
    } else {
      assert lead + x == x;
    }
    assert StripLeft(x) == x && StripRight(x) == x;
    assert StripLeft(lead + x) == x;
  }

  ghost predicate PlainAll(names: seq<string>) { forall c :: c in names ==> PlainColumn(c) }

  lemma PartsAt(p: string, rest: string)
    requires ',' !in p
    ensures Parts(p + "," + rest) == [Strip(p)] + Parts(rest)
  {
    SplitAt(p, rest);
  }

  lemma PartsOne(p: string)
    requires ',' !in p
    ensures Parts(p) == [Strip(p)]
  {
    SplitNone(p);
  }

  function Qualified(t: string, names: seq<string>): seq<string> {
    seq(|names|, i requires 0 <= i < |names| => t + "." + names[i])
  }

  lemma QualifiedFirst(t: string, names: seq<string>)
    requires names != []
    ensures Qualified(t, names) == [t + "." + names[0]] + Qualified(t, names[1..])
  {
  }

  lemma RenderSplit(lead: string, t: string, names: seq<string>)
    requires |names| > 1
    ensures lead + Render(t, names) == lead + t + "." + names[0] + "," + (" " + Render(t, names[1..]))
  {
    var rest := Render(t, names[1..]);
    assert ", " + rest == "," + (" " + rest);
  }

  /** The parts of a report are the qualified columns. */
  lemma {:induction false} RenderParts(lead: string, t: string, names: seq<string>)
    requires (lead == "" || lead == " ") && PlainTable(t) && names != [] && PlainAll(names)
    ensures Parts(lead + Render(t, names)) == Qualified(t, names)
    decreases |names|
  {
    var first := lead + t + "." + names[0];
    assert names[0] in names;
    StripPart(lead, t, names[0]);
    QualifiedFirst(t, names);
    if |names| == 1 {
      assert lead + Render(t, names) == first;
      PartsOne(first);
      assert Qualified(t, names[1..]) == [];
    } else {
      var rest := " " + Render(t, names[1..]);
      RenderSplit(lead, t, names);
      PartsAt(first, rest);
      RenderParts(" ", t, names[1..]);
    }
  }

  /** A report over plain identifiers reads back as the table and columns it was written for. */
  lemma ReadsBack(t: string, names: seq<string>)
    requires PlainTable(t) && names != [] && PlainAll(names)
    ensures Parse(Render(t, names)) == Some(Columns(t, names))
  {
    assert "" + Render(t, names) == Render(t, names);
    RenderParts("", t, names);
    var parts := Parts(Render(t, names));
    forall i | 0 <= i < |names|
      ensures Before(parts[i]) == t && After(parts[i]) == names[i]
    {
      BeforeAfter(t, names[i]);
    }
    assert seq(|parts|, i requires 0 <= i < |parts| => After(parts[i])) == names;
  }

  // ---- Only plain identifiers read back ----

  function Commas(s: string): nat { if s == "" then 0 else Commas(s[1..]) + if s[0] == ',' then 1 else 0 }

  lemma {:induction false} SplitLength(s: string)
    ensures |Split(s)| == Commas(s) + 1
  {
    if s != "" { SplitLength(s[1..]); }
  }

  lemma {:induction false} CommasConcat(a: string, b: string)
    ensures Commas(a + b) == Commas(a) + Commas(b)
  {
    if a == "" {
      assert a + b == b;
    } else {
      assert (a + b)[0] == a[0] && (a + b)[1..] == a[1..] + b;
      CommasConcat(a[1..], b);
    }
  }

  lemma {:induction false} CommasNone(s: string)
    requires Commas(s) == 0
    ensures ',' !in s
  {
    if s != "" { CommasNone(s[1..]); }
  }

  lemma RenderCommasFirst(t: string, names: seq<string>)
    requires names != []
    ensures var rest := if |names| == 1 then 0 else 1 + Commas(Render(t, names[1..]));
      Commas(Render(t, names)) == Commas(t) + Commas(names[0]) + rest
  {
    CommasConcat(t, ".");
    CommasConcat(t + ".", names[0]);
    if |names| == 1 {
      assert Render(t, names) == t + "." + names[0];
    } else {
      CommasConcat(t + "." + names[0], ", " + Render(t, names[1..]));
      CommasConcat(", ", Render(t, names[1..]));
      assert Commas(", ") == 1 by { assert ", "[1..] == " "; }
    }
  }

  /** A comma in an identifier makes the report longer than the key. */
  lemma {:induction false} RenderCommas(t: string, names: seq<string>)
    requires names != []
    ensures Commas(Render(t, names)) >= |names| - 1 + Commas(t)
    ensures Commas(Render(t, names)) == |names| - 1 ==> Commas(t) == 0 && forall c :: c in names ==> Commas(c) == 0
  {
    RenderCommasFirst(t, names);
    if |names| > 1 {
      RenderCommas(t, names[1..]);
      assert forall c :: c in names <==> c == names[0] || c in names[1..];
    }
  }

  lemma {:induction false} BeforeIs(s: string)
    ensures '.' !in Before(s) && Before(s) <= s
  {
    if s != "" && s[0] != '.' {
      BeforeIs(s[1..]);
      assert s == [s[0]] + s[1..];
    }
  }

  lemma {:induction false} AfterIs(s: string)
    ensures After(s) != "" ==> s != "" && After(s)[|After(s)| - 1] == s[|s| - 1]
  {
    if s != "" && s[0] != '.' { AfterIs(s[1..]); }
  }

  lemma {:induction false} StripRightIs(s: string)
    ensures StripRight(s) <= s && (StripRight(s) == "" || !Whitespace(StripRight(s)[|StripRight(s)| - 1]))
  {
    if s != "" && Whitespace(s[|s| - 1]) { StripRightIs(s[..|s| - 1]); }
  }

  lemma {:induction false} StripLeftIs(s: string)
    ensures StripLeft(s) == "" || !Whitespace(StripLeft(s)[0])
  {
    if s != "" && Whitespace(s[0]) { StripLeftIs(s[1..]); }
  }

  /** Whatever was stripped, what comes before the first dot is a plain table but for commas, and
      what comes after it does not end in white space. */
  lemma StrippedEnds(s: string)
    ensures var t := Before(Strip(s)); '.' !in t && (t == "" || !Whitespace(t[0]))
    ensures var c := After(Strip(s)); c == "" || !Whitespace(c[|c| - 1])
  {
    StripLeftIs(s);
    StripRightIs(StripLeft(s));
    BeforeIs(Strip(s));
    AfterIs(Strip(s));
  }

  /** Exactly the plain identifiers are read back as they were written. */
  lemma ReadsBackIff(t: string, names: seq<string>)
    requires names != []
    ensures Parse(Render(t, names)) == Some(Columns(t, names)) <==> PlainTable(t) && PlainAll(names)
  {
    if PlainTable(t) && PlainAll(names) { ReadsBack(t, names); }
    if Parse(Render(t, names)) == Some(Columns(t, names)) { ReadBackIsPlain(t, names); }
  }

  lemma ReadBackIsPlain(t: string, names: seq<string>)
    requires names != [] && Parse(Render(t, names)) == Some(Columns(t, names))
    ensures PlainTable(t) && PlainAll(names)
  {
    var raw := Split(Render(t, names));
    SplitLength(Render(t, names));
    RenderCommas(t, names);
    CommasNone(t);
    StrippedEnds(raw[0]);
    forall c | c in names ensures PlainColumn(c) {
      CommasNone(c);
      var i :| 0 <= i < |names| && names[i] == c;
      StrippedEnds(raw[i]);
    }
  }

  // ---- What a report is read as ----

  function Join(parts: seq<string>): string
    requires parts != []
  {
    parts[0] + if |parts| == 1 then "" else "," + Join(parts[1..])
  }

  lemma JoinFirst(c: char, parts: seq<string>)
    requires parts != []
    ensures Join([[c] + parts[0]] + parts[1..]) == [c] + Join(parts)
  {
    assert ([[c] + parts[0]] + parts[1..])[1..] == parts[1..];
  }

  lemma {:induction false} SplitJoins(s: string)
    ensures Join(Split(s)) == s
  {
    if s != "" {
      SplitJoins(s[1..]);
      assert s == [s[0]] + s[1..];
      if s[0] == ',' {
        assert Split(s)[1..] == Split(s[1..]);
      } else {
        JoinFirst(s[0], Split(s[1..]));
      }
    }
  }

  lemma {:induction false} SplitCuts(s: string, p: string)
    requires p in Split(s)
    ensures ',' !in p
  {
    if s != "" {
      var rest := Split(s[1..]);
      if p in rest {
        SplitCuts(s[1..], p);
      } else if s[0] != ',' {
        SplitCuts(s[1..], rest[0]);
      }
    }
  }

  lemma {:induction false} JoinSplits(parts: seq<string>)
    requires parts != [] && forall p :: p in parts ==> ',' !in p
    ensures Split(Join(parts)) == parts
  {
    assert parts[0] in parts;
    if |parts| == 1 {
      SplitNone(parts[0]);
      assert parts[0] + "" == parts[0];
    } else {
      JoinSplits(parts[1..]);
      SplitAt(parts[0], Join(parts[1..]));
      assert parts[0] + ("," + Join(parts[1..])) == parts[0] + "," + Join(parts[1..]);
    }
  }

  /** `x` is `part` without the white space at its ends. */
  ghost predicate Trimmed(part: string, x: string) {
    (x == "" || (!Whitespace(x[0]) && !Whitespace(x[|x| - 1]))) &&
    exists a, b :: part == a + x + b && White(a) && White(b)
  }

  predicate White(s: string) { forall i :: 0 <= i < |s| ==> Whitespace(s[i]) }

  lemma {:induction false} StripLeftWhite(a: string, x: string)
    requires White(a) && (x == "" || !Whitespace(x[0]))
    ensures StripLeft(a + x) == x
  {
    if a == "" {
      assert a + x == x;
    } else {
      assert (a + x)[1..] == a[1..] + x;
      StripLeftWhite(a[1..], x);
    }
  }

  lemma {:induction false} StripRightWhite(x: string, b: string)
    requires White(b) && (x == "" || !Whitespace(x[|x| - 1]))
    ensures StripRight(x + b) == x
    decreases |b|
  {
    if b == "" {
      assert x + b == x;
    } else {
      assert (x + b)[..|x + b| - 1] == x + b[..|b| - 1];
      StripRightWhite(x, b[..|b| - 1]);
    }
  }

  lemma {:induction false} StripLeftRest(s: string) returns (a: string)
    ensures s == a + StripLeft(s) && White(a)
  {
    a := "";
    if s != "" && Whitespace(s[0]) {
      a := StripLeftRest(s[1..]);
      a := [s[0]] + a;
    }
  }

  lemma {:induction false} StripRightRest(s: string) returns (b: string)
    ensures s == StripRight(s) + b && White(b)
    decreases |s|
  {
    b := "";
    if s != "" && Whitespace(s[|s| - 1]) {
      b := StripRightRest(s[..|s| - 1]);
      b := b + [s[|s| - 1]];
    }
  }

  lemma TrimmedStrips(a: string, x: string, b: string)
    requires White(a) && White(b) && (x == "" || (!Whitespace(x[0]) && !Whitespace(x[|x| - 1])))
    ensures Strip(a + x + b) == x
  {
    if x == "" {
      assert a + x + b == (a + b) + "";
      StripLeftWhite(a + b, "");
    } else {
      assert a + x + b == a + (x + b);
      StripLeftWhite(a, x + b);
      StripRightWhite(x, b);
    }
  }

  lemma TrimmedBy(part: string, a: string, x: string, b: string)
    requires part == a + x + b && White(a) && White(b)
    requires x == "" || (!Whitespace(x[0]) && !Whitespace(x[|x| - 1]))
    ensures Trimmed(part, x)
  {
  }

  lemma StripTrims(part: string)
    ensures Trimmed(part, Strip(part))
  {
    var left, x := StripLeft(part), Strip(part);
    var a := StripLeftRest(part);
    var b := StripRightRest(left);
    StripLeftIs(part);
    StripRightIs(left);
    assert x != "" ==> left[0] == x[0];
    assert part == a + x + b;
    TrimmedBy(part, a, x, b);
  }

  lemma TrimmedIsStrip(part: string, x: string)
    ensures Trimmed(part, x) <==> x == Strip(part)
  {
    if Trimmed(part, x) {
      var a, b :| part == a + x + b && White(a) && White(b);
      TrimmedStrips(a, x, b);
    }
    if x == Strip(part) { StripTrims(part); }
  }

  /** `x` is the table, a dot and the column; a part without a dot is a table with no column. */
  predicate Qualifies(x: string, t: string, c: string) { '.' !in t && (x == t + "." + c || (x == t && c == "")) }

  lemma {:induction false} QualifiesIs(x: string, t: string, c: string)
    ensures Qualifies(x, t, c) <==> Before(x) == t && After(x) == c
  {
    if x == "" || x[0] == '.' {
      if t != "" { assert t[0] in t; }
      if x != "" { assert x == "." + x[1..]; assert t == "" ==> t + "." + c == "." + c; }
    } else if t == "" {
      assert t + "." + c == "." + c;
    } else {
      QualifiesIs(x[1..], t[1..], c);
      assert t == [t[0]] + t[1..] && x == [x[0]] + x[1..];
      assert (t + "." + c)[1..] == t[1..] + "." + c;
      assert '.' !in t <==> t[0] != '.' && '.' !in t[1..];
    }
  }

  /** Without its outer white space the part is the table, a dot and the column. */
  ghost predicate PartReads(part: string, t: string, c: string) { exists x :: Trimmed(part, x) && Qualifies(x, t, c) }

  lemma PartReadsIs(part: string, t: string, c: string)
    ensures PartReads(part, t, c) <==> Before(Strip(part)) == t && After(Strip(part)) == c
  {
    StripTrims(part);
    QualifiesIs(Strip(part), t, c);
    forall x | Trimmed(part, x) ensures x == Strip(part) { TrimmedIsStrip(part, x); }
  }

  /** How a report is cut up: at every comma, each part naming the table and one column. */
  ghost predicate ReadAs(s: string, t: string, names: seq<string>, parts: seq<string>) {
    && parts != [] && |parts| == |names| && Join(parts) == s && (forall p :: p in parts ==> ',' !in p)
    && forall i :: 0 <= i < |parts| ==> PartReads(parts[i], t, names[i])
  }

  lemma ParsedFields(s: string, t: string, names: seq<string>)
    ensures Parse(s) == Some(Columns(t, names)) <==>
      var parts := Parts(s);
      |parts| == |names| && forall i :: 0 <= i < |parts| ==> Before(parts[i]) == t && After(parts[i]) == names[i]
  {
    var parts := Parts(s);
    if |parts| == |names| && forall i :: 0 <= i < |parts| ==> Before(parts[i]) == t && After(parts[i]) == names[i] {
      assert seq(|parts|, i requires 0 <= i < |parts| => After(parts[i])) == names;
    }
  }

  lemma ParsedParts(s: string, t: string, names: seq<string>)
    ensures Parse(s) == Some(Columns(t, names)) <==>
      var parts := Split(s);
      |parts| == |names| && forall i :: 0 <= i < |parts| ==> PartReads(parts[i], t, names[i])
  {
    ParsedFields(s, t, names);
    var parts := Split(s);
    if |parts| == |names| {
      forall i | 0 <= i < |parts|
        ensures PartReads(parts[i], t, names[i]) <==> Before(Parts(s)[i]) == t && After(Parts(s)[i]) == names[i]
      {
        PartReadsIs(parts[i], t, names[i]);
      }
    }
  }

  /** A report is read as a table and columns exactly when all its parts name that table. */
  lemma ParseIs(s: string, t: string, names: seq<string>)
    ensures Parse(s) == Some(Columns(t, names)) <==> exists parts :: ReadAs(s, t, names, parts)
  {
    ParsedParts(s, t, names);
    SplitJoins(s);
    forall p | p in Split(s) ensures ',' !in p { SplitCuts(s, p); }
    if Parse(s) == Some(Columns(t, names)) { assert ReadAs(s, t, names, Split(s)); }
    if other :| ReadAs(s, t, names, other) { JoinSplits(other); }
  }
}
