/** How an admission path decides a constraint violation: PostgreSQL names the constraint, SQLite
    lists its columns. */
module ConstraintDecision {
  import opened Ordering
  import opened SqliteReport
  import opened Basics

  datatype Conflict = Replan | Replay | Defect

  predicate SafeChar(c: char) { 'A' <= c <= 'Z' || 'a' <= c <= 'z' || '0' <= c <= '9' || c == '_' }

  predicate Safe(s: string) { 1 <= |s| <= 128 && forall i :: 0 <= i < |s| ==> SafeChar(s[i]) }

  /** A constraint name that is safe to show as evidence. */
  type ConstraintName = s: string | Safe(s) witness "_"

  // The plan assumptions, by the name PostgreSQL reports. Names it forms itself are those of the
  // table and then of its columns.
  const PROMISED_NODE_PORT: ConstraintName := "uq_promised_node_port"
  const ACTIVE_NODE_PORT: ConstraintName := "uq_active_node_port"
  const RECIPE_LIBRARY_SYNC_RUNS_ACTIVE_SLOT_KEY: ConstraintName := "recipe_library_sync_runs" + "_active_slot_key"
  const FLEET_PROFILES_NUMBER: ConstraintName := "uq_fleet_profiles_number"
  const AGENT_CERTIFICATE_ROTATIONS_PKEY: ConstraintName := "agent_certificate_rotations" + "_pkey"

  // The request identities.
  const JOBS_REQUEST_ID_KEY: ConstraintName := "jobs_request_id_key"
  const ARTIFACT_JOBS_REQUEST_ID_KEY: ConstraintName := "artifact_jobs" + "_request_id_key"
  const MODEL_CACHE_OPERATIONS_REQUEST_KEY_KEY: ConstraintName := "model_cache_operations" + "_request_key_key"
  const RECIPE_LIBRARY_SYNC_RUNS_REQUEST_KEY_KEY: ConstraintName := "recipe_library_sync_runs" + "_request_key_key"
  const LOCAL_CERTIFICATE_ISSUANCE_PKEY: ConstraintName := "local_certificate_issuance" + "_pkey"
  const FLEET_PROFILE_APPLICATIONS_REQUEST_KEY_KEY: ConstraintName := "fleet_profile_applications" + "_request_key_key"
  const DISTRIBUTION_PLAN_NODE: ConstraintName := "uq_distribution_plan_node"
  const ARTIFACT_DISTRIBUTION_ASSIGNMENTS_PKEY: ConstraintName := "artifact_distribution_assignments" + "_pkey"
  const ROUTE_PUBLICATION_OWNER_PKEY: ConstraintName := "route_publication_owner" + "_pkey"
  const RECIPE_SOURCE_BUNDLES_PKEY: ConstraintName := "recipe_source_bundles" + "_pkey"
  const FLEET_PROFILES_NAME_KEY: ConstraintName := "fleet_profiles_name_key"
  const CATALOG_DOCUMENT_IDENTITY: ConstraintName := "uq_catalog_document_identity"

  const REPLANNED: seq<ConstraintName> := [
    PROMISED_NODE_PORT, ACTIVE_NODE_PORT,
    RECIPE_LIBRARY_SYNC_RUNS_ACTIVE_SLOT_KEY, FLEET_PROFILES_NUMBER,
    AGENT_CERTIFICATE_ROTATIONS_PKEY
  ]

  const REPLAYED: seq<ConstraintName> := [
    JOBS_REQUEST_ID_KEY, ARTIFACT_JOBS_REQUEST_ID_KEY,
    MODEL_CACHE_OPERATIONS_REQUEST_KEY_KEY, RECIPE_LIBRARY_SYNC_RUNS_REQUEST_KEY_KEY,
    LOCAL_CERTIFICATE_ISSUANCE_PKEY, FLEET_PROFILE_APPLICATIONS_REQUEST_KEY_KEY,
    DISTRIBUTION_PLAN_NODE, ARTIFACT_DISTRIBUTION_ASSIGNMENTS_PKEY,
    ROUTE_PUBLICATION_OWNER_PKEY, RECIPE_SOURCE_BUNDLES_PKEY,
    FLEET_PROFILES_NAME_KEY, CATALOG_DOCUMENT_IDENTITY
  ]

  /** The constraints whose violation an admission path decides. */
  const CONSTRAINTS: map<string, Conflict> := Decisions(REPLANNED, REPLAYED)

  function Decisions(replanned: seq<string>, replayed: seq<string>): map<string, Conflict> {
    map n | n in replanned + replayed :: if n in replanned then Replan else Replay
  }

  const UNKNOWN: string := "unknown-constraint"

  datatype Kind = PrimaryKey | UniqueKey | UniqueIndex | PlainIndex | OtherConstraint

  datatype Key = Key(kind: Kind, name: Option<string>, columns: seq<string>)

  /** The keys and indexes of each table. */
  type Schema = map<string, seq<Key>>

  function Joined(names: seq<string>): string {
    if names == [] then "" else names[0] + "_" + Joined(names[1..])
  }

  function DefaultName(table: string, key: Key): string {
    if key.name.Some? then key.name.value
    else if key.kind == PrimaryKey then table + "_pkey"
    else table + "_" + Joined(key.columns) + "key"
  }

  predicate Unique(key: Key) { key.kind == PrimaryKey || key.kind == UniqueKey || key.kind == UniqueIndex }

  function Lookup(rules: map<string, Conflict>, name: string): Conflict {
    if name in rules then rules[name] else Defect
  }

  /** The names of a table's unique keys over exactly these columns. */
  function Matching(table: string, keys: seq<Key>, columns: seq<string>): seq<string> {
    Map(Over(keys, columns), (k: Key) => DefaultName(table, k))
  }

  function Over(keys: seq<Key>, columns: seq<string>): seq<Key> {
    Filter(keys, (k: Key) => Unique(k) && k.columns == columns)
  }

  predicate Alike(rules: map<string, Conflict>, names: seq<string>) {
    forall x, y :: x in names && y in names ==> Lookup(rules, x) == Lookup(rules, y)
  }

  /** PostgreSQL's name for the unique key a report describes: the first of the sorted names, if
      all of them are decided alike. */
  function SqliteConstraint(rules: map<string, Conflict>, schema: Schema, reported: string): Option<string> {
    var read := Parse(reported);
    if read.None? || read.value.table !in schema then None else
    var names := Sorted(Matching(read.value.table, schema[read.value.table], read.value.names), StrLe);
    if names == [] || !Alike(rules, names) then None else Some(names[0])
  }

  /** The violation an admission path sees: SQLSTATE or SQLite's error name, PostgreSQL's
      constraint name if it gives one, and the text SQLite writes after its unique-key and check
      prefixes, when one matches. */
  datatype Violation = Violation(
    sqlstate: Option<string>,
    name: Option<string>,
    unique: Option<string>,
    check: Option<string>)

  function Named(rules: map<string, Conflict>, schema: Schema, v: Violation): string {
    var name := if v.name.None? && v.unique.Some? then SqliteConstraint(rules, schema, v.unique.value) else v.name;
    var shown := if name.None? then v.check else name;
    if shown.Some? && Safe(shown.value) then shown.value else UNKNOWN
  }

  predicate UniqueViolation(sqlstate: Option<string>) {
    || sqlstate == Some("23505") || sqlstate == Some("SQLITE_CONSTRAINT_UNIQUE")
    || sqlstate == Some("SQLITE_CONSTRAINT_PRIMARYKEY")
  }

  function Decided(rules: map<string, Conflict>, schema: Schema, v: Violation): Conflict {
    if UniqueViolation(v.sqlstate) || v.unique.Some? then Lookup(rules, Named(rules, schema, v)) else Defect
  }

  /** How each dialect reports one violated unique key. */
  function OnPostgres(table: string, key: Key): Violation {
    Violation(Some("23505"), Some(DefaultName(table, key)), None, None)
  }

  function OnSqlite(reported: string): Violation {
    Violation(Some("SQLITE_CONSTRAINT_UNIQUE"), None, Some(reported), None)
  }

  /** Only a unique-key violation can be a REPLAN or a REPLAY, whatever the name. */
  lemma OnlyUniqueKeys(rules: map<string, Conflict>, schema: Schema, v: Violation)
    requires v.unique.None?
    requires v.sqlstate !in {Some("23505"), Some("SQLITE_CONSTRAINT_UNIQUE"), Some("SQLITE_CONSTRAINT_PRIMARYKEY")}
    ensures Decided(rules, schema, v) == Defect
  {
  }

  /** Under any of the three states a reported name decides, if it is safe to show; one that is not
      registered, or not safe, is a DEFECT. */
  lemma NamedDecides(rules: map<string, Conflict>, schema: Schema, v: Violation, name: string)
    requires Registered(rules) && v.name == Some(name)
    requires v.sqlstate in {Some("23505"), Some("SQLITE_CONSTRAINT_UNIQUE"), Some("SQLITE_CONSTRAINT_PRIMARYKEY")}
    ensures Decided(rules, schema, v) == if name in rules then rules[name] else Defect
  {
    UnknownIsDefect(rules);
  }

  /** A unique-key report without a name decides by the name found for it, whatever the state. */
  lemma ReportDecides(rules: map<string, Conflict>, schema: Schema, v: Violation)
    requires Registered(rules) && v.name.None? && v.unique.Some? && v.check.None?
    ensures var found := SqliteConstraint(rules, schema, v.unique.value);
      Decided(rules, schema, v) == if found.Some? && found.value in rules then rules[found.value] else Defect
  {
    UnknownIsDefect(rules);
  }

  /** The evidence shown: the reported name, else the name found for SQLite's columns, else the check
      it names, if safe to show. */
  lemma EvidenceIs(rules: map<string, Conflict>, schema: Schema, v: Violation)
    ensures Safe(Named(rules, schema, v)) || Named(rules, schema, v) == "unknown-constraint"
    ensures v.name.Some? ==> Named(rules, schema, v) == Shown(v.name.value)
    ensures v.name.None? && v.unique.None? && v.check.Some? ==> Named(rules, schema, v) == Shown(v.check.value)
    ensures v.name.None? && v.unique.Some? ==>
      var found := SqliteConstraint(rules, schema, v.unique.value);
      found.Some? ==> Named(rules, schema, v) == Shown(found.value)
  {
  }

  /** A name of up to 128 letters, digits and underscores is shown, any other hidden. */
  function Shown(name: string): string {
    if 1 <= |name| <= 128 && (forall i :: 0 <= i < |name| ==> var c := name[i] as int;
      65 <= c <= 90 || 97 <= c <= 122 || 48 <= c <= 57 || c == 95) then name else "unknown-constraint"
  }

  // ---- Soundness across dialects ----

  /** Every registered name is safe to show, so the placeholder is not one of them. */
  predicate Registered(rules: map<string, Conflict>) { forall n :: n in rules ==> Safe(n) }

  lemma UnknownIsDefect(rules: map<string, Conflict>)
    requires Registered(rules)
    ensures Lookup(rules, UNKNOWN) == Defect
  {
    assert UNKNOWN[7] == '-' && !SafeChar('-');
  }

  lemma ConstraintsRegistered()
    ensures Registered(CONSTRAINTS)
  {
    DecisionsRegistered(REPLANNED, REPLAYED);
  }

  lemma DecisionsRegistered(replanned: seq<string>, replayed: seq<string>)
    requires (forall n :: n in replanned ==> Safe(n)) && (forall n :: n in replayed ==> Safe(n))
    ensures Registered(Decisions(replanned, replayed))
  {
  }

  lemma PostgresDecides(rules: map<string, Conflict>, schema: Schema, table: string, key: Key)
    requires Registered(rules)
    ensures Decided(rules, schema, OnPostgres(table, key)) == Lookup(rules, DefaultName(table, key))
  {
    UnknownIsDefect(rules);
  }

  lemma SqliteDecides(rules: map<string, Conflict>, schema: Schema, reported: string)
    requires Registered(rules)
    ensures var name := SqliteConstraint(rules, schema, reported);
      Decided(rules, schema, OnSqlite(reported)) == if name.Some? then Lookup(rules, name.value) else Defect
  {
    UnknownIsDefect(rules);
  }

  lemma MatchingHas(table: string, keys: seq<Key>, columns: seq<string>, key: Key)
    requires key in keys && Unique(key) && key.columns == columns
    ensures DefaultName(table, key) in Matching(table, keys, columns)
  {
    var over := Over(keys, columns);
    FilterCount(keys, (k: Key) => Unique(k) && k.columns == columns, key);
    assert key in multiset(keys) && key in multiset(over);
    var i :| 0 <= i < |over| && over[i] == key;
    assert Matching(table, keys, columns)[i] == DefaultName(table, key);
  }

  lemma SortedHas(names: seq<string>)
    ensures forall x :: x in names <==> x in Sorted(names, StrLe)
  {
    StrLeTotal();
    SortedIsSorted(names, StrLe);
  }

  /** A report that reads back decides as PostgreSQL does when the keys over those columns are
      decided alike, and DEFECT when they are not. */
  lemma DecidedWhenRead(rules: map<string, Conflict>, schema: Schema, table: string, key: Key, reported: string)
    requires Registered(rules) && table in schema && key in schema[table] && Unique(key)
    requires Parse(reported) == Some(Columns(table, key.columns))
    ensures Decided(rules, schema, OnSqlite(reported)) ==
      if Alike(rules, Matching(table, schema[table], key.columns)) then Decided(rules, schema, OnPostgres(table, key))
      else Defect
  {
    var found := Matching(table, schema[table], key.columns);
    PostgresDecides(rules, schema, table, key);
    SqliteDecides(rules, schema, reported);
    MatchingHas(table, schema[table], key.columns, key);
    SortedHas(found);
    assert DefaultName(table, key) in Sorted(found, StrLe);
    assert Alike(rules, found) ==> Lookup(rules, Sorted(found, StrLe)[0]) == Lookup(rules, DefaultName(table, key));
  }

  /** A decision on SQLite is the one on PostgreSQL, or DEFECT. */
  predicate Sound(rules: map<string, Conflict>, schema: Schema, table: string, key: Key, reported: string) {
    var s := Decided(rules, schema, OnSqlite(reported));
    s == Defect || s == Decided(rules, schema, OnPostgres(table, key))
  }

  lemma MatchingOnly(table: string, key: Key, other: Key, columns: seq<string>)
    requires Unique(other) && other.columns == columns
    ensures Matching(table, [other], columns) == [DefaultName(table, other)]
    ensures key.columns != columns ==> Matching(table, [key, other], columns) == [DefaultName(table, other)]
  {
    var over := (k: Key) => Unique(k) && k.columns == columns;
    FilterOne(other, over);
    FilterOne(key, over);
    FilterConcat([key], [other], over);
    assert [key] + [other] == [key, other];
  }

  /** In every schema, on every unique key of the table over these columns. */
  ghost predicate AlwaysSound(rules: map<string, Conflict>, table: string, columns: seq<string>, reported: string) {
    forall schema: Schema, key :: table in schema && key in schema[table] && Unique(key) && key.columns == columns ==>
      Sound(rules, schema, table, key, reported)
  }

  /** A schema in which a report read as other columns is decided wrongly. */
  lemma MisreadIsUnsound(rules: map<string, Conflict>, replan: string, replay: string, table: string,
                         columns: seq<string>, reported: string)
    returns (schema: Schema, key: Key)
    requires Registered(rules) && Lookup(rules, replan) == Replan && Lookup(rules, replay) == Replay
    requires Parse(reported).Some? && Parse(reported).value != Columns(table, columns)
    ensures table in schema && key in schema[table] && Unique(key) && key.columns == columns
    ensures !Sound(rules, schema, table, key, reported)
  {
    var read := Parse(reported).value;
    key := Key(UniqueKey, Some(replay), columns);
    var other := Key(UniqueKey, Some(replan), read.names);
    schema := if read.table == table then map[table := [key, other]] else map[table := [key], read.table := [other]];
    MatchingOnly(read.table, key, other, read.names);
    assert Matching(read.table, schema[read.table], read.names) == [replan];
    assert Sorted([replan], StrLe) == [replan];
    PostgresDecides(rules, schema, table, key);
    SqliteDecides(rules, schema, reported);
  }

  /** Over every schema, SQLite's decision on a key is sound exactly when the report reads back as
      nothing or as that key's table and columns. */
  lemma SoundIffRead(rules: map<string, Conflict>, replan: string, replay: string, table: string, columns: seq<string>,
                     reported: string)
    requires Registered(rules) && Lookup(rules, replan) == Replan && Lookup(rules, replay) == Replay
    ensures AlwaysSound(rules, table, columns, reported) <==>
            (Parse(reported) == None || Parse(reported) == Some(Columns(table, columns)))
  {
    if Parse(reported).Some? && Parse(reported).value != Columns(table, columns) {
      var schema, key := MisreadIsUnsound(rules, replan, replay, table, columns, reported);
    } else {
      forall schema, key | table in schema && key in schema[table] && Unique(key) && key.columns == columns
        ensures Sound(rules, schema, table, key, reported)
      {
        if Parse(reported).None? {
          SqliteDecides(rules, schema, reported);
        } else {
          DecidedWhenRead(rules, schema, table, key, reported);
        }
      }
    }
  }

  /** On plain identifiers, a REPLAN or REPLAY on SQLite is the same on PostgreSQL, whatever the
      schema. */
  lemma CrossDialect(schema: Schema, table: string, key: Key)
    requires table in schema && key in schema[table] && Unique(key) && key.columns != []
    requires PlainTable(table) && PlainAll(key.columns)
    ensures Sound(CONSTRAINTS, schema, table, key, Render(table, key.columns))
    ensures Decided(CONSTRAINTS, schema, OnSqlite(Render(table, key.columns))) ==
      if Alike(CONSTRAINTS, Matching(table, schema[table], key.columns))
      then Decided(CONSTRAINTS, schema, OnPostgres(table, key)) else Defect
  {
    ConstraintsRegistered();
    ReadsBack(table, key.columns);
    DecidedWhenRead(CONSTRAINTS, schema, table, key, Render(table, key.columns));
  }

  lemma RegisteredBothWays()
    ensures Lookup(CONSTRAINTS, ACTIVE_NODE_PORT) == Replan && Lookup(CONSTRAINTS, JOBS_REQUEST_ID_KEY) == Replay
    ensures forall n :: n in REPLANNED ==> n[0] != 'j'
  {
    assert ACTIVE_NODE_PORT == REPLANNED[1] && JOBS_REQUEST_ID_KEY == REPLAYED[0];
    assert forall n :: n in REPLANNED ==> n[0] != 'j';
  }

  /** A comma in a column name: the report of a key that PostgreSQL decides REPLAY reads as that of
      one decided REPLAN. */
  lemma CommaMisreads() returns (schema: Schema, key: Key)
    ensures "t" in schema && key in schema["t"] && Unique(key) && key.columns == ["a, t.b"]
    ensures !Sound(CONSTRAINTS, schema, "t", key, Render("t", key.columns))
  {
    var report := Render("t", ["a, t.b"]);
    CommaReport();
    ConstraintsRegistered();
    RegisteredBothWays();
    schema, key := MisreadIsUnsound(CONSTRAINTS, ACTIVE_NODE_PORT, JOBS_REQUEST_ID_KEY, "t", ["a, t.b"], report);
  }

  lemma CommaReport()
    ensures Parse(Render("t", ["a, t.b"])) == Some(Columns("t", ["a", "b"]))
  {
    assert ["a", "b"][1..] == ["b"];
    assert Render("t", ["a, t.b"]) == "t.a, t.b" == Render("t", ["a", "b"]);
    ReadsBack("t", ["a", "b"]);
  }

  /** Two unnamed unique keys of one table whose column names join alike have one default name. */
  lemma DefaultNamesCollide(table: string, a: string, b: string)
    ensures DefaultName(table, Key(UniqueKey, None, [a, b])) == DefaultName(table, Key(UniqueKey, None, [a + "_" + b]))
  {
    assert [a, b][1..] == [b] && [b][1..] == [] && [a + "_" + b][1..] == [];
    assert Joined([b]) == b + "_" && Joined([a + "_" + b]) == a + "_" + b + "_";
    assert Joined([a, b]) == a + "_" + (b + "_");
  }

  /** PostgreSQL then reports one of them under another name. For any name it may report, SQLite's
      decision on a report that reads back is PostgreSQL's or DEFECT exactly when the keys over
      those columns are not decided alike, or the default name is a DEFECT or decided like the
      reported one. */
  lemma SoundForName(rules: map<string, Conflict>, schema: Schema, table: string, key: Key, reported: string,
                     name: string)
    requires Registered(rules) && table in schema && key in schema[table] && Unique(key)
    requires Parse(reported) == Some(Columns(table, key.columns))
    ensures var s, d := Decided(rules, schema, OnSqlite(reported)), Lookup(rules, DefaultName(table, key));
      var p := Decided(rules, schema, Violation(Some("23505"), Some(name), None, None));
      (s == Defect || s == p) <==>
      (!Alike(rules, Matching(table, schema[table], key.columns)) || d == Defect || d == Lookup(rules, name))
  {
    UnknownIsDefect(rules);
    PostgresDecides(rules, schema, table, key);
    DecidedWhenRead(rules, schema, table, key, reported);
  }

  /** Where the condition fails: two unnamed unique keys with one registered default name, the
      second under a numbered name that is not registered. SQLite decides by the default name,
      PostgreSQL DEFECT. */
  lemma NumberedName(rules: map<string, Conflict>, table: string, a: string, b: string, numbered: string)
    requires Registered(rules) && PlainTable(table) && PlainColumn(a) && PlainColumn(b) && numbered !in rules
    ensures
      var first, second := Key(UniqueKey, None, [a + "_" + b]), Key(UniqueKey, None, [a, b]);
      var schema: Schema := map[table := [first, second]];
      && DefaultName(table, first) == DefaultName(table, second)
      && Decided(rules, schema, OnSqlite(Render(table, [a, b]))) == Lookup(rules, DefaultName(table, first))
      && Decided(rules, schema, Violation(Some("23505"), Some(numbered), None, None)) == Defect
  {
    var first, second := Key(UniqueKey, None, [a + "_" + b]), Key(UniqueKey, None, [a, b]);
    var schema: Schema := map[table := [first, second]];
    DefaultNamesCollide(table, a, b);
    ReadsBack(table, [a, b]);
    MatchingOnly(table, first, second, [a, b]);
    DecidedWhenRead(rules, schema, table, second, Render(table, [a, b]));
    PostgresDecides(rules, schema, table, second);
    UnknownIsDefect(rules);
  }

  /** The name PostgreSQL gives the second of two keys of one default name. */
  const NUMBERED: string := JOBS_REQUEST_ID_KEY + "1"

  lemma OnlyJobs()
    ensures forall i :: 0 < i < |REPLAYED| ==> REPLAYED[i][0] != 'j'
  {
  }

  lemma NumberedUnregistered()
    ensures NUMBERED !in CONSTRAINTS
  {
    OnlyJobs();
    RegisteredBothWays();
    NotDecided(NUMBERED, REPLANNED, REPLAYED);
  }

  lemma NotDecided(n: string, replanned: seq<ConstraintName>, replayed: seq<ConstraintName>)
    requires n != "" && replayed != [] && n != replayed[0]
    requires forall i :: 0 < i < |replayed| ==> replayed[i][0] != n[0]
    requires forall m :: m in replanned ==> m[0] != n[0]
    ensures n !in Decisions(replanned, replayed)
  {
  }

  lemma JobsReplayed()
    ensures Lookup(CONSTRAINTS, JOBS_REQUEST_ID_KEY) == Replay
  {
    RegisteredBothWays();
  }

  /** A second key on `request` and `id` of the jobs: REPLAY on SQLite, DEFECT on PostgreSQL. */
  lemma JobsNumbered()
    ensures
      var keys := [Key(UniqueKey, None, ["request_id"]), Key(UniqueKey, None, ["request", "id"])];
      var schema: Schema := map["jobs" := keys];
      && Decided(CONSTRAINTS, schema, OnSqlite(Render("jobs", ["request", "id"]))) == Replay
      && Decided(CONSTRAINTS, schema, Violation(Some("23505"), Some(NUMBERED), None, None)) == Defect
  {
    ConstraintsRegistered();
    NumberedUnregistered();
    JobsReplayed();
    JobsDefault();
    NumberedName(CONSTRAINTS, "jobs", "request", "id", NUMBERED);
  }

  lemma JobsDefault()
    ensures "request" + "_" + "id" == "request_id"
    ensures DefaultName("jobs", Key(UniqueKey, None, ["request_id"])) == JOBS_REQUEST_ID_KEY
  {
    assert ["request_id"][1..] == [] && Joined(["request_id"]) == "request_id_";
  }

  // ---- The names ----

  function Underscored(words: seq<string>): string {
    if words == [] then "" else if |words| == 1 then words[0] else words[0] + "_" + Underscored(words[1..])
  }

  lemma {:induction false} JoinedIs(names: seq<string>)
    ensures Joined(names) + "key" == Underscored(names + ["key"])
  {
    if names == [] {
      assert names + ["key"] == ["key"] && "" + "key" == "key";
    } else {
      JoinedIs(names[1..]);
      assert (names + ["key"])[1..] == names[1..] + ["key"];
      assert names[0] + "_" + Joined(names[1..]) + "key" == names[0] + "_" + (Joined(names[1..]) + "key");
    }
  }

  /** A key's own name; else the table and `pkey` for a primary key; else the table, the columns and
      `key`, joined by underscores. */
  lemma DefaultNameIs(table: string, key: Key)
    ensures DefaultName(table, key) ==
      if key.name.Some? then key.name.value
      else Underscored(if key.kind.PrimaryKey? then [table, "pkey"] else [table] + key.columns + ["key"])
  {
    JoinedIs(key.columns);
    assert ([table] + key.columns + ["key"])[1..] == key.columns + ["key"];
    assert table + "_" + Joined(key.columns) + "key" == table + "_" + (Joined(key.columns) + "key");
    assert [table, "pkey"][1..] == ["pkey"] && table + "_" + "pkey" == table + "_pkey";
  }

  /** The names found for some columns are those of the primary keys, unique keys and unique indexes
      over exactly these columns. */
  lemma MatchingIs(table: string, keys: seq<Key>, columns: seq<string>, name: string)
    ensures name in Matching(table, keys, columns) <==>
      exists k :: k in keys && k.columns == columns && k.kind in {PrimaryKey, UniqueKey, UniqueIndex} &&
        name == DefaultName(table, k)
  {
    var over := Over(keys, columns);
    if name in Matching(table, keys, columns) {
      var i :| 0 <= i < |over| && Matching(table, keys, columns)[i] == name;
      FilterCount(keys, (k: Key) => Unique(k) && k.columns == columns, over[i]);
      assert over[i] in multiset(over) && over[i] in multiset(keys);
    }
    forall k | k in keys && k.columns == columns && k.kind in {PrimaryKey, UniqueKey, UniqueIndex}
      ensures DefaultName(table, k) in Matching(table, keys, columns)
    {
      MatchingHas(table, keys, columns, k);
    }
  }

  lemma ReplayedOnly()
    ensures forall n :: n in REPLAYED ==> n !in REPLANNED
  {
    assert forall i, j :: 0 <= i < |REPLAYED| && 0 <= j < |REPLANNED| ==>
      |REPLAYED[i]| != |REPLANNED[j]| || REPLAYED[i][0] != REPLANNED[j][0] || REPLAYED[i][25] != REPLANNED[j][25];
  }

  /** With plain identifiers, the report of a key whose name is registered as a plan assumption is a
      REPLAN, as a request identity a REPLAY, and of any other a DEFECT, in both dialects, if all unique
      keys over its columns are registered alike. */
  lemma RegisteredDecides(schema: Schema, table: string, key: Key)
    requires table in schema && key in schema[table] && Unique(key) && key.columns != []
    requires PlainTable(table) && PlainAll(key.columns)
    requires forall k :: k in schema[table] && Unique(k) && k.columns == key.columns ==>
      && (DefaultName(table, k) in REPLANNED <==> DefaultName(table, key) in REPLANNED)
      && (DefaultName(table, k) in REPLAYED <==> DefaultName(table, key) in REPLAYED)
    ensures var name := DefaultName(table, key);
      var decision := Decided(CONSTRAINTS, schema, OnSqlite(Render(table, key.columns)));
      && decision == Decided(CONSTRAINTS, schema, OnPostgres(table, key))
      && (name in REPLANNED ==> decision == Replan) && (name in REPLAYED ==> decision == Replay)
      && (name !in REPLANNED && name !in REPLAYED ==> decision == Defect)
  {
    ReplayedOnly();
    ConstraintsRegistered();
    PostgresDecides(CONSTRAINTS, schema, table, key);
    CrossDialect(schema, table, key);
    forall n | n in Matching(table, schema[table], key.columns)
      ensures Lookup(CONSTRAINTS, n) == Lookup(CONSTRAINTS, DefaultName(table, key))
    {
      MatchingIs(table, schema[table], key.columns, n);
    }
  }

  /** The name found is the first of those over the columns. */
  lemma FirstNameFound(rules: map<string, Conflict>, schema: Schema, reported: string, name: string)
    requires SqliteConstraint(rules, schema, reported) == Some(name)
    ensures var read := Parse(reported).value;
      var names := Matching(read.table, schema[read.table], read.names);
      name in names && forall n :: n in names ==> StrLe(name, n)
  {
    var read := Parse(reported).value;
    var names := Matching(read.table, schema[read.table], read.names);
    StrLeTotal();
    SortedIsSorted(names, StrLe);
    forall n | n in names ensures StrLe(name, n) {
      var i :| 0 <= i < |Sorted(names, StrLe)| && Sorted(names, StrLe)[i] == n;
    }
  }

  /** The unnamed primary keys among the registered names. */
  lemma RegisteredPrimaryKeys(columns: seq<string>)
    ensures var key := Key(PrimaryKey, None, columns);
      && DefaultName("agent_certificate_rotations", key) == AGENT_CERTIFICATE_ROTATIONS_PKEY
      && DefaultName("local_certificate_issuance", key) == LOCAL_CERTIFICATE_ISSUANCE_PKEY
      && DefaultName("artifact_distribution_assignments", key) == ARTIFACT_DISTRIBUTION_ASSIGNMENTS_PKEY
      && DefaultName("route_publication_owner", key) == ROUTE_PUBLICATION_OWNER_PKEY
      && DefaultName("recipe_source_bundles", key) == RECIPE_SOURCE_BUNDLES_PKEY
  {
  }

  function UnnamedKey(column: string): Key { Key(UniqueKey, None, [column]) }

  lemma UnnamedKeyIs(table: string, column: string)
    ensures DefaultName(table, UnnamedKey(column)) == table + ("_" + column + "_key")
  {
    assert [column][1..] == [] && Joined([column]) == column + "_";
    assert table + "_" + (column + "_") + "key" == table + ("_" + column + "_" + "key");
    assert "_" + column + "_" + "key" == "_" + column + "_key";
  }

  /** The unnamed unique keys among the registered names. */
  lemma RegisteredRequestIds()
    ensures DefaultName("jobs", UnnamedKey("request_id")) == JOBS_REQUEST_ID_KEY
    ensures DefaultName("artifact_jobs", UnnamedKey("request_id")) == ARTIFACT_JOBS_REQUEST_ID_KEY
    ensures DefaultName("fleet_profiles", UnnamedKey("name")) == FLEET_PROFILES_NAME_KEY
  {
    UnnamedKeyIs("jobs", "request_id");
    UnnamedKeyIs("artifact_jobs", "request_id");
    UnnamedKeyIs("fleet_profiles", "name");
    assert "_" + "request_id" + "_key" == "_request_id_key";
  }

  lemma RegisteredRequestKeys()
    ensures DefaultName("model_cache_operations", UnnamedKey("request_key")) == MODEL_CACHE_OPERATIONS_REQUEST_KEY_KEY
    ensures DefaultName("recipe_library_sync_runs", UnnamedKey("request_key")) ==
            RECIPE_LIBRARY_SYNC_RUNS_REQUEST_KEY_KEY
    ensures DefaultName("fleet_profile_applications", UnnamedKey("request_key")) ==
            FLEET_PROFILE_APPLICATIONS_REQUEST_KEY_KEY
    ensures DefaultName("recipe_library_sync_runs", UnnamedKey("active_slot")) ==
            RECIPE_LIBRARY_SYNC_RUNS_ACTIVE_SLOT_KEY
  {
    UnnamedKeyIs("model_cache_operations", "request_key");
    UnnamedKeyIs("recipe_library_sync_runs", "request_key");
    UnnamedKeyIs("fleet_profile_applications", "request_key");
    UnnamedKeyIs("recipe_library_sync_runs", "active_slot");
    assert "_" + "request_key" + "_key" == "_request_key_key" && "_" + "active_slot" + "_key" == "_active_slot_key";
  }

  // ---- The order of a table's keys ----

  /** The order in which a table lists its keys does not change the name found. */
  lemma KeyOrderIgnored(rules: map<string, Conflict>, schema: Schema, table: string, keys: seq<Key>, reported: string)
    requires table in schema && multiset(schema[table]) == multiset(keys)
    ensures SqliteConstraint(rules, schema[table := keys], reported) == SqliteConstraint(rules, schema, reported)
  {
    var read := Parse(reported);
    if read.Some? && read.value.table == table {
      var names := read.value.names;
      FilterBag(schema[table], keys, (k: Key) => Unique(k) && k.columns == names);
      MapBag(Over(schema[table], names), Over(keys, names), (k: Key) => DefaultName(table, k));
      StrLeTotal();
      SortedIgnoresOrder(Matching(table, schema[table], names), Matching(table, keys, names), StrLe);
    }
  }
}
