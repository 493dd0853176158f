/** What one admission transaction locks: its node keys sorted by identity and locked by hash,
    then its declared row groups by table rank, each in primary-key order. */
module Admission {
  import opened Ordering
  import opened LockManager
  import opened Deadlock

  const ROW_LOCK_ORDER: seq<string> := [
    "agent_nodes", "catalog_document_revisions", "cluster_mappings", "recipe_builds",
    "recipe_installations", "cluster_mapping_nodes", "installation_nodes",
    "node_inventory_snapshots", "resource_reservations", "fleet_profile_applications",
    "model_cache_operations", "model_cache_sets", "jobs", "agent_operations",
    "agent_operation_attempts"
  ]

  function IndexOf(table: string, order: seq<string>): nat {
    if order == [] || order[0] == table then 0 else 1 + IndexOf(table, order[1..])
  }

  /** The rank of a table; tables outside the order come after all of it. */
  function Rank(table: string): nat { IndexOf(table, ROW_LOCK_ORDER) }

  /** A declared row group; `rows` are the primary keys its statement selects. */
  datatype RowGroup = RowGroup(name: string, table: string, rows: seq<int>)

  datatype Declaration = Declaration(keys: seq<string>, groups: seq<RowGroup>)

  /** `AdmissionRowLock` refuses a table that has no rank, `AdmissionLockKey` an empty identity. */
  predicate Ranked(d: Declaration) {
    (forall g :: g in d.groups ==> g.table in ROW_LOCK_ORDER) && "" !in d.keys
  }

  function Dedup(s: seq<string>): seq<string> {
    if s == [] then [] else (if s[0] in s[1..] then [] else [s[0]]) + Dedup(s[1..])
  }

  function SortedKeys(keys: seq<string>): seq<string> { Sorted(Dedup(keys), StrLe) }

  /** Keys are ordered by identity, and locked by the hash of it. */
  function Hashed(hash: string -> int, keys: seq<string>): seq<Resource> {
    seq(|keys|, i requires 0 <= i < |keys| => NodeKey(hash(keys[i])))
  }

  predicate IntLe(a: int, b: int) { a <= b }

  /** The sort key of `lock_admission_rows`; the rank determines the table name. */
  predicate GroupLe(a: RowGroup, b: RowGroup) {
    Rank(a.table) < Rank(b.table) || (Rank(a.table) == Rank(b.table) && StrLe(a.name, b.name))
  }

  function GroupRows(g: RowGroup): seq<Resource> {
    var pks := Sorted(g.rows, IntLe);
    seq(|pks|, i requires 0 <= i < |pks| => Row(Rank(g.table), pks[i]))
  }

  function RowsOf(groups: seq<RowGroup>): seq<Resource> {
    if groups == [] then [] else GroupRows(groups[0]) + RowsOf(groups[1..])
  }

  function Locks(hash: string -> int, d: Declaration): seq<Resource> {
    Hashed(hash, SortedKeys(d.keys)) + RowsOf(Sorted(d.groups, GroupLe))
  }

  // ---- The canonical order ----

  /** Node keys by their identities, then rows by table rank and primary key. The identities are
      those `known` to be in use. */
  ghost predicate CanonicalLess(hash: string -> int, known: set<string>, a: Resource, b: Resource) {
    match (a, b)
    case (NodeKey(x), NodeKey(y)) =>
      x != y && exists k, l :: k in known && l in known && hash(k) == x && hash(l) == y && StrLt(k, l)
    case (NodeKey(_), Row(_, _)) => true
    case (Row(_, _), NodeKey(_)) => false
    case (Row(_, _), Row(_, _)) => RowLess(a, b)
  }

  predicate RowLess(a: Resource, b: Resource) {
    a.Row? && b.Row? && (a.table < b.table || (a.table == b.table && a.pk < b.pk))
  }

  ghost function Canonical(hash: string -> int, known: set<string>): (Resource, Resource) -> bool {
    (a: Resource, b: Resource) => CanonicalLess(hash, known, a, b)
  }

  /** No identity in use hashes apart from two around it that share a hash: a finite check on the
      identities. A hash that is injective on them has this. */
  ghost predicate Convex(hash: string -> int, known: set<string>) {
    forall a, b, c :: a in known && b in known && c in known ==> !Around(hash, a, b, c)
  }

  /** Two identities that share a hash, around one that does not. */
  predicate Around(hash: string -> int, a: string, b: string, c: string) {
    StrLt(a, b) && StrLt(b, c) && hash(a) == hash(c) && hash(b) != hash(a)
  }

  ghost predicate OneGroupPerTable(groups: seq<RowGroup>) {
    forall i, j :: 0 <= i < j < |groups| ==> groups[i].table != groups[j].table
  }

  lemma NodeOrderTransitive(hash: string -> int, known: set<string>, k: string, l: string, m: string, n: string)
    requires Convex(hash, known) && k in known && l in known && m in known && n in known
    requires StrLt(k, l) && StrLt(m, n) && hash(l) == hash(m)
    requires hash(k) != hash(l) && hash(m) != hash(n)
    ensures StrLt(k, n) && hash(k) != hash(n)
  {
    assert !Around(hash, m, k, l);
    StrTrichotomy(k, m);
    assert StrLt(k, m);
    assert !Around(hash, k, m, n);
    StrLtTransitive(k, m, n);
  }

  lemma CanonicalIsOrder(hash: string -> int, known: set<string>)
    requires Convex(hash, known)
    ensures StrictOrder(Canonical(hash, known))
  {
    var less := Canonical(hash, known);
    forall a, b, c | less(a, b) && less(b, c) ensures less(a, c) {
      if a.NodeKey? && b.NodeKey? && c.NodeKey? {
        var k, l :| k in known && l in known && hash(k) == a.hash && hash(l) == b.hash && StrLt(k, l);
        var m, n :| m in known && n in known && hash(m) == b.hash && hash(n) == c.hash && StrLt(m, n);
        NodeOrderTransitive(hash, known, k, l, m, n);
      }
    }
  }

  // ---- The lock sequence keeps it ----

  lemma {:induction false} DedupDistinct(s: seq<string>)
    ensures forall x :: x in Dedup(s) <==> x in s
    ensures forall i, j :: 0 <= i < j < |Dedup(s)| ==> Dedup(s)[i] != Dedup(s)[j]
  {
    if s != [] {
      DedupDistinct(s[1..]);
      assert s == [s[0]] + s[1..];
    }
  }

  predicate KeysClimb(keys: seq<string>) {
    forall i, j :: 0 <= i < j < |keys| ==> StrLt(keys[i], keys[j])
  }

  lemma SortedKeysAscend(keys: seq<string>)
    ensures KeysClimb(SortedKeys(keys))
    ensures forall k :: k in SortedKeys(keys) <==> k in keys
  {
    StrLeTotal();
    SortedIsSorted(Dedup(keys), StrLe);
    DedupDistinct(keys);
    DistinctInAnyListing(Dedup(keys), SortedKeys(keys), (k: string) => k);
  }

  lemma GroupLePreorder()
    ensures Preorder(GroupLe)
  {
    StrLeTotal();
    forall x, y ensures GroupLe(x, y) || GroupLe(y, x) {
      assert StrLe(x.name, y.name) || StrLe(y.name, x.name);
    }
    forall x, y, z | GroupLe(x, y) && GroupLe(y, z) ensures GroupLe(x, z) { }
  }

  predicate TableLe(a: Resource, b: Resource) { a.Row? && b.Row? && a.table <= b.table }

  predicate RowLe(a: Resource, b: Resource) {
    a.Row? && b.Row? && (a.table < b.table || (a.table == b.table && a.pk <= b.pk))
  }

  lemma GroupRowsAscend(g: RowGroup)
    ensures Ascending(GroupRows(g), RowLe) && Ascending(GroupRows(g), TableLe)
    ensures forall x :: x in GroupRows(g) ==> x.Row? && x.table == Rank(g.table)
  {
    SortedIsSorted(g.rows, IntLe);
  }

  lemma {:induction false} RowsFromGroups(groups: seq<RowGroup>, x: Resource)
    requires x in RowsOf(groups)
    ensures x.Row? && exists i :: 0 <= i < |groups| && x.table == Rank(groups[i].table)
  {
    GroupRowsAscend(groups[0]);
    if x !in GroupRows(groups[0]) {
      RowsFromGroups(groups[1..], x);
      var i :| 0 <= i < |groups[1..]| && x.table == Rank(groups[1..][i].table);
      assert x.table == Rank(groups[i + 1].table);
    }
  }

  ghost predicate RanksAscend(groups: seq<RowGroup>) {
    forall i, j :: 0 <= i < j < |groups| ==> Rank(groups[i].table) <= Rank(groups[j].table)
  }

  ghost predicate RanksClimb(groups: seq<RowGroup>) {
    forall i, j :: 0 <= i < j < |groups| ==> Rank(groups[i].table) < Rank(groups[j].table)
  }

  /** Over groups in rank order the table ranks never go back. */
  lemma {:induction false} TablesAscend(groups: seq<RowGroup>)
    requires RanksAscend(groups)
    ensures Ascending(RowsOf(groups), TableLe)
  {
    if groups != [] {
      var head, rest := GroupRows(groups[0]), RowsOf(groups[1..]);
      GroupRowsAscend(groups[0]);
      TablesAscend(groups[1..]);
      forall x, y | x in head && y in rest ensures TableLe(x, y) { RowsFromGroups(groups[1..], y); }
      AscendingConcat(head, rest, TableLe);
    }
  }

  /** With one group per table the whole row sequence ascends by table, then primary key. */
  lemma {:induction false} RowsAscend(groups: seq<RowGroup>)
    requires RanksClimb(groups)
    ensures Ascending(RowsOf(groups), RowLe)
  {
    if groups != [] {
      var head, rest := GroupRows(groups[0]), RowsOf(groups[1..]);
      GroupRowsAscend(groups[0]);
      RowsAscend(groups[1..]);
      forall x, y | x in head && y in rest ensures RowLe(x, y) { RowsFromGroups(groups[1..], y); }
      AscendingConcat(head, rest, RowLe);
    }
  }

  lemma {:induction false} IndexInjective(order: seq<string>, a: string, b: string)
    requires a in order && b in order && IndexOf(a, order) == IndexOf(b, order)
    ensures a == b
  {
    if order[0] != a { IndexInjective(order[1..], a, b); }
  }

  lemma SortedGroupsAscend(d: Declaration)
    ensures var gs := Sorted(d.groups, GroupLe);
      RanksAscend(gs) && (Ranked(d) && OneGroupPerTable(d.groups) ==> RanksClimb(gs))
  {
    GroupLePreorder();
    SortedIsSorted(d.groups, GroupLe);
    var gs := Sorted(d.groups, GroupLe);
    assert forall i, j :: 0 <= i < j < |gs| ==> GroupLe(gs[i], gs[j]);
    if Ranked(d) && OneGroupPerTable(d.groups) {
      var table := (g: RowGroup) => g.table;
      assert forall i, j :: 0 <= i < j < |d.groups| ==> table(d.groups[i]) != table(d.groups[j]);
      DistinctInAnyListing(d.groups, gs, table);
      forall i, j | 0 <= i < j < |gs| ensures Rank(gs[i].table) < Rank(gs[j].table) {
        assert gs[i] in d.groups && gs[j] in d.groups;
        assert table(gs[i]) != table(gs[j]);
        if Rank(gs[i].table) == Rank(gs[j].table) {
          IndexInjective(ROW_LOCK_ORDER, gs[i].table, gs[j].table);
        }
      }
    }
  }

  // ---- Every declared row, table by table ----

  lemma OrderDistinct()
    ensures forall i, j :: 0 <= i < j < |ROW_LOCK_ORDER| ==> ROW_LOCK_ORDER[i] != ROW_LOCK_ORDER[j]
  {
    forall i, j | 0 <= i < j < |ROW_LOCK_ORDER| ensures ROW_LOCK_ORDER[i] != ROW_LOCK_ORDER[j] {
      assert |ROW_LOCK_ORDER[i]| != |ROW_LOCK_ORDER[j]| || ROW_LOCK_ORDER[i][0] != ROW_LOCK_ORDER[j][0];
    }
  }

  lemma {:induction false} IndexIs(order: seq<string>, i: nat)
    requires i < |order| && forall j, k :: 0 <= j < k < |order| ==> order[j] != order[k]
    ensures IndexOf(order[i], order) == i
  {
    if i > 0 { IndexIs(order[1..], i - 1); }
  }

  /** How often the groups on a table list the row. */
  ghost function Listed(groups: seq<RowGroup>, table: string, k: int): nat {
    if groups == [] then 0
    else (if groups[0].table == table then multiset(groups[0].rows)[k] else 0) + Listed(groups[1..], table, k)
  }

  /** A group locks each of its rows as often as it lists it, under the position of its table. */
  lemma GroupRowsCount(g: RowGroup, i: nat, k: int)
    requires i < |ROW_LOCK_ORDER| && g.table in ROW_LOCK_ORDER
    ensures multiset(GroupRows(g))[Row(i, k)] == if g.table == ROW_LOCK_ORDER[i] then multiset(g.rows)[k] else 0
  {
    var n, pks := Rank(g.table), Sorted(g.rows, IntLe);
    OrderDistinct();
    IndexIs(ROW_LOCK_ORDER, i);
    SortedIsSorted(g.rows, IntLe);
    assert GroupRows(g) == Map(pks, (pk: int) => Row(n, pk));
    if g.table == ROW_LOCK_ORDER[i] {
      MapCount(pks, (pk: int) => Row(n, pk), k);
    } else {
      if n == i { IndexInjective(ROW_LOCK_ORDER, g.table, ROW_LOCK_ORDER[i]); }
      assert Row(i, k) !in GroupRows(g);
    }
  }

  lemma {:induction false} RowsCount(groups: seq<RowGroup>, i: nat, k: int)
    requires i < |ROW_LOCK_ORDER| && forall g :: g in groups ==> g.table in ROW_LOCK_ORDER
    ensures multiset(RowsOf(groups))[Row(i, k)] == Listed(groups, ROW_LOCK_ORDER[i], k)
  {
    if groups != [] {
      GroupRowsCount(groups[0], i, k);
      RowsCount(groups[1..], i, k);
    }
  }

  lemma {:induction false} ListedConcat(a: seq<RowGroup>, b: seq<RowGroup>, table: string, k: int)
    ensures Listed(a + b, table, k) == Listed(a, table, k) + Listed(b, table, k)
    decreases |a|
  {
    if a == [] {
      assert a + b == b;
    } else {
      assert (a + b)[1..] == a[1..] + b;
      ListedConcat(a[1..], b, table, k);
    }
  }

  lemma {:induction false} ListedBag(a: seq<RowGroup>, b: seq<RowGroup>, table: string, k: int)
    requires multiset(a) == multiset(b)
    ensures Listed(a, table, k) == Listed(b, table, k)
    decreases |a|
  {
    if a == [] {
      assert |multiset(b)| == 0;
    } else {
      var n := |a| - 1;
      var front, back := Pull(a, b);
      ListedBag(a[..n], front + back, table, k);
      assert a == a[..n] + [a[n]];
      ListedConcat(a[..n], [a[n]], table, k);
      ListedConcat(front + [a[n]], back, table, k);
      ListedConcat(front, [a[n]], table, k);
      ListedConcat(front, back, table, k);
    }
  }

  /** Every row of every group is locked as often as the groups on its table list it, and nothing
      else is; the tables come in the order of the list. */
  ghost predicate AllLocked(groups: seq<RowGroup>, taken: seq<Resource>) {
    && (forall i, k :: 0 <= i < |ROW_LOCK_ORDER| ==>
          multiset(taken)[Row(i, k)] == Listed(groups, ROW_LOCK_ORDER[i], k))
    && (forall x :: x in taken ==> x.Row? && x.table < |ROW_LOCK_ORDER|)
    && forall p, q :: 0 <= p < q < |taken| ==> TableLe(taken[p], taken[q])
  }

  lemma {:induction false} IndexInRange(table: string, order: seq<string>)
    requires table in order
    ensures IndexOf(table, order) < |order| && order[IndexOf(table, order)] == table
  {
    if order[0] != table { IndexInRange(table, order[1..]); }
  }

  lemma DeclaredAllLocked(d: Declaration)
    requires forall g :: g in d.groups ==> g.table in ROW_LOCK_ORDER
    ensures AllLocked(d.groups, DeclaredRows(d))
  {
    var gs, rows := Sorted(d.groups, GroupLe), DeclaredRows(d);
    GroupLePreorder();
    SortedIsSorted(d.groups, GroupLe);
    forall i, k | 0 <= i < |ROW_LOCK_ORDER|
      ensures multiset(rows)[Row(i, k)] == Listed(d.groups, ROW_LOCK_ORDER[i], k)
    {
      RowsCount(gs, i, k);
      ListedBag(gs, d.groups, ROW_LOCK_ORDER[i], k);
    }
    forall x | x in rows ensures x.Row? && x.table < |ROW_LOCK_ORDER| {
      RowsFromGroups(gs, x);
      var i :| 0 <= i < |gs| && x.table == Rank(gs[i].table);
      assert gs[i] in d.groups;
      IndexInRange(gs[i].table, ROW_LOCK_ORDER);
    }
    SortedGroupsAscend(d);
    TablesAscend(gs);
  }

  /** By the position of the table in the list, and on one table by name. */
  ghost predicate InSequence(a: RowGroup, b: RowGroup) {
    exists i, j :: 0 <= i <= j < |ROW_LOCK_ORDER| && ROW_LOCK_ORDER[i] == a.table && ROW_LOCK_ORDER[j] == b.table &&
      (i < j || StrLe(a.name, b.name))
  }

  lemma GroupsInSequence(groups: seq<RowGroup>)
    requires forall g :: g in groups ==> g.table in ROW_LOCK_ORDER
    ensures var gs := Sorted(groups, GroupLe);
      multiset(gs) == multiset(groups) && forall p, q :: 0 <= p < q < |gs| ==> InSequence(gs[p], gs[q])
  {
    var gs := Sorted(groups, GroupLe);
    GroupLePreorder();
    SortedIsSorted(groups, GroupLe);
    forall p, q | 0 <= p < q < |gs| ensures InSequence(gs[p], gs[q]) {
      assert gs[p] in groups && gs[q] in groups && GroupLe(gs[p], gs[q]);
      IndexInRange(gs[p].table, ROW_LOCK_ORDER);
      IndexInRange(gs[q].table, ROW_LOCK_ORDER);
    }
  }

  // ---- Which declarations are safe ----

  /** The declaration's rows, in the order in which their locks are taken. */
  function DeclaredRows(d: Declaration): seq<Resource> { RowsOf(Sorted(d.groups, GroupLe)) }

  /** Read in that order, the rows never step back within a table. */
  ghost predicate RowsInOrder(d: Declaration) { Ordered(RowLess, DeclaredRows(d)) }

  ghost predicate Uses(d: Declaration, known: set<string>) { forall k :: k in d.keys ==> k in known }

  lemma DeclaredRowsAreRows(d: Declaration)
    ensures forall x :: x in DeclaredRows(d) ==> x.Row?
  {
    forall x | x in DeclaredRows(d) ensures x.Row? { RowsFromGroups(Sorted(d.groups, GroupLe), x); }
  }

  /** Keys come first and in order, so only the rows can break the canonical order. */
  lemma LocksOrdered(hash: string -> int, known: set<string>, d: Declaration)
    requires Uses(d, known) && RowsInOrder(d)
    ensures Ordered(Canonical(hash, known), Locks(hash, d))
  {
    var keys, rows, l := SortedKeys(d.keys), DeclaredRows(d), Locks(hash, d);
    SortedKeysAscend(d.keys);
    DeclaredRowsAreRows(d);
    forall i, j | 0 <= i < j < |l| && l[j] !in l[..j] ensures CanonicalLess(hash, known, l[i], l[j]) {
      assert l[i] in l[..j];
      if j < |keys| {
        KeyEntries(hash, known, keys, i, j);
      } else if i < |keys| {
        assert l[j] == rows[j - |keys|] && l[j] in rows;
      } else {
        RowEntries(Hashed(hash, keys), rows, i, j);
      }
    }
  }

  lemma KeyEntries(hash: string -> int, known: set<string>, keys: seq<string>, i: nat, j: nat)
    requires KeysClimb(keys) && (forall k :: k in keys ==> k in known) && i < j < |keys|
    requires hash(keys[i]) != hash(keys[j])
    ensures CanonicalLess(hash, known, NodeKey(hash(keys[i])), NodeKey(hash(keys[j])))
  {
    assert keys[i] in keys && keys[j] in keys && StrLt(keys[i], keys[j]);
  }

  lemma RowEntries(keys: seq<Resource>, rows: seq<Resource>, i: nat, j: nat)
    requires |keys| <= i < j < |keys| + |rows| && (keys + rows)[j] !in (keys + rows)[..j] && Ordered(RowLess, rows)
    ensures RowLess((keys + rows)[i], (keys + rows)[j])
  {
    var n := |keys|;
    forall k | 0 <= k < j - n ensures rows[k] != rows[j - n] { assert (keys + rows)[..j][n + k] == rows[k]; }
  }

  /** With one group per table the rows never step back. */
  lemma OneGroupInOrder(d: Declaration)
    requires Ranked(d) && OneGroupPerTable(d.groups)
    ensures RowsInOrder(d)
  {
    var gs, rows := Sorted(d.groups, GroupLe), DeclaredRows(d);
    SortedGroupsAscend(d);
    RowsAscend(gs);
    forall i, j | 0 <= i < j < |rows| && rows[j] !in rows[..j] ensures RowLess(rows[i], rows[j]) {
      assert rows[i] in rows[..j] && RowLe(rows[i], rows[j]);
    }
  }

  /** With one group per table the locks are taken in canonical order. */
  lemma DeclaredLocksOrdered(hash: string -> int, known: set<string>, d: Declaration)
    requires Canonically(d) && Uses(d, known)
    ensures Ordered(Canonical(hash, known), Locks(hash, d))
  {
    OneGroupInOrder(d);
    LocksOrdered(hash, known, d);
  }

  /** The declarations admission makes: ranked tables, at most one group on each. */
  ghost predicate Canonically(d: Declaration) { Ranked(d) && OneGroupPerTable(d.groups) }

  function Started(hash: string -> int, plans: map<TxId, (Mode, Declaration)>): State {
    State(map t | t in plans :: Begin(plans[t].0, Locks(hash, plans[t].1)), map[])
  }

  /** The identities some transactions lock. */
  function Identities(plans: map<TxId, (Mode, Declaration)>): set<string> {
    set t, k | t in plans && k in plans[t].1.keys :: k
  }

  lemma StartedInOrder(hash: string -> int, plans: map<TxId, (Mode, Declaration)>, less: (Resource, Resource) -> bool)
    requires less == Canonical(hash, Identities(plans)) && forall t :: t in plans ==> Canonically(plans[t].1)
    ensures Init(Started(hash, plans)) && Disciplined(less, Started(hash, plans))
  {
    forall t | t in plans ensures Ordered(less, Locks(hash, plans[t].1)) {
      DeclaredLocksOrdered(hash, Identities(plans), plans[t].1);
    }
  }

  /** Deadlock freedom of admission: any number of concurrent transactions, trying or patient,
      each taking its node keys and then one declared row set with one group per table, over a key
      hash that is convex (so over one that is injective) on the identities they lock. */
  lemma AdmissionDeadlockFree(hash: string -> int, plans: map<TxId, (Mode, Declaration)>, acts: seq<Action>)
    requires Convex(hash, Identities(plans)) && forall t :: t in plans ==> Canonically(plans[t].1)
    requires Allowed(Started(hash, plans), acts)
    ensures var e := Run(Started(hash, plans), acts);
      !HasCycle(e) && e.txs.Keys == plans.Keys && (AllEnded(e) || CanMove(e)) && CanEnd(e)
    ensures |acts| <= Work(Started(hash, plans).txs)
  {
    var less := Canonical(hash, Identities(plans));
    CanonicalIsOrder(hash, Identities(plans));
    StartedInOrder(hash, plans, less);
    DeadlockFree(Started(hash, plans), less, acts);
  }

  ghost predicate SafePair(hash: string -> int, c: Declaration, d: Declaration) {
    !CycleReachable(Pair(Begin(Patient, Locks(hash, c)), Begin(Patient, Locks(hash, d))))
  }

  lemma OrderedPairSafe(hash: string -> int, known: set<string>, c: Declaration, d: Declaration)
    requires Convex(hash, known) && Uses(c, known) && Uses(d, known) && RowsInOrder(c) && RowsInOrder(d)
    ensures SafePair(hash, c, d)
  {
    var s := Pair(Begin(Patient, Locks(hash, c)), Begin(Patient, Locks(hash, d)));
    CanonicalIsOrder(hash, known);
    LocksOrdered(hash, known, c);
    LocksOrdered(hash, known, d);
    forall acts | Allowed(s, acts) ensures !HasCycle(Run(s, acts)) {
      DeadlockFree(s, Canonical(hash, known), acts);
    }
  }

  lemma TwoKeyLocks(hash: string -> int, a: string, b: string)
    requires StrLt(a, b)
    ensures Locks(hash, Declaration([a, b], [])) == [NodeKey(hash(a)), NodeKey(hash(b))]
  {
    StrTrichotomy(a, b);
    var keys := [a, b];
    assert keys[1..] == [b] && [b][1..] == [];
    assert Dedup([b]) == [b] + Dedup([]);
    assert Dedup(keys) == [a] + Dedup(keys[1..]);
    assert Sorted([b], StrLe) == [b];
    assert SortedKeys(keys) == [a, b];
    assert RowsOf(Sorted([], GroupLe)) == [];
  }

  /** Two identities that collide around a third: the transactions on the first two and on the
      last two lock the same two hashes in opposite orders. */
  lemma CollisionDeadlocks(hash: string -> int, a: string, b: string, c: string)
    requires a != "" && Around(hash, a, b, c)
    ensures var d, e := Declaration([a, b], []), Declaration([b, c], []);
      Canonically(d) && Canonically(e) && !SafePair(hash, d, e)
  {
    TwoKeyLocks(hash, a, b);
    TwoKeyLocks(hash, b, c);
    var l := [NodeKey(hash(a)), NodeKey(hash(b))];
    assert l[..1] == [l[0]];
    CrossedPairDeadlocks(l, 0, 1);
  }

  /** Keys are sorted by identity but locked by hash: patient transactions with canonical
      declarations over some identities are safe for every choice of them exactly when the hash is
      convex on those identities. */
  lemma SafeIffConvex(hash: string -> int, known: set<string>)
    requires "" !in known
    ensures Convex(hash, known) <==>
      forall c, d :: Canonically(c) && Canonically(d) && Uses(c, known) && Uses(d, known) ==> SafePair(hash, c, d)
  {
    if Convex(hash, known) {
      forall c, d | Canonically(c) && Canonically(d) && Uses(c, known) && Uses(d, known) ensures SafePair(hash, c, d) {
        OneGroupInOrder(c);
        OneGroupInOrder(d);
        OrderedPairSafe(hash, known, c, d);
      }
    } else {
      var a, b, c :| a in known && b in known && c in known && Around(hash, a, b, c);
      CollisionDeadlocks(hash, a, b, c);
      assert Uses(Declaration([a, b], []), known) && Uses(Declaration([b, c], []), known);
    }
  }

  lemma TwoRowLocks(hash: string -> int, table: string, x: int, y: int)
    requires x < y
    ensures var d := Declaration([], [RowGroup("rows", table, [x, y])]);
      Locks(hash, d) == [Row(Rank(table), x), Row(Rank(table), y)]
  {
    var g := RowGroup("rows", table, [x, y]);
    assert [x, y][1..] == [y] && Sorted([y], IntLe) == [y] && Sorted([x, y], IntLe) == [x, y];
    assert [g][1..] == [] && Sorted([g], GroupLe) == [g];
    assert RowsOf([g]) == GroupRows(g) + RowsOf([]);
    assert SortedKeys([]) == [];
  }

  /** Groups on one table are ordered by group name before primary key. A patient transaction is
      safe beside every canonical one over the same identities exactly when its declared rows,
      read in that order, still never step back: a check on its row groups alone. */
  lemma SafeIffGroupsOrdered(hash: string -> int, known: set<string>, c: Declaration)
    requires Convex(hash, known) && Ranked(c) && Uses(c, known)
    ensures RowsInOrder(c) <==> forall d :: Canonically(d) && Uses(d, known) ==> SafePair(hash, c, d)
  {
    if RowsInOrder(c) {
      forall d | Canonically(d) && Uses(d, known) ensures SafePair(hash, c, d) {
        OneGroupInOrder(d);
        OrderedPairSafe(hash, known, c, d);
      }
    } else {
      var rows := DeclaredRows(c);
      var i, j :| 0 <= i < j < |rows| && rows[j] !in rows[..j] && !RowLess(rows[i], rows[j]);
      var d := BackStepDeadlocks(hash, c, i, j);
      assert Uses(d, known);
    }
  }

  /** Rows out of order are rows of one declared table. */
  lemma BackStepTable(c: Declaration, i: nat, j: nat) returns (table: string)
    requires Ranked(c) && i < j < |DeclaredRows(c)|
    requires DeclaredRows(c)[i] != DeclaredRows(c)[j] && !RowLess(DeclaredRows(c)[i], DeclaredRows(c)[j])
    ensures table in ROW_LOCK_ORDER
    ensures exists x, y ::
      x < y && DeclaredRows(c)[i] == Row(Rank(table), y) && DeclaredRows(c)[j] == Row(Rank(table), x)
  {
    var gs, rows := Sorted(c.groups, GroupLe), DeclaredRows(c);
    SortedGroupsAscend(c);
    TablesAscend(gs);
    assert TableLe(rows[i], rows[j]);
    RowsFromGroups(gs, rows[j]);
    var k :| 0 <= k < |gs| && rows[j].table == Rank(gs[k].table);
    GroupLePreorder();
    SortedIsSorted(c.groups, GroupLe);
    assert gs[k] in c.groups;
    table := gs[k].table;
    assert rows[j].pk < rows[i].pk;
    assert rows[i] == Row(Rank(table), rows[i].pk) && rows[j] == Row(Rank(table), rows[j].pk);
  }

  lemma CrossedPeerUnsafe(hash: string -> int, c: Declaration, d: Declaration, i: nat, j: nat)
    requires i < j < |DeclaredRows(c)| && DeclaredRows(c)[j] !in DeclaredRows(c)[..j]
    requires Locks(hash, d) == [DeclaredRows(c)[j], DeclaredRows(c)[i]]
    ensures !SafePair(hash, c, d)
  {
    var keys := Hashed(hash, SortedKeys(c.keys));
    DeclaredRowsAreRows(c);
    NewBehindKeys(keys, DeclaredRows(c), j);
    CrossedPeer(Locks(hash, c), Locks(hash, d), |keys| + i, |keys| + j);
  }

  lemma CrossedPeer(locks: seq<Resource>, peer: seq<Resource>, i: nat, j: nat)
    requires i < j < |locks| && locks[j] !in locks[..j] && peer == [locks[j], locks[i]]
    ensures CycleReachable(Pair(Begin(Patient, locks), Begin(Patient, peer)))
  {
    CrossedPairDeadlocks(locks, i, j);
  }

  lemma NewBehindKeys(keys: seq<Resource>, rows: seq<Resource>, j: nat)
    requires (forall x :: x in keys ==> x.NodeKey?) && (forall x :: x in rows ==> x.Row?)
    requires j < |rows| && rows[j] !in rows[..j]
    ensures (keys + rows)[|keys| + j] !in (keys + rows)[..|keys| + j]
  {
    assert (keys + rows)[..|keys| + j] == keys + rows[..j];
    assert rows[j] in rows;
  }

  lemma OneGroupCanonical(table: string, rows: seq<int>)
    requires table in ROW_LOCK_ORDER
    ensures Canonically(Declaration([], [RowGroup("rows", table, rows)]))
  {
  }

  /** The peer that locks the two rows the right way round. */
  lemma BackStepDeadlocks(hash: string -> int, c: Declaration, i: nat, j: nat) returns (d: Declaration)
    requires Ranked(c) && i < j < |DeclaredRows(c)|
    requires DeclaredRows(c)[j] !in DeclaredRows(c)[..j] && !RowLess(DeclaredRows(c)[i], DeclaredRows(c)[j])
    ensures Canonically(d) && d.keys == [] && !SafePair(hash, c, d)
  {
    assert DeclaredRows(c)[i] in DeclaredRows(c)[..j];
    var table := BackStepTable(c, i, j);
    var x, y :| x < y && DeclaredRows(c)[i] == Row(Rank(table), y) && DeclaredRows(c)[j] == Row(Rank(table), x);
    d := Declaration([], [RowGroup("rows", table, [x, y])]);
    OneGroupCanonical(table, [x, y]);
    assert Locks(hash, d) == [DeclaredRows(c)[j], DeclaredRows(c)[i]] by { TwoRowLocks(hash, table, x, y); }
    CrossedPeerUnsafe(hash, c, d, i, j);
  }

  lemma TwoGroupLocks(hash: string -> int, a: RowGroup, b: RowGroup, x: int, y: int)
    requires GroupLe(a, b) && a.rows == [x] && b.rows == [y]
    ensures Locks(hash, Declaration([], [a, b])) == [Row(Rank(a.table), x), Row(Rank(b.table), y)]
  {
    assert [a, b][1..] == [b] && [b][1..] == [] && Sorted([b], GroupLe) == [b];
    assert Sorted([a, b], GroupLe) == [a, b];
    assert Sorted([x], IntLe) == [x] && Sorted([y], IntLe) == [y];
    assert GroupRows(a) == [Row(Rank(a.table), x)] && GroupRows(b) == [Row(Rank(b.table), y)];
    assert RowsOf([a, b]) == GroupRows(a) + RowsOf([b]) && RowsOf([b]) == GroupRows(b) + RowsOf([]);
    assert SortedKeys([]) == [];
  }

  /** Two groups on one table whose names sort against their rows do deadlock. */
  lemma TwoGroupsDeadlock(hash: string -> int, table: string, x: int, y: int)
    requires table in ROW_LOCK_ORDER && x < y
    ensures var c := Declaration([], [RowGroup("a", table, [y]), RowGroup("b", table, [x])]);
      Ranked(c) && exists d :: Canonically(d) && !SafePair(hash, c, d)
  {
    var a, b := RowGroup("a", table, [y]), RowGroup("b", table, [x]);
    assert StrLt("a", "b");
    TwoGroupLocks(hash, a, b, y, x);
    var l := [Row(Rank(table), y), Row(Rank(table), x)];
    assert SortedKeys([]) == [] && Hashed(hash, []) == [];
    assert DeclaredRows(Declaration([], [a, b])) == l && l[..1] == [l[0]];
    var d := BackStepDeadlocks(hash, Declaration([], [a, b]), 0, 1);
  }

  // ---- The two loops of one session ----

  /** `answers(i)` says whether the i-th lock statement of the session obtained its lock: the
      try returned true, or the patient wait ended before its timeout. */
  datatype KeyOutcome = Returned(held: seq<Resource>) | Busy(held: seq<Resource>)

  /** `acquire_admission_keys`: a normal return holds every requested key, a refusal exactly the
      sorted keys before the first one refused. Only PostgreSQL has these locks. */
  method AcquireAdmissionKeys(keys: seq<string>, postgres: bool, hash: string -> int, answers: nat -> bool)
    returns (outcome: KeyOutcome)
    ensures !postgres || keys == [] ==> outcome == Returned([])
    ensures postgres && outcome.Returned? ==> outcome.held == Hashed(hash, SortedKeys(keys))
    ensures outcome.Returned? && postgres ==> forall k :: k in keys ==> NodeKey(hash(k)) in outcome.held
    ensures (forall i :: 0 <= i < |SortedKeys(keys)| ==> answers(i)) ==> outcome.Returned?
    ensures outcome.Busy? ==>
      var n := |outcome.held|;
      postgres && n < |SortedKeys(keys)| && !answers(n) && (forall i :: 0 <= i < n ==> answers(i)) &&
      outcome.held == Hashed(hash, SortedKeys(keys)[..n])
  {
    SortedKeysAscend(keys);
    if keys == [] || !postgres { return Returned([]); }
    var order := SortedKeys(keys);
    var held: seq<Resource> := [];
    var i := 0;
    while i < |order|
      invariant 0 <= i <= |order| && held == Hashed(hash, order[..i])
      invariant forall j :: 0 <= j < i ==> answers(j)
    {
      if !answers(i) { return Busy(held); }
      held := held + [NodeKey(hash(order[i]))];
      i := i + 1;
    }
    assert order[..i] == order;
    forall k | k in keys ensures NodeKey(hash(k)) in held {
      var j :| 0 <= j < |order| && order[j] == k;
      assert held[j] == NodeKey(hash(k));
    }
    return Returned(held);
  }

  ghost predicate AllGranted(answers: nat -> bool, n: nat) { forall i :: 0 <= i < n ==> answers(i) }

  ghost predicate FirstRefusal(answers: nat -> bool, n: nat) { AllGranted(answers, n) && !answers(n) }

  datatype RowOutcome =
    | DuplicateNames
    | RowsBusy(taken: seq<Resource>)
    | Rows(locked: map<string, seq<int>>, taken: seq<Resource>)

  predicate NamesUnique(groups: seq<RowGroup>) {
    forall i, j :: 0 <= i < j < |groups| ==> groups[i].name != groups[j].name
  }

  /** The rows selected per group name, later groups last. */
  function LockedRows(groups: seq<RowGroup>): map<string, seq<int>> {
    if groups == [] then map[] else
    var n := |groups| - 1;
    LockedRows(groups[..n])[groups[n].name := Sorted(groups[n].rows, IntLe)]
  }

  /** Each group's rows in key order under the group's name, and nothing else. */
  ghost predicate ByName(groups: seq<RowGroup>, locked: map<string, seq<int>>) {
    && (forall g :: g in groups ==> g.name in locked && locked[g.name] == Sorted(g.rows, IntLe))
    && (forall name :: name in locked ==> exists g :: g in groups && g.name == name)
  }

  lemma {:induction false} LockedRowsByName(groups: seq<RowGroup>)
    requires NamesUnique(groups)
    ensures ByName(groups, LockedRows(groups))
  {
    if groups != [] {
      var n := |groups| - 1;
      LockedRowsByName(groups[..n]);
      assert groups == groups[..n] + [groups[n]];
      assert forall g :: g in groups[..n] ==> g.name != groups[n].name;
    }
  }

  /** The row locks asked for: all the groups' rows, on PostgreSQL only. */
  function Asked(groups: seq<RowGroup>, postgres: bool): seq<Resource> { if postgres then RowsOf(groups) else [] }

  /** The first lock refused, the `m`-th asked for, is one of the `n`-th group's rows. */
  ghost predicate RefusedIn(ordered: seq<RowGroup>, answers: nat -> bool, n: nat, m: nat) {
    n < |ordered| && |RowsOf(ordered[..n])| <= m < |RowsOf(ordered[..n + 1])| && FirstRefusal(answers, m)
  }

  /** A refusal that keeps the rows of the groups before the refused one. */
  ghost predicate RefusedWith(ordered: seq<RowGroup>, answers: nat -> bool, taken: seq<Resource>) {
    exists n: nat, m: nat :: RefusedIn(ordered, answers, n, m) && taken == RowsOf(ordered[..n])
  }

  /** `lock_admission_rows`: every group's rows by name, on PostgreSQL all locked in canonical
      sequence, one row after the other. A refusal ends the savepoint of its group and so keeps
      exactly the rows of the groups before it. Elsewhere no row is locked and none refused.
      Repeated names are an error. */
  method LockAdmissionRows(groups: seq<RowGroup>, postgres: bool, answers: nat -> bool) returns (outcome: RowOutcome)
    ensures outcome.DuplicateNames? <==> !NamesUnique(groups)
    ensures outcome.Rows? ==> ByName(groups, outcome.locked)
    ensures outcome.Rows? ==> outcome.taken == Asked(Sorted(groups, GroupLe), postgres)
    ensures outcome.Rows? && postgres && (forall g :: g in groups ==> g.table in ROW_LOCK_ORDER) ==>
      AllLocked(groups, outcome.taken)
    ensures outcome.RowsBusy? ==> postgres && RefusedWith(Sorted(groups, GroupLe), answers, outcome.taken)
    ensures NamesUnique(groups) ==>
      (outcome.Rows? <==> AllGranted(answers, |Asked(Sorted(groups, GroupLe), postgres)|))
  {
    if !NamesUnique(groups) { return DuplicateNames; }
    var ordered := Sorted(groups, GroupLe);
    SortedGroupsListing(groups);
    LockedRowsByName(ordered);
    if forall g :: g in groups ==> g.table in ROW_LOCK_ORDER { DeclaredAllLocked(Declaration([], groups)); }
    outcome := LockEach(ordered, postgres, answers);
  }

  /** The groups one after the other, each under its savepoint. */
  method LockEach(ordered: seq<RowGroup>, postgres: bool, answers: nat -> bool) returns (outcome: RowOutcome)
    ensures !outcome.DuplicateNames?
    ensures outcome.Rows? ==> outcome.locked == LockedRows(ordered) && outcome.taken == Asked(ordered, postgres)
    ensures outcome.RowsBusy? ==> postgres && RefusedWith(ordered, answers, outcome.taken)
    ensures outcome.Rows? <==> AllGranted(answers, |Asked(ordered, postgres)|)
  {
    var locked: map<string, seq<int>> := map[];
    var taken: seq<Resource> := [];
    var i := 0;
    while i < |ordered|
      invariant 0 <= i <= |ordered| && locked == LockedRows(ordered[..i])
      invariant taken == Asked(ordered[..i], postgres) && AllGranted(answers, |taken|)
    {
      var ok;
      ok, taken := LockNext(ordered, i, postgres, taken, answers);
      if !ok { return RowsBusy(taken); }
      LockedNext(ordered, i);
      locked := locked[ordered[i].name := Sorted(ordered[i].rows, IntLe)];
      i := i + 1;
    }
    assert ordered[..i] == ordered;
    return Rows(locked, taken);
  }

  /** The next group: all its rows, or a refusal that keeps the rows of the groups before it. */
  method LockNext(ordered: seq<RowGroup>, i: nat, postgres: bool, before: seq<Resource>, answers: nat -> bool)
    returns (ok: bool, taken: seq<Resource>)
    requires i < |ordered| && before == Asked(ordered[..i], postgres) && AllGranted(answers, |before|)
    ensures ok ==> taken == Asked(ordered[..i + 1], postgres) && AllGranted(answers, |taken|)
    ensures !ok ==> postgres && RefusedWith(ordered, answers, taken)
    ensures !ok ==> !AllGranted(answers, |Asked(ordered, postgres)|)
  {
    if !postgres { return true, before; }
    RowsNext(ordered, i);
    ok, taken := LockGroup(GroupRows(ordered[i]), before, answers);
    if !ok { RefusedWhole(ordered, answers, i); }
  }

  /** One statement under its savepoint. */
  method LockGroup(rows: seq<Resource>, before: seq<Resource>, answers: nat -> bool)
    returns (ok: bool, taken: seq<Resource>)
    requires AllGranted(answers, |before|)
    ensures taken == if ok then before + rows else before
    ensures if ok then AllGranted(answers, |before + rows|)
            else exists m :: |before| <= m < |before| + |rows| && FirstRefusal(answers, m)
  {
    taken := before;
    for k := 0 to |rows|
      invariant taken == before + rows[..k] && AllGranted(answers, |taken|)
    {
      if !answers(|taken|) {
        assert FirstRefusal(answers, |before| + k);
        return false, before;
      }
      taken := taken + [rows[k]];
    }
    return true, taken;
  }

  lemma RefusedWhole(ordered: seq<RowGroup>, answers: nat -> bool, i: nat)
    requires i < |ordered|
    requires exists m ::
      |RowsOf(ordered[..i])| <= m < |RowsOf(ordered[..i])| + |GroupRows(ordered[i])| && FirstRefusal(answers, m)
    ensures RefusedWith(ordered, answers, RowsOf(ordered[..i]))
    ensures !AllGranted(answers, |RowsOf(ordered)|)
  {
    var m :| |RowsOf(ordered[..i])| <= m < |RowsOf(ordered[..i])| + |GroupRows(ordered[i])| && FirstRefusal(answers, m);
    RowsNext(ordered, i);
    assert RefusedIn(ordered, answers, i, m);
    RowsPrefix(ordered, i + 1);
  }

  lemma {:induction false} RowsPrefix(groups: seq<RowGroup>, i: nat)
    requires i <= |groups|
    ensures |RowsOf(groups[..i])| <= |RowsOf(groups)|
    decreases |groups| - i
  {
    if i < |groups| {
      RowsNext(groups, i);
      RowsPrefix(groups, i + 1);
    } else {
      assert groups[..i] == groups;
    }
  }

  lemma RowsNext(groups: seq<RowGroup>, i: nat)
    requires i < |groups|
    ensures RowsOf(groups[..i + 1]) == RowsOf(groups[..i]) + GroupRows(groups[i])
  {
    RowsOfSnoc(groups[..i], groups[i]);
    assert groups[..i + 1] == groups[..i] + [groups[i]];
  }

  lemma LockedNext(groups: seq<RowGroup>, i: nat)
    requires i < |groups|
    ensures LockedRows(groups[..i + 1]) == LockedRows(groups[..i])[groups[i].name := Sorted(groups[i].rows, IntLe)]
  {
    assert groups[..i + 1][..i] == groups[..i];
  }

  lemma SortedGroupsListing(groups: seq<RowGroup>)
    requires NamesUnique(groups)
    ensures var gs := Sorted(groups, GroupLe);
      |gs| == |groups| && NamesUnique(gs) && forall g :: g in gs <==> g in groups
  {
    GroupLePreorder();
    SortedIsSorted(groups, GroupLe);
    var gs, name := Sorted(groups, GroupLe), (g: RowGroup) => g.name;
    assert forall i, j :: 0 <= i < j < |groups| ==> name(groups[i]) != name(groups[j]);
    DistinctInAnyListing(groups, gs, name);
    forall i, j | 0 <= i < j < |gs| ensures gs[i].name != gs[j].name { assert name(gs[i]) != name(gs[j]); }
  }

  lemma {:induction false} RowsOfSnoc(groups: seq<RowGroup>, g: RowGroup)
    ensures RowsOf(groups + [g]) == RowsOf(groups) + GroupRows(g)
  {
    if groups == [] {
      assert ([] + [g])[1..] == [];
    } else {
      assert (groups + [g])[1..] == groups[1..] + [g];
      RowsOfSnoc(groups[1..], g);
    }
  }
}
