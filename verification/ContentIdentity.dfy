/** The identity of installed code: a stack walk over the installed package that hashes the files
    it keeps within a byte budget. */
module ContentIdentity {
  import opened Ordering
  import opened Basics

  const BUDGET: int := 64 * 1024 * 1024

  /** The names the walks look for, and the hash functions they use. */
  datatype Rules = Rules(
    package: string,
    cache: string,
    stamp: string,
    sha: seq<Byte> -> string,
    fingerprint: seq<(string, string)> -> string)

  function PackageRules(sha: seq<Byte> -> string, fingerprint: seq<(string, string)> -> string): Rules {
    Rules("cluster_profiles", "__pycache__", "build-identity.json", sha, fingerprint)
  }

  datatype Node = Dir(listing: Listing) | File(content: seq<Byte>) | Special

  /** A directory's entries in the order the file system lists them. */
  datatype Listing = Empty | Entry(name: string, node: Node, rest: Listing)

  /** A file by the names that lead to it from the package. */
  type Place = seq<string>

  datatype Located = Located(place: Place, content: seq<Byte>)

  // ---- Contents ----

  /** Every file below a node, with its place. */
  function Files(n: Node, at: Place): seq<Located>
    decreases n
  {
    match n
    case Dir(listing) => FilesIn(listing, at)
    case File(content) => [Located(at, content)]
    case Special => []
  }

  function FilesIn(l: Listing, at: Place): seq<Located>
    decreases l
  {
    match l case Empty => [] case Entry(name, node, rest) => Files(node, at + [name]) + FilesIn(rest, at)
  }

  /** Following the names from a listing leads to a file with this content. */
  predicate Leads(l: Listing, place: Place, content: seq<Byte>)
    decreases l
  {
    l.Entry? && place != [] &&
    (Leads(l.rest, place, content) ||
     (l.name == place[0] && match l.node
       case File(c) => |place| == 1 && c == content
       case Dir(inner) => Leads(inner, place[1..], content)
       case Special => false))
  }

  /** What the stack walk keeps: nothing under or named like a cache, no stamp at any depth. */
  predicate InstalledKeeps(c: Rules, place: Place) { place != [] && c.cache !in place && place[|place| - 1] != c.stamp }

  /** What the wheel walk keeps: nothing under a cache directory, no stamp of the package itself. */
  predicate WheelKeeps(c: Rules, place: Place) { place != [] && c.cache !in place[..|place| - 1] && place != [c.stamp] }

  function Installed(c: Rules, s: seq<Located>): seq<Located> { Filter(s, (f: Located) => InstalledKeeps(c, f.place)) }

  function InWheel(c: Rules, s: seq<Located>): seq<Located> { Filter(s, (f: Located) => WheelKeeps(c, f.place)) }

  function Slashed(place: Place): string {
    if place == [] then "" else "/" + place[0] + Slashed(place[1..])
  }

  function Name(c: Rules, place: Place): string { c.package + Slashed(place) }

  /** A file under its archive name. */
  datatype Member = Member(filename: string, content: seq<Byte>)

  function Packed(c: Rules, s: seq<Located>): seq<Member> {
    Map(s, (f: Located) => Member(Name(c, f.place), f.content))
  }

  function Total(s: seq<Member>): nat { if s == [] then 0 else Total(s[..|s| - 1]) + |s[|s| - 1].content| }

  function Digests(c: Rules, s: seq<Member>): seq<(string, string)> {
    Map(s, (m: Member) => (m.filename, c.sha(m.content)))
  }

  /** The identity of a bag of files: unknown over the budget, else the fingerprint of the sorted
      names and digests. */
  function Identity(c: Rules, s: seq<Member>): Option<string> {
    if Total(s) > BUDGET then None else Some(c.fingerprint(Sorted(Digests(c, s), PairLe)))
  }

  lemma {:induction false} TotalConcat(a: seq<Member>, b: seq<Member>)
    ensures Total(a + b) == Total(a) + Total(b)
    decreases |b|
  {
    if b == [] {
      assert a + b == a;
    } else {
      assert (a + b)[..|a + b| - 1] == a + b[..|b| - 1];
      TotalConcat(a, b[..|b| - 1]);
    }
  }

  lemma PackedConcat(c: Rules, a: seq<Located>, b: seq<Located>, done: seq<Member>)
    ensures Packed(c, a + b) + done == Packed(c, a) + (Packed(c, b) + done)
  {
    assert Packed(c, a + b) == Packed(c, a) + Packed(c, b);
  }

  lemma InstalledConcat(c: Rules, a: seq<Located>, b: seq<Located>)
    ensures Installed(c, a + b) == Installed(c, a) + Installed(c, b)
  {
    FilterConcat(a, b, (f: Located) => InstalledKeeps(c, f.place));
  }

  lemma {:induction false} NoneInstalled(c: Rules, s: seq<Located>)
    requires forall f :: f in s ==> !InstalledKeeps(c, f.place)
    ensures Installed(c, s) == []
  {
    if s != [] { NoneInstalled(c, s[..|s| - 1]); }
  }

  // ---- The stack walk ----

  datatype Pending = Pending(place: Place, node: Node)

  function Push(c: Rules, at: Place, l: Listing): seq<Pending> {
    match l
    case Empty => []
    case Entry(name, node, rest) => (if name != c.cache then [Pending(at + [name], node)] else []) + Push(c, at, rest)
  }

  /** Every file below the entries on the stack. */
  function FilesOf(stack: seq<Pending>): seq<Located> {
    if stack == [] then [] else FilesOf(stack[..|stack| - 1]) + Files(stack[|stack| - 1].node, stack[|stack| - 1].place)
  }

  lemma FilesOfOne(p: Pending)
    ensures FilesOf([p]) == Files(p.node, p.place)
  {
    assert [p][..0] == [];
  }

  lemma {:induction false} FilesOfConcat(a: seq<Pending>, b: seq<Pending>)
    ensures FilesOf(a + b) == FilesOf(a) + FilesOf(b)
    decreases |b|
  {
    if b == [] {
      assert a + b == a;
    } else {
      var n := |b| - 1;
      assert (a + b)[..|a + b| - 1] == a + b[..n];
      FilesOfConcat(a, b[..n]);
      var last := Files(b[n].node, b[n].place);
      assert FilesOf(a) + FilesOf(b[..n]) + last == FilesOf(a) + (FilesOf(b[..n]) + last);
    }
  }

  lemma {:induction false} FilesBelow(n: Node, at: Place, f: Located)
    requires f in Files(n, at)
    ensures at <= f.place
    decreases n
  {
    if n.Dir? { FilesBelowIn(n.listing, at, f); }
  }

  lemma {:induction false} FilesBelowIn(l: Listing, at: Place, f: Located)
    requires f in FilesIn(l, at)
    ensures at <= f.place && |at| < |f.place|
    decreases l
  {
    if f in Files(l.node, at + [l.name]) { FilesBelow(l.node, at + [l.name], f); } else { FilesBelowIn(l.rest, at, f); }
  }

  lemma Cancel(at: Place, place: Place, name: string)
    ensures at + place == at + [name] <==> place == [name]
    ensures at + [name] <= at + place <==> place != [] && place[0] == name
    ensures place != [] && place[0] == name ==> at + place == at + [name] + place[1..]
  {
    assert (at + place)[|at|..] == place && (at + [name])[|at|..] == [name];
    if at + [name] <= at + place { assert (at + place)[|at|] == name; }
    if place != [] && place[0] == name {
      assert place == [name] + place[1..];
      assert at + place == at + [name] + place[1..];
    }
  }

  lemma {:induction false} NodeFilesAre(n: Node, at: Place, name: string, place: Place, content: seq<Byte>)
    ensures Located(at + place, content) in Files(n, at + [name]) <==>
      place != [] && place[0] == name && match n
        case File(c) => |place| == 1 && c == content
        case Dir(inner) => Leads(inner, place[1..], content)
        case Special => false
    decreases n
  {
    Cancel(at, place, name);
    var f := Located(at + place, content);
    if f in Files(n, at + [name]) { FilesBelow(n, at + [name], f); }
    if n.Dir? && place != [] && place[0] == name { FilesAre(n.listing, at + [name], place[1..], content); }
  }

  /** The files of a package are those that names lead to. */
  lemma {:induction false} FilesAre(l: Listing, at: Place, place: Place, content: seq<Byte>)
    ensures Located(at + place, content) in FilesIn(l, at) <==> Leads(l, place, content)
    decreases l
  {
    if l.Entry? {
      FilesAre(l.rest, at, place, content);
      NodeFilesAre(l.node, at, l.name, place, content);
    }
  }

  /** Skipping cache entries before descending loses nothing that would be kept. */
  lemma {:induction false} PushKeeps(c: Rules, at: Place, l: Listing)
    ensures Installed(c, FilesOf(Push(c, at, l))) == Installed(c, FilesIn(l, at))
    decreases l
  {
    if l.Entry? {
      var here, rest := Files(l.node, at + [l.name]), Push(c, at, l.rest);
      PushKeeps(c, at, l.rest);
      InstalledConcat(c, here, FilesIn(l.rest, at));
      if l.name != c.cache {
        var top := Pending(at + [l.name], l.node);
        FilesOfOne(top);
        FilesOfConcat([top], rest);
        InstalledConcat(c, here, FilesOf(rest));
      } else {
        forall f | f in here ensures !InstalledKeeps(c, f.place) {
          FilesBelow(l.node, at + [l.name], f);
          assert f.place[|at|] == c.cache;
        }
        NoneInstalled(c, here);
        assert [] + rest == rest;
      }
    }
  }

  /** The entries below a node, itself included, that are not in a cache. */
  function Size(c: Rules, n: Node): nat
    decreases n
  {
    match n case Dir(listing) => 1 + ListingSize(c, listing) case _ => 1
  }

  function ListingSize(c: Rules, l: Listing): nat
    decreases l
  {
    match l
    case Empty => 0
    case Entry(name, node, rest) => (if name == c.cache then 0 else Size(c, node)) + ListingSize(c, rest)
  }

  function StackSize(c: Rules, stack: seq<Pending>): nat {
    if stack == [] then 0 else StackSize(c, stack[..|stack| - 1]) + Size(c, stack[|stack| - 1].node)
  }

  lemma {:induction false} StackConcat(c: Rules, a: seq<Pending>, b: seq<Pending>)
    ensures StackSize(c, a + b) == StackSize(c, a) + StackSize(c, b)
    decreases |b|
  {
    if b == [] {
      assert a + b == a;
    } else {
      assert (a + b)[..|a + b| - 1] == a + b[..|b| - 1];
      StackConcat(c, a, b[..|b| - 1]);
    }
  }

  /** Entries on the stack are not caches, and only the package itself has no name. */
  predicate Walkable(c: Rules, p: Pending) { c.cache !in p.place && (p.place != [] || p.node.Dir?) }

  lemma {:induction false} PushSize(c: Rules, at: Place, l: Listing)
    requires c.cache !in at
    ensures StackSize(c, Push(c, at, l)) == ListingSize(c, l)
    ensures forall p :: p in Push(c, at, l) ==> Walkable(c, p)
    decreases l
  {
    if l.Entry? {
      PushSize(c, at, l.rest);
      var one := [Pending(at + [l.name], l.node)];
      StackConcat(c, one, Push(c, at, l.rest));
      assert one[..0] == [] && StackSize(c, one) == Size(c, l.node);
      assert [] + Push(c, at, l.rest) == Push(c, at, l.rest);
    }
  }

  /** The walk between two pops: `done` are the files hashed so far, `all` those it will keep. */
  ghost predicate Walking(c: Rules, all: seq<Member>, pending: seq<Pending>, done: seq<Member>, remaining: int,
                          members: seq<(string, string)>) {
    && all == Packed(c, Installed(c, FilesOf(pending))) + done
    && remaining == BUDGET - Total(done) && multiset(members) == multiset(Digests(c, done))
    && forall p :: p in pending ==> Walkable(c, p)
  }

  lemma WalkDir(c: Rules, all: seq<Member>, rest: seq<Pending>, top: Pending, done: seq<Member>, remaining: int,
                members: seq<(string, string)>)
    requires Walking(c, all, rest + [top], done, remaining, members) && top.node.Dir?
    ensures Walking(c, all, rest + Push(c, top.place, top.node.listing), done, remaining, members)
    ensures StackSize(c, rest + Push(c, top.place, top.node.listing)) + 1 == StackSize(c, rest + [top])
  {
    var push := Push(c, top.place, top.node.listing);
    assert top in rest + [top];
    forall p | p in rest ensures Walkable(c, p) { assert p in rest + [top]; }
    PushSize(c, top.place, top.node.listing);
    StackConcat(c, rest, push);
    StackConcat(c, rest, [top]);
    assert [top][..0] == [] && StackSize(c, [top]) == Size(c, top.node);
    FilesOfOne(top);
    FilesOfConcat(rest, [top]);
    FilesOfConcat(rest, push);
    InstalledConcat(c, FilesOf(rest), FilesOf([top]));
    InstalledConcat(c, FilesOf(rest), FilesOf(push));
    PushKeeps(c, top.place, top.node.listing);
  }

  /** A popped file is hashed exactly when the identity keeps it. */
  predicate Hashed(c: Rules, p: Pending) { p.node.File? && p.place != [] && p.place[|p.place| - 1] != c.stamp }

  function Taken(c: Rules, p: Pending): seq<Member> {
    if Hashed(c, p) then [Member(Name(c, p.place), p.node.content)] else []
  }

  lemma PackedOne(c: Rules, f: Located)
    ensures Packed(c, Installed(c, [f])) ==
      if InstalledKeeps(c, f.place) then [Member(Name(c, f.place), f.content)] else []
  {
    FilterOne(f, (g: Located) => InstalledKeeps(c, g.place));
  }

  lemma LeafTaken(c: Rules, p: Pending)
    requires Walkable(c, p) && !p.node.Dir?
    ensures Packed(c, Installed(c, FilesOf([p]))) == Taken(c, p)
  {
    FilesOfOne(p);
    if p.node.File? { PackedOne(c, Located(p.place, p.node.content)); }
  }

  lemma LeafFiles(c: Rules, rest: seq<Pending>, top: Pending, done: seq<Member>)
    requires Walkable(c, top) && !top.node.Dir?
    ensures Packed(c, Installed(c, FilesOf(rest + [top]))) + done ==
      Packed(c, Installed(c, FilesOf(rest))) + (Taken(c, top) + done)
  {
    FilesOfConcat(rest, [top]);
    InstalledConcat(c, FilesOf(rest), FilesOf([top]));
    LeafTaken(c, top);
    PackedConcat(c, Installed(c, FilesOf(rest)), Installed(c, FilesOf([top])), done);
  }

  lemma LeafSize(c: Rules, rest: seq<Pending>, top: Pending)
    ensures StackSize(c, rest + [top]) == StackSize(c, rest) + Size(c, top.node) > StackSize(c, rest)
  {
    assert (rest + [top])[..|rest|] == rest;
  }

  lemma TotalCons(f: Member, s: seq<Member>)
    ensures Total([f] + s) == |f.content| + Total(s)
  {
    TotalConcat([f], s);
    assert [f][..0] == [] && Total([f]) == |f.content|;
  }

  lemma DigestsCons(c: Rules, f: Member, s: seq<Member>, members: seq<(string, string)>)
    requires multiset(members) == multiset(Digests(c, s))
    ensures multiset(members + [(f.filename, c.sha(f.content))]) == multiset(Digests(c, [f] + s))
  {
    var d := (f.filename, c.sha(f.content));
    assert Digests(c, [f] + s) == [d] + Digests(c, s);
  }

  /** At most `limit` bytes of a file. */
  function Read(content: seq<Byte>, limit: nat): seq<Byte> {
    if |content| > limit then content[..limit] else content
  }

  lemma WalkSkip(c: Rules, all: seq<Member>, rest: seq<Pending>, top: Pending, done: seq<Member>, remaining: int,
                 members: seq<(string, string)>)
    requires Walking(c, all, rest + [top], done, remaining, members) && !top.node.Dir? && !Hashed(c, top)
    ensures Walking(c, all, rest, done, remaining, members)
  {
    assert top in rest + [top];
    LeafFiles(c, rest, top, done);
    assert [] + done == done;
    forall p | p in rest ensures Walkable(c, p) { assert p in rest + [top]; }
  }

  lemma WalkFile(c: Rules, all: seq<Member>, rest: seq<Pending>, top: Pending, done: seq<Member>, remaining: int,
                 members: seq<(string, string)>)
    requires Walking(c, all, rest + [top], done, remaining, members) && Hashed(c, top)
    ensures var f := Member(Name(c, top.place), top.node.content);
      Walking(c, all, rest, [f] + done, remaining - |f.content|, members + [(f.filename, c.sha(f.content))])
  {
    var f := Member(Name(c, top.place), top.node.content);
    assert top in rest + [top];
    LeafFiles(c, rest, top, done);
    TotalCons(f, done);
    DigestsCons(c, f, done, members);
    forall p | p in rest ensures Walkable(c, p) { assert p in rest + [top]; }
  }

  lemma Overspent(c: Rules, all: seq<Member>, pending: seq<Pending>, done: seq<Member>, remaining: int,
                  members: seq<(string, string)>)
    requires Walking(c, all, pending, done, remaining, members) && remaining < 0
    ensures Identity(c, all) == None
  {
    TotalConcat(Packed(c, Installed(c, FilesOf(pending))), done);
  }

  /** The order in which files were hashed does not show in the identity. */
  lemma WithinBudget(c: Rules, all: seq<Member>, members: seq<(string, string)>)
    requires multiset(members) == multiset(Digests(c, all)) && Total(all) <= BUDGET
    ensures Identity(c, all) == Some(c.fingerprint(Sorted(members, PairLe)))
  {
    PairLeTotal();
    SortedIgnoresOrder(members, Digests(c, all), PairLe);
  }

  lemma WalkStarts(c: Rules, package: Listing)
    ensures Walking(c, Packed(c, Installed(c, FilesIn(package, []))), [Pending([], Dir(package))], [], BUDGET, [])
  {
    FilesOfOne(Pending([], Dir(package)));
    var all := Packed(c, Installed(c, FilesIn(package, [])));
    assert all + [] == all;
    assert Digests(c, []) == [];
  }

  /** The walk has popped `tick` of the entries it will pop, and none of them failed. */
  ghost predicate OnTime(c: Rules, package: Listing, pending: seq<Pending>, tick: nat, fails: nat -> bool) {
    tick + StackSize(c, pending) == 1 + ListingSize(c, package) && forall k :: 0 <= k < tick ==> !fails(k)
  }

  lemma OnTimeStarts(c: Rules, package: Listing, fails: nat -> bool)
    ensures OnTime(c, package, [Pending([], Dir(package))], 0, fails)
  {
    LeafSize(c, [], Pending([], Dir(package)));
    assert [] + [Pending([], Dir(package))] == [Pending([], Dir(package))];
  }

  /** One popped entry: a directory's are pushed, a file is hashed unless it is a stamp, and anything
      else is skipped. */
  method Visit(c: Rules, rest: seq<Pending>, top: Pending, remaining: nat, members: seq<(string, string)>,
               ghost all: seq<Member>, ghost done: seq<Member>)
    returns (over: bool, pending: seq<Pending>, remaining': int, members': seq<(string, string)>,
             ghost done': seq<Member>)
    requires Walking(c, all, rest + [top], done, remaining, members)
    ensures over ==> Identity(c, all) == None
    ensures !over ==> remaining' >= 0 && Walking(c, all, pending, done', remaining', members')
    ensures !over ==> StackSize(c, pending) + 1 == StackSize(c, rest + [top])
  {
    over, pending, remaining', members', done' := false, rest, remaining, members, done;
    LeafSize(c, rest, top);
    if top.node.Dir? {
      WalkDir(c, all, rest, top, done, remaining, members);
      pending := rest + Push(c, top.place, top.node.listing);
    } else if Hashed(c, top) {
      ghost var f := Member(Name(c, top.place), top.node.content);
      ghost var left, more := remaining - |f.content|, members + [(f.filename, c.sha(f.content))];
      WalkFile(c, all, rest, top, done, remaining, members);
      var content := Read(top.node.content, remaining + 1);
      if remaining - |content| < 0 {
        Overspent(c, all, rest, [f] + done, left, more);
        over := true;
        return;
      }
      assert content == f.content;
      remaining', members' := remaining - |content|, members + [(Name(c, top.place), c.sha(content))];
      done' := [f] + done;
    } else {
      WalkSkip(c, all, rest, top, done, remaining, members);
    }
  }

  lemma WalkEnds(c: Rules, all: seq<Member>, done: seq<Member>, remaining: int, members: seq<(string, string)>)
    requires Walking(c, all, [], done, remaining, members) && remaining >= 0
    ensures Identity(c, all) == Some(c.fingerprint(Sorted(members, PairLe)))
  {
    assert [] + done == done;
    WithinBudget(c, all, members);
  }

  /** The stack walk over the installed package. `fails` tells at which entry the deadline has
      passed or the file system has failed; an identity means that none of the entries outside
      caches did. */
  method InstalledContentIdentity(c: Rules, package: Listing, fails: nat -> bool) returns (r: Option<string>)
    ensures r.Some? ==> r == Identity(c, Packed(c, Installed(c, FilesIn(package, []))))
    ensures r.Some? ==> forall k :: 0 <= k < 1 + ListingSize(c, package) ==> !fails(k)
    ensures (forall k :: !fails(k)) ==> r == Identity(c, Packed(c, Installed(c, FilesIn(package, []))))
    ensures (forall k :: !fails(k)) ==> (r == None <==> Total(Packed(c, Installed(c, FilesIn(package, [])))) > 67108864)
  {
    ghost var all, done := Packed(c, Installed(c, FilesIn(package, []))), [];
    var pending, remaining, members, tick := [Pending([], Dir(package))], BUDGET, [], 0;
    WalkStarts(c, package);
    OnTimeStarts(c, package, fails);
    while pending != []
      invariant Walking(c, all, pending, done, remaining, members) && remaining >= 0
      invariant OnTime(c, package, pending, tick, fails)
      decreases StackSize(c, pending)
    {
      var top, rest := pending[|pending| - 1], pending[..|pending| - 1];
      assert pending == rest + [top];
      if fails(tick) { return None; }
      tick := tick + 1;
      var over;
      over, pending, remaining, members, done := Visit(c, rest, top, remaining, members, all, done);
      if over { return None; }
    }
    WalkEnds(c, all, done, remaining, members);
    r := Some(c.fingerprint(Sorted(members, PairLe)));
  }
}
