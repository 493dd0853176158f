/** The identity of a wheel's members, and when it is the identity of the package installed from it. */
module WheelIdentity {
  import opened ContentIdentity
  import opened Ordering
  import opened Basics

  // ---- Archive names ----

  predicate Contains(s: string, x: string) { x <= s || (s != "" && Contains(s[1..], x)) }

  predicate Word(w: string) { w != "" && '/' !in w }

  ghost predicate Plain(place: Place) { place != [] && forall w :: w in place ==> Word(w) }

  /** The rules' own names are single path components. */
  predicate Proper(c: Rules) { Word(c.package) && Word(c.cache) && Word(c.stamp) }

  predicate IsDir(filename: string) { filename != "" && filename[|filename| - 1] == '/' }

  predicate InPackage(c: Rules, m: Member) { !IsDir(m.filename) && c.package + "/" <= m.filename }

  predicate Selected(c: Rules, m: Member) {
    InPackage(c, m) && !Contains(m.filename, "/" + c.cache + "/") && m.filename != c.package + "/" + c.stamp
  }

  lemma {:induction false} ContainsIs(s: string, x: string)
    ensures Contains(s, x) <==> exists i :: 0 <= i <= |s| && x <= s[i..]
  {
    assert s[0..] == s;
    if s != "" {
      ContainsIs(s[1..], x);
      assert forall i :: 0 <= i < |s| ==> s[1..][i..] == s[i + 1..];
      if i :| 0 <= i <= |s[1..]| && x <= s[1..][i..] { assert x <= s[i + 1..]; }
      if i :| 0 < i <= |s| && x <= s[i..] { assert x <= s[1..][i - 1..]; }
    }
  }

  /** The wheel walk skips directory entries, members outside the package, members with a cache among
      their directories and the package's own stamp, and nothing else. */
  lemma SelectedExactly(c: Rules, m: Member)
    ensures Selected(c, m) <==>
      && c.package + "/" <= m.filename && m.filename[|m.filename| - 1] != '/'
      && m.filename != c.package + "/" + c.stamp
      && forall i :: 0 <= i <= |m.filename| ==> !("/" + c.cache + "/" <= m.filename[i..])
  {
    ContainsIs(m.filename, "/" + c.cache + "/");
  }

  lemma PackageRulesProper(sha: seq<Byte> -> string, fingerprint: seq<(string, string)> -> string)
    ensures Proper(PackageRules(sha, fingerprint))
  {
  }

  lemma {:induction false} SkipWord(w: string, t: string, x: string)
    requires '/' !in w && x != "" && x[0] == '/'
    ensures Contains(w + t, x) == Contains(t, x)
  {
    if w == "" {
      assert w + t == t;
    } else {
      assert (w + t)[0] == w[0] && (w + t)[1..] == w[1..] + t;
      SkipWord(w[1..], t, x);
    }
  }

  /** A slash-free word followed by a slash fixes where the next slash is. */
  lemma HeadMatch(w: string, t: string, k: string)
    requires '/' !in w && '/' !in k && (t == "" || t[0] == '/')
    ensures "/" + k + "/" <= "/" + w + t <==> w == k && t != ""
  {
    var x, s := "/" + k + "/", "/" + w + t;
    assert forall i :: 0 <= i < |k| ==> x[i + 1] == k[i] && k[i] in k;
    assert forall i :: 0 <= i < |w| ==> s[i + 1] == w[i] && w[i] in w;
    assert x[|k| + 1] == '/' && (t == "" || s[|w| + 1] == '/');
    assert w == k && t != "" ==> s == x + t[1..];
    if x <= s {
      assert s[|k| + 1] == '/' && |k| == |w|;
      assert forall i :: 0 <= i < |k| ==> k[i] == x[i + 1] == s[i + 1] == w[i];
    }
  }

  lemma SlashedHead(place: Place)
    requires place != []
    ensures Slashed(place) != "" && Slashed(place)[0] == '/'
  {
  }

  lemma {:induction false} SlashedEnd(place: Place)
    requires Plain(place)
    ensures !IsDir(Slashed(place)) && Slashed(place) != ""
  {
    var w, t := place[0], Slashed(place[1..]);
    assert w in place && Word(w) && Slashed(place) == "/" + w + t;
    if |place| > 1 {
      SlashedEnd(place[1..]);
    } else {
      assert w[|w| - 1] in w;
    }
  }

  lemma {:induction false} CacheInside(place: Place, k: string)
    requires Plain(place) && Word(k)
    ensures Contains(Slashed(place), "/" + k + "/") <==> k in place[..|place| - 1]
  {
    var w, t, x := place[0], Slashed(place[1..]), "/" + k + "/";
    if |place| > 1 { SlashedHead(place[1..]); CacheInside(place[1..], k); }
    assert w in place && Word(w);
    assert Slashed(place) == "/" + w + t && ("/" + w + t)[1..] == w + t;
    HeadMatch(w, t, k);
    SkipWord(w, t, x);
    if |place| > 1 {
      assert place[..|place| - 1] == [w] + place[1..][..|place| - 2];
    }
  }

  lemma StampIs(place: Place, k: string)
    requires Plain(place) && Word(k)
    ensures Slashed(place) == "/" + k <==> place == [k]
  {
    var w, t := place[0], Slashed(place[1..]);
    assert Slashed(place) == "/" + w + t;
    if |place| > 1 {
      SlashedHead(place[1..]);
      assert ("/" + w + t)[|w| + 1] == '/';
      assert forall i :: 0 < i < |k| + 1 ==> ("/" + k)[i] == k[i - 1] && k[i - 1] in k;
    } else {
      assert place == [w] && "/" + w + t == "/" + w;
      assert ("/" + w)[1..] == w && ("/" + k)[1..] == k;
    }
  }

  /** On the archive name of a file, the wheel's string tests are tests on its path components. */
  lemma SelectedIs(c: Rules, f: Located)
    requires Proper(c) && Plain(f.place)
    ensures InPackage(c, Member(Name(c, f.place), f.content))
    ensures Selected(c, Member(Name(c, f.place), f.content)) <==> WheelKeeps(c, f.place)
  {
    var t := Slashed(f.place);
    SlashedHead(f.place);
    SlashedEnd(f.place);
    assert (c.package + t)[|c.package + t| - 1] == t[|t| - 1];
    assert (c.package + t)[..|c.package| + 1] == c.package + "/";
    SkipWord(c.package, t, "/" + c.cache + "/");
    CacheInside(f.place, c.cache);
    StampIs(f.place, c.stamp);
    assert (c.package + t)[|c.package|..] == t && (c.package + ("/" + c.stamp))[|c.package|..] == "/" + c.stamp;
    assert c.package + ("/" + c.stamp) == c.package + "/" + c.stamp;
  }

  // ---- The walk over the archive ----

  /** An archive member and the size its header declares. */
  datatype Stored = Stored(member: Member, size: nat)

  function Contents(archive: seq<Stored>): seq<Member> {
    seq(|archive|, i requires 0 <= i < |archive| => archive[i].member)
  }

  function Chosen(c: Rules, s: seq<Member>): seq<Member> { Filter(s, (m: Member) => Selected(c, m)) }

  lemma ChosenNext(c: Rules, s: seq<Member>, i: nat)
    requires i < |s|
    ensures Chosen(c, s[..i + 1]) == Chosen(c, s[..i]) + if Selected(c, s[i]) then [s[i]] else []
  {
    assert s[..i + 1][..i] == s[..i];
  }

  lemma TotalNext(s: seq<Member>, m: Member)
    ensures Total(s + [m]) == Total(s) + |m.content|
  {
    assert (s + [m])[..|s|] == s;
  }

  lemma PrefixTotal(c: Rules, s: seq<Member>, i: nat)
    requires i <= |s|
    ensures Total(Chosen(c, s[..i])) <= Total(Chosen(c, s))
  {
    assert s == s[..i] + s[i..];
    FilterConcat(s[..i], s[i..], (m: Member) => Selected(c, m));
    TotalConcat(Chosen(c, s[..i]), Chosen(c, s[i..]));
  }

  lemma Overspent(c: Rules, s: seq<Member>, i: nat)
    requires i < |s| && Selected(c, s[i]) && Total(Chosen(c, s[..i])) + |s[i].content| > BUDGET
    ensures Identity(c, Chosen(c, s)) == None
  {
    ChosenNext(c, s, i);
    TotalNext(Chosen(c, s[..i]), s[i]);
    PrefixTotal(c, s, i + 1);
  }

  lemma DigestsNext(c: Rules, s: seq<Member>, m: Member)
    ensures Digests(c, s + [m]) == Digests(c, s) + [(m.filename, c.sha(m.content))]
  {
  }

  /** The walk after the first `i` members. */
  ghost predicate Walked(c: Rules, all: seq<Member>, i: nat, remaining: int, members: seq<(string, string)>) {
    && i <= |all| && remaining == BUDGET - Total(Chosen(c, all[..i])) && remaining >= 0
    && members == Digests(c, Chosen(c, all[..i]))
  }

  lemma WalkSkipped(c: Rules, all: seq<Member>, i: nat, remaining: int, members: seq<(string, string)>)
    requires Walked(c, all, i, remaining, members) && i < |all| && !Selected(c, all[i])
    ensures Walked(c, all, i + 1, remaining, members)
  {
    ChosenNext(c, all, i);
    assert Chosen(c, all[..i]) + [] == Chosen(c, all[..i]);
  }

  lemma WalkSelected(c: Rules, all: seq<Member>, i: nat, remaining: int, members: seq<(string, string)>)
    requires Walked(c, all, i, remaining, members) && i < |all| && Selected(c, all[i]) && |all[i].content| <= remaining
    ensures Walked(c, all, i + 1, remaining - |all[i].content|, members + [(all[i].filename, c.sha(all[i].content))])
  {
    ChosenNext(c, all, i);
    TotalNext(Chosen(c, all[..i]), all[i]);
    DigestsNext(c, Chosen(c, all[..i]), all[i]);
  }

  /** The walk may read member `i`: it is on time, and its header declares no more than is left. */
  predicate Readable(c: Rules, archive: seq<Stored>, late: nat -> bool, i: nat)
    requires i < |archive|
  {
    Selected(c, archive[i].member) ==>
      !late(i) && archive[i].size <= BUDGET - Total(Chosen(c, Contents(archive)[..i]))
  }

  method WheelContentIdentity(c: Rules, archive: seq<Stored>, late: nat -> bool) returns (r: Option<string>)
    ensures r.Some? ==> r == Identity(c, Chosen(c, Contents(archive)))
    ensures r.Some? ==> forall i :: 0 <= i < |archive| ==> Readable(c, archive, late, i)
    ensures (forall k :: !late(k)) && (forall e :: e in archive ==> e.size == |e.member.content|) ==>
      r == Identity(c, Chosen(c, Contents(archive)))
  {
    ghost var all := Contents(archive);
    var remaining, members := BUDGET, [];
    for i := 0 to |archive|
      invariant Walked(c, all, i, remaining, members)
      invariant forall j :: 0 <= j < i ==> Readable(c, archive, late, j)
    {
      var m := archive[i].member;
      if Selected(c, m) {
        if late(i) { return None; }
        if archive[i].size > remaining {
          if |m.content| > remaining { Overspent(c, all, i); }
          return None;
        }
        var content := Read(m.content, remaining + 1);
        if remaining - |content| < 0 {
          Overspent(c, all, i);
          return None;
        }
        WalkSelected(c, all, i, remaining, members);
        remaining, members := remaining - |content|, members + [(m.filename, c.sha(content))];
      } else {
        WalkSkipped(c, all, i, remaining, members);
      }
    }
    assert all[..|archive|] == all;
    r := Some(c.fingerprint(Sorted(members, PairLe)));
  }

  /** For the package's own rules, what the two walks hash: the installed walk nothing in or named like
      a cache and no identity stamp, the wheel walk nothing in a cache and not the package's stamp. */
  lemma WalksKeep(sha: seq<Byte> -> string, fingerprint: seq<(string, string)> -> string, f: Located)
    requires Plain(f.place)
    ensures var c := PackageRules(sha, fingerprint);
      && (InstalledKeeps(c, f.place) <==>
            "__pycache__" !in f.place && f.place[|f.place| - 1] != "build-identity.json")
      && (Selected(c, Member(Name(c, f.place), f.content)) <==>
            "__pycache__" !in f.place[..|f.place| - 1] && f.place != ["build-identity.json"])
      && (|f.place| == 1 ==> Name(c, f.place) == "cluster_profiles" + ("/" + f.place[0]))
  {
    PackageRulesProper(sha, fingerprint);
    SelectedIs(PackageRules(sha, fingerprint), f);
    if |f.place| == 1 { assert Slashed(f.place[1..]) == "" && "/" + f.place[0] + "" == "/" + f.place[0]; }
  }

  // ---- Agreement ----

  /** The files the two walks disagree about: a stamp below the package's top level, or a plain
      file with the cache directory's name. */
  predicate Disputed(c: Rules, place: Place) {
    && place != [] && c.cache !in place[..|place| - 1] && place != [c.stamp]
    && (place[|place| - 1] == c.stamp || place[|place| - 1] == c.cache)
  }

  lemma DisputedIs(c: Rules, place: Place)
    ensures InstalledKeeps(c, place) ==> WheelKeeps(c, place)
    ensures Disputed(c, place) <==> WheelKeeps(c, place) && !InstalledKeeps(c, place)
  {
    if place != [] {
      var n := |place| - 1;
      assert place == place[..n] + [place[n]];
      assert c.cache in place <==> c.cache in place[..n] || c.cache == place[n];
    }
  }

  /** Both walks keep the same files exactly when none is disputed. */
  lemma {:induction false} SameKept(c: Rules, s: seq<Located>)
    ensures |Installed(c, s)| <= |InWheel(c, s)|
    ensures (forall f :: f in s ==> !Disputed(c, f.place)) <==> |Installed(c, s)| == |InWheel(c, s)|
    ensures (forall f :: f in s ==> !Disputed(c, f.place)) ==> Installed(c, s) == InWheel(c, s)
  {
    if s != [] {
      var n := |s| - 1;
      SameKept(c, s[..n]);
      DisputedIs(c, s[n].place);
      assert s == s[..n] + [s[n]];
      assert (forall f :: f in s ==> !Disputed(c, f.place)) <==>
             (forall f :: f in s[..n] ==> !Disputed(c, f.place)) && !Disputed(c, s[n].place);
    }
  }

  lemma ChosenPacked(c: Rules, s: seq<Located>)
    requires Proper(c) && AllPlain(s)
    ensures Chosen(c, Packed(c, s)) == Packed(c, InWheel(c, s))
  {
    var pack := (f: Located) => Member(Name(c, f.place), f.content);
    var keep, chosen := (f: Located) => WheelKeeps(c, f.place), (m: Member) => Selected(c, m);
    forall f | f in s ensures chosen(pack(f)) == keep(f) { SelectedIs(c, f); }
    FilterMap(s, pack, keep, chosen);
  }

  lemma TotalAround(a: seq<Member>, m: Member, b: seq<Member>)
    ensures Total(a + [m] + b) == Total(a + b) + |m.content|
  {
    TotalConcat(a + [m], b);
    TotalNext(a, m);
    TotalConcat(a, b);
  }

  lemma {:induction false} TotalOfBag(s: seq<Member>, t: seq<Member>)
    requires multiset(s) == multiset(t)
    ensures Total(s) == Total(t)
    decreases |s|
  {
    if s == [] {
      assert |multiset(t)| == 0;
    } else {
      var n := |s| - 1;
      var front, back := Pull(s, t);
      TotalOfBag(s[..n], front + back);
      TotalAround(front, s[n], back);
    }
  }

  /** The identity depends on the files alone, not on the order they are listed in. */
  lemma IdentityOfBag(c: Rules, s: seq<Member>, t: seq<Member>)
    requires multiset(s) == multiset(t)
    ensures Identity(c, s) == Identity(c, t)
  {
    TotalOfBag(s, t);
    MapBag(s, t, (m: Member) => (m.filename, c.sha(m.content)));
    PairLeTotal();
    SortedIgnoresOrder(Digests(c, s), Digests(c, t), PairLe);
  }

  /** Hashes that tell contents and listings apart. */
  ghost predicate Telling(c: Rules) {
    && (forall x, y :: c.sha(x) == c.sha(y) ==> x == y)
    && (forall x, y :: c.fingerprint(x) == c.fingerprint(y) ==> x == y)
  }

  lemma SortedTells(a: seq<(string, string)>, b: seq<(string, string)>)
    requires Sorted(a, PairLe) == Sorted(b, PairLe)
    ensures multiset(a) == multiset(b)
  {
    PairLeTotal();
    SortedKeeps(a, PairLe);
    SortedKeeps(b, PairLe);
  }

  lemma DigestsTell(c: Rules, s: seq<Member>, t: seq<Member>)
    requires forall x, y :: c.sha(x) == c.sha(y) ==> x == y
    requires multiset(Digests(c, s)) == multiset(Digests(c, t))
    ensures multiset(s) == multiset(t)
  {
    var digest := (m: Member) => (m.filename, c.sha(m.content));
    forall x, y | x in s + t && y in s + t && digest(x) == digest(y) ensures x == y {
      assert x.filename == y.filename && x.content == y.content;
    }
    MapBagBack(s, t, digest);
  }

  /** With telling hashes two known identities are equal exactly when the files are. */
  lemma IdentityTells(c: Rules, s: seq<Member>, t: seq<Member>)
    requires Telling(c) && Identity(c, s).Some? && Identity(c, t).Some?
    ensures Identity(c, s) == Identity(c, t) <==> multiset(s) == multiset(t)
  {
    if multiset(s) == multiset(t) { IdentityOfBag(c, s, t); }
    if Identity(c, s) == Identity(c, t) {
      SortedTells(Digests(c, s), Digests(c, t));
      DigestsTell(c, s, t);
    }
  }

  // ---- The wheel and the installed package ----

  ghost predicate AllPlain(files: seq<Located>) { forall f :: f in files ==> Plain(f.place) }

  /** The archive holds these files of the package, in any order, beside directory entries and
      members of other packages. */
  ghost predicate BuiltFrom(c: Rules, archive: seq<Member>, shipped: seq<Located>) {
    && AllPlain(shipped)
    && multiset(Filter(archive, (m: Member) => InPackage(c, m))) == multiset(Packed(c, shipped))
  }

  lemma ChosenBag(c: Rules, archive: seq<Member>, shipped: seq<Located>)
    requires Proper(c) && BuiltFrom(c, archive, shipped)
    ensures multiset(Chosen(c, archive)) == multiset(Packed(c, InWheel(c, shipped)))
  {
    var inside, chosen := (m: Member) => InPackage(c, m), (m: Member) => Selected(c, m);
    ChosenPacked(c, shipped);
    forall m ensures multiset(Chosen(c, archive))[m] == multiset(Chosen(c, Packed(c, shipped)))[m] {
      FilterCount(archive, inside, m);
      FilterCount(archive, chosen, m);
      FilterCount(Packed(c, shipped), chosen, m);
    }
  }

  ghost predicate Undisputed(c: Rules, files: seq<Located>) { forall f :: f in files ==> !Disputed(c, f.place) }

  /** What the two walks hash. */
  function WheelFiles(c: Rules, archive: seq<Stored>): seq<Member> { Chosen(c, Contents(archive)) }

  function PackageFiles(c: Rules, package: Listing): seq<Member> { Packed(c, Installed(c, FilesIn(package, []))) }

  /** Caches and the package's own stamp aside, the shipped files are the installed ones. */
  ghost predicate SameContent(c: Rules, shipped: seq<Located>, package: Listing) {
    multiset(InWheel(c, shipped)) == multiset(InWheel(c, FilesIn(package, [])))
  }

  /** A wheel and a package that agree in the files a wheel is judged by, whatever caches and stamps
      either has beside them, are hashed alike exactly when the package has no disputed file; then
      they have one identity, known or not. */
  lemma SameIdentity(c: Rules, archive: seq<Stored>, shipped: seq<Located>, package: Listing)
    requires Proper(c) && BuiltFrom(c, Contents(archive), shipped)
    requires SameContent(c, shipped, package)
    ensures Undisputed(c, FilesIn(package, [])) <==>
            multiset(WheelFiles(c, archive)) == multiset(PackageFiles(c, package))
    ensures Undisputed(c, FilesIn(package, [])) ==>
      Identity(c, WheelFiles(c, archive)) == Identity(c, PackageFiles(c, package))
  {
    var files := FilesIn(package, []);
    var a, b := Packed(c, InWheel(c, files)), Packed(c, Installed(c, files));
    ChosenBag(c, Contents(archive), shipped);
    MapBag(InWheel(c, shipped), InWheel(c, files), (f: Located) => Member(Name(c, f.place), f.content));
    SameKept(c, files);
    assert |multiset(a)| == |InWheel(c, files)| && |multiset(b)| == |Installed(c, files)|;
    if Undisputed(c, files) { IdentityOfBag(c, WheelFiles(c, archive), b); }
  }

  /** A wheel with one file. */
  function OneFile(c: Rules, f: Located): seq<Stored> { [Stored(Member(Name(c, f.place), f.content), |f.content|)] }

  lemma OneChosen(c: Rules, m: Member)
    ensures Total(Chosen(c, [m])) <= |m.content|
  {
    FilterOne(m, (n: Member) => Selected(c, n));
    TotalNext([], m);
    assert [] + [m] == [m];
  }

  lemma OneInside(c: Rules, m: Member)
    requires InPackage(c, m)
    ensures Filter([m], (n: Member) => InPackage(c, n)) == [m]
  {
    FilterOne(m, (n: Member) => InPackage(c, n));
  }

  lemma OneFileBuilt(c: Rules, f: Located)
    requires Proper(c) && Plain(f.place)
    ensures BuiltFrom(c, Contents(OneFile(c, f)), [f])
    ensures Total(WheelFiles(c, OneFile(c, f))) <= |f.content|
  {
    var m := Member(Name(c, f.place), f.content);
    assert Contents(OneFile(c, f)) == [m] && Packed(c, [f]) == [m];
    OneChosen(c, m);
    assert InPackage(c, m) by { SelectedIs(c, f); }
    OneInside(c, m);
  }

  /** A package whose one file is disputed, and a wheel that ships it. */
  lemma OneDisputed(c: Rules, f: Located, package: Listing)
    requires Proper(c) && Plain(f.place) && Disputed(c, f.place) && FilesIn(package, []) == [f] && |f.content| <= BUDGET
    ensures Comparable(c, OneFile(c, f), [f], package) && SameContent(c, [f], package)
    ensures Total(WheelFiles(c, OneFile(c, f))) <= BUDGET && Total(PackageFiles(c, package)) <= BUDGET
    ensures !Undisputed(c, FilesIn(package, []))
  {
    OneFileBuilt(c, f);
    DisputedIs(c, f.place);
    FilterOne(f, (g: Located) => InstalledKeeps(c, g.place));
    assert Packed(c, []) == [];
    assert f in FilesIn(package, []);
  }

  /** A stamp inside a subdirectory of the package is disputed, whatever it holds. */
  lemma NestedStamp(c: Rules, sub: string, content: seq<Byte>)
    requires Proper(c) && Word(sub) && c.cache != c.stamp && c.cache != sub && |content| <= BUDGET
    ensures
      var package := Entry(sub, Dir(Entry(c.stamp, File(content), Empty)), Empty);
      var f := Located([sub, c.stamp], content);
      && Comparable(c, OneFile(c, f), [f], package) && SameContent(c, [f], package)
      && Total(WheelFiles(c, OneFile(c, f))) <= BUDGET && Total(PackageFiles(c, package)) <= BUDGET
      && !Undisputed(c, FilesIn(package, []))
  {
    var place := [sub, c.stamp];
    NestedFiles(c, sub, content);
    assert place[..1] == [sub] && Disputed(c, place);
    OneDisputed(c, Located(place, content), Entry(sub, Dir(Entry(c.stamp, File(content), Empty)), Empty));
  }

  lemma NestedFiles(c: Rules, sub: string, content: seq<Byte>)
    ensures FilesIn(Entry(sub, Dir(Entry(c.stamp, File(content), Empty)), Empty), []) ==
      [Located([sub, c.stamp], content)]
  {
    assert [] + [sub] == [sub] && [sub] + [c.stamp] == [sub, c.stamp];
    assert FilesIn(Entry(c.stamp, File(content), Empty), [sub]) == [Located([sub, c.stamp], content)];
  }

  lemma WordSplit(w: string, t: string, v: string, u: string)
    requires '/' !in w && '/' !in v && (t == "" || t[0] == '/') && (u == "" || u[0] == '/') && w + t == v + u
    ensures w == v && t == u
  {
    var s := w + t;
    assert forall i :: 0 <= i < |w| ==> s[i] == w[i] && w[i] in w;
    assert forall i :: 0 <= i < |v| ==> s[i] == v[i] && v[i] in v;
    assert (t == "" || s[|w|] == '/') && (u == "" || s[|v|] == '/');
    assert |w| == |v|;
    assert w == s[..|w|] && v == s[..|w|] && t == s[|w|..] && u == s[|w|..];
  }

  lemma FirstSplit(w: string, t: string, v: string, u: string)
    requires '/' !in w && '/' !in v && (t == "" || t[0] == '/') && (u == "" || u[0] == '/')
    requires "/" + w + t == "/" + v + u
    ensures w == v && t == u
  {
    assert ("/" + w + t)[1..] == w + t && ("/" + v + u)[1..] == v + u;
    WordSplit(w, t, v, u);
  }

  /** The archive name tells a plain place. */
  lemma {:induction false} SlashedTells(a: Place, b: Place)
    requires (forall w :: w in a + b ==> Word(w)) && Slashed(a) == Slashed(b)
    ensures a == b
    decreases |a|
  {
    if a != [] && b != [] {
      var t, u := Slashed(a[1..]), Slashed(b[1..]);
      assert a[0] in a + b && b[0] in a + b;
      FirstSplit(a[0], t, b[0], u);
      forall w | w in a[1..] + b[1..] ensures Word(w) { assert w in a + b; }
      SlashedTells(a[1..], b[1..]);
      assert a == [a[0]] + a[1..] && b == [b[0]] + b[1..];
    }
  }

  lemma PackedTells(c: Rules, s: seq<Located>, t: seq<Located>)
    requires AllPlain(s) && AllPlain(t) && multiset(Packed(c, s)) == multiset(Packed(c, t))
    ensures multiset(s) == multiset(t)
  {
    var pack := (f: Located) => Member(Name(c, f.place), f.content);
    forall x, y | x in s + t && y in s + t && pack(x) == pack(y) ensures x == y {
      assert Plain(x.place) && Plain(y.place);
      assert Name(c, x.place)[|c.package|..] == Slashed(x.place) && Name(c, y.place)[|c.package|..] == Slashed(y.place);
      SlashedTells(x.place, y.place);
    }
    MapBagBack(s, t, pack);
  }

  lemma {:induction false} FilterPlain(s: seq<Located>, keep: Located -> bool)
    requires AllPlain(s)
    ensures AllPlain(Filter(s, keep))
  {
    if s != [] { FilterPlain(s[..|s| - 1], keep); }
  }

  /** The two walks hash one bag exactly when the files they keep are one bag. */
  lemma SameFiles(c: Rules, archive: seq<Stored>, shipped: seq<Located>, package: Listing)
    requires Proper(c) && BuiltFrom(c, Contents(archive), shipped) && AllPlain(FilesIn(package, []))
    ensures multiset(WheelFiles(c, archive)) == multiset(PackageFiles(c, package)) <==>
            multiset(InWheel(c, shipped)) == multiset(Installed(c, FilesIn(package, [])))
  {
    var a, b := InWheel(c, shipped), Installed(c, FilesIn(package, []));
    ChosenBag(c, Contents(archive), shipped);
    FilterPlain(shipped, (f: Located) => WheelKeeps(c, f.place));
    FilterPlain(FilesIn(package, []), (f: Located) => InstalledKeeps(c, f.place));
    if multiset(a) == multiset(b) { MapBag(a, b, (f: Located) => Member(Name(c, f.place), f.content)); }
    if multiset(Packed(c, a)) == multiset(Packed(c, b)) { PackedTells(c, a, b); }
  }

  /** The names on both sides are ordinary: the wheel holds `shipped`, under plain places like the
      installed files'. */
  ghost predicate Comparable(c: Rules, archive: seq<Stored>, shipped: seq<Located>, package: Listing) {
    Proper(c) && BuiltFrom(c, Contents(archive), shipped) && AllPlain(FilesIn(package, []))
  }

  /** The package has the shipped files, caches and stamps aside, and no disputed one. */
  ghost predicate InstalledFrom(c: Rules, shipped: seq<Located>, package: Listing) {
    SameContent(c, shipped, package) && Undisputed(c, FilesIn(package, []))
  }

  /** Nothing disturbs the walks: no deadline passes, nothing fails, declared sizes are true. */
  ghost predicate Undisturbed(archive: seq<Stored>, late: nat -> bool, fails: nat -> bool) {
    (forall k :: !late(k) && !fails(k)) && forall e :: e in archive ==> e.size == |e.member.content|
  }

  /** The comparison an update makes of a release's wheel with the installed package. */
  method UpdateAvailable(c: Rules, archive: seq<Stored>, package: Listing, late: nat -> bool, fails: nat -> bool,
                         ghost shipped: seq<Located>)
    returns (target: Option<string>, installed: Option<string>, available: Option<bool>)
    ensures available == if target.Some? && installed.Some? then Some(target != installed) else None
    ensures Undisturbed(archive, late, fails) ==> (target == None <==> Total(WheelFiles(c, archive)) > BUDGET)
    ensures Undisturbed(archive, late, fails) ==> (installed == None <==> Total(PackageFiles(c, package)) > BUDGET)
    ensures Comparable(c, archive, shipped, package) && InstalledFrom(c, shipped, package) ==>
      Undisturbed(archive, late, fails) ==>
      target == installed && (available == None <==> Total(PackageFiles(c, package)) > BUDGET)
    ensures Telling(c) && Comparable(c, archive, shipped, package) && available.Some? ==>
      (available == Some(false) <==> multiset(InWheel(c, shipped)) == multiset(Installed(c, FilesIn(package, []))))
    ensures Telling(c) && Comparable(c, archive, shipped, package) && SameContent(c, shipped, package) ==>
      available.Some? ==> (available == Some(true) <==> !Undisputed(c, FilesIn(package, [])))
  {
    target := WheelContentIdentity(c, archive, late);
    installed := InstalledContentIdentity(c, package, fails);
    available := if target.Some? && installed.Some? then Some(target != installed) else None;
    if Comparable(c, archive, shipped, package) {
      if SameContent(c, shipped, package) { SameIdentity(c, archive, shipped, package); }
      if Telling(c) && available.Some? {
        IdentityTells(c, WheelFiles(c, archive), PackageFiles(c, package));
        SameFiles(c, archive, shipped, package);
      }
    }
  }
}
