/** Python's `sorted` over strings and over tuples of strings: the lexicographic order by
    code point, and sorting as the one ascending listing of a bag. */
module Ordering {

  /** `a < b` for Python strings. */
  predicate StrLt(a: string, b: string) {
    b != [] && (a == [] || a[0] < b[0] || (a[0] == b[0] && StrLt(a[1..], b[1..])))
  }

  predicate StrLe(a: string, b: string) {
    a == b || StrLt(a, b)
  }

  /** `a <= b` for Python pairs of strings. */
  predicate PairLe(a: (string, string), b: (string, string)) {
    StrLt(a.0, b.0) || (a.0 == b.0 && StrLe(a.1, b.1))
  }

  lemma {:induction false} StrLtTransitive(a: string, b: string, c: string)
    requires StrLt(a, b) && StrLt(b, c)
    ensures StrLt(a, c)
  {
    if a != [] && a[0] == b[0] && b[0] == c[0] {
      StrLtTransitive(a[1..], b[1..], c[1..]);
    }
  }

  lemma {:induction false} StrTrichotomy(a: string, b: string)
    ensures StrLt(a, b) || a == b || StrLt(b, a)
    ensures !(StrLt(a, b) && StrLt(b, a))
    ensures StrLt(a, b) ==> a != b
  {
    if a != [] && b != [] {
      StrTrichotomy(a[1..], b[1..]);
      assert a == [a[0]] + a[1..] && b == [b[0]] + b[1..];
    }
  }

  /** The strings agree before `n`, where the first ends or has the smaller code point. */
  predicate Smaller(a: string, b: string, n: nat) {
    n <= |a| && n < |b| && a[..n] == b[..n] && (n == |a| || a[n] < b[n])
  }

  lemma SmallerHead(a: string, b: string, n: nat)
    requires Smaller(a, b, n)
    ensures n == 0 || (a != [] && a[0] == b[0])
  {
    if n > 0 { assert a[..n][0] == a[0] && b[..n][0] == b[0]; }
  }

  lemma {:induction false} StrLtIs(a: string, b: string)
    ensures StrLt(a, b) <==> exists n: nat :: Smaller(a, b, n)
  {
    if a == [] || b == [] || a[0] != b[0] {
      if StrLt(a, b) { assert Smaller(a, b, 0); }
      forall n: nat | Smaller(a, b, n) ensures n == 0 { SmallerHead(a, b, n); }
    } else {
      StrLtIs(a[1..], b[1..]);
      if n: nat :| Smaller(a[1..], b[1..], n) {
        assert a[..n + 1] == [a[0]] + a[1..][..n] && b[..n + 1] == [b[0]] + b[1..][..n];
        assert Smaller(a, b, n + 1);
      }
      forall n: nat | Smaller(a, b, n) ensures n > 0 && Smaller(a[1..], b[1..], n - 1) {
        assert a[1..][..n - 1] == a[..n][1..] && b[1..][..n - 1] == b[..n][1..];
      }
    }
  }

  lemma PairLeIs(a: (string, string), b: (string, string))
    ensures PairLe(a, b) <==>
      (exists n: nat :: Smaller(a.0, b.0, n)) || (a.0 == b.0 && (a.1 == b.1 || exists n: nat :: Smaller(a.1, b.1, n)))
  {
    StrLtIs(a.0, b.0);
    StrLtIs(a.1, b.1);
  }

  /** What a sort key gives: any two elements compare, and comparison is transitive. */
  ghost predicate Preorder<T(!new)>(le: (T, T) -> bool) {
    && (forall x, y :: le(x, y) || le(y, x))
    && (forall x, y, z :: le(x, y) && le(y, z) ==> le(x, z))
  }

  ghost predicate TotalOrder<T(!new)>(le: (T, T) -> bool) {
    Preorder(le) && forall x, y :: le(x, y) && le(y, x) ==> x == y
  }

  lemma StrLeTotal()
    ensures TotalOrder(StrLe)
  {
    forall x, y ensures StrLe(x, y) || StrLe(y, x) { StrTrichotomy(x, y); }
    forall x, y | StrLe(x, y) && StrLe(y, x) ensures x == y { StrTrichotomy(x, y); }
    forall x, y, z | StrLe(x, y) && StrLe(y, z) ensures StrLe(x, z) {
      if x != y && y != z { StrLtTransitive(x, y, z); }
    }
  }

  lemma PairLeTotal()
    ensures TotalOrder(PairLe)
  {
    StrLeTotal();
    forall x, y ensures PairLe(x, y) || PairLe(y, x) { StrTrichotomy(x.0, y.0); }
    forall x, y | PairLe(x, y) && PairLe(y, x) ensures x == y {
      StrTrichotomy(x.0, y.0);
      StrTrichotomy(x.1, y.1);
    }
    forall x, y, z | PairLe(x, y) && PairLe(y, z) ensures PairLe(x, z) {
      if StrLt(x.0, y.0) && StrLt(y.0, z.0) { StrLtTransitive(x.0, y.0, z.0); }
      if x.0 == y.0 && y.0 == z.0 { assert StrLe(x.1, z.1); }
    }
  }

  ghost predicate Ascending<T>(s: seq<T>, le: (T, T) -> bool) {
    forall i, j :: 0 <= i < j < |s| ==> le(s[i], s[j])
  }

  lemma AscendingConcat<T>(a: seq<T>, b: seq<T>, le: (T, T) -> bool)
    requires Ascending(a, le) && Ascending(b, le)
    requires forall x, y :: x in a && y in b ==> le(x, y)
    ensures Ascending(a + b, le)
  {
    forall i, j | 0 <= i < j < |a + b| ensures le((a + b)[i], (a + b)[j]) {
      if i < |a| <= j { assert a[i] in a && b[j - |a|] in b; }
    }
  }

  function Insert<T>(x: T, s: seq<T>, le: (T, T) -> bool): seq<T> {
    if s == [] || le(x, s[0]) then [x] + s else [s[0]] + Insert(x, s[1..], le)
  }

  function Sorted<T>(s: seq<T>, le: (T, T) -> bool): seq<T> {
    if s == [] then [] else Insert(s[0], Sorted(s[1..], le), le)
  }

  lemma {:induction false} InsertBag<T>(x: T, s: seq<T>, le: (T, T) -> bool)
    ensures multiset(Insert(x, s, le)) == multiset(s) + multiset{x}
  {
    if s != [] && !le(x, s[0]) {
      InsertBag(x, s[1..], le);
      assert s == [s[0]] + s[1..];
    }
  }

  lemma AscendingCons<T>(x: T, s: seq<T>, le: (T, T) -> bool)
    requires Ascending(s, le) && forall y :: y in s ==> le(x, y)
    ensures Ascending([x] + s, le)
  {
    forall i, j | 0 <= i < j < |[x] + s| ensures le(([x] + s)[i], ([x] + s)[j]) { assert s[j - 1] in s; }
  }

  lemma AscendingTail<T>(s: seq<T>, le: (T, T) -> bool)
    requires s != [] && Ascending(s, le)
    ensures Ascending(s[1..], le) && forall y :: y in s[1..] ==> le(s[0], y)
  {
  }

  lemma {:induction false} InsertAscends<T(!new)>(x: T, s: seq<T>, le: (T, T) -> bool)
    requires Preorder(le) && Ascending(s, le)
    ensures Ascending(Insert(x, s, le), le)
  {
    if s == [] {
    } else if le(x, s[0]) {
      AscendingTail(s, le);
      forall y | y in s ensures le(x, y) { assert y == s[0] || y in s[1..]; }
      AscendingCons(x, s, le);
    } else {
      AscendingTail(s, le);
      InsertAscends(x, s[1..], le);
      InsertBag(x, s[1..], le);
      var rest := Insert(x, s[1..], le);
      forall y | y in rest ensures le(s[0], y) { assert y in multiset(rest); }
      AscendingCons(s[0], rest, le);
    }
  }

  lemma {:induction false} SortedKeeps<T(!new)>(s: seq<T>, le: (T, T) -> bool)
    requires Preorder(le)
    ensures multiset(Sorted(s, le)) == multiset(s)
    ensures Ascending(Sorted(s, le), le)
  {
    if s != [] {
      SortedKeeps(s[1..], le);
      InsertBag(s[0], Sorted(s[1..], le), le);
      InsertAscends(s[0], Sorted(s[1..], le), le);
      assert s == [s[0]] + s[1..];
    }
  }

  lemma SameMembers<T>(s: seq<T>, t: seq<T>)
    requires multiset(s) == multiset(t)
    ensures |s| == |t| && forall x :: x in s <==> x in t
  {
    assert |multiset(s)| == |multiset(t)|;
    forall x ensures x in s <==> x in t { assert x in multiset(s) <==> x in multiset(t); }
  }

  /** `sorted` returns the same bag in ascending order. */
  lemma SortedIsSorted<T(!new)>(s: seq<T>, le: (T, T) -> bool)
    requires Preorder(le)
    ensures multiset(Sorted(s, le)) == multiset(s)
    ensures Ascending(Sorted(s, le), le)
    ensures |Sorted(s, le)| == |s|
    ensures forall x :: x in Sorted(s, le) <==> x in s
  {
    SortedKeeps(s, le);
    SameMembers(Sorted(s, le), s);
  }

  lemma SameHead<T(!new)>(s: seq<T>, t: seq<T>, le: (T, T) -> bool)
    requires TotalOrder(le) && Ascending(s, le) && Ascending(t, le)
    requires multiset(s) == multiset(t) && s != [] && t != []
    ensures s[0] == t[0]
  {
    SameMembers(s, t);
    assert s[0] in t && t[0] in s;
    assert le(s[0], t[0]) && le(t[0], s[0]);
  }

  lemma SameTail<T>(s: seq<T>, t: seq<T>)
    requires s != [] && t != [] && s[0] == t[0] && multiset(s) == multiset(t)
    ensures multiset(s[1..]) == multiset(t[1..])
  {
    assert s == [s[0]] + s[1..] && t == [t[0]] + t[1..];
    assert multiset(s[1..]) == multiset(s) - multiset{s[0]};
  }

  /** An ascending listing is determined by its bag. */
  lemma {:induction false} AscendingUnique<T(!new)>(s: seq<T>, t: seq<T>, le: (T, T) -> bool)
    requires TotalOrder(le) && Ascending(s, le) && Ascending(t, le)
    requires multiset(s) == multiset(t)
    ensures s == t
  {
    SameMembers(s, t);
    if s != [] {
      SameHead(s, t, le);
      SameTail(s, t);
      AscendingTail(s, le);
      AscendingTail(t, le);
      AscendingUnique(s[1..], t[1..], le);
      assert s == [s[0]] + s[1..] && t == [t[0]] + t[1..];
    }
  }

  /** The order in which the elements were listed does not show in the sorted list. */
  lemma SortedIgnoresOrder<T(!new)>(s: seq<T>, t: seq<T>, le: (T, T) -> bool)
    requires TotalOrder(le)
    requires multiset(s) == multiset(t)
    ensures Sorted(s, le) == Sorted(t, le)
  {
    SortedIsSorted(s, le);
    SortedIsSorted(t, le);
    AscendingUnique(Sorted(s, le), Sorted(t, le), le);
  }

  lemma {:induction false} OnceEach<T, K>(s: seq<T>, f: T -> K, x: T)
    requires forall i, j :: 0 <= i < j < |s| ==> f(s[i]) != f(s[j])
    ensures multiset(s)[x] <= 1
  {
    if s != [] {
      assert s == [s[0]] + s[1..];
      OnceEach(s[1..], f, x);
      assert s[0] !in s[1..] by {
        forall j | 0 <= j < |s[1..]| ensures s[1..][j] != s[0] { assert f(s[0]) != f(s[j + 1]); }
      }
    }
  }

  /** Elements with distinct keys have distinct keys in any other listing of the same bag. */
  lemma DistinctInAnyListing<T, K>(s: seq<T>, t: seq<T>, f: T -> K)
    requires multiset(s) == multiset(t)
    requires forall i, j :: 0 <= i < j < |s| ==> f(s[i]) != f(s[j])
    ensures forall i, j :: 0 <= i < j < |t| ==> f(t[i]) != f(t[j])
  {
    forall i, j | 0 <= i < j < |t| ensures f(t[i]) != f(t[j]) {
      OnceEach(s, f, t[i]);
      assert t == t[..i] + [t[i]] + t[i + 1..j] + [t[j]] + t[j + 1..];
      assert t[i] != t[j];
      assert t[i] in multiset(s) && t[j] in multiset(s);
      var a :| 0 <= a < |s| && s[a] == t[i];
      var b :| 0 <= b < |s| && s[b] == t[j];
      assert f(s[a]) != f(s[b]);
    }
  }

  lemma Cancel<T>(a: multiset<T>, b: multiset<T>, c: multiset<T>, x: T)
    requires a + multiset{x} == b + multiset{x} + c
    ensures a == b + c
  {
    assert a == a + multiset{x} - multiset{x};
    assert b + c == b + multiset{x} + c - multiset{x};
  }

  /** A listing of the same bag has the last element somewhere. */
  lemma Pull<T>(s: seq<T>, t: seq<T>) returns (front: seq<T>, back: seq<T>)
    requires s != [] && multiset(s) == multiset(t)
    ensures t == front + [s[|s| - 1]] + back && multiset(s[..|s| - 1]) == multiset(front + back)
  {
    var n := |s| - 1;
    assert s[n] in multiset(t);
    var j :| 0 <= j < |t| && t[j] == s[n];
    front, back := t[..j], t[j + 1..];
    assert s == s[..n] + [s[n]] && t == front + [t[j]] + back;
    Cancel(multiset(s[..n]), multiset(front), multiset(back), s[n]);
  }

  function Map<A, B>(s: seq<A>, f: A -> B): seq<B> { seq(|s|, i requires 0 <= i < |s| => f(s[i])) }

  lemma MapAround<A, B>(a: seq<A>, x: A, b: seq<A>, f: A -> B)
    ensures multiset(Map(a + [x] + b, f)) == multiset(Map(a + b, f)) + multiset{f(x)}
  {
    assert Map(a + [x] + b, f) == Map(a, f) + [f(x)] + Map(b, f);
    assert Map(a + b, f) == Map(a, f) + Map(b, f);
  }

  /** Mapping two listings of one bag gives two listings of one bag. */
  lemma {:induction false} MapBag<A, B>(s: seq<A>, t: seq<A>, f: A -> B)
    requires multiset(s) == multiset(t)
    ensures multiset(Map(s, f)) == multiset(Map(t, f))
    decreases |s|
  {
    if s == [] {
      assert |multiset(t)| == 0;
    } else {
      var n := |s| - 1;
      var front, back := Pull(s, t);
      MapBag(s[..n], front + back, f);
      MapAround(front, s[n], back, f);
      MapAround(s[..n], s[n], [], f);
      assert s == s[..n] + [s[n]] + [] && s[..n] + [] == s[..n];
    }
  }

  lemma {:induction false} MapCount<A, B>(s: seq<A>, f: A -> B, x: A)
    requires forall y :: y in s && f(y) == f(x) ==> y == x
    ensures multiset(Map(s, f))[f(x)] == multiset(s)[x]
  {
    if s != [] {
      var n := |s| - 1;
      MapCount(s[..n], f, x);
      assert s == s[..n] + [s[n]] && Map(s, f) == Map(s[..n], f) + [f(s[n])];
    }
  }

  /** And back, if the mapping tells the elements apart. */
  lemma MapBagBack<A(!new), B>(s: seq<A>, t: seq<A>, f: A -> B)
    requires forall x, y :: x in s + t && y in s + t && f(x) == f(y) ==> x == y
    requires multiset(Map(s, f)) == multiset(Map(t, f))
    ensures multiset(s) == multiset(t)
  {
    forall x | x in s + t ensures multiset(s)[x] == multiset(t)[x] {
      MapCount(s, f, x);
      MapCount(t, f, x);
    }
    forall x ensures multiset(s)[x] == multiset(t)[x] {
      if x !in s + t { assert x !in multiset(s) && x !in multiset(t); }
    }
  }

  function Filter<T>(s: seq<T>, keep: T -> bool): seq<T> {
    if s == [] then [] else
    var n := |s| - 1;
    Filter(s[..n], keep) + if keep(s[n]) then [s[n]] else []
  }

  lemma {:induction false} FilterConcat<T>(a: seq<T>, b: seq<T>, keep: T -> bool)
    ensures Filter(a + b, keep) == Filter(a, keep) + Filter(b, keep)
    decreases |b|
  {
    if b == [] {
      assert a + b == a;
    } else {
      var n := |b| - 1;
      assert (a + b)[..|a + b| - 1] == a + b[..n];
      FilterConcat(a, b[..n], keep);
      var last := if keep(b[n]) then [b[n]] else [];
      assert Filter(a, keep) + Filter(b[..n], keep) + last == Filter(a, keep) + (Filter(b[..n], keep) + last);
    }
  }

  lemma FilterOne<T>(x: T, keep: T -> bool)
    ensures Filter([x], keep) == if keep(x) then [x] else []
  {
    assert [x][..0] == [];
  }

  lemma {:induction false} FilterCount<T>(s: seq<T>, keep: T -> bool, x: T)
    ensures multiset(Filter(s, keep))[x] == if keep(x) then multiset(s)[x] else 0
  {
    if s != [] {
      var n := |s| - 1;
      FilterCount(s[..n], keep, x);
      assert s == s[..n] + [s[n]];
    }
  }

  /** The first element kept. */
  lemma {:induction false} FilterFirst<T>(s: seq<T>, keep: T -> bool) returns (i: nat)
    requires Filter(s, keep) != []
    ensures i < |s| && keep(s[i]) && s[i] == Filter(s, keep)[0] && forall j :: 0 <= j < i ==> !keep(s[j])
  {
    var n := |s| - 1;
    if Filter(s[..n], keep) != [] {
      i := FilterFirst(s[..n], keep);
    } else {
      i := n;
      forall j | 0 <= j < n ensures !keep(s[j]) {
        FilterCount(s[..n], keep, s[j]);
        assert s[j] == s[..n][j] && s[j] in multiset(s[..n]);
      }
    }
  }

  lemma FilterBag<T(!new)>(a: seq<T>, b: seq<T>, keep: T -> bool)
    requires multiset(a) == multiset(b)
    ensures multiset(Filter(a, keep)) == multiset(Filter(b, keep))
  {
    forall x ensures multiset(Filter(a, keep))[x] == multiset(Filter(b, keep))[x] {
      FilterCount(a, keep, x);
      FilterCount(b, keep, x);
    }
  }

  /** Filtering commutes with renaming when the two tests agree. */
  lemma {:induction false} FilterMap<A, B>(s: seq<A>, f: A -> B, keep: A -> bool, chosen: B -> bool)
    requires forall x :: x in s ==> chosen(f(x)) == keep(x)
    ensures Filter(Map(s, f), chosen) == Map(Filter(s, keep), f)
  {
    if s != [] {
      var n := |s| - 1;
      FilterMap(s[..n], f, keep, chosen);
      assert s[n] in s && Map(s, f)[..n] == Map(s[..n], f) && Map(s, f)[n] == f(s[n]);
      MapConcat(Filter(s[..n], keep), if keep(s[n]) then [s[n]] else [], f);
    }
  }

  lemma MapConcat<A, B>(a: seq<A>, b: seq<A>, f: A -> B)
    ensures Map(a + b, f) == Map(a, f) + Map(b, f)
  {
  }
}
