/** Host paths in a text: the rewrite of every path-like token, as the leftmost greedy substitution
    it is. */
module Redaction {
  import opened Basics

  const MARKER: string := "<host-path>"
  const SHORTEST_PROSE_BOUND: nat := 128

  predicate Separator(c: char) { c == '/' || c == '\\' }

  /** Characters that end a path token; no separator is among them. */
  predicate Delimiter(c: char) { Whitespace(c) || c in "'\"`()[]{},;=:" }

  predicate HasSeparator(t: string) { exists i :: 0 <= i < |t| && Separator(t[i]) }

  predicate SeparatorIn(t: string, p: nat, q: nat) { exists i :: p <= i < q && i < |t| && Separator(t[i]) }

  type Ends = d: char -> bool | !d('/') && !d('\\') witness ((c: char) => false)

  function TokenEnd(t: string, d: Ends, p: nat): (j: nat)
    requires p <= |t|
    ensures p <= j <= |t| && (forall k :: p <= k < j ==> !d(t[k])) && (j < |t| ==> d(t[j]))
    decreases |t| - p
  {
    if p == |t| || d(t[p]) then p else TokenEnd(t, d, p + 1)
  }

  /** Where the piece at `p` ends: a delimiter alone, or a whole token. */
  function PieceEnd(t: string, d: Ends, p: nat): (n: nat)
    requires p < |t|
    ensures p < n <= |t|
  {
    if d(t[p]) then p + 1 else TokenEnd(t, d, p)
  }

  /** From position `p` on, every token that contains a separator becomes `m`, all else is kept. */
  function SubstituteFrom(t: string, d: Ends, m: string, p: nat): string
    requires p <= |t|
    decreases |t| - p
  {
    if p == |t| then "" else
    var n := PieceEnd(t, d, p);
    (if SeparatorIn(t, p, n) then m else t[p..n]) + SubstituteFrom(t, d, m, n)
  }

  /** `redact_host_paths` */
  function RedactText(t: string): string {
    var r := SubstituteFrom(t, Delimiter, MARKER, 0);
    var bound := if |t| >= SHORTEST_PROSE_BOUND then |t| else SHORTEST_PROSE_BOUND;
    if |r| <= bound then r else r[..bound]
  }

  // ---- Leftmost and greedy ----

  /** The next match of the path expression from `p` on: the first token with a separator, which
      cannot be extended on either side. */
  ghost predicate NextMatch(t: string, d: Ends, p: nat, i: nat, j: nat) {
    && p <= i < j <= |t| && (forall k :: i <= k < j ==> !d(t[k])) && (i > p ==> d(t[i - 1])) && (j < |t| ==> d(t[j]))
    && SeparatorIn(t, i, j) && !SeparatorIn(t, p, i)
  }

  /** There is only one next match: the token around the first separator. */
  lemma OneMatch(t: string, d: Ends, p: nat, i: nat, j: nat, k: nat, l: nat)
    requires NextMatch(t, d, p, i, j) && NextMatch(t, d, p, k, l)
    ensures i == k && j == l
  {
    var x :| i <= x < j && x < |t| && Separator(t[x]);
    var y :| k <= y < l && y < |t| && Separator(t[y]);
    assert i <= y && k <= x;
  }

  /** Every text with a separator has a match: the token around the first one. */
  lemma MatchExists(t: string, d: Ends, p: nat) returns (i: nat, j: nat)
    requires SeparatorIn(t, p, |t|)
    ensures NextMatch(t, d, p, i, j)
  {
    var x := p;
    while !Separator(t[x])
      invariant p <= x < |t| && SeparatorIn(t, x, |t|) && !SeparatorIn(t, p, x)
      decreases |t| - x
    {
      x := x + 1;
    }
    i, j := x, TokenEnd(t, d, x);
    while i > p && !d(t[i - 1])
      invariant p <= i <= x && forall k :: i <= k < x ==> !d(t[k])
    {
      i := i - 1;
    }
  }

  /** A piece with a separator is the next match. */
  lemma PieceMatches(t: string, d: Ends, p: nat)
    requires p < |t| && SeparatorIn(t, p, PieceEnd(t, d, p))
    ensures NextMatch(t, d, p, p, PieceEnd(t, d, p))
  {
  }

  /** A match lies wholly behind a piece without a separator. */
  lemma MatchBehind(t: string, d: Ends, p: nat, i: nat, j: nat)
    requires p < |t| && NextMatch(t, d, p, i, j) && !SeparatorIn(t, p, PieceEnd(t, d, p))
    ensures NextMatch(t, d, PieceEnd(t, d, p), i, j)
  {
    var n := PieceEnd(t, d, p);
    var x :| i <= x < j && x < |t| && Separator(t[x]);
    assert n <= x;
    assert n < |t| && !d(t[p]) ==> d(t[n]);
    assert n <= i;
  }

  lemma KeptThen(t: string, p: nat, n: nat, i: nat, m: string, rest: string)
    requires p <= n <= i <= |t|
    ensures t[p..n] + (t[n..i] + m + rest) == t[p..i] + m + rest
  {
    assert t[p..n] + t[n..i] == t[p..i];
  }

  /** The substitution is leftmost and greedy, as the regular expression is: the text up to the
      next match is kept, the match is replaced, and the rest is substituted likewise. */
  lemma {:induction false} LeftmostGreedy(t: string, d: Ends, m: string, p: nat, i: nat, j: nat)
    requires NextMatch(t, d, p, i, j)
    ensures SubstituteFrom(t, d, m, p) == t[p..i] + m + SubstituteFrom(t, d, m, j)
    decreases |t| - p
  {
    var n := PieceEnd(t, d, p);
    if SeparatorIn(t, p, n) {
      PieceMatches(t, d, p);
      OneMatch(t, d, p, p, n, i, j);
      assert t[p..p] + m == m;
    } else {
      MatchBehind(t, d, p, i, j);
      LeftmostGreedy(t, d, m, n, i, j);
      KeptThen(t, p, n, i, m, SubstituteFrom(t, d, m, j));
    }
  }

  lemma {:induction false} CleanKept(t: string, d: Ends, m: string, p: nat)
    requires p <= |t| && !SeparatorIn(t, p, |t|)
    ensures SubstituteFrom(t, d, m, p) == t[p..]
    decreases |t| - p
  {
    if p < |t| {
      var n := PieceEnd(t, d, p);
      CleanKept(t, d, m, n);
      assert t[p..n] + t[n..] == t[p..];
    }
  }

  /** What the substitution does to any text: what has no separator is kept, and anything else has
      exactly one next match, up to which it is kept and after which it is substituted likewise. */
  lemma SubstitutesMatches(t: string, d: Ends, m: string, p: nat)
    requires p <= |t|
    ensures !SeparatorIn(t, p, |t|) ==> SubstituteFrom(t, d, m, p) == t[p..]
    ensures SeparatorIn(t, p, |t|) ==> exists i: nat, j: nat :: NextMatch(t, d, p, i, j)
    ensures forall i: nat, j: nat :: NextMatch(t, d, p, i, j) ==>
      SubstituteFrom(t, d, m, p) == t[p..i] + m + SubstituteFrom(t, d, m, j)
    ensures forall i: nat, j: nat, k: nat, l: nat :: NextMatch(t, d, p, i, j) && NextMatch(t, d, p, k, l) ==>
      i == k && j == l
  {
    if SeparatorIn(t, p, |t|) { var i, j := MatchExists(t, d, p); } else { CleanKept(t, d, m, p); }
    forall i: nat, j: nat | NextMatch(t, d, p, i, j)
      ensures SubstituteFrom(t, d, m, p) == t[p..i] + m + SubstituteFrom(t, d, m, j)
    {
      LeftmostGreedy(t, d, m, p, i, j);
    }
    forall i: nat, j: nat, k: nat, l: nat | NextMatch(t, d, p, i, j) && NextMatch(t, d, p, k, l)
      ensures i == k && j == l
    {
      OneMatch(t, d, p, i, j, k, l);
    }
  }

  // ---- Nothing is left ----

  lemma SeparatorConcat(a: string, b: string)
    ensures HasSeparator(a + b) <==> HasSeparator(a) || HasSeparator(b)
  {
    forall i | 0 <= i < |a| ensures (a + b)[i] == a[i] { }
    forall i | 0 <= i < |b| ensures (a + b)[|a| + i] == b[i] { }
  }

  lemma SeparatorSlice(t: string, p: nat, q: nat)
    requires p <= q <= |t|
    ensures HasSeparator(t[p..q]) <==> SeparatorIn(t, p, q)
  {
    forall i | p <= i < q ensures t[p..q][i - p] == t[i] { }
  }

  lemma {:induction false} SubstituteLeavesNone(t: string, d: Ends, m: string, p: nat)
    requires p <= |t| && !HasSeparator(m)
    ensures !HasSeparator(SubstituteFrom(t, d, m, p))
    decreases |t| - p
  {
    if p < |t| {
      var n := PieceEnd(t, d, p);
      SubstituteLeavesNone(t, d, m, n);
      SeparatorSlice(t, p, n);
      SeparatorConcat(if SeparatorIn(t, p, n) then m else t[p..n], SubstituteFrom(t, d, m, n));
    }
  }

  /** After redaction no separator is left, the text is within its bound, and a text without a
      separator is untouched. */
  lemma RedactTextClean(t: string)
    ensures !HasSeparator(RedactText(t))
    ensures |RedactText(t)| <= if |t| >= 128 then |t| else 128
    ensures !HasSeparator(t) ==> RedactText(t) == t
    ensures '/' !in RedactText(t) && '\\' !in RedactText(t)
    ensures '/' !in t && '\\' !in t ==> RedactText(t) == t
  {
    assert !HasSeparator(MARKER);
    SubstituteLeavesNone(t, Delimiter, MARKER, 0);
    assert t[0..] == t;
    if !HasSeparator(t) { CleanKept(t, Delimiter, MARKER, 0); }
  }

  // ---- The redacted text ----

  /** From `p` on, `r` is the text with each successive path token replaced and all else kept. */
  ghost predicate Rewritten(t: string, p: nat, r: string)
    requires p <= |t|
    decreases |t| - p
  {
    if !SeparatorIn(t, p, |t|) then r == t[p..] else
    exists i: nat, j: nat, rest ::
      NextMatch(t, Delimiter, p, i, j) && r == t[p..i] + "<host-path>" + rest && Rewritten(t, j, rest)
  }

  lemma {:induction false} SubstitutedIsRewritten(t: string, p: nat, r: string)
    requires p <= |t|
    ensures Rewritten(t, p, r) <==> r == SubstituteFrom(t, Delimiter, MARKER, p)
    decreases |t| - p
  {
    if !SeparatorIn(t, p, |t|) {
      CleanKept(t, Delimiter, MARKER, p);
    } else {
      var i, j := MatchExists(t, Delimiter, p);
      var rest := SubstituteFrom(t, Delimiter, MARKER, j);
      LeftmostGreedy(t, Delimiter, MARKER, p, i, j);
      SubstitutedIsRewritten(t, j, rest);
      forall k: nat, l: nat, other | NextMatch(t, Delimiter, p, k, l) && Rewritten(t, l, other)
        ensures k == i && l == j && other == rest
      {
        OneMatch(t, Delimiter, p, i, j, k, l);
        SubstitutedIsRewritten(t, j, other);
      }
    }
  }

  /** Cut to the longer of 128 and the original's length. */
  function CutTo(t: string, r: string): string {
    var bound := if |t| > 128 then |t| else 128;
    if |r| > bound then r[..bound] else r
  }

  /** The redacted text is the one rewriting of the text, cut to the longer of its length and 128. */
  lemma RedactTextIs(t: string, r: string)
    requires Rewritten(t, 0, r)
    ensures RedactText(t) == CutTo(t, r)
  {
    SubstitutedIsRewritten(t, 0, r);
  }

  lemma RewritingExists(t: string)
    ensures exists r :: Rewritten(t, 0, r)
  {
    SubstitutedIsRewritten(t, 0, SubstituteFrom(t, Delimiter, MARKER, 0));
  }

  /** What stands around a path: white space, quotes, brackets, `,`, `;`, `=` and `:`. */
  predicate Edge(c: char) {
    || Whitespace(c) || c == '\'' || c == '"' || c == '`' || c == '(' || c == ')' || c == '[' || c == ']' || c == '{'
    || c == '}' || c == ',' || c == ';' || c == '=' || c == ':'
  }

  lemma EdgeIs(c: char)
    ensures Edge(c) <==> Delimiter(c)
  {
  }

  lemma RewriteAround(front: string, path: string, back: string, t: string)
    requires t == front + path + back && NextMatch(t, Delimiter, 0, |front|, |front| + |path|)
    requires !SeparatorIn(t, |front| + |path|, |t|)
    ensures Rewritten(t, 0, front + "<host-path>" + back)
  {
    var j := |front| + |path|;
    assert t[0..|front|] == front && t[j..] == back;
    assert Rewritten(t, j, back);
  }

  lemma PathMatches(a: string, x: char, path: string, y: char, b: string, d: Ends, t: string)
    requires !HasSeparator(a) && !HasSeparator(b) && HasSeparator(path) && d(x) && d(y)
    requires t == a + [x] + path + ([y] + b) && forall i :: 0 <= i < |path| ==> !d(path[i])
    ensures var i, j := |a| + 1, |a| + 1 + |path|; NextMatch(t, d, 0, i, j) && !SeparatorIn(t, j, |t|)
  {
    var i, j := |a| + 1, |a| + 1 + |path|;
    assert forall k :: i <= k < j ==> t[k] == path[k - i];
    assert forall k :: 0 <= k < |a| ==> t[k] == a[k];
    assert forall k :: j < k < |t| ==> t[k] == b[k - j - 1];
    assert t[i - 1] == x && t[j] == y;
    var k :| 0 <= k < |path| && Separator(path[k]);
    assert Separator(t[i + k]);
  }

  /** A path between two edges: what is before it, the edges and what is after it are kept, and it is
      replaced whole. */
  lemma PathReplaced(a: string, x: char, path: string, y: char, b: string)
    requires !HasSeparator(a) && !HasSeparator(b) && HasSeparator(path) && Edge(x) && Edge(y)
    requires forall i :: 0 <= i < |path| ==> !Edge(path[i])
    ensures var t := a + [x] + path + ([y] + b); RedactText(t) == CutTo(t, a + [x] + "<host-path>" + ([y] + b))
  {
    EdgeIs(x);
    EdgeIs(y);
    forall k | 0 <= k < |path| ensures !Delimiter(path[k]) { EdgeIs(path[k]); }
    var t := a + [x] + path + ([y] + b);
    PathMatches(a, x, path, y, b, Delimiter, t);
    RewriteAround(a + [x], path, [y] + b, t);
    RedactTextIs(t, a + [x] + "<host-path>" + ([y] + b));
  }

  /** `key=` before a path and `:line` after it are kept. */
  lemma KeyAndLineKept(key: string, path: string, line: string)
    requires !HasSeparator(key) && !HasSeparator(line) && HasSeparator(path)
    requires forall i :: 0 <= i < |path| ==> !Edge(path[i])
    ensures var t := key + "=" + path + (":" + line);
      RedactText(t) == CutTo(t, key + "=" + "<host-path>" + (":" + line))
  {
    PathReplaced(key, '=', path, ':', line);
  }
}
