/** Paths cut into components (libmixp/util.c, ixp_tokenize): delimiters are overwritten with NULs and
    the starts of the components collected, up to the length of the result array. */
module Tokenize {
  import opened Wire

  /** The components of s: the longest pieces without a delimiter that are not empty. */
  function Components(s: seq<u8>, d: u8): seq<seq<u8>>
    decreases |s|
  {
    if s == [] then []
    else if s[0] == d then Components(s[1..], d)
    else [s[..WordEnd(s, d)]] + Components(s[WordEnd(s, d)..], d)
  }

  function WordEnd(s: seq<u8>, d: u8): (n: nat)
    ensures n <= |s| && (n < |s| ==> s[n] == d) && forall i :: 0 <= i < n ==> s[i] != d
    ensures s != [] && s[0] != d ==> n > 0
  {
    if s == [] || s[0] == d then 0 else 1 + WordEnd(s[1..], d)
  }

  /** The C string at position p of b: up to the first NUL. */
  function StringAt(b: seq<u8>, p: nat): seq<u8>
    decreases |b| - p
  {
    if p >= |b| || b[p] == 0 then [] else [b[p]] + StringAt(b, p + 1)
  }

  lemma {:induction false} StringEnds(b: seq<u8>, p: nat, e: nat)
    requires p <= e < |b| && b[e] == 0 && forall k :: p <= k < e ==> b[k] != 0
    ensures StringAt(b, p) == b[p..e]
    decreases e - p
  {
    if p < e {
      StringEnds(b, p + 1, e);
      assert b[p..e] == [b[p]] + b[p + 1..e];
    }
  }

  // ---------- the partner: putting a path together ----------

  predicate IsName(w: seq<u8>, d: u8) {
    w != [] && d !in w
  }

  /** Each name behind n+1 delimiters, and some at the end. */
  function Path(ws: seq<seq<u8>>, gaps: seq<nat>, end: nat, d: u8): seq<u8>
    requires |ws| == |gaps|
  {
    if ws == [] then Run(end, d) else Run(gaps[0] + 1, d) + ws[0] + Path(ws[1..], gaps[1..], end, d)
  }

  function Run(n: nat, d: u8): seq<u8> {
    if n == 0 then [] else [d] + Run(n - 1, d)
  }

  lemma {:induction false} SkipRun(n: nat, s: seq<u8>, d: u8)
    ensures Components(Run(n, d) + s, d) == Components(s, d)
  {
    if n == 0 {
      assert Run(0, d) + s == s;
    } else {
      SkipRun(n - 1, s, d);
      assert (Run(n, d) + s)[1..] == Run(n - 1, d) + s;
    }
  }

  lemma {:induction false} WordThen(w: seq<u8>, s: seq<u8>, d: u8)
    requires d !in w && (s != [] ==> s[0] == d)
    ensures WordEnd(w + s, d) == |w|
  {
    if w == [] {
      assert w + s == s;
    } else {
      WordThen(w[1..], s, d);
      assert (w + s)[1..] == w[1..] + s;
    }
  }

  /** Whatever names are put into a path, with one or more delimiters before each and any number at the
      end, come out of it. */
  lemma {:induction false} ComponentsOfPath(ws: seq<seq<u8>>, gaps: seq<nat>, end: nat, d: u8)
    requires |ws| == |gaps| && forall i :: 0 <= i < |ws| ==> IsName(ws[i], d)
    ensures Components(Path(ws, gaps, end, d), d) == ws
  {
    if ws == [] {
      SkipRun(end, [], d);
      assert Run(end, d) + [] == Run(end, d);
    } else {
      var rest := Path(ws[1..], gaps[1..], end, d);
      ComponentsOfPath(ws[1..], gaps[1..], end, d);
      SkipRun(gaps[0] + 1, ws[0] + rest, d);
      assert Run(gaps[0] + 1, d) + ws[0] + rest == Run(gaps[0] + 1, d) + (ws[0] + rest);
      WordThen(ws[0], rest, d);
      assert (ws[0] + rest)[..|ws[0]|] == ws[0] && (ws[0] + rest)[|ws[0]|..] == rest;
    }
  }

  // ---------- in place ----------

  /** p is the end of the C string in b. */
  predicate Terminated(b: seq<u8>, n: nat) {
    n < |b| && b[n] == 0 && forall k :: 0 <= k < n ==> b[k] != 0
  }

  /** The words found so far: each at its start, and closed by a NUL unless it ends at p. */
  predicate Cut(b: seq<u8>, starts: seq<nat>, words: seq<seq<u8>>, p: nat) {
    && |starts| == |words| && p <= |b|
    && forall j :: 0 <= j < |words| ==> CutOne(b, starts[j], words[j], p)
  }

  predicate CutOne(b: seq<u8>, start: nat, w: seq<u8>, p: nat) {
    && start + |w| <= p <= |b| && b[start..start + |w|] == w && 0 !in w
    && (start + |w| < p ==> b[start + |w|] == 0)
  }

  /** while (*s == delim) *s++ = NUL */
  method Skip(str: array<u8>, d: u8, p: nat, ghost n: nat) returns (q: nat)
    requires d != 0 && p <= n < str.Length && str[n] == 0
    modifies str
    ensures p <= q <= n && str[..p] == old(str[..p]) && str[q..] == old(str[q..])
    ensures str[q] != d && (old(str[p]) == d ==> p < q) && (forall k :: p <= k < q ==> str[k] == 0)
    ensures Components(old(str[p..n]), d) == Components(old(str[q..n]), d)
  {
    q := p;
    ghost var b := str[..];
    while str[q] == d
      invariant p <= q <= n && str[..p] == b[..p] && str[q..] == b[q..]
      invariant forall k :: p <= k < q ==> str[k] == 0
      invariant Components(b[p..n], d) == Components(b[q..n], d)
      decreases n - q
    {
      assert str[q..][0] == b[q..][0] && str[q..][n - q] == b[q..][n - q];
      assert b[q..n][1..] == b[q + 1..n];
      TailsToo(str[..], b, q, q + 1);
      str[q] := 0;
      q := q + 1;
    }
    assert str[q..][n - q] == b[q..][n - q];
  }

  lemma TailsToo(a: seq<u8>, b: seq<u8>, i: nat, j: nat)
    requires i <= j <= |a| == |b| && a[i..] == b[i..]
    ensures a[j..] == b[j..]
  {
    assert a[i..][j - i..] == a[j..] && b[i..][j - i..] == b[j..];
  }

  /** while (*s && *s != delim) s++ */
  method Word(str: array<u8>, d: u8, p: nat, ghost n: nat) returns (q: nat)
    requires d != 0 && p <= n < str.Length && str[n] == 0 && forall k :: p <= k < n ==> str[k] != 0
    ensures p <= q <= n && q == p + WordEnd(str[p..n], d)
  {
    q := p;
    while str[q] != 0 && str[q] != d
      invariant p <= q <= n && WordEnd(str[p..n], d) == q - p + WordEnd(str[q..n], d)
      decreases n - q
    {
      assert str[q..n][1..] == str[q + 1..n];
      q := q + 1;
    }
  }

  /** Zeros from p to q close what ends at p. */
  lemma CutSkipped(b: seq<u8>, b': seq<u8>, starts: seq<nat>, words: seq<seq<u8>>, p: nat, q: nat)
    requires Cut(b, starts, words, p) && p <= q <= |b| == |b'| && b'[..p] == b[..p]
    requires forall k :: p <= k < q ==> b'[k] == 0
    ensures Cut(b', starts, words, q)
  {
    forall j | 0 <= j < |words| ensures CutOne(b', starts[j], words[j], q) {
      assert CutOne(b, starts[j], words[j], p);
      OneSkipped(b, b', starts[j], words[j], p, q);
    }
  }

  lemma OneSkipped(b: seq<u8>, b': seq<u8>, start: nat, w: seq<u8>, p: nat, q: nat)
    requires CutOne(b, start, w, p) && p <= q <= |b| == |b'| && b'[..p] == b[..p]
    requires forall k :: p <= k < q ==> b'[k] == 0
    ensures CutOne(b', start, w, q)
  {
    var e := start + |w|;
    assert b'[start..e] == b'[..p][start..e];
    assert b[start..e] == b[..p][start..e];
    if e < p {
      assert b'[e] == b'[..p][e] && b[e] == b[..p][e];
    }
  }

  lemma CutWord(b: seq<u8>, starts: seq<nat>, words: seq<seq<u8>>, p: nat, q: nat)
    requires Cut(b, starts, words, p) && p <= q <= |b| && forall k :: p <= k < q ==> b[k] != 0
    requires forall j :: 0 <= j < |words| ==> starts[j] + |words[j]| < p
    ensures Cut(b, starts + [p], words + [b[p..q]], q)
  {
    forall j | 0 <= j < |words| ensures CutOne(b, starts[j], words[j], q) {
      assert CutOne(b, starts[j], words[j], p);
    }
  }

  lemma OneComponent(s: seq<u8>, d: u8)
    requires s != [] && s[0] != d
    ensures Components(s, d) == [s[..WordEnd(s, d)]] + Components(s[WordEnd(s, d)..], d)
  {}

  /** Of the path s0[..n], the words found up to p are the first components; each is at its start, where
      the rest of the path has the rest of the components. */
  ghost predicate Placed(s0: seq<u8>, d: u8, n: nat, starts: seq<nat>, words: seq<seq<u8>>, p: nat) {
    && |starts| == |words| && p <= n < |s0|
    && Components(s0[..n], d) == words + Components(s0[p..n], d)
    && forall j :: 0 <= j < |words| ==> PlacedOne(s0, d, n, starts[j], words, j, p)
  }

  ghost predicate PlacedOne(s0: seq<u8>, d: u8, n: nat, start: nat, words: seq<seq<u8>>, j: nat, p: nat)
    requires j < |words| && p <= n < |s0|
  {
    && start + |words[j]| <= n && s0[start..start + |words[j]|] == words[j]
    && Components(s0[start..n], d) == words[j..] + Components(s0[p..n], d)
  }

  lemma PlacedSkips(s0: seq<u8>, d: u8, n: nat, starts: seq<nat>, words: seq<seq<u8>>, p: nat, q: nat)
    requires Placed(s0, d, n, starts, words, p) && q <= n && Components(s0[p..n], d) == Components(s0[q..n], d)
    ensures Placed(s0, d, n, starts, words, q)
  {
    forall j | 0 <= j < |words| ensures PlacedOne(s0, d, n, starts[j], words, j, q) {
      assert PlacedOne(s0, d, n, starts[j], words, j, p);
    }
  }

  lemma PlacedReads(s0: seq<u8>, d: u8, n: nat, starts: seq<nat>, words: seq<seq<u8>>, q: nat, e: nat)
    requires Placed(s0, d, n, starts, words, q) && q < e <= n
    requires Components(s0[q..n], d) == [s0[q..e]] + Components(s0[e..n], d)
    ensures Placed(s0, d, n, starts + [q], words + [s0[q..e]], e)
  {
    var rest := Components(s0[e..n], d);
    assert words + ([s0[q..e]] + rest) == words + [s0[q..e]] + rest;
    forall j | 0 <= j < |words| + 1
      ensures PlacedOne(s0, d, n, (starts + [q])[j], words + [s0[q..e]], j, e)
    {
      if j < |words| {
        assert PlacedOne(s0, d, n, starts[j], words, j, q);
        OneMore(words, s0[q..e], rest, j);
      }
    }
  }

  lemma OneMore(words: seq<seq<u8>>, w: seq<u8>, rest: seq<seq<u8>>, j: nat)
    requires j <= |words|
    ensures words[j..] + ([w] + rest) == (words + [w])[j..] + rest
  {}

  /** What holds between turns of the loop: s0 is the string as it was, and the text from p on is
      untouched. */
  ghost predicate Between(s0: seq<u8>, b: seq<u8>, d: u8, n: nat, starts: seq<nat>, words: seq<seq<u8>>, p: nat) {
    && p <= n < |b| == |s0| && b[p..] == s0[p..]
    && Cut(b, starts, words, p) && Placed(s0, d, n, starts, words, p)
    && (words != [] && p < n ==> s0[p] == d)
  }

  /** Between, and every word but the last is closed; the last ends at p while there is more to do. */
  ghost predicate Looping(s0: seq<u8>, b: seq<u8>, d: u8, n: nat, starts: seq<nat>, words: seq<seq<u8>>, p: nat,
                          reslen: nat)
  {
    && Between(s0, b, d, n, starts, words, p) && |words| <= reslen
    && (forall j :: 0 <= j < |words| - 1 ==> starts[j] + |words[j]| < p)
    && (words != [] && (|words| == reslen || p < n) ==> starts[|words| - 1] + |words[|words| - 1]| == p)
  }

  /** After the delimiters: the words are closed, unless there is nothing more to read. */
  ghost predicate Skipped(s0: seq<u8>, b: seq<u8>, d: u8, n: nat, starts: seq<nat>, words: seq<seq<u8>>, q: nat) {
    && q <= n < |b| == |s0| && b[q..] == s0[q..]
    && Cut(b, starts, words, q) && Placed(s0, d, n, starts, words, q)
    && (forall j :: 0 <= j < |words| ==> starts[j] + |words[j]| < q)
    && b[q] != d
  }

  lemma TurnSkips(s0: seq<u8>, b: seq<u8>, b': seq<u8>, d: u8, n: nat, starts: seq<nat>, words: seq<seq<u8>>,
                  p: nat, q: nat, reslen: nat)
    requires Looping(s0, b, d, n, starts, words, p, reslen) && p < n && p <= q <= n && |b| == |b'|
    requires b'[..p] == b[..p] && b'[q..] == b[q..] && forall k :: p <= k < q ==> b'[k] == 0
    requires b'[q] != d && (b[p] == d ==> p < q)
    requires Components(b[p..n], d) == Components(b[q..n], d)
    ensures Skipped(s0, b', d, n, starts, words, q)
  {
    CutSkipped(b, b', starts, words, p, q);
    TailsToo(b, s0, p, q);
    SameTail(b, s0, p, p, n);
    SameTail(b, s0, p, q, n);
    PlacedSkips(s0, d, n, starts, words, p, q);
    assert b[p] == s0[p] by {
      assert b[p..][0] == s0[p..][0];
    }
    forall j | 0 <= j < |words| ensures starts[j] + |words[j]| < q {
      assert CutOne(b, starts[j], words[j], p);
    }
  }

  lemma SameTail(a: seq<u8>, b: seq<u8>, p: nat, i: nat, j: nat)
    requires p <= i <= j <= |a| == |b| && a[p..] == b[p..]
    ensures a[i..j] == b[i..j]
  {
    forall k | i <= k < j ensures a[k] == b[k] {
      assert a[p..][k - p] == b[p..][k - p];
    }
  }

  /** The word at q of the path, and where it ends. */
  lemma WordAt(s0: seq<u8>, d: u8, n: nat, q: nat, e: nat)
    requires q < n < |s0| && s0[q] != d && e == q + WordEnd(s0[q..n], d)
    ensures q < e <= n && (e < n ==> s0[e] == d)
    ensures Components(s0[q..n], d) == [s0[q..e]] + Components(s0[e..n], d)
  {
    var t := s0[q..n];
    assert t[0] == s0[q];
    OneComponent(t, d);
    assert t[..e - q] == s0[q..e];
    assert t[e - q..] == s0[e..n];
    assert e < n ==> t[e - q] == s0[e];
  }

  lemma TurnReads(s0: seq<u8>, b: seq<u8>, d: u8, n: nat, starts: seq<nat>, words: seq<seq<u8>>, q: nat, e: nat)
    requires Skipped(s0, b, d, n, starts, words, q) && q < n && Terminated(s0, n)
    requires e == q + WordEnd(s0[q..n], d)
    ensures q < e && Between(s0, b, d, n, starts + [q], words + [s0[q..e]], e)
  {
    assert b[q..][0] == s0[q..][0];
    WordAt(s0, d, n, q, e);
    PlacedReads(s0, d, n, starts, words, q, e);
    SameTail(b, s0, q, q, e);
    TailsToo(b, s0, q, e);
    NonZeroTail(s0, b, n, q, e);
    CutWord(b, starts, words, q, e);
  }

  lemma NonZeroTail(s0: seq<u8>, b: seq<u8>, n: nat, q: nat, e: nat)
    requires Terminated(s0, n) && q <= e <= n < |b| == |s0| && b[q..] == s0[q..]
    ensures forall k :: q <= k < e ==> b[k] != 0
  {
    forall k | q <= k < e ensures b[k] != 0 {
      assert b[q..][k - q] == s0[q..][k - q];
    }
  }

  /** The j-th result is the start of the j-th component, where the rest of the path has the components
      from there on. As a C string it is that component; when the array is full the last result goes on to
      the end of the path. */
  predicate Found(s: seq<u8>, b: seq<u8>, d: u8, start: nat, j: nat, reslen: nat) {
    var cs := Components(s, d);
    && j < |cs| && start + |cs[j]| <= |s| && s[start..start + |cs[j]|] == cs[j]
    && Components(s[start..], d) == cs[j..]
    && StringAt(b, start) == if j + 1 < reslen then cs[j] else s[start..]
  }

  lemma {:induction false} ComponentsAreNames(s: seq<u8>, d: u8)
    ensures forall c :: c in Components(s, d) ==> IsName(c, d)
    decreases |s|
  {
    if s != [] {
      ComponentsAreNames(if s[0] == d then s[1..] else s[WordEnd(s, d)..], d);
    }
  }

  lemma {:induction false} NoComponents(s: seq<u8>, d: u8)
    ensures Components(s, d) == [] <==> forall i :: 0 <= i < |s| ==> s[i] == d
    decreases |s|
  {
    if s != [] && s[0] == d {
      NoComponents(s[1..], d);
      assert s == [d] + s[1..];
    }
  }

  /** A path that starts with the name c: nothing but delimiters follows exactly when c is all of it. */
  lemma NameThenRest(t: seq<u8>, c: seq<u8>, d: u8)
    requires IsName(c, d) && |c| <= |t| && t[..|c|] == c && t[0] != d && Components(t, d)[0] == c
    ensures t == c <==> |Components(t, d)| == 1 && t[|t| - 1] != d
  {
    OneComponent(t, d);
    var rest := t[|c|..];
    assert WordEnd(t, d) == |c|;
    NoComponents(rest, d);
    assert t == c + rest;
    if rest != [] {
      assert t[|t| - 1] == rest[|rest| - 1];
    } else {
      assert c[|c| - 1] in c;
    }
  }

  /** With a full array the last result is its component exactly when there are no more components and
      the path does not end with a delimiter. */
  lemma LastExact(s: seq<u8>, b: seq<u8>, d: u8, start: nat, reslen: nat)
    requires 0 < reslen && Found(s, b, d, start, reslen - 1, reslen)
    ensures StringAt(b, start) == Components(s, d)[reslen - 1] <==>
              |Components(s, d)| == reslen && s[|s| - 1] != d
  {
    var cs := Components(s, d);
    var c, t := cs[reslen - 1], s[start..];
    ComponentsAreNames(s, d);
    assert c in cs;
    assert t[..|c|] == c && c[0] in c && t[0] == c[0];
    assert Components(t, d)[0] == c && |Components(t, d)| == |cs| - (reslen - 1);
    NameThenRest(t, c, d);
    assert t[|t| - 1] == s[|s| - 1];
  }

  /** Each word is closed, or is the last and ends where the loop stopped. */
  lemma WordFound(s0: seq<u8>, b: seq<u8>, d: u8, n: nat, starts: seq<nat>, words: seq<seq<u8>>, p: nat, j: nat,
                  reslen: nat)
    requires Between(s0, b, d, n, starts, words, p) && Terminated(s0, n) && j < |words| <= reslen
    requires p == n || |words| == reslen
    requires starts[j] + |words[j]| < p || p == n || j + 1 == reslen
    requires j + 1 == reslen ==> starts[j] + |words[j]| == p
    ensures Found(s0[..n], b, d, starts[j], j, reslen)
  {
    var start, e := starts[j], starts[j] + |words[j]|;
    assert CutOne(b, start, words[j], p);
    PlacedFound(s0, d, n, starts, words, p, j);
    if j + 1 < reslen {
      NonZeroTail(s0, b, n, p, n);
      assert b[p..][n - p] == s0[p..][n - p];
      ClosedString(b, start, words[j], e);
    } else {
      OpenString(s0, b, n, start, e);
    }
  }

  lemma ClosedString(b: seq<u8>, start: nat, w: seq<u8>, e: nat)
    requires e == start + |w| < |b| && b[start..e] == w && 0 !in w && b[e] == 0
    ensures StringAt(b, start) == w
  {
    assert forall k :: start <= k < e ==> b[k] == w[k - start];
    StringEnds(b, start, e);
  }

  /** The word from start to e, with the text behind it untouched, is read on to the end of the path. */
  lemma OpenString(s0: seq<u8>, b: seq<u8>, n: nat, start: nat, e: nat)
    requires Terminated(s0, n) && start <= e <= n < |b| == |s0| && b[e..] == s0[e..] && b[start..e] == s0[start..e]
    ensures StringAt(b, start) == s0[..n][start..]
  {
    assert b[start..n] == b[start..e] + b[e..n];
    assert s0[start..n] == s0[start..e] + s0[e..n];
    SameTail(b, s0, e, e, n);
    assert b[start..n] == s0[start..n];
    forall k | start <= k < n ensures b[k] != 0 {
      assert b[start..n][k - start] == s0[start..n][k - start];
    }
    assert b[n] == s0[n] by {
      assert b[e..][n - e] == s0[e..][n - e];
    }
    StringEnds(b, start, n);
  }

  lemma PlacedFound(s0: seq<u8>, d: u8, n: nat, starts: seq<nat>, words: seq<seq<u8>>, p: nat, j: nat)
    requires Placed(s0, d, n, starts, words, p) && j < |words|
    ensures var s, cs := s0[..n], Components(s0[..n], d);
            && j < |cs| && cs[j] == words[j] && starts[j] + |cs[j]| <= |s|
            && s[starts[j]..starts[j] + |cs[j]|] == cs[j] && Components(s[starts[j]..], d) == cs[j..]
  {
    assert PlacedOne(s0, d, n, starts[j], words, j, p);
    assert s0[..n][starts[j]..] == s0[starts[j]..n];
    assert s0[..n][starts[j]..starts[j] + |words[j]|] == words[j];
    assert (words + Components(s0[p..n], d))[j..] == words[j..] + Components(s0[p..n], d);
  }

  lemma NextLooping(s0: seq<u8>, b: seq<u8>, d: u8, n: nat, starts: seq<nat>, words: seq<seq<u8>>, q: nat, e: nat,
                    reslen: nat)
    requires Skipped(s0, b, d, n, starts, words, q) && q < n && Terminated(s0, n)
    requires e == q + WordEnd(s0[q..n], d) && |words| < reslen
    ensures q < e && Looping(s0, b, d, n, starts + [q], words + [s0[q..e]], e, reslen)
  {
    TurnReads(s0, b, d, n, starts, words, q, e);
  }

  lemma LastLooping(s0: seq<u8>, b: seq<u8>, d: u8, n: nat, starts: seq<nat>, words: seq<seq<u8>>, reslen: nat)
    requires Skipped(s0, b, d, n, starts, words, n) && |words| < reslen
    ensures Looping(s0, b, d, n, starts, words, n, reslen)
  {}

  /** The first part of a turn. */
  method TurnSkip(str: array<u8>, d: u8, ghost n: nat, ghost s0: seq<u8>, ghost starts: seq<nat>,
                  ghost words: seq<seq<u8>>, ghost reslen: nat, s: nat) returns (q: nat)
    requires d != 0 && Terminated(s0, n) && s < n && Looping(s0, str[..], d, n, starts, words, s, reslen)
    modifies str
    ensures s <= q <= n && (s < q || q < n) && Skipped(s0, str[..], d, n, starts, words, q)
  {
    ghost var b := str[..];
    assert str[n] == 0 by { assert b[s..][n - s] == s0[s..][n - s]; }
    q := Skip(str, d, s, n);
    TurnSkips(s0, b, str[..], d, n, starts, words, s, q, reslen);
  }

  /** One turn of the outer loop. */
  method Turn(res: array<nat>, str: array<u8>, d: u8, ghost n: nat, ghost s0: seq<u8>, ghost words: seq<seq<u8>>,
              i: nat, s: nat)
    returns (i': nat, s': nat, ghost words': seq<seq<u8>>)
    requires d != 0 && Terminated(s0, n) && i < res.Length && i == |words| && s < n
    requires Looping(s0, str[..], d, n, res[..i], words, s, res.Length)
    modifies res, str
    ensures i' <= res.Length && i' == |words'| && s < s'
    ensures Looping(s0, str[..], d, n, res[..i'], words', s', res.Length)
  {
    var q := TurnSkip(str, d, n, s0, res[..i], words, res.Length, s);
    i', s', words' := TurnRead(res, str, d, n, s0, words, i, q);
  }

  /** The second part: what comes after the delimiters, if anything, is a component. */
  method TurnRead(res: array<nat>, str: array<u8>, d: u8, ghost n: nat, ghost s0: seq<u8>,
                  ghost words: seq<seq<u8>>, i: nat, q: nat)
    returns (i': nat, s': nat, ghost words': seq<seq<u8>>)
    requires d != 0 && Terminated(s0, n) && i < res.Length && i == |words|
    requires Skipped(s0, str[..], d, n, res[..i], words, q)
    modifies res
    ensures i' <= res.Length && i' == |words'| && q <= s' && (q < n ==> q < s')
    ensures Looping(s0, str[..], d, n, res[..i'], words', s', res.Length)
  {
    ghost var starts, b := res[..i], str[..];
    SkippedText(s0, b, d, n, starts, words, q);
    i' := i;
    if str[q] != 0 {
      res[i'] := q;
      i' := i' + 1;
    }
    s' := Word(str, d, q, n);
    words' := words;
    if q < n {
      assert res[..i'] == starts + [q];
      NextLooping(s0, b, d, n, starts, words, q, s', res.Length);
      words' := words + [s0[q..s']];
    } else {
      LastLooping(s0, b, d, n, starts, words, res.Length);
    }
  }

  lemma SkippedText(s0: seq<u8>, b: seq<u8>, d: u8, n: nat, starts: seq<nat>, words: seq<seq<u8>>, q: nat)
    requires Skipped(s0, b, d, n, starts, words, q) && Terminated(s0, n)
    ensures b[n] == 0 && (forall k :: q <= k < n ==> b[k] != 0) && b[q..n] == s0[q..n]
  {
    NonZeroTail(s0, b, n, q, n);
    SameTail(b, s0, q, q, n);
    assert b[q..][n - q] == s0[q..][n - q];
  }

  method Tokenize(res: array<nat>, str: array<u8>, d: u8, ghost n: nat) returns (i: nat)
    requires d != 0 && Terminated(str[..], n)
    modifies res, str
    ensures var cs := Components(old(str[..n]), d);
            i == (if |cs| < res.Length then |cs| else res.Length)
    ensures forall j :: 0 <= j < i ==> Found(old(str[..n]), str[..], d, res[j], j, res.Length)
  {
    ghost var s0 := str[..];
    ghost var words, s;
    i, words, s := Collect(res, str, d, n, s0);
    assert s0[..n] == old(str[..n]);
    AllFound(s0, str[..], d, n, res[..i], words, s, res.Length);
  }

  /** The loops. */
  method Collect(res: array<nat>, str: array<u8>, d: u8, ghost n: nat, ghost s0: seq<u8>)
    returns (i: nat, ghost words: seq<seq<u8>>, ghost p: nat)
    requires d != 0 && Terminated(s0, n) && s0 == str[..]
    modifies res, str
    ensures i <= res.Length && i == |words| && Looping(s0, str[..], d, n, res[..i], words, p, res.Length)
    ensures p == n || |words| == res.Length
  {
    i, words := 0, [];
    var s := 0;
    StartLooping(s0, d, n, res.Length);
    while i < res.Length && str[s] != 0
      invariant i <= res.Length && i == |words| && Looping(s0, str[..], d, n, res[..i], words, s, res.Length)
      decreases n - s
    {
      AtEnd(s0, str[..], n, s);
      i, s, words := Turn(res, str, d, n, s0, words, i, s);
    }
    AtEnd(s0, str[..], n, s);
    p := s;
  }

  lemma AtEnd(s0: seq<u8>, b: seq<u8>, n: nat, p: nat)
    requires Terminated(s0, n) && p <= n < |b| == |s0| && b[p..] == s0[p..]
    ensures b[p] == 0 <==> p == n
  {
    assert b[p] == b[p..][0] && s0[p] == s0[p..][0];
  }

  lemma StartLooping(s0: seq<u8>, d: u8, n: nat, reslen: nat)
    requires Terminated(s0, n)
    ensures Looping(s0, s0, d, n, [], [], 0, reslen)
  {
    assert s0[0..n] == s0[..n];
  }

  lemma AllFound(s0: seq<u8>, b: seq<u8>, d: u8, n: nat, starts: seq<nat>, words: seq<seq<u8>>, p: nat, reslen: nat)
    requires Looping(s0, b, d, n, starts, words, p, reslen) && Terminated(s0, n) && (p == n || |words| == reslen)
    ensures var cs := Components(s0[..n], d); |words| == (if |cs| < reslen then |cs| else reslen)
    ensures forall j :: 0 <= j < |words| ==> Found(s0[..n], b, d, starts[j], j, reslen)
  {
    assert p == n ==> Components(s0[p..n], d) == [];
    forall j | 0 <= j < |words| ensures Found(s0[..n], b, d, starts[j], j, reslen) {
      WordFound(s0, b, d, n, starts, words, p, j, reslen);
    }
  }
}
