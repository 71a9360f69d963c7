/** fuzzyMatch (packages/shared/src/fuzzyMatch.ts). The query and the text are given
    lower-cased; `raw` is the text as written, which the word tests look at. Lower
    casing is taken to keep the length. */
module Fuzzy {
  import opened Common

  datatype Result = Result(matches: bool, score: nat)

  /** An ASCII letter, a digit or an underscore. */
  predicate IsWord(c: char) {
    'a' <= c <= 'z' || 'A' <= c <= 'Z' || '0' <= c <= '9' || c == '_'
  }

  /** By code point: the digits, the capital letters, the low line and the small letters. */
  lemma WordCodes(c: char)
    ensures var code := c as int;
            IsWord(c) <==> 48 <= code <= 57 || 65 <= code <= 90 || code == 95 || 97 <= code <= 122
  {}

  predicate OccursAt(q: string, t: string, i: nat) {
    i + |q| <= |t| && t[i..i + |q|] == q
  }

  /** The query occurs in the text in one piece. */
  ghost predicate Substring(q: string, t: string) {
    exists i: nat :: OccursAt(q, t, i)
  }

  /** The first position, from i on, at which the query occurs. */
  function IndexOf(q: string, t: string, i: nat): (r: Option<nat>)
    requires i <= |t|
    ensures r.Some? ==> i <= r.value <= |t| && OccursAt(q, t, r.value) &&
                        forall j :: i <= j < r.value ==> !OccursAt(q, t, j)
    ensures r.None? ==> forall j :: i <= j ==> !OccursAt(q, t, j)
    decreases |t| - i
  {
    if OccursAt(q, t, i) then Some(i) else if i == |t| then None else IndexOf(q, t, i + 1)
  }

  function SubstringScore(q: string, raw: string, index: nat): nat
    requires index <= |raw|
  {
    200 + (if index == 0 then 100 else 0) + (if index > 0 && !IsWord(raw[index - 1]) then 50 else 0) + |q|
  }

  predicate WordStart(raw: string, ti: nat)
    requires ti < |raw|
  {
    ti == 0 || !IsWord(raw[ti - 1])
  }

  /** The sequential scan from a given state of its variables. */
  function Scan(q: string, t: string, raw: string, ti: nat, qi: nat, consecutive: nat, score: nat): Result
    requires ti <= |t| == |raw| && qi <= |q|
    decreases |t| - ti
  {
    if ti == |t| || qi == |q| then
      if qi < |q| then Result(false, 0) else Result(true, score)
    else if t[ti] == q[qi] then
      Scan(q, t, raw, ti + 1, qi + 1, consecutive + 1,
           score + (consecutive + 1) * 2 + if WordStart(raw, ti) then 10 else 0)
    else Scan(q, t, raw, ti + 1, qi, 0, score)
  }

  function Match(q: string, t: string, raw: string): Result
    requires |t| == |raw|
  {
    var i := IndexOf(q, t, 0);
    if i.Some? then Result(true, SubstringScore(q, raw, i.value)) else Scan(q, t, raw, 0, 0, 0, 0)
  }

  method FuzzyMatch(query: string, text: string, lower: char -> char) returns (r: Result)
    ensures r == Match(Lowered(query, lower), Lowered(text, lower), text)
  {
    var lowerQuery, lowerText := Lowered(query, lower), Lowered(text, lower);
    var found := IndexOf(lowerQuery, lowerText, 0);
    if found.Some? {
      var index := found.value;
      var prefixBonus := if index == 0 then 100 else 0;
      var wordBonus := if index > 0 && !IsWord(text[index - 1]) then 50 else 0;
      return Result(true, 200 + prefixBonus + wordBonus + |lowerQuery|);
    }
    var qi, score, consecutive, ti := 0, 0, 0, 0;
    while ti < |lowerText| && qi < |lowerQuery|
      invariant 0 <= ti <= |lowerText| && 0 <= qi <= |lowerQuery| && score >= 0 && consecutive >= 0
      invariant Scan(lowerQuery, lowerText, text, ti, qi, consecutive, score)
             == Scan(lowerQuery, lowerText, text, 0, 0, 0, 0)
    {
      if lowerText[ti] == lowerQuery[qi] {
        qi := qi + 1;
        consecutive := consecutive + 1;
        score := score + consecutive * 2;
        if ti == 0 || !IsWord(text[ti - 1]) {
          score := score + 10;
        }
      } else {
        consecutive := 0;
      }
      ti := ti + 1;
    }
    if qi < |lowerQuery| {
      return Result(false, 0);
    }
    r := Result(true, score);
  }

  function Lowered(s: string, lower: char -> char): (r: string)
    ensures |r| == |s|
  {
    seq(|s|, i requires 0 <= i < |s| => lower(s[i]))
  }

  // ---------- what counts as a match ----------

  predicate Increasing(at: seq<nat>) {
    forall i, j :: 0 <= i < j < |at| ==> at[i] < at[j]
  }

  predicate Picks(q: string, t: string, at: seq<nat>) {
    |at| == |q| && Increasing(at) && forall i :: 0 <= i < |at| ==> at[i] < |t| && t[at[i]] == q[i]
  }

  /** q can be read in t from left to right, skipping characters. */
  ghost predicate Subsequence(q: string, t: string) {
    exists at: seq<nat> :: Picks(q, t, at)
  }

  lemma SubsequenceDown(q: string, t: string, at: seq<nat>)
    requires q != "" && t != "" && Picks(q, t, at)
    ensures if q[0] == t[0] then Subsequence(q[1..], t[1..]) else Subsequence(q, t[1..])
  {
    assert forall i :: 0 < i < |at| ==> at[0] < at[i];
    if q[0] == t[0] {
      var rest := seq(|at| - 1, i requires 0 <= i < |at| - 1 => at[i + 1] - 1);
      assert Picks(q[1..], t[1..], rest);
    } else {
      var same := seq(|at|, i requires 0 <= i < |at| => at[i] - 1);
      assert Picks(q, t[1..], same);
    }
  }

  lemma SubsequenceUp(q: string, t: string, at: seq<nat>)
    requires q != "" && t != ""
    ensures q[0] == t[0] && Picks(q[1..], t[1..], at) ==> Subsequence(q, t)
    ensures Picks(q, t[1..], at) ==> Subsequence(q, t)
  {
    var shifted := seq(|at|, i requires 0 <= i < |at| => at[i] + 1);
    if q[0] == t[0] && Picks(q[1..], t[1..], at) {
      assert Picks(q, t, [0] + shifted);
    }
    if Picks(q, t[1..], at) {
      assert Picks(q, t, shifted);
    }
  }

  /** Picking the earliest occurrence every time loses nothing. */
  lemma SubsequenceStep(q: string, t: string)
    requires q != "" && t != ""
    ensures Subsequence(q, t) <==> if q[0] == t[0] then Subsequence(q[1..], t[1..]) else Subsequence(q, t[1..])
  {
    if at: seq<nat> :| Picks(q, t, at) {
      SubsequenceDown(q, t, at);
    }
    if at: seq<nat> :| Picks(q[1..], t[1..], at) {
      SubsequenceUp(q, t, at);
    }
    if at: seq<nat> :| Picks(q, t[1..], at) {
      SubsequenceUp(q, t, at);
    }
  }

  lemma {:induction false} ScanFindsSubsequence(q: string, t: string, raw: string, ti: nat, qi: nat, c: nat, score: nat)
    requires ti <= |t| == |raw| && qi <= |q|
    ensures Scan(q, t, raw, ti, qi, c, score).matches <==> Subsequence(q[qi..], t[ti..])
    decreases |t| - ti
  {
    if qi == |q| {
      assert Picks(q[qi..], t[ti..], []);
    } else if ti == |t| {
      assert forall at: seq<nat> :: Picks(q[qi..], t[ti..], at) ==> at[0] < 0;
    } else {
      SubsequenceStep(q[qi..], t[ti..]);
      assert q[qi..][1..] == q[qi + 1..] && t[ti..][1..] == t[ti + 1..];
      if t[ti] == q[qi] {
        ScanFindsSubsequence(q, t, raw, ti + 1, qi + 1, c + 1,
                             score + (c + 1) * 2 + if WordStart(raw, ti) then 10 else 0);
      } else {
        ScanFindsSubsequence(q, t, raw, ti + 1, qi, 0, score);
      }
    }
  }

  /** A match is reported exactly when the query is a subsequence of the text, and
      a non-match scores 0. */
  lemma MatchesExactlySubsequences(q: string, t: string, raw: string)
    requires |t| == |raw|
    ensures Match(q, t, raw).matches <==> Subsequence(q, t)
    ensures !Match(q, t, raw).matches ==> Match(q, t, raw).score == 0
  {
    var i := IndexOf(q, t, 0);
    if i.Some? {
      var at := seq(|q|, k requires 0 <= k < |q| => i.value + k);
      assert forall k :: 0 <= k < |q| ==> q[k] == t[i.value..i.value + |q|][k];
      assert Picks(q, t, at);
    } else {
      ScanFindsSubsequence(q, t, raw, 0, 0, 0, 0);
      assert q[0..] == q && t[0..] == t;
      ScanWithoutMatch(q, t, raw, 0, 0, 0, 0);
    }
  }

  lemma {:induction false} ScanWithoutMatch(q: string, t: string, raw: string, ti: nat, qi: nat, c: nat, score: nat)
    requires ti <= |t| == |raw| && qi <= |q|
    ensures !Scan(q, t, raw, ti, qi, c, score).matches ==> Scan(q, t, raw, ti, qi, c, score).score == 0
    decreases |t| - ti
  {
    if ti == |t| || qi == |q| {
    } else {
      if t[ti] == q[qi] {
        ScanWithoutMatch(q, t, raw, ti + 1, qi + 1, c + 1, score + (c + 1) * 2 + if WordStart(raw, ti) then 10 else 0);
      } else {
        ScanWithoutMatch(q, t, raw, ti + 1, qi, 0, score);
      }
    }
  }

  // ---------- the exact scores ----------

  /** A query found in one piece, first at i: 300 and its length at the start of the text,
      250 and its length at the start of a later word, 200 and its length elsewhere. */
  lemma SubstringScores(q: string, t: string, raw: string, i: nat)
    requires |t| == |raw| && OccursAt(q, t, i) && forall j :: 0 <= j < i ==> !OccursAt(q, t, j)
    ensures Match(q, t, raw)
         == Result(true, |q| + if i == 0 then 300 else if IsWord(raw[i - 1]) then 200 else 250)
  {}

  /** Each character of the query at the first place after the one before. */
  predicate Leftmost(q: string, t: string, at: seq<nat>) {
    Picks(q, t, at) &&
    (forall j :: 0 <= j < |t| && |at| > 0 && j < at[0] ==> t[j] != q[0]) &&
    forall k, j :: 1 <= k < |at| && at[k - 1] < j < at[k] ==> t[j] != q[k]
  }

  /** How many places in a row end with the k-th. */
  function InARow(at: seq<nat>, k: nat): nat
    requires k < |at|
  {
    if k > 0 && at[k] == at[k - 1] + 1 then InARow(at, k - 1) + 1 else 1
  }

  /** From the k-th place on: twice the length of the row so far, and ten at every start
      of a word. */
  function Points(at: seq<nat>, raw: string, k: nat): nat
    requires k <= |at| && forall i :: 0 <= i < |at| ==> at[i] < |raw|
    decreases |at| - k
  {
    if k == |at| then 0
    else 2 * InARow(at, k) + (if at[k] == 0 || !IsWord(raw[at[k] - 1]) then 10 else 0) + Points(at, raw, k + 1)
  }

  /** The scan stands at ti with qi characters found. */
  predicate Stands(q: string, t: string, at: seq<nat>, ti: nat, qi: nat, c: nat)
    requires Leftmost(q, t, at) && ti <= |t| && qi <= |q|
  {
    (qi > 0 ==> at[qi - 1] < ti) && (qi < |q| ==> ti <= at[qi]) &&
    c == if qi > 0 && at[qi - 1] == ti - 1 then InARow(at, qi - 1) else 0
  }

  lemma StandsNext(q: string, t: string, at: seq<nat>, ti: nat, qi: nat, c: nat)
    requires Leftmost(q, t, at) && ti < |t| && qi < |q| && Stands(q, t, at, ti, qi, c)
    ensures t[ti] == q[qi] <==> at[qi] == ti
    ensures if t[ti] == q[qi] then Stands(q, t, at, ti + 1, qi + 1, c + 1) && InARow(at, qi) == c + 1
            else Stands(q, t, at, ti + 1, qi, 0)
  {
    assert qi > 0 ==> at[qi - 1] < at[qi];
    assert qi + 1 < |q| ==> at[qi] < at[qi + 1];
  }

  lemma {:induction false} ScanPoints(q: string, t: string, raw: string, at: seq<nat>, ti: nat, qi: nat, c: nat,
                                      score: nat)
    requires Leftmost(q, t, at) && ti <= |t| == |raw| && qi <= |q| && Stands(q, t, at, ti, qi, c)
    ensures Scan(q, t, raw, ti, qi, c, score) == Result(true, score + Points(at, raw, qi))
    decreases |t| - ti
  {
    if qi < |q| {
      assert at[qi] < |t|;
      StandsNext(q, t, at, ti, qi, c);
      if t[ti] == q[qi] {
        ScanPoints(q, t, raw, at, ti + 1, qi + 1, c + 1, score + (c + 1) * 2 + if WordStart(raw, ti) then 10 else 0);
      } else {
        ScanPoints(q, t, raw, at, ti + 1, qi, 0, score);
      }
    }
  }

  /** Any other match scores the points of its leftmost places. */
  lemma ScatteredScores(q: string, t: string, raw: string, at: seq<nat>)
    requires |t| == |raw| && !Substring(q, t) && Leftmost(q, t, at)
    ensures Match(q, t, raw) == Result(true, Points(at, raw, 0))
  {
    ScanPoints(q, t, raw, at, 0, 0, 0, 0);
  }

  function Shifted(at: seq<nat>): (r: seq<nat>)
    ensures |r| == |at| && forall k :: 0 <= k < |at| ==> r[k] == at[k] + 1
  {
    seq(|at|, k requires 0 <= k < |at| => at[k] + 1)
  }

  lemma LeftmostSkips(q: string, t: string, at: seq<nat>)
    requires q != "" && t != "" && q[0] != t[0] && Leftmost(q, t[1..], at)
    ensures Leftmost(q, t, Shifted(at))
  {
    var r := Shifted(at);
    forall k, j | 1 <= k < |r| && r[k - 1] < j < r[k]
      ensures t[j] != q[k]
    {
      assert t[1..][j - 1] != q[k];
    }
    forall j | 0 <= j < r[0]
      ensures t[j] != q[0]
    {
      assert j > 0 ==> t[1..][j - 1] != q[0];
    }
  }

  /** The first place, then those of the rest. */
  predicate Prepends(r: seq<nat>, at: seq<nat>) {
    |r| == |at| + 1 && r[0] == 0 && forall k :: 1 <= k < |r| ==> r[k] == at[k - 1] + 1
  }

  lemma TakenPicks(q: string, t: string, at: seq<nat>, r: seq<nat>)
    requires q != "" && t != "" && q[0] == t[0] && Picks(q[1..], t[1..], at) && Prepends(r, at)
    ensures Picks(q, t, r)
  {
    forall k | 0 <= k < |r|
      ensures r[k] < |t| && t[r[k]] == q[k]
    {
      assert k > 0 ==> t[1..][at[k - 1]] == q[1..][k - 1];
    }
  }

  lemma LeftmostTakes(q: string, t: string, at: seq<nat>, r: seq<nat>)
    requires q != "" && t != "" && q[0] == t[0] && Leftmost(q[1..], t[1..], at) && Prepends(r, at)
    ensures Leftmost(q, t, r)
  {
    TakenPicks(q, t, at, r);
    forall k, j | 1 <= k < |r| && r[k - 1] < j < r[k]
      ensures t[j] != q[k]
    {
      assert t[1..][j - 1] != q[1..][k - 1];
    }
  }

  /** And whenever the query can be read in the text there are such places. */
  lemma {:induction false} LeftmostExists(q: string, t: string) returns (at: seq<nat>)
    requires Subsequence(q, t)
    ensures Leftmost(q, t, at)
  {
    if q == "" {
      at := [];
    } else {
      var other: seq<nat> :| Picks(q, t, other);
      assert other[0] < |t|;
      SubsequenceStep(q, t);
      if q[0] == t[0] {
        at := LeftmostExists(q[1..], t[1..]);
        LeftmostTakes(q, t, at, [0] + Shifted(at));
        at := [0] + Shifted(at);
      } else {
        at := LeftmostExists(q, t[1..]);
        LeftmostSkips(q, t, at);
        at := Shifted(at);
      }
    }
  }

  // ---------- how high a scattered match can score ----------

  /** 1 + 2 + ... + n */
  function Triangle(n: nat): nat {
    if n == 0 then 0 else Triangle(n - 1) + n
  }

  lemma {:induction false} TriangleClosed(n: nat)
    ensures 2 * Triangle(n) == n * (n + 1)
  {
    if n == 0 {
    } else {
      TriangleClosed(n - 1);
    }
  }

  lemma {:induction false} TriangleMonotone(m: nat, n: nat)
    requires m <= n
    ensures Triangle(m) <= Triangle(n)
  {
    if m == n {
    } else {
      TriangleMonotone(m, n - 1);
    }
  }

  /** Two runs score no more than one run of the same total length... */
  lemma {:induction false} RunsJoin(c: nat, d: nat)
    ensures Triangle(d) + Triangle(c) <= Triangle(c + d)
  {
    if c == 0 {
    } else {
      RunsJoin(c - 1, d);
    }
  }

  /** ...and, when both are non-empty, no more than runs of length c + d - 1 and 1. */
  lemma {:induction false} RunsAtMost(c: nat, d: nat)
    requires c >= 1 && d >= 1
    ensures Triangle(d) + Triangle(c) <= Triangle(c + d - 1) + 1
  {
    if c == 1 {
      assert Triangle(1) == 1;
    } else {
      RunsAtMost(c - 1, d);
    }
  }

  /** n matched characters, the last c of them in a row, score at most this. */
  function Ceiling(n: nat, c: nat): nat
    requires c <= n
  {
    2 * Triangle(n - c) + 2 * Triangle(c) + 10 * n
  }

  /** The most a match of n characters can score when it is not a substring:
      n * (n - 1) + 2 + 10 * n for n > 0. */
  function ScatteredCap(n: nat): nat {
    (if n == 0 then 0 else 2 * Triangle(n - 1) + 2) + 10 * n
  }

  /** The whole query matched, the last c characters in a row. */
  lemma BoundAtEnd(q: string, t: string, ti: nat, c: nat, score: nat)
    requires |q| <= ti <= |t| && 1 <= c <= |q| && !Substring(q, t) && score <= Ceiling(|q|, c)
    requires c == |q| ==> t[ti - |q|..ti] == q
    ensures score <= ScatteredCap(|q|)
  {
    if c == |q| {
      assert OccursAt(q, t, ti - |q|);
    } else {
      RunsAtMost(c, |q| - c);
    }
  }

  lemma CeilingAfterBreak(n: nat, c: nat)
    requires c <= n
    ensures Ceiling(n, c) <= Ceiling(n, 0)
  {
    RunsJoin(c, n - c);
  }

  /** The last c matches were in a row; if all were, they stand right before ti. */
  predicate Tracks(q: string, t: string, ti: nat, qi: nat, c: nat)
    requires ti <= |t| && qi <= |q|
  {
    c <= qi <= ti && (c == qi ==> t[ti - qi..ti] == q[..qi])
  }

  lemma TrackMatch(q: string, t: string, ti: nat, qi: nat, c: nat)
    requires ti < |t| && qi < |q| && Tracks(q, t, ti, qi, c) && t[ti] == q[qi]
    ensures Tracks(q, t, ti + 1, qi + 1, c + 1)
  {
    if c == qi {
      assert t[ti - qi..ti + 1] == t[ti - qi..ti] + [t[ti]];
    }
  }

  lemma TrackBreak(q: string, t: string, ti: nat, qi: nat, c: nat)
    requires ti < |t| && qi <= |q| && Tracks(q, t, ti, qi, c)
    ensures Tracks(q, t, ti + 1, qi, 0)
  {
    assert t[ti + 1 - 0..ti + 1] == q[..0];
  }

  lemma {:induction false} ScanBound(q: string, t: string, raw: string, ti: nat, qi: nat, c: nat, score: nat)
    requires ti <= |t| == |raw| && qi <= |q| && q != "" && !Substring(q, t)
    requires Tracks(q, t, ti, qi, c) && score <= Ceiling(qi, c)
    requires qi == |q| ==> c >= 1
    ensures Scan(q, t, raw, ti, qi, c, score).matches ==>
              Scan(q, t, raw, ti, qi, c, score).score <= ScatteredCap(|q|)
    decreases |t| - ti
  {
    if qi == |q| {
      assert q[..qi] == q;
      BoundAtEnd(q, t, ti, c, score);
    } else if ti < |t| {
      if t[ti] == q[qi] {
        var bonus := if WordStart(raw, ti) then 10 else 0;
        TrackMatch(q, t, ti, qi, c);
        ScanBound(q, t, raw, ti + 1, qi + 1, c + 1, score + (c + 1) * 2 + bonus);
      } else {
        CeilingAfterBreak(qi, c);
        TrackBreak(q, t, ti, qi, c);
        ScanBound(q, t, raw, ti + 1, qi, 0, score);
      }
    }
  }

  lemma SubstringBounds(q: string, t: string, raw: string)
    requires |t| == |raw| && Substring(q, t)
    ensures Match(q, t, raw).matches && 200 + |q| <= Match(q, t, raw).score <= 300 + |q|
  {
    var i: nat :| OccursAt(q, t, i);
  }

  lemma ScatteredBound(q: string, t: string, raw: string)
    requires |t| == |raw| && !Substring(q, t) && Match(q, t, raw).matches
    ensures q != "" && Match(q, t, raw).score <= ScatteredCap(|q|)
  {
    assert !OccursAt(q, t, 0);
    ScanBound(q, t, raw, 0, 0, 0, 0);
  }

  // ---------- substring matches first: up to ten characters ----------

  /** For queries of this length every substring match outscores every match that
      is not a substring. */
  ghost predicate SubstringsFirst(n: nat) {
    forall q: string, s: string, rawS: string, t: string, rawT: string ::
      |q| == n && |s| == |rawS| && |t| == |rawT| &&
      Substring(q, s) && !Substring(q, t) && Match(q, t, rawT).matches ==>
        Match(q, s, rawS).score > Match(q, t, rawT).score
  }

  function Dots(n: nat): (s: string)
    ensures |s| == n && forall i :: 0 <= i < n ==> s[i] == '.'
  {
    seq(n, i => '.')
  }

  /** k matched dots in a row, each at a word start. */
  lemma {:induction false} ScanDots(q: string, t: string, ti: nat, k: nat, c: nat, score: nat)
    requires ti + k <= |t| && c + k <= |q| && ti == c
    requires forall i :: ti <= i < ti + k ==> t[i] == '.'
    requires forall i :: 0 <= i < |q| ==> q[i] == '.'
    requires ti == 0 || !IsWord(t[ti - 1])
    ensures Triangle(c) <= Triangle(c + k)
    ensures Scan(q, t, t, ti, c, c, score)
         == Scan(q, t, t, ti + k, c + k, c + k, score + 2 * (Triangle(c + k) - Triangle(c)) + 10 * k)
    decreases k
  {
    if k == 0 {
    } else {
      TriangleMonotone(c + 1, c + k);
      ScanDots(q, t, ti + 1, k - 1, c + 1, score + (c + 1) * 2 + 10);
    }
  }

  lemma DotsAfterLetter(n: nat)
    requires n >= 1
    ensures var s := "a" + Dots(n); Substring(Dots(n), s) && Match(Dots(n), s, s).score == 200 + n
  {
    var q, s := Dots(n), "a" + Dots(n);
    assert s[1..1 + n] == q;
    assert OccursAt(q, s, 1);
    assert s[0..n][0] == 'a';
    assert !OccursAt(q, s, 0);
    assert IndexOf(q, s, 0) == Some(1);
  }

  /** All dots but the last in a row, then the last one: the cap is reached. */
  lemma DotsSplit(n: nat)
    requires n >= 2
    ensures var t := Dots(n - 1) + "-."; !Substring(Dots(n), t) && Match(Dots(n), t, t) == Result(true, ScatteredCap(n))
  {
    var q, t := Dots(n), Dots(n - 1) + "-.";
    forall i: nat
      ensures !OccursAt(q, t, i)
    {
      if i + n <= |t| {
        assert t[i..i + n][n - 1 - i] == t[n - 1] == '-';
      }
    }
    ScanDots(q, t, 0, n - 1, 0, 0);
    var x := 2 * Triangle(n - 1) + 10 * (n - 1);
    assert Scan(q, t, t, 0, 0, 0, 0) == Scan(q, t, t, n - 1, n - 1, n - 1, x);
    assert Scan(q, t, t, n - 1, n - 1, n - 1, x) == Scan(q, t, t, n, n - 1, 0, x);
    assert t[n] == '.' && WordStart(t, n);
    assert Scan(q, t, t, n, n - 1, 0, x) == Scan(q, t, t, n + 1, n, 1, x + 12);
  }

  lemma ShortQueriesRank(q: string, s: string, rawS: string, t: string, rawT: string)
    requires |q| <= 10 && |s| == |rawS| && |t| == |rawT|
    requires Substring(q, s) && !Substring(q, t) && Match(q, t, rawT).matches
    ensures Match(q, s, rawS).score > Match(q, t, rawT).score
  {
    SubstringBounds(q, s, rawS);
    ScatteredBound(q, t, rawT);
    TriangleMonotone(|q| - 1, 9);
    TriangleClosed(9);
  }

  lemma LongQueriesDoNot(n: nat)
    requires n >= 11
    ensures !SubstringsFirst(n)
  {
    var q, s, t := Dots(n), "a" + Dots(n), Dots(n - 1) + "-.";
    DotsAfterLetter(n);
    DotsSplit(n);
    TriangleMonotone(10, n - 1);
    TriangleClosed(10);
    assert Match(q, s, s).score < Match(q, t, t).score;
  }

  /** Substring matches always rank first for queries of up to ten characters, and
      not for any longer length. */
  lemma SubstringsFirstUpToTen(n: nat)
    ensures SubstringsFirst(n) <==> n <= 10
  {
    if n <= 10 {
      forall q: string, s: string, rawS: string, t: string, rawT: string |
        |q| == n && |s| == |rawS| && |t| == |rawT| &&
        Substring(q, s) && !Substring(q, t) && Match(q, t, rawT).matches
        ensures Match(q, s, rawS).score > Match(q, t, rawT).score
      {
        ShortQueriesRank(q, s, rawS, t, rawT);
      }
    } else {
      LongQueriesDoNot(n);
    }
  }
}
