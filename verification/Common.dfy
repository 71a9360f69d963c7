/** What the modules share: options, users and times, and the vocabulary of the
    queries: counting rows and taking the first of them. */
module Common {

  type User = string
  type Time = nat

  datatype Option<+T> = None | Some(value: T)

  /** At most the first n rows. */
  function First<T>(s: seq<T>, n: nat): seq<T> {
    if |s| <= n then s else s[..n]
  }

  /** How many rows satisfy p. */
  function Count<T>(s: seq<T>, p: T -> bool): nat {
    if s == [] then 0 else Count(s[..|s| - 1], p) + Bit(p(s[|s| - 1]))
  }

  function Bit(b: bool): nat {
    if b then 1 else 0
  }

  lemma {:induction false} CountAppend<T>(s: seq<T>, x: T, p: T -> bool)
    ensures Count(s + [x], p) == Count(s, p) + Bit(p(x))
  {
    assert (s + [x])[..|s|] == s;
  }

  /** Rewriting one row changes a count by what that row contributed. */
  lemma {:induction false} CountUpdate<T>(s: seq<T>, i: nat, x: T, p: T -> bool)
    requires i < |s|
    ensures Count(s[i := x], p) + Bit(p(s[i])) == Count(s, p) + Bit(p(x))
  {
    var n := |s| - 1;
    if i == n {
      assert s[i := x][..n] == s[..n];
    } else {
      assert s[i := x][..n] == s[..n][i := x];
      CountUpdate(s[..n], i, x, p);
    }
  }

  lemma {:induction false} CountAgree<T>(s: seq<T>, r: seq<T>, p: T -> bool, q: T -> bool)
    requires |s| == |r|
    requires forall i :: 0 <= i < |s| ==> p(s[i]) == q(r[i])
    ensures Count(s, p) == Count(r, q)
  {
    if s == [] {
    } else {
      CountAgree(s[..|s| - 1], r[..|s| - 1], p, q);
    }
  }

  lemma {:induction false} CountLe<T>(s: seq<T>, p: T -> bool, q: T -> bool)
    requires forall i :: 0 <= i < |s| && p(s[i]) ==> q(s[i])
    ensures Count(s, p) <= Count(s, q)
  {
    if s == [] {
    } else {
      CountLe(s[..|s| - 1], p, q);
    }
  }

  lemma {:induction false} CountPositive<T>(s: seq<T>, p: T -> bool, i: nat)
    requires i < |s| && p(s[i])
    ensures Count(s, p) > 0
  {
    if i == |s| - 1 {
    } else {
      CountPositive(s[..|s| - 1], p, i);
    }
  }

  lemma {:induction false} CountNone<T>(s: seq<T>, p: T -> bool)
    requires forall i :: 0 <= i < |s| ==> !p(s[i])
    ensures Count(s, p) == 0
  {
    if s == [] {
    } else {
      CountNone(s[..|s| - 1], p);
    }
  }
}
