/** ComputeDMHash (server/internal/channel/repository.go): sort the participant
    ids, join them with ":" and digest the result. */
module DmHash {

  /** SHA-256, taken to be collision-free: a digest is its preimage. */
  datatype Digest = Digest(preimage: string)

  /** The order of sort.Strings. */
  predicate AtMost(a: string, b: string) {
    a == "" || (b != "" && (a[0] < b[0] || (a[0] == b[0] && AtMost(a[1..], b[1..]))))
  }

  predicate Sorted(s: seq<string>) {
    forall i, j :: 0 <= i < j < |s| ==> AtMost(s[i], s[j])
  }

  function Insert(s: seq<string>, x: string): seq<string> {
    if s == [] then [x]
    else if AtMost(x, s[0]) then [x] + s
    else [s[0]] + Insert(s[1..], x)
  }

  function Sort(s: seq<string>): seq<string> {
    if s == [] then [] else Insert(Sort(s[1..]), s[0])
  }

  /** The strings in order, with one colon between neighbours. */
  function Join(s: seq<string>): string {
    if |s| == 0 then "" else if |s| == 1 then s[0] else s[0] + ":" + Join(s[1..])
  }

  function ComputeDMHash(userIDs: seq<string>): Digest {
    Digest(Join(Sort(userIDs)))
  }

  predicate ValidId(id: string) {
    id != "" && ':' !in id
  }

  predicate ValidIds(ids: seq<string>) {
    forall i :: 0 <= i < |ids| ==> ValidId(ids[i])
  }

  // ---------- the order ----------

  lemma {:induction false} AtMostTotal(a: string, b: string)
    ensures AtMost(a, b) || AtMost(b, a)
  {
    if a != "" && b != "" && a[0] == b[0] {
      AtMostTotal(a[1..], b[1..]);
    }
  }

  lemma {:induction false} AtMostAntisymmetric(a: string, b: string)
    requires AtMost(a, b) && AtMost(b, a)
    ensures a == b
  {
    if a != "" && b != "" {
      AtMostAntisymmetric(a[1..], b[1..]);
      assert a == [a[0]] + a[1..] && b == [b[0]] + b[1..];
    }
  }

  lemma {:induction false} AtMostTransitive(a: string, b: string, c: string)
    requires AtMost(a, b) && AtMost(b, c)
    ensures AtMost(a, c)
  {
    if a != "" && a[0] == b[0] == c[0] {
      AtMostTransitive(a[1..], b[1..], c[1..]);
    }
  }

  // ---------- sorting is canonical ----------

  lemma {:induction false} InsertKeeps(s: seq<string>, x: string)
    ensures multiset(Insert(s, x)) == multiset(s) + multiset{x}
  {
    if s == [] {
    } else {
      assert s == [s[0]] + s[1..];
      InsertKeeps(s[1..], x);
    }
  }

  lemma InsertedIsOld(s: seq<string>, x: string, j: nat)
    requires j < |Insert(s, x)|
    ensures Insert(s, x)[j] == x || Insert(s, x)[j] in s
  {
    InsertKeeps(s, x);
    assert Insert(s, x)[j] in multiset(Insert(s, x));
  }

  lemma {:induction false} InsertSorts(s: seq<string>, x: string)
    requires Sorted(s)
    ensures Sorted(Insert(s, x))
  {
    if s == [] {
    } else if AtMost(x, s[0]) {
      forall j | 0 <= j < |s|
        ensures AtMost(x, s[j])
      {
        if j > 0 {
          AtMostTransitive(x, s[0], s[j]);
        }
      }
    } else {
      var rest := Insert(s[1..], x);
      AtMostTotal(x, s[0]);
      InsertSorts(s[1..], x);
      forall j | 0 <= j < |rest|
        ensures AtMost(s[0], rest[j])
      {
        InsertedIsOld(s[1..], x, j);
      }
    }
  }

  lemma {:induction false} SortSorts(s: seq<string>)
    ensures Sorted(Sort(s)) && multiset(Sort(s)) == multiset(s)
  {
    if s == [] {
    } else {
      SortSorts(s[1..]);
      InsertSorts(Sort(s[1..]), s[0]);
      InsertKeeps(Sort(s[1..]), s[0]);
      assert s == [s[0]] + s[1..];
    }
  }

  lemma SortedHeadsAgree(s: seq<string>, r: seq<string>)
    requires Sorted(s) && Sorted(r) && multiset(s) == multiset(r) && s != [] && r != []
    ensures s[0] == r[0]
  {
    assert s[0] in multiset(r) && r[0] in multiset(s);
    HeadIsLeast(s, r[0]);
    HeadIsLeast(r, s[0]);
    AtMostAntisymmetric(s[0], r[0]);
  }

  lemma {:induction false} SortedIsUnique(s: seq<string>, r: seq<string>)
    requires Sorted(s) && Sorted(r) && multiset(s) == multiset(r)
    ensures s == r
  {
    assert |s| == |multiset(s)| && |r| == |multiset(r)|;
    if s != [] {
      SortedHeadsAgree(s, r);
      assert s == [s[0]] + s[1..] && r == [r[0]] + r[1..];
      assert multiset(s[1..]) == multiset(s) - multiset{s[0]} == multiset(r[1..]);
      SortedIsUnique(s[1..], r[1..]);
    }
  }

  lemma {:induction false} AtMostReflexive(a: string)
    ensures AtMost(a, a)
  {
    if a == "" {
    } else {
      AtMostReflexive(a[1..]);
    }
  }

  lemma HeadIsLeast(s: seq<string>, x: string)
    requires Sorted(s) && x in s
    ensures AtMost(s[0], x)
  {
    AtMostReflexive(s[0]);
  }

  // ---------- joining is injective ----------

  lemma FirstField(a: string, u: string)
    ensures (a + ":" + u)[|a|] == ':'
    ensures forall k :: 0 <= k < |a| ==> (a + ":" + u)[k] in a
    ensures (a + ":" + u)[..|a|] == a && (a + ":" + u)[|a| + 1..] == u
  {}

  lemma FirstFieldAgrees(a: string, u: string, b: string, v: string)
    requires ':' !in a && ':' !in b && a + ":" + u == b + ":" + v
    ensures a == b && u == v
  {
    FirstField(a, u);
    FirstField(b, v);
  }

  lemma {:induction false} JoinIsInjective(s: seq<string>, r: seq<string>)
    requires ValidIds(s) && ValidIds(r) && Join(s) == Join(r)
    ensures s == r
  {
    if |s| >= 2 && |r| >= 2 {
      FirstFieldAgrees(s[0], Join(s[1..]), r[0], Join(r[1..]));
      JoinIsInjective(s[1..], r[1..]);
      assert s == [s[0]] + s[1..] && r == [r[0]] + r[1..];
    }
  }

  /** Two participant lists have the same hash exactly when they hold the same
      ids equally often. */
  lemma HashIsCanonical(a: seq<string>, b: seq<string>)
    requires ValidIds(a) && ValidIds(b)
    ensures ComputeDMHash(a) == ComputeDMHash(b) <==> multiset(a) == multiset(b)
  {
    SortSorts(a);
    SortSorts(b);
    if multiset(a) == multiset(b) {
      SortedIsUnique(Sort(a), Sort(b));
    }
    if ComputeDMHash(a) == ComputeDMHash(b) {
      forall i | 0 <= i < |Sort(a)| ensures ValidId(Sort(a)[i]) { SortKeepsMembers(a, i); }
      forall i | 0 <= i < |Sort(b)| ensures ValidId(Sort(b)[i]) { SortKeepsMembers(b, i); }
      JoinIsInjective(Sort(a), Sort(b));
    }
  }

  lemma SortKeepsMembers(a: seq<string>, i: nat)
    requires i < |Sort(a)|
    ensures Sort(a)[i] in a
  {
    SortSorts(a);
    assert Sort(a)[i] in multiset(Sort(a));
  }

  // ---------- the hash of a member set ----------

  /** ids names every user of the set once, in some order. */
  predicate Lists(ids: seq<string>, users: set<string>) {
    multiset(ids) == multiset(users)
  }

  lemma {:induction false} SetHasAList(users: set<string>) returns (ids: seq<string>)
    ensures Lists(ids, users)
  {
    if users == {} {
      ids := [];
    } else {
      var u :| u in users;
      var rest := SetHasAList(users - {u});
      ids := [u] + rest;
      assert users == (users - {u}) + {u};
    }
  }

  lemma ListOfSet(ids: seq<string>, users: set<string>)
    requires Lists(ids, users)
    ensures |ids| == |users| && forall u :: u in ids <==> u in users
  {
    assert |ids| == |multiset(ids)|;
    assert forall u :: u in ids <==> u in multiset(ids);
  }

  /** The hash of a set of users: that of any list of its elements. */
  ghost function HashOfSet(users: set<string>): (h: Digest)
    ensures exists ids: seq<string> :: Lists(ids, users) && h == ComputeDMHash(ids)
  {
    assert exists ids: seq<string> :: Lists(ids, users) by {
      var ids := SetHasAList(users);
    }
    var ids: seq<string> :| Lists(ids, users);
    ComputeDMHash(ids)
  }

  lemma HashOfList(ids: seq<string>, users: set<string>)
    requires Lists(ids, users)
    ensures ComputeDMHash(ids) == HashOfSet(users)
  {
    var other: seq<string> :| Lists(other, users) && HashOfSet(users) == ComputeDMHash(other);
    SameList(ids, other, users);
    SortSorts(ids);
    SortSorts(other);
    SortedIsUnique(Sort(ids), Sort(other));
  }

  lemma SameList(a: seq<string>, b: seq<string>, users: set<string>)
    requires Lists(a, users) && Lists(b, users)
    ensures multiset(a) == multiset(b)
  {
    var m := multiset(users);
    assert multiset(a) == m && multiset(b) == m;
  }

  /** A list hashes like a set exactly when it lists that set. */
  lemma HashIdentifiesSet(ids: seq<string>, users: set<string>)
    requires ValidIds(ids) && forall u :: u in users ==> ValidId(u)
    ensures ComputeDMHash(ids) == HashOfSet(users) <==> Lists(ids, users)
  {
    var list := SetHasAList(users);
    ListOfSet(list, users);
    HashOfList(list, users);
    assert forall i :: 0 <= i < |list| ==> list[i] in users;
    HashIsCanonical(ids, list);
  }

  /** Two member sets hash alike only if they are the same set. */
  lemma HashOfSetIsInjective(a: set<string>, b: set<string>)
    requires forall u :: u in a || u in b ==> ValidId(u)
    requires HashOfSet(a) == HashOfSet(b)
    ensures a == b
  {
    var list := SetHasAList(a);
    ListOfSet(list, a);
    HashOfList(list, a);
    assert forall i :: 0 <= i < |list| ==> list[i] in a;
    HashIdentifiesSet(list, b);
    ListOfSet(list, b);
  }
}
