/** convertMentionsForStorage (packages/shared/src/mentions.ts): one global regular
    expression replacement per known name, applied one after another. */
module MentionRewrite {
  import opened Common
  import opened Mentions

  /** What JavaScript's \s matches. */
  predicate IsSpace(c: char) {
    c == ' ' || c == '\t' || c == '\n' || c == '\r' || c as int == 0x0b || c as int == 0x0c || c as int == 0xa0 ||
    c as int == 0x1680 || 0x2000 <= c as int <= 0x200a || c as int == 0x2028 || c as int == 0x2029 ||
    c as int == 0x202f || c as int == 0x205f || c as int == 0x3000 || c as int == 0xfeff
  }

  /** White space or the end of the text comes next. */
  predicate Boundary(s: string) {
    s == "" || IsSpace(s[0])
  }

  /** s begins with the name, followed by white space or the end. */
  predicate Names(s: string, name: string) {
    |s| >= |name| && s[..|name|] == name && Boundary(s[|name|..])
  }

  predicate Matches(s: string, name: string) {
    s != "" && s[0] == '@' && Names(s[1..], name)
  }

  /** A display name and the mention it stands for. */
  datatype Entry = Entry(name: string, mention: Segment)

  /** One pass from left to right: every "@" and name that white space or the end of the
      text follows becomes the printed mention. */
  function ReplaceAll(s: string, e: Entry): string
    decreases |s|
  {
    if s == "" then ""
    else if Matches(s, e.name) then PrintSegment(e.mention) + ReplaceAll(s[1..][|e.name|..], e)
    else [s[0]] + ReplaceAll(s[1..], e)
  }

  function Sequential(s: string, entries: seq<Entry>): string
    decreases |entries|
  {
    if entries == [] then s else Sequential(ReplaceAll(s, entries[0]), entries[1..])
  }

  const SPECIALS := [
    Entry("here", SpecialMention("here")),
    Entry("channel", SpecialMention("channel")),
    Entry("everyone", SpecialMention("everyone"))]

  /** Names hold no "@", "<" or ">"; ids are non-empty and hold no white space, "<"
      or ">" (nor "$", which a JavaScript replacement string would interpret). */
  predicate ValidName(name: string) {
    '@' !in name && '<' !in name && '>' !in name
  }

  predicate ValidMention(m: Segment) {
    !m.Text? && m.id != "" && '<' !in m.id && '>' !in m.id && '$' !in m.id &&
    forall i :: 0 <= i < |m.id| ==> !IsSpace(m.id[i])
  }

  predicate ValidEntry(e: Entry) {
    ValidName(e.name) && ValidMention(e.mention)
  }

  predicate ValidEntries(es: seq<Entry>) {
    forall i :: 0 <= i < |es| ==> ValidEntry(es[i])
  }

  // ---------- one simultaneous replacement ----------

  datatype Token = Plain(c: char) | Ref(mention: Segment)

  /** The first listed entry that matches here. */
  function FirstEntry(s: string, es: seq<Entry>): (r: Option<Entry>)
    ensures r.Some? ==> r.value in es && Matches(s, r.value.name)
    ensures r.None? ==> forall i :: 0 <= i < |es| ==> !Matches(s, es[i].name)
  {
    if es == [] then None
    else if Matches(s, es[0].name) then Some(es[0])
    else FirstEntry(s, es[1..])
  }

  /** Scan once; wherever a name is mentioned, put the reference. */
  function Scan(s: string, es: seq<Entry>): seq<Token>
    decreases |s|
  {
    if s == "" then []
    else
      var e := FirstEntry(s, es);
      if e.Some? then [Ref(e.value.mention)] + Scan(s[1..][|e.value.name|..], es)
      else [Plain(s[0])] + Scan(s[1..], es)
  }

  function PrintToken(t: Token): string {
    match t
    case Plain(c) => [c]
    case Ref(m) => PrintSegment(m)
  }

  function PrintTokens(ts: seq<Token>): string {
    if ts == [] then "" else PrintToken(ts[0]) + PrintTokens(ts[1..])
  }

  function Written(s: string, es: seq<Entry>): string {
    PrintTokens(Scan(s, es))
  }

  lemma WrittenPlain(s: string, es: seq<Entry>)
    requires s != "" && FirstEntry(s, es).None?
    ensures Written(s, es) == [s[0]] + Written(s[1..], es)
  {
    assert Scan(s, es)[1..] == Scan(s[1..], es);
  }

  // ---------- the passes compose to the single scan ----------

  /** Inserted mention text is never touched by a later pass: no name fits inside
      it, because the character after the name would have to be white space. */
  lemma {:induction false} ReplaceSkips(u: string, x: string, e: Entry)
    requires '>' !in e.name && u != "" && u[|u| - 1] == '>' && forall i :: 0 <= i < |u| ==> !IsSpace(u[i])
    ensures ReplaceAll(u + x, e) == u + ReplaceAll(x, e)
  {
    var s := u + x;
    assert s[1..] == u[1..] + x;
    NoNameInside(u, x, e);
    if |u| == 1 {
      assert u[1..] + x == x;
    } else {
      ReplaceSkips(u[1..], x, e);
    }
    assert u == [u[0]] + u[1..];
  }

  lemma NoNameInside(u: string, x: string, e: Entry)
    requires '>' !in e.name && u != "" && u[|u| - 1] == '>' && forall i :: 0 <= i < |u| ==> !IsSpace(u[i])
    ensures !Matches(u + x, e.name)
  {
    var t, n := (u + x)[1..], |e.name|;
    assert t == u[1..] + x;
    assert |u| >= 2 ==> t[|u| - 2] == '>';
    if (u + x)[0] == '@' && |t| >= n && t[..n] == e.name {
      assert forall i :: 0 <= i < n ==> t[i] == e.name[i];
      assert n <= |u| - 2;
      assert t[n..][0] == u[n + 1];
    }
  }

  lemma NoNameAtRef(w: string, es: seq<Entry>, name: string)
    requires '@' !in name && '<' !in name && forall i :: 0 <= i < |es| ==> !es[i].mention.Text?
    requires w != "" && FirstEntry(w, es).Some?
    ensures !Names(Written(w, es), name) && !Names(w, name)
  {
    assert Written(w, es)[0] == '<' && w[0] == '@';
    HeadDecides(Written(w, es), name);
    HeadDecides(w, name);
  }

  /** Names over two strings that agree on their first character. */
  lemma NamesSameHead(w: string, out: string, name: string)
    requires w != "" && out != "" && w[0] == out[0]
    requires name != "" && w[0] == name[0] ==> (Names(w[1..], name[1..]) <==> Names(out[1..], name[1..]))
    ensures Names(w, name) <==> Names(out, name)
  {
    HeadDecides(w, name);
    HeadDecides(out, name);
    if name == "" {
      assert w[0..] == w && out[0..] == out;
    } else if w[0] == name[0] {
      NamesTail(w, name);
      NamesTail(out, name);
    }
  }

  /** One character copied: the rest of the name decides. */
  lemma NamesSurvivePlain(w: string, es: seq<Entry>, name: string)
    requires w != "" && FirstEntry(w, es).None?
    requires name != "" ==> (Names(Written(w[1..], es), name[1..]) <==> Names(w[1..], name[1..]))
    ensures Names(Written(w, es), name) <==> Names(w, name)
  {
    WrittenPlain(w, es);
    assert Written(w, es)[1..] == Written(w[1..], es);
    NamesSameHead(w, Written(w, es), name);
  }

  lemma NameIsCopied(w: string, es: seq<Entry>, name: string)
    requires w != "" && FirstEntry(w, es).None? && name != "" && Names(w, name)
    requires Names(w[1..], name[1..]) ==> Written(w[1..], es) == name[1..] + Written(w[1..][|name| - 1..], es)
    ensures Written(w, es) == name + Written(w[|name|..], es)
  {
    WrittenPlain(w, es);
    HeadDecides(w, name);
    NamesTail(w, name);
    DropTwice(w, |name|);
    PutInFront(name, Written(w[|name|..], es));
  }

  lemma DropTwice(w: string, n: nat)
    requires 1 <= n <= |w|
    ensures w[1..][n - 1..] == w[n..]
  {}

  lemma PutInFront(name: string, rest: string)
    requires name != ""
    ensures [name[0]] + (name[1..] + rest) == name + rest
  {
    assert name == [name[0]] + name[1..];
  }

  /** A name can be read in the scanned text exactly where it could be read in the
      original, and it is then copied unchanged. */
  lemma {:induction false} NamesSurviveScan(w: string, es: seq<Entry>, name: string)
    requires '@' !in name && '<' !in name && forall i :: 0 <= i < |es| ==> !es[i].mention.Text?
    ensures Names(Written(w, es), name) <==> Names(w, name)
    ensures Names(w, name) ==> Written(w, es) == name + Written(w[|name|..], es)
  {
    if w == "" {
    } else if FirstEntry(w, es).Some? {
      NoNameAtRef(w, es, name);
    } else if name == "" {
      NamesSurvivePlain(w, es, name);
      assert w[0..] == w;
    } else {
      NamesSurviveScan(w[1..], es, name[1..]);
      NamesSurvivePlain(w, es, name);
      if Names(w, name) {
        NameIsCopied(w, es, name);
      }
    }
  }

  lemma HeadDecides(s: string, name: string)
    requires s != ""
    ensures Names(s, name) ==> if name == "" then IsSpace(s[0]) else s[0] == name[0]
  {
    if name == "" { assert s[0..] == s; }
    if |s| >= |name| && s[..|name|] == name && name != "" { assert s[..|name|][0] == s[0]; }
  }

  lemma NamesTail(s: string, name: string)
    requires s != "" && name != "" && s[0] == name[0]
    ensures Names(s, name) <==> Names(s[1..], name[1..])
  {
    assert name == [name[0]] + name[1..];
    if |s| >= |name| {
      assert s[..|name|] == [s[0]] + s[1..][..|name| - 1];
      assert s[|name|..] == s[1..][|name| - 1..];
    }
  }

  lemma {:induction false} FirstEntrySnoc(s: string, es: seq<Entry>, e: Entry)
    ensures FirstEntry(s, es + [e])
         == if FirstEntry(s, es).Some? then FirstEntry(s, es) else if Matches(s, e.name) then Some(e) else None
  {
    if es == [] {
      assert es + [e] == [e];
    } else {
      assert (es + [e])[1..] == es[1..] + [e];
      FirstEntrySnoc(s, es[1..], e);
    }
  }

  /** One more pass over the scanned text is one more entry in the scan. */
  lemma {:induction false} PassIsOneMoreEntry(s: string, es: seq<Entry>, e: Entry)
    requires ValidEntries(es) && ValidEntry(e)
    ensures ReplaceAll(Written(s, es), e) == Written(s, es + [e])
    decreases |s|
  {
    if s == "" {
    } else {
      FirstEntrySnoc(s, es, e);
      if FirstEntry(s, es).Some? {
        var k := FirstEntry(s, es).value;
        var rest := s[1..][|k.name|..];
        PassIsOneMoreEntry(rest, es, e);
        MentionIsUntouched(k.mention, Written(rest, es), e);
      } else {
        WrittenPlain(s, es);
        var out := Written(s, es);
        assert out[1..] == Written(s[1..], es);
        NamesSurviveScan(s[1..], es, e.name);
        if Matches(s, e.name) {
          var rest := s[1..][|e.name|..];
          PassIsOneMoreEntry(rest, es, e);
          assert out[1..][|e.name|..] == Written(rest, es);
        } else {
          WrittenPlain(s, es + [e]);
          PassIsOneMoreEntry(s[1..], es, e);
        }
      }
    }
  }

  lemma MentionIsUntouched(m: Segment, x: string, e: Entry)
    requires ValidMention(m) && ValidEntry(e)
    ensures ReplaceAll(PrintSegment(m) + x, e) == PrintSegment(m) + ReplaceAll(x, e)
  {
    var u := PrintSegment(m);
    assert u == ['<', u[1]] + m.id + ">";
    ReplaceSkips(u, x, e);
  }

  lemma {:induction false} WrittenWithNoEntries(s: string)
    ensures Written(s, []) == s
  {
    if s == "" {
    } else {
      WrittenPlain(s, []);
      WrittenWithNoEntries(s[1..]);
    }
  }

  lemma {:induction false} SequentialFrom(s: string, done: seq<Entry>, es: seq<Entry>)
    requires ValidEntries(done) && ValidEntries(es)
    ensures Sequential(Written(s, done), es) == Written(s, done + es)
    decreases |es|
  {
    if es == [] {
      assert done + es == done;
    } else {
      PassIsOneMoreEntry(s, done, es[0]);
      SequentialFrom(s, done + [es[0]], es[1..]);
      assert done + [es[0]] + es[1..] == done + es;
    }
  }

  /** The passes, in any order, are one simultaneous replacement in which the
      earlier of two matching entries wins. */
  lemma SequentialIsOneScan(s: string, es: seq<Entry>)
    requires ValidEntries(es)
    ensures Sequential(s, es) == Written(s, es)
  {
    WrittenWithNoEntries(s);
    SequentialFrom(s, [], es);
    assert [] + es == es;
  }

  // ---------- when the order of the names matters ----------

  predicate DistinctNames(es: seq<Entry>) {
    forall i, j :: 0 <= i < j < |es| ==> es[i].name != es[j].name
  }

  /** a is b followed by white space and perhaps more. */
  predicate ExtendsName(a: string, b: string) {
    |a| > |b| && a[..|b|] == b && IsSpace(a[|b|])
  }

  predicate NoNameExtends(es: seq<Entry>) {
    forall i, j :: 0 <= i < |es| && 0 <= j < |es| ==> !ExtendsName(es[i].name, es[j].name)
  }

  ghost predicate OrderFree(es: seq<Entry>) {
    forall s: string, other: seq<Entry> ::
      multiset(other) == multiset(es) ==> Sequential(s, other + SPECIALS) == Sequential(s, es + SPECIALS)
  }

  lemma {:induction false} FirstEntryConcat(s: string, a: seq<Entry>, b: seq<Entry>)
    ensures FirstEntry(s, a + b) == if FirstEntry(s, a).Some? then FirstEntry(s, a) else FirstEntry(s, b)
  {
    if a == [] {
      assert a + b == b;
    } else {
      assert (a + b)[1..] == a[1..] + b;
      FirstEntryConcat(s, a[1..], b);
    }
  }

  lemma OneMatchAtMost(s: string, es: seq<Entry>, d: Entry, e: Entry)
    requires DistinctNames(es) && NoNameExtends(es) && d in es && e in es
    requires Matches(s, d.name) && Matches(s, e.name)
    ensures d == e
  {
    var i :| 0 <= i < |es| && es[i] == d;
    var j :| 0 <= j < |es| && es[j] == e;
    var t := s[1..];
    assert !ExtendsName(es[i].name, es[j].name) && !ExtendsName(es[j].name, es[i].name);
    assert t[..|d.name|] == d.name && t[..|e.name|] == e.name;
  }

  lemma SameFirstEntry(s: string, es: seq<Entry>, other: seq<Entry>)
    requires DistinctNames(es) && NoNameExtends(es) && multiset(other) == multiset(es)
    ensures FirstEntry(s, other) == FirstEntry(s, es)
  {
    forall e: Entry
      ensures e in es <==> e in other
    {
      assert e in es <==> e in multiset(es);
      assert e in other <==> e in multiset(other);
    }
    var d, e := FirstEntry(s, es), FirstEntry(s, other);
    if d.Some? && e.Some? {
      OneMatchAtMost(s, es, d.value, e.value);
    }
  }

  lemma {:induction false} SameScan(s: string, es: seq<Entry>, other: seq<Entry>)
    requires DistinctNames(es) && NoNameExtends(es) && multiset(other) == multiset(es)
    ensures Scan(s, other + SPECIALS) == Scan(s, es + SPECIALS)
    decreases |s|
  {
    if s == "" {
    } else {
      SameFirstEntry(s, es, other);
      FirstEntryConcat(s, es, SPECIALS);
      FirstEntryConcat(s, other, SPECIALS);
      var e := FirstEntry(s, es + SPECIALS);
      if e.Some? {
        SameScan(s[1..][|e.value.name|..], es, other);
      } else {
        SameScan(s[1..], es, other);
      }
    }
  }

  lemma WordIsValid(w: string)
    requires w != "" && forall i :: 0 <= i < |w| ==> 'a' <= w[i] <= 'z'
    ensures ValidEntry(Entry(w, SpecialMention(w)))
  {}

  lemma SpecialsAreValid()
    ensures ValidEntries(SPECIALS)
  {
    WordIsValid("here");
    WordIsValid("channel");
    WordIsValid("everyone");
  }

  lemma ValidPermutation(es: seq<Entry>, other: seq<Entry>)
    requires ValidEntries(es) && multiset(other) == multiset(es)
    ensures ValidEntries(other + SPECIALS)
  {
    SpecialsAreValid();
    forall i | 0 <= i < |other|
      ensures ValidEntry(other[i])
    {
      assert other[i] in multiset(other);
      assert other[i] in es;
    }
  }

  /** Bring one entry to the front. */
  function ToFront(es: seq<Entry>, i: nat): (r: seq<Entry>)
    requires i < |es|
    ensures multiset(r) == multiset(es)
  {
    assert es == es[..i] + [es[i]] + es[i + 1..];
    [es[i]] + es[..i] + es[i + 1..]
  }

  /** At "@" + x, where x can be read as the i-th name, that name's mention is
      written first. */
  lemma FrontOutput(x: string, es: seq<Entry>, i: nat)
    requires ValidEntries(es) && i < |es| && Names(x, es[i].name)
    ensures var order := ToFront(es, i) + SPECIALS;
            Sequential("@" + x, order) == PrintSegment(es[i].mention) + Written(x[|es[i].name|..], order)
  {
    var order := ToFront(es, i) + SPECIALS;
    assert ("@" + x)[1..] == x;
    ValidPermutation(es, ToFront(es, i));
    SequentialIsOneScan("@" + x, order);
  }

  lemma ConflictShows(es: seq<Entry>, i: nat, j: nat)
    requires ValidEntries(es) && i < |es| && j < |es| && ExtendsName(es[i].name, es[j].name)
    ensures Sequential("@" + es[i].name, ToFront(es, i) + SPECIALS)
         != Sequential("@" + es[i].name, ToFront(es, j) + SPECIALS)
  {
    var a, b := es[i], es[j];
    var rest := a.name[|b.name|..];
    assert a.name[..|a.name|] == a.name && a.name[|a.name|..] == "";
    FrontOutput(a.name, es, i);
    FrontOutput(a.name, es, j);
    assert rest[0] == a.name[|b.name|];
    var order := ToFront(es, j) + SPECIALS;
    WrittenPlain(rest, order);
    var second := PrintSegment(b.mention) + Written(rest, order);
    assert second[|PrintSegment(b.mention)|] == rest[0];
    assert PrintSegment(a.mention) + "" == PrintSegment(a.mention);
  }

  /** The result does not depend on the order in which the map yields its names,
      for any message, exactly when no name is another name followed by white
      space. */
  lemma OrderFreeExactly(es: seq<Entry>)
    requires ValidEntries(es) && DistinctNames(es)
    ensures OrderFree(es) <==> NoNameExtends(es)
  {
    if NoNameExtends(es) {
      forall s: string, other: seq<Entry> | multiset(other) == multiset(es)
        ensures Sequential(s, other + SPECIALS) == Sequential(s, es + SPECIALS)
      {
        ValidPermutation(es, other);
        ValidPermutation(es, es);
        SequentialIsOneScan(s, other + SPECIALS);
        SequentialIsOneScan(s, es + SPECIALS);
        SameScan(s, es, other);
      }
    } else {
      var i, j :| 0 <= i < |es| && 0 <= j < |es| && ExtendsName(es[i].name, es[j].name);
      var s := "@" + es[i].name;
      ConflictShows(es, i, j);
      assert Sequential(s, ToFront(es, i) + SPECIALS) != Sequential(s, es + SPECIALS) ||
             Sequential(s, ToFront(es, j) + SPECIALS) != Sequential(s, es + SPECIALS);
    }
  }

  // ---------- stored text gives the mentions back ----------

  function Refs(ts: seq<Token>): seq<Segment> {
    if ts == [] then [] else (if ts[0].Ref? then [ts[0].mention] else []) + Refs(ts[1..])
  }

  function MentionsIn(segs: seq<Segment>): seq<Segment> {
    if segs == [] then [] else (if segs[0].Text? then [] else [segs[0]]) + MentionsIn(segs[1..])
  }

  predicate CleanToken(t: Token) {
    match t
    case Plain(c) => c != '<'
    case Ref(m) => ValidMention(m)
  }

  predicate CleanSegment(seg: Segment) {
    if seg.Text? then seg.content != "" && '<' !in seg.content else ValidMention(seg)
  }

  /** Putting one token in front of merged segments. */
  function Put(t: Token, r: seq<Segment>): seq<Segment> {
    match t
    case Ref(m) => [m] + r
    case Plain(c) => if r != [] && r[0].Text? then [Text([c] + r[0].content)] + r[1..] else [Text([c])] + r
  }

  /** Runs of plain characters become text segments. */
  function Merge(ts: seq<Token>): seq<Segment> {
    if ts == [] then [] else Put(ts[0], Merge(ts[1..]))
  }

  /** Clean segments, no two text segments in a row. */
  predicate Alternates(segs: seq<Segment>) {
    (forall i :: 0 <= i < |segs| ==> CleanSegment(segs[i])) &&
    forall i :: 0 <= i < |segs| - 1 ==> !(segs[i].Text? && segs[i + 1].Text?)
  }

  lemma PrintCons(seg: Segment, r: seq<Segment>)
    ensures Print([seg] + r) == PrintSegment(seg) + Print(r)
    ensures MentionsIn([seg] + r) == (if seg.Text? then [] else [seg]) + MentionsIn(r)
  {
    assert ([seg] + r)[1..] == r;
  }

  lemma Glue(c: char, text: string, rest: string)
    ensures ([c] + text) + rest == [c] + (text + rest)
  {}

  lemma LongerText(c: char, text: string, tail: seq<Segment>)
    ensures Print([Text([c] + text)] + tail) == [c] + Print([Text(text)] + tail)
    ensures MentionsIn([Text([c] + text)] + tail) == MentionsIn([Text(text)] + tail)
  {
    PrintCons(Text([c] + text), tail);
    PrintCons(Text(text), tail);
    Glue(c, text, Print(tail));
  }

  lemma PutMergesText(c: char, r: seq<Segment>)
    requires r != [] && r[0].Text?
    ensures Print(Put(Plain(c), r)) == [c] + Print(r) && MentionsIn(Put(Plain(c), r)) == MentionsIn(r)
  {
    assert r == [Text(r[0].content)] + r[1..];
    LongerText(c, r[0].content, r[1..]);
  }

  lemma PutPrints(t: Token, r: seq<Segment>)
    ensures Print(Put(t, r)) == PrintToken(t) + Print(r)
    ensures MentionsIn(Put(t, r)) == (if t.Ref? && !t.mention.Text? then [t.mention] else []) + MentionsIn(r)
  {
    match t
    case Ref(m) => PrintCons(m, r);
    case Plain(c) =>
      if r != [] && r[0].Text? {
        PutMergesText(c, r);
      } else {
        PrintCons(Text([c]), r);
      }
  }

  lemma {:induction false} MergeMeaning(ts: seq<Token>)
    requires forall i :: 0 <= i < |ts| ==> CleanToken(ts[i])
    ensures Alternates(Merge(ts)) && Print(Merge(ts)) == PrintTokens(ts) && MentionsIn(Merge(ts)) == Refs(ts)
  {
    if ts == [] {
    } else {
      MergeMeaning(ts[1..]);
      assert CleanToken(ts[0]);
      PutPrints(ts[0], Merge(ts[1..]));
    }
  }

  lemma {:induction false} ScanIsClean(s: string, es: seq<Entry>)
    requires ValidEntries(es) && '<' !in s
    ensures forall i :: 0 <= i < |Scan(s, es)| ==> CleanToken(Scan(s, es)[i])
    decreases |s|
  {
    if s == "" {
    } else {
      var e := FirstEntry(s, es);
      if e.Some? {
        var i :| 0 <= i < |es| && es[i] == e.value;
        assert ValidEntry(es[i]);
        ScanIsClean(s[1..][|e.value.name|..], es);
      } else {
        ScanIsClean(s[1..], es);
      }
    }
  }

  /** If the message has no "<", parsing what is stored gives back exactly the
      mentions that were written, in order, and the text between them. */
  lemma StoredMentionsAreRecovered(s: string, es: seq<Entry>)
    requires ValidEntries(es) && '<' !in s
    ensures Parse(Sequential(s, es)) == Merge(Scan(s, es))
    ensures MentionsIn(Parse(Sequential(s, es))) == Refs(Scan(s, es))
  {
    SequentialIsOneScan(s, es);
    ScanIsClean(s, es);
    MergeMeaning(Scan(s, es));
    ParseAfterPrint(Merge(Scan(s, es)));
  }
}
