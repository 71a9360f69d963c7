/** What a written message means once it is stored: convertMentionsForStorage followed by
    parseStoredMentions (packages/shared/src/mentions.ts). */
module MentionStorage {
  import opened Common
  import opened Mentions
  import opened MentionRewrite

  // ---------- written messages ----------

  /** A message as its author sees it: words, and mentions by display name. */
  datatype Piece = Words(text: string) | At(name: string)

  /** White space and line ends of ECMA-262 (sections 12.2 and 12.3). */
  predicate White(c: char) {
    c as int in {0x0009, 0x000a, 0x000b, 0x000c, 0x000d, 0x0020, 0x00a0, 0x1680, 0x2000, 0x2001, 0x2002, 0x2003, 0x2004,
                 0x2005, 0x2006, 0x2007, 0x2008, 0x2009, 0x200a, 0x2028, 0x2029, 0x202f, 0x205f, 0x3000, 0xfeff}
  }

  predicate Special(name: string) {
    name == "here" || name == "channel" || name == "everyone"
  }

  predicate Known(name: string, mentionMap: seq<(string, string)>) {
    Special(name) || exists i :: 0 <= i < |mentionMap| && mentionMap[i].0 == name
  }

  /** s is the name, or goes on with white space after it. */
  predicate ReadsAs(s: string, name: string) {
    |s| >= |name| && s[..|name|] == name && (|s| > |name| ==> White(s[|name|]))
  }

  function Spell(pieces: seq<Piece>): string {
    if pieces == [] then ""
    else (match pieces[0] case Words(text) => text case At(name) => "@" + name) + Spell(pieces[1..])
  }

  /** Words hold no "<" and no "@" that a known name follows. */
  predicate PlainWords(text: string, rest: string, mentionMap: seq<(string, string)>) {
    text != "" && '<' !in text &&
    forall i :: 0 <= i < |text| && text[i] == '@' ==> NothingReads((text + rest)[i + 1..], mentionMap)
  }

  predicate NothingReads(s: string, mentionMap: seq<(string, string)>) {
    !ReadsAs(s, "here") && !ReadsAs(s, "channel") && !ReadsAs(s, "everyone") &&
    forall i :: 0 <= i < |mentionMap| ==> !ReadsAs(s, mentionMap[i].0)
  }

  /** Words and mentions of known names, with no two words in a row and white space or
      the end after every mention. */
  predicate WellWritten(pieces: seq<Piece>, mentionMap: seq<(string, string)>) {
    pieces == [] ||
    (WellWritten(pieces[1..], mentionMap) &&
     var rest := Spell(pieces[1..]);
     match pieces[0]
     case Words(text) => PlainWords(text, rest, mentionMap) && (|pieces| > 1 ==> pieces[1].At?)
     case At(name) => Known(name, mentionMap) && (rest != "" ==> White(rest[0])))
  }

  predicate Spells(pieces: seq<Piece>, content: string, mentionMap: seq<(string, string)>) {
    content == Spell(pieces) && WellWritten(pieces, mentionMap)
  }

  predicate GoodName(name: string) {
    '@' !in name && '<' !in name && '>' !in name
  }

  predicate GoodId(id: string) {
    id != "" && forall i :: 0 <= i < |id| ==> id[i] !in "<>$" && !White(id[i])
  }

  /** Names and ids hold no markup; the names are distinct, and no name is another, or a
      special one, followed by white space. */
  predicate GoodMap(mentionMap: seq<(string, string)>) {
    (forall i :: 0 <= i < |mentionMap| ==>
       GoodName(mentionMap[i].0) && GoodId(mentionMap[i].1) && NotPrefixed(mentionMap[i].0, mentionMap)) &&
    forall i, j :: 0 <= i < j < |mentionMap| ==> mentionMap[i].0 != mentionMap[j].0
  }

  predicate NotPrefixed(name: string, mentionMap: seq<(string, string)>) {
    !ReadsAs(name, "here") && !ReadsAs(name, "channel") && !ReadsAs(name, "everyone") &&
    forall j :: 0 <= j < |mentionMap| && mentionMap[j].0 != name ==> !ReadsAs(name, mentionMap[j].0)
  }

  /** The segments are the pieces: words as text, a special name as itself, and a display
      name as the id it is mapped to. */
  predicate Means(segs: seq<Segment>, pieces: seq<Piece>, mentionMap: seq<(string, string)>) {
    |segs| == |pieces| &&
    forall k :: 0 <= k < |pieces| ==> MeansPiece(segs[k], pieces[k], mentionMap)
  }

  predicate MeansPiece(seg: Segment, piece: Piece, mentionMap: seq<(string, string)>) {
    match piece
    case Words(text) => seg == Text(text)
    case At(name) =>
      if Special(name) then seg == SpecialMention(name)
      else exists i :: 0 <= i < |mentionMap| && mentionMap[i].0 == name && seg == UserMention(mentionMap[i].1)
  }

  // ---------- the entries the passes use ----------

  function UserEntries(mentionMap: seq<(string, string)>): seq<Entry> {
    if mentionMap == [] then []
    else UserEntries(mentionMap[..|mentionMap| - 1]) +
         [Entry(mentionMap[|mentionMap| - 1].0, UserMention(mentionMap[|mentionMap| - 1].1))]
  }

  lemma {:induction false} SequentialSnoc(s: string, es: seq<Entry>, e: Entry)
    ensures Sequential(s, es + [e]) == ReplaceAll(Sequential(s, es), e)
    decreases |es|
  {
    if es == [] {
      assert (es + [e])[1..] == [];
    } else {
      assert (es + [e])[1..] == es[1..] + [e];
      SequentialSnoc(ReplaceAll(s, es[0]), es[1..], e);
    }
  }

  lemma WhiteSpaceIsSpace(c: char)
    ensures White(c) <==> IsSpace(c)
  {}

  lemma ReadsAsNames(s: string, name: string)
    ensures ReadsAs(s, name) <==> Names(s, name)
  {
    if |s| > |name| {
      WhiteSpaceIsSpace(s[|name|]);
    }
  }

  lemma {:induction false} UserEntriesAre(mentionMap: seq<(string, string)>)
    ensures |UserEntries(mentionMap)| == |mentionMap|
    ensures forall i :: 0 <= i < |mentionMap| ==>
              UserEntries(mentionMap)[i] == Entry(mentionMap[i].0, UserMention(mentionMap[i].1))
  {
    if mentionMap == [] {
    } else {
      UserEntriesAre(mentionMap[..|mentionMap| - 1]);
    }
  }

  function Entries(mentionMap: seq<(string, string)>): seq<Entry> {
    UserEntries(mentionMap) + SPECIALS
  }

  /** The entries: one for each pair, then the three special ones. */
  lemma EntriesAre(mentionMap: seq<(string, string)>)
    ensures var es, n := Entries(mentionMap), |mentionMap|;
            |es| == n + 3 &&
            (forall i :: 0 <= i < n ==> es[i] == Entry(mentionMap[i].0, UserMention(mentionMap[i].1))) &&
            es[n] == Entry("here", SpecialMention("here")) &&
            es[n + 1] == Entry("channel", SpecialMention("channel")) &&
            es[n + 2] == Entry("everyone", SpecialMention("everyone"))
  {
    UserEntriesAre(mentionMap);
  }

  lemma GoodIdIsValid(id: string)
    requires GoodId(id)
    ensures ValidMention(UserMention(id))
  {
    forall i | 0 <= i < |id|
      ensures !IsSpace(id[i]) && id[i] != '<' && id[i] != '>' && id[i] != '$'
    {
      WhiteSpaceIsSpace(id[i]);
    }
  }

  lemma EntriesAreValid(mentionMap: seq<(string, string)>)
    requires GoodMap(mentionMap)
    ensures ValidEntries(Entries(mentionMap))
  {
    EntriesAre(mentionMap);
    SpecialsAreValid();
    var es, n := Entries(mentionMap), |mentionMap|;
    forall i | 0 <= i < |es|
      ensures ValidEntry(es[i])
    {
      if i < n {
        GoodIdIsValid(mentionMap[i].1);
      } else {
        assert es[i] == SPECIALS[i - n];
      }
    }
  }

  /** No special name goes on after white space. */
  lemma SpecialReads(special: string, name: string)
    requires Special(special) && ReadsAs(special, name)
    ensures name == special
  {}

  lemma EntriesApart(mentionMap: seq<(string, string)>, i: nat, j: nat)
    requires GoodMap(mentionMap) && i < |Entries(mentionMap)| && j < |Entries(mentionMap)|
    requires ReadsAs(Entries(mentionMap)[i].name, Entries(mentionMap)[j].name)
    ensures i == j
  {
    EntriesAre(mentionMap);
    var n := |mentionMap|;
    if i < n {
      assert NotPrefixed(mentionMap[i].0, mentionMap);
    } else {
      SpecialReads(Entries(mentionMap)[i].name, Entries(mentionMap)[j].name);
    }
  }

  /** At most one entry matches at a place. */
  lemma OneEntryReads(s: string, mentionMap: seq<(string, string)>, d: Entry, e: Entry)
    requires GoodMap(mentionMap) && d in Entries(mentionMap) && e in Entries(mentionMap)
    requires ReadsAs(s, d.name) && ReadsAs(s, e.name)
    ensures d == e
  {
    var i :| 0 <= i < |Entries(mentionMap)| && Entries(mentionMap)[i] == d;
    var j :| 0 <= j < |Entries(mentionMap)| && Entries(mentionMap)[j] == e;
    if |d.name| <= |e.name| {
      PrefixReads(s, e.name, d.name);
      EntriesApart(mentionMap, j, i);
    } else {
      PrefixReads(s, d.name, e.name);
      EntriesApart(mentionMap, i, j);
    }
  }

  lemma PrefixReads(s: string, long: string, short: string)
    requires ReadsAs(s, long) && ReadsAs(s, short) && |short| <= |long|
    ensures ReadsAs(long, short) && (|short| == |long| ==> short == long)
  {
    assert long[..|short|] == s[..|short|];
    assert |long| > |short| ==> long[|short|] == s[|short|];
  }

  // ---------- scanning the pieces ----------

  function Plains(text: string): seq<Token> {
    if text == "" then [] else [Plain(text[0])] + Plains(text[1..])
  }

  lemma {:induction false} ScanWords(text: string, rest: string, es: seq<Entry>)
    requires forall i :: 0 <= i < |text| ==> FirstEntry((text + rest)[i..], es).None?
    ensures Scan(text + rest, es) == Plains(text) + Scan(rest, es)
  {
    if text == "" {
      assert text + rest == rest;
    } else {
      var s := text + rest;
      assert s[0..] == s && s[1..] == text[1..] + rest;
      forall i | 0 <= i < |text[1..]|
        ensures FirstEntry((text[1..] + rest)[i..], es).None?
      {
        assert s[i + 1..] == (text[1..] + rest)[i..];
      }
      ScanWords(text[1..], rest, es);
    }
  }

  lemma PutBeforeMention(c: char, ts: seq<Token>)
    requires ts == [] || (ts[0].Ref? && !ts[0].mention.Text?)
    ensures Put(Plain(c), Merge(ts)) == [Text([c])] + Merge(ts)
  {}

  lemma PutBeforeText(c: char, text: string, segs: seq<Segment>)
    ensures Put(Plain(c), [Text(text)] + segs) == [Text([c] + text)] + segs
  {
    assert ([Text(text)] + segs)[1..] == segs;
  }

  lemma MergeCons(t: Token, ts: seq<Token>)
    ensures Merge([t] + ts) == Put(t, Merge(ts))
  {
    assert ([t] + ts)[1..] == ts;
  }

  lemma {:induction false} MergeWords(text: string, ts: seq<Token>)
    requires text != "" && (ts == [] || (ts[0].Ref? && !ts[0].mention.Text?))
    ensures Merge(Plains(text) + ts) == [Text(text)] + Merge(ts)
  {
    var c, rest := text[0], text[1..];
    assert Plains(text) + ts == [Plain(c)] + (Plains(rest) + ts) && [c] + rest == text;
    MergeCons(Plain(c), Plains(rest) + ts);
    if rest == "" {
      assert Plains(rest) + ts == ts && text == [c];
      PutBeforeMention(c, ts);
    } else {
      MergeWords(rest, ts);
      PutBeforeText(c, rest, Merge(ts));
    }
  }

  /** No entry matches inside plain words. */
  lemma WordsAreSkipped(text: string, rest: string, mentionMap: seq<(string, string)>, i: nat)
    requires PlainWords(text, rest, mentionMap) && i < |text|
    ensures FirstEntry((text + rest)[i..], Entries(mentionMap)).None?
  {
    var s, es := (text + rest)[i..], Entries(mentionMap);
    EntriesAre(mentionMap);
    assert s[0] == text[i] && s[1..] == (text + rest)[i + 1..];
    if FirstEntry(s, es).Some? {
      ReadsAsNames(s[1..], FirstEntry(s, es).value.name);
      assert false;
    }
  }

  lemma KnownEntry(name: string, mentionMap: seq<(string, string)>) returns (e: Entry)
    requires Known(name, mentionMap)
    ensures e in Entries(mentionMap) && e.name == name
    ensures MeansPiece(e.mention, At(name), mentionMap) && !e.mention.Text?
  {
    EntriesAre(mentionMap);
    var es, n := Entries(mentionMap), |mentionMap|;
    if Special(name) {
      e := if name == "here" then es[n] else if name == "channel" then es[n + 1] else es[n + 2];
    } else {
      var i :| 0 <= i < n && mentionMap[i].0 == name;
      e := es[i];
    }
  }

  /** At a mention exactly its own entry matches. */
  lemma MentionIsFound(name: string, rest: string, mentionMap: seq<(string, string)>) returns (e: Entry)
    requires GoodMap(mentionMap) && Known(name, mentionMap) && (rest != "" ==> White(rest[0]))
    ensures FirstEntry("@" + name + rest, Entries(mentionMap)) == Some(e) && e.name == name
    ensures MeansPiece(e.mention, At(name), mentionMap) && !e.mention.Text?
  {
    var s, es := "@" + name + rest, Entries(mentionMap);
    assert s[1..] == name + rest && ReadsAs(name + rest, name);
    e := KnownEntry(name, mentionMap);
    ReadsAsNames(s[1..], name);
    var first := FirstEntry(s, es);
    if first.Some? {
      ReadsAsNames(s[1..], first.value.name);
      OneEntryReads(s[1..], mentionMap, first.value, e);
    }
  }

  lemma ScanMention(name: string, rest: string, mentionMap: seq<(string, string)>) returns (m: Segment)
    requires GoodMap(mentionMap) && Known(name, mentionMap) && (rest != "" ==> White(rest[0]))
    ensures Scan("@" + name + rest, Entries(mentionMap)) == [Ref(m)] + Scan(rest, Entries(mentionMap))
    ensures MeansPiece(m, At(name), mentionMap) && !m.Text?
  {
    var s := "@" + name + rest;
    var e := MentionIsFound(name, rest, mentionMap);
    m := e.mention;
    assert s[1..][|name|..] == rest;
  }

  /** Scanning the spelled pieces and merging what comes out gives their meaning. */
  lemma {:induction false} PiecesScan(pieces: seq<Piece>, mentionMap: seq<(string, string)>)
    requires GoodMap(mentionMap) && WellWritten(pieces, mentionMap)
    ensures Means(Merge(Scan(Spell(pieces), Entries(mentionMap))), pieces, mentionMap)
    ensures pieces == [] || pieces[0].At? ==>
              var ts := Scan(Spell(pieces), Entries(mentionMap)); ts == [] || (ts[0].Ref? && !ts[0].mention.Text?)
  {
    if pieces == [] {
    } else {
      var rest, es := Spell(pieces[1..]), Entries(mentionMap);
      PiecesScan(pieces[1..], mentionMap);
      match pieces[0]
      case Words(text) =>
        forall i | 0 <= i < |text|
          ensures FirstEntry((text + rest)[i..], es).None?
        {
          WordsAreSkipped(text, rest, mentionMap, i);
        }
        ScanWords(text, rest, es);
        assert |pieces| > 1 ==> pieces[1..][0] == pieces[1];
        MergeWords(text, Scan(rest, es));
        MeansCons(Text(text), Merge(Scan(rest, es)), pieces, mentionMap);
      case At(name) =>
        var m := ScanMention(name, rest, mentionMap);
        var ts := Scan(Spell(pieces), es);
        assert ts == [Ref(m)] + Scan(rest, es) && ts[1..] == Scan(rest, es);
        MeansCons(m, Merge(Scan(rest, es)), pieces, mentionMap);
    }
  }

  lemma MeansCons(seg: Segment, segs: seq<Segment>, pieces: seq<Piece>, mentionMap: seq<(string, string)>)
    requires pieces != [] && MeansPiece(seg, pieces[0], mentionMap) && Means(segs, pieces[1..], mentionMap)
    ensures Means([seg] + segs, pieces, mentionMap)
  {
    forall k | 0 <= k < |pieces|
      ensures MeansPiece(([seg] + segs)[k], pieces[k], mentionMap)
    {
      if k > 0 {
        assert MeansPiece(segs[k - 1], pieces[1..][k - 1], mentionMap);
      }
    }
  }

  lemma {:induction false} NoMarkup(pieces: seq<Piece>, mentionMap: seq<(string, string)>)
    requires GoodMap(mentionMap) && WellWritten(pieces, mentionMap)
    ensures '<' !in Spell(pieces)
  {
    if pieces == [] {
    } else {
      NoMarkup(pieces[1..], mentionMap);
      if pieces[0].At? {
        KnownIsClean(pieces[0].name, mentionMap);
      }
    }
  }

  lemma KnownIsClean(name: string, mentionMap: seq<(string, string)>)
    requires GoodMap(mentionMap) && Known(name, mentionMap)
    ensures '<' !in "@" + name
  {
    if !Special(name) {
      var i :| 0 <= i < |mentionMap| && mentionMap[i].0 == name;
      assert GoodName(mentionMap[i].0);
    }
  }

  /** Parsing what is stored gives the pieces back, each mention as the id or the special
      word it stands for. */
  lemma SpelledMentionsAreStored(pieces: seq<Piece>, content: string, mentionMap: seq<(string, string)>)
    requires GoodMap(mentionMap) && Spells(pieces, content, mentionMap)
    ensures Means(Parse(Sequential(content, UserEntries(mentionMap) + SPECIALS)), pieces, mentionMap)
  {
    EntriesAreValid(mentionMap);
    NoMarkup(pieces, mentionMap);
    StoredMentionsAreRecovered(content, Entries(mentionMap));
    PiecesScan(pieces, mentionMap);
  }

  // ---------- the method ----------

  /** mentionMap lists the map's entries in its iteration order. */
  method ConvertMentionsForStorage(content: string, mentionMap: seq<(string, string)>) returns (result: string)
    ensures result == Sequential(content, UserEntries(mentionMap) + SPECIALS)
    ensures forall pieces: seq<Piece> :: GoodMap(mentionMap) && Spells(pieces, content, mentionMap) ==>
              Means(Parse(result), pieces, mentionMap)
  {
    result := content;
    for i := 0 to |mentionMap|
      invariant result == Sequential(content, UserEntries(mentionMap[..i]))
    {
      assert mentionMap[..i + 1][..i] == mentionMap[..i];
      var e := Entry(mentionMap[i].0, UserMention(mentionMap[i].1));
      SequentialSnoc(content, UserEntries(mentionMap[..i]), e);
      result := ReplaceAll(result, e);
    }
    assert mentionMap[..|mentionMap|] == mentionMap;
    ghost var users := UserEntries(mentionMap);
    assert users + SPECIALS[..0] == users;
    for i := 0 to |SPECIALS|
      invariant result == Sequential(content, users + SPECIALS[..i])
    {
      SequentialSnoc(content, users + SPECIALS[..i], SPECIALS[i]);
      assert users + SPECIALS[..i] + [SPECIALS[i]] == users + SPECIALS[..i + 1];
      result := ReplaceAll(result, SPECIALS[i]);
    }
    assert SPECIALS[..|SPECIALS|] == SPECIALS;
    forall pieces: seq<Piece> | GoodMap(mentionMap) && Spells(pieces, content, mentionMap)
      ensures Means(Parse(result), pieces, mentionMap)
    {
      SpelledMentionsAreStored(pieces, content, mentionMap);
    }
  }
}
