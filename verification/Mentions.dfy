/** Mentions in message text (packages/shared/src/mentions.ts): the composer's
    trigger, and the parser of stored mentions with the printer it inverts. */
module Mentions {
  import opened Common

  // ---------- parseMentionTrigger and insertMention ----------

  datatype Trigger = Trigger(query: string, startIndex: nat)

  predicate Break(c: char) {
    c == ' ' || c == '\n'
  }

  /** An "@" at a word boundary with neither break nor "@" up to the cursor. */
  predicate StartsTrigger(content: string, cursor: nat, at: nat)
    requires cursor <= |content|
  {
    at < cursor && content[at] == '@' && (at == 0 || Break(content[at - 1])) &&
    forall i :: at < i < cursor ==> !Break(content[i]) && content[i] != '@'
  }

  /** Looking back from the cursor, a break or an "@" that is no trigger rules out all. */
  lemma NoTriggerBefore(content: string, cursor: nat, i: int)
    requires cursor <= |content| && (i == -1 || 0 <= i < cursor)
    requires forall j :: i < j < cursor ==> !Break(content[j]) && content[j] != '@'
    requires i >= 0 ==> Break(content[i]) || (content[i] == '@' && i > 0 && !Break(content[i - 1]))
    ensures forall at: nat :: !StartsTrigger(content, cursor, at)
  {
    forall at: nat
      ensures !StartsTrigger(content, cursor, at)
    {
      assert at < i ==> Break(content[i]) || content[i] == '@';
    }
  }

  /** The text before the cursor ends in an "@" at its start or after a blank or line
      break, and a query without blank, line break or "@". */
  predicate Types(before: string, start: string, query: string) {
    before == start + "@" + query && (start == "" || start[|start| - 1] == ' ' || start[|start| - 1] == '\n') &&
    ' ' !in query && '\n' !in query && '@' !in query
  }

  lemma TypesIsTrigger(content: string, cursor: nat, start: string, query: string)
    requires cursor <= |content|
    ensures Types(content[..cursor], start, query)
       <==> StartsTrigger(content, cursor, |start|) && start == content[..|start|] &&
            query == content[|start| + 1..cursor]
  {
    var before := content[..cursor];
    if Types(before, start, query) {
      assert before[..|start|] == start && before[|start|] == '@' && before[|start| + 1..] == query;
      assert forall i :: |start| < i < cursor ==> content[i] == query[i - |start| - 1];
    }
    if StartsTrigger(content, cursor, |start|) && start == content[..|start|] && query == content[|start| + 1..cursor] {
      assert before == start + "@" + query;
      assert forall i :: 0 <= i < |query| ==> query[i] == content[|start| + 1 + i];
    }
  }

  lemma OneTrigger(content: string, cursor: nat, i: nat, j: nat)
    requires cursor <= |content| && StartsTrigger(content, cursor, i) && StartsTrigger(content, cursor, j)
    ensures i == j
  {}

  /** r is the one active trigger, or there is none. */
  ghost predicate Found(content: string, cursor: nat, r: Option<Trigger>)
    requires cursor <= |content|
  {
    match r
    case Some(trigger) =>
      StartsTrigger(content, cursor, trigger.startIndex) && trigger.query == content[trigger.startIndex + 1..cursor]
    case None => forall at: nat :: !StartsTrigger(content, cursor, at)
  }

  lemma FoundIsTyped(content: string, cursor: nat, r: Option<Trigger>)
    requires cursor <= |content| && Found(content, cursor, r)
    ensures forall start: string, query: string :: Types(content[..cursor], start, query) <==>
              r == Some(Trigger(query, |start|)) && |start| <= |content| && start == content[..|start|]
  {
    forall start: string, query: string
      ensures Types(content[..cursor], start, query) <==>
                r == Some(Trigger(query, |start|)) && |start| <= |content| && start == content[..|start|]
    {
      TypesIsTrigger(content, cursor, start, query);
      if r.Some? && StartsTrigger(content, cursor, |start|) {
        OneTrigger(content, cursor, |start|, r.value.startIndex);
      }
    }
  }

  method ParseMentionTrigger(content: string, cursor: nat) returns (r: Option<Trigger>)
    requires cursor <= |content|
    ensures Found(content, cursor, r)
    ensures forall start: string, query: string :: Types(content[..cursor], start, query) <==>
              r == Some(Trigger(query, |start|)) && |start| <= |content| && start == content[..|start|]
  {
    var before := content[..cursor];
    var atIndex := -1;
    var i := |before| - 1;
    while i >= 0
      invariant -1 <= i < |before| && atIndex == -1
      invariant forall j :: i < j < cursor ==> !Break(content[j]) && content[j] != '@'
    {
      var c := before[i];
      if c == ' ' || c == '\n' {
        break;
      }
      if c == '@' {
        if i == 0 || before[i - 1] == ' ' || before[i - 1] == '\n' {
          atIndex := i;
        }
        break;
      }
      i := i - 1;
    }
    r := None;
    if atIndex == -1 {
      NoTriggerBefore(content, cursor, i);
    } else {
      r := Some(Trigger(before[atIndex + 1..], atIndex));
    }
    FoundIsTyped(content, cursor, r);
  }

  function InsertMention(content: string, trigger: Trigger, name: string): (r: (string, nat))
    requires trigger.startIndex + |trigger.query| + 1 <= |content|
  {
    var before := content[..trigger.startIndex];
    var after := content[trigger.startIndex + |trigger.query| + 1..];
    var mention := "@" + name + " ";
    (before + mention + after, |before| + |mention|)
  }

  /** Inserting keeps what stands before the trigger and after the cursor, leaves
      the cursor at the kept suffix, and there no trigger is active any more. */
  lemma InsertReplacesTheTrigger(content: string, cursor: nat, trigger: Trigger, name: string)
    requires cursor <= |content| && StartsTrigger(content, cursor, trigger.startIndex)
    requires trigger.query == content[trigger.startIndex + 1..cursor]
    ensures var (text, at) := InsertMention(content, trigger, name);
            at <= |text| && text[at..] == content[cursor..] &&
            text[..trigger.startIndex] == content[..trigger.startIndex] &&
            text[trigger.startIndex..at] == "@" + name + " " && forall i: nat :: !StartsTrigger(text, at, i)
  {
    var (text, at) := InsertMention(content, trigger, name);
    assert Break(text[at - 1]);
  }

  // ---------- stored mentions ----------

  datatype Segment = Text(content: string) | UserMention(id: string) | SpecialMention(id: string)

  function PrintSegment(seg: Segment): string {
    match seg
    case Text(c) => c
    case UserMention(id) => "<@" + id + ">"
    case SpecialMention(id) => "<!" + id + ">"
  }

  function Print(segs: seq<Segment>): string {
    if segs == [] then "" else PrintSegment(segs[0]) + Print(segs[1..])
  }

  /** Position of the first '>'. */
  function Close(s: string): (r: Option<nat>)
    ensures r.Some? ==> r.value < |s|
  {
    if s == "" then None
    else if s[0] == '>' then Some(0)
    else
      var r := Close(s[1..]);
      if r.None? then None else Some(r.value + 1)
  }

  lemma {:induction false} CloseMeaning(s: string)
    ensures Close(s).Some? ==> s[Close(s).value] == '>' && '>' !in s[..Close(s).value]
    ensures Close(s).None? ==> '>' !in s
  {
    if s != "" && s[0] != '>' {
      var r := Close(s[1..]);
      CloseMeaning(s[1..]);
      assert s == [s[0]] + s[1..];
      if r.Some? {
        assert s[..r.value + 1] == [s[0]] + s[1..][..r.value];
      }
    }
  }

  /** Length of a match of /<(@|!)([^>]+)>/ at the start of s. */
  function MatchHere(s: string): (r: Option<nat>)
    ensures r.Some? ==> 4 <= r.value <= |s|
  {
    if |s| >= 3 && s[0] == '<' && (s[1] == '@' || s[1] == '!') then
      var close := Close(s[2..]);
      if close.Some? && close.value > 0 then Some(close.value + 3) else None
    else None
  }

  /** The mention spelled by a match. */
  function MentionOf(raw: string): Segment
    requires |raw| >= 3
  {
    if raw[1] == '@' then UserMention(raw[2..|raw| - 1]) else SpecialMention(raw[2..|raw| - 1])
  }

  lemma MatchSpellsItsMention(s: string)
    requires MatchHere(s).Some?
    ensures PrintSegment(MentionOf(s[..MatchHere(s).value])) == s[..MatchHere(s).value]
  {
    var n := MatchHere(s).value;
    var raw := s[..n];
    CloseMeaning(s[2..]);
    assert s[2..][n - 3] == raw[n - 1] == '>';
    assert raw == [raw[0], raw[1]] + raw[2..n - 1] + [raw[n - 1]];
  }

  /** A string cut at its leftmost match. */
  datatype Pieces = Pieces(text: string, raw: string, rest: string)

  function Split(s: string): (r: Option<Pieces>)
    ensures r.Some? ==> |r.value.raw| >= 4 && |r.value.rest| < |s|
  {
    if s == "" then None
    else
      var here := MatchHere(s);
      if here.Some? then Some(Pieces("", s[..here.value], s[here.value..]))
      else
        var r := Split(s[1..]);
        if r.None? then None else Some(Pieces([s[0]] + r.value.text, r.value.raw, r.value.rest))
  }

  lemma Prepend(x: char, a: string, b: string, c: string)
    ensures [x] + (a + b + c) == ([x] + a) + b + c
  {}

  /** The pieces make up the string, and the middle one spells a mention. */
  lemma {:induction false} SplitMeaning(s: string)
    requires Split(s).Some?
    ensures var p := Split(s).value; s == p.text + p.raw + p.rest && PrintSegment(MentionOf(p.raw)) == p.raw
  {
    if MatchHere(s).Some? {
      MatchSpellsItsMention(s);
      assert "" + s[..MatchHere(s).value] + s[MatchHere(s).value..] == s;
    } else {
      SplitMeaning(s[1..]);
      var p := Split(s[1..]).value;
      Prepend(s[0], p.text, p.raw, p.rest);
      assert s == [s[0]] + s[1..];
    }
  }

  function TextBefore(s: string): seq<Segment> {
    if s == "" then [] else [Text(s)]
  }

  function Parse(s: string): seq<Segment>
    decreases |s|
  {
    var p := Split(s);
    if p.None? then TextBefore(s)
    else TextBefore(p.value.text) + [MentionOf(p.value.raw)] + Parse(p.value.rest)
  }

  lemma {:induction false} PrintConcat(a: seq<Segment>, b: seq<Segment>)
    ensures Print(a + b) == Print(a) + Print(b)
  {
    if a == [] {
      assert a + b == b;
    } else {
      assert (a + b)[1..] == a[1..] + b;
      PrintConcat(a[1..], b);
    }
  }

  lemma PrintTextBefore(s: string)
    ensures Print(TextBefore(s)) == s
  {
    if s != "" {
      assert [Text(s)][1..] == [];
    }
  }

  lemma PrintOne(seg: Segment)
    ensures Print([seg]) == PrintSegment(seg)
  {
    assert Print([seg][1..]) == "";
  }

  lemma PrintPieces(text: string, mention: Segment, rest: seq<Segment>)
    ensures Print(TextBefore(text) + [mention] + rest) == text + PrintSegment(mention) + Print(rest)
  {
    PrintConcat(TextBefore(text) + [mention], rest);
    PrintConcat(TextBefore(text), [mention]);
    PrintTextBefore(text);
    PrintOne(mention);
  }

  /** Printing what was parsed gives the string back, for every string. */
  lemma {:induction false} PrintAfterParse(s: string)
    ensures Print(Parse(s)) == s
    decreases |s|
  {
    var p := Split(s);
    if p.None? {
      PrintTextBefore(s);
    } else {
      SplitMeaning(s);
      PrintAfterParse(p.value.rest);
      PrintPieces(p.value.text, MentionOf(p.value.raw), Parse(p.value.rest));
    }
  }

  // ---------- parsing what was printed ----------

  predicate Opens(s: string, i: nat) {
    i + 1 < |s| && s[i] == '<' && (s[i + 1] == '@' || s[i + 1] == '!')
  }

  predicate CanonicalSegment(seg: Segment) {
    match seg
    case Text(c) => c != "" && forall i: nat | i < |c| :: !Opens(c, i)
    case UserMention(id) => id != "" && '>' !in id
    case SpecialMention(id) => id != "" && '>' !in id
  }

  predicate Canonical(segs: seq<Segment>) {
    (forall i :: 0 <= i < |segs| ==> CanonicalSegment(segs[i])) &&
    forall i :: 0 <= i < |segs| - 1 ==> !(segs[i].Text? && segs[i + 1].Text?)
  }

  lemma {:induction false} CloseSkips(id: string, rest: string)
    requires '>' !in id
    ensures Close(id + ">" + rest) == Some(|id|)
  {
    if id == "" {
      assert (id + ">" + rest)[0] == '>';
    } else {
      CloseSkips(id[1..], rest);
      assert (id + ">" + rest)[1..] == id[1..] + ">" + rest;
    }
  }

  lemma MentionOfPrinted(seg: Segment)
    requires !seg.Text?
    ensures MentionOf(PrintSegment(seg)) == seg
  {
    assert PrintSegment(seg)[2..|seg.id| + 2] == seg.id;
  }

  lemma MentionMatches(seg: Segment, rest: string)
    requires !seg.Text? && CanonicalSegment(seg)
    ensures MatchHere(PrintSegment(seg) + rest) == Some(|PrintSegment(seg)|)
  {
    CloseSkips(seg.id, rest);
    assert (PrintSegment(seg) + rest)[2..] == seg.id + ">" + rest;
  }

  lemma MentionSplits(seg: Segment, rest: string)
    requires !seg.Text? && CanonicalSegment(seg)
    ensures Split(PrintSegment(seg) + rest) == Some(Pieces("", PrintSegment(seg), rest))
  {
    var raw := PrintSegment(seg);
    MentionMatches(seg, rest);
    assert (raw + rest)[..|raw|] == raw && (raw + rest)[|raw|..] == rest;
  }

  /** The cut of c + s when nothing in c takes part in a match. */
  function Prefixed(c: string, p: Option<Pieces>): Option<Pieces> {
    if p.None? then None else Some(Pieces(c + p.value.text, p.value.raw, p.value.rest))
  }

  lemma SplitStep(x: char, s: string)
    requires x != '<' || s == "" || (s[0] != '@' && s[0] != '!')
    ensures Split([x] + s) == Prefixed([x], Split(s))
  {
    assert ([x] + s)[1..] == s;
    assert MatchHere([x] + s).None?;
  }

  lemma PrefixedTwice(a: string, b: string, p: Option<Pieces>)
    ensures Prefixed(a, Prefixed(b, p)) == Prefixed(a + b, p)
  {
    if p.Some? {
      assert a + (b + p.value.text) == (a + b) + p.value.text;
    }
  }

  lemma HeadOpensNothing(c: string, rest: string)
    requires c != "" && forall i: nat | i < |c| :: !Opens(c, i)
    requires rest == "" || rest[0] == '<'
    ensures forall i: nat | i < |c[1..]| :: !Opens(c[1..], i)
    ensures var s := c[1..] + rest; c[0] != '<' || s == "" || (s[0] != '@' && s[0] != '!')
    ensures [c[0]] + c[1..] == c && [c[0]] + (c[1..] + rest) == c + rest
  {
    assert !Opens(c, 0);
    forall i: nat | i < |c[1..]|
      ensures !Opens(c[1..], i)
    {
      assert !Opens(c, i + 1);
    }
  }

  /** Text without an opening bracket is skipped up to the next mention. */
  lemma {:induction false} TextIsSkipped(c: string, rest: string)
    requires forall i: nat | i < |c| :: !Opens(c, i)
    requires rest == "" || rest[0] == '<'
    ensures Split(c + rest) == Prefixed(c, Split(rest))
  {
    if c == "" {
      assert c + rest == rest;
      PrefixedEmpty(Split(rest));
    } else {
      var d := c[1..];
      HeadOpensNothing(c, rest);
      TextIsSkipped(d, rest);
      SplitStep(c[0], d + rest);
      PrefixedTwice([c[0]], d, Split(rest));
    }
  }

  lemma PrefixedEmpty(p: Option<Pieces>)
    ensures Prefixed("", p) == p
  {
    if p.Some? {
      assert "" + p.value.text == p.value.text;
    }
  }

  lemma CanonicalRest(segs: seq<Segment>, k: nat)
    requires Canonical(segs) && k <= |segs|
    ensures Canonical(segs[k..])
  {}

  lemma ParseStep(s: string, p: Pieces)
    requires Split(s) == Some(p)
    ensures Parse(s) == TextBefore(p.text) + [MentionOf(p.raw)] + Parse(p.rest)
  {}

  /** Leading segments, whatever follows. */
  lemma Leading(c: string, seg: Segment, rest: seq<Segment>)
    ensures TextBefore("") + [seg] + rest == [seg] + rest
    ensures c != "" ==> TextBefore(c) + [seg] + rest == [Text(c), seg] + rest
  {}

  lemma ParseMention(seg: Segment, rest: string)
    requires !seg.Text? && CanonicalSegment(seg)
    ensures Parse(PrintSegment(seg) + rest) == [seg] + Parse(rest)
  {
    MentionSplits(seg, rest);
    MentionOfPrinted(seg);
    ParseStep(PrintSegment(seg) + rest, Pieces("", PrintSegment(seg), rest));
    Leading("", seg, Parse(rest));
  }

  lemma TextThenMentionSplits(c: string, seg: Segment, rest: string)
    requires CanonicalSegment(Text(c)) && !seg.Text? && CanonicalSegment(seg)
    ensures Split(c + (PrintSegment(seg) + rest)) == Some(Pieces(c, PrintSegment(seg), rest))
  {
    MentionSplits(seg, rest);
    TextIsSkipped(c, PrintSegment(seg) + rest);
    assert c + "" == c;
  }

  lemma ParseTextThenMention(c: string, seg: Segment, rest: string)
    requires CanonicalSegment(Text(c)) && !seg.Text? && CanonicalSegment(seg)
    ensures Parse(c + (PrintSegment(seg) + rest)) == [Text(c), seg] + Parse(rest)
  {
    TextThenMentionSplits(c, seg, rest);
    MentionOfPrinted(seg);
    ParseStep(c + (PrintSegment(seg) + rest), Pieces(c, PrintSegment(seg), rest));
    Leading(c, seg, Parse(rest));
  }

  /** Parsing a printed canonical segment list gives the list back. */
  lemma {:induction false} ParseAfterPrint(segs: seq<Segment>)
    requires Canonical(segs)
    ensures Parse(Print(segs)) == segs
    decreases |segs|
  {
    if segs == [] {
    } else {
      assert CanonicalSegment(segs[0]);
      if !segs[0].Text? {
        CanonicalRest(segs, 1);
        ParseAfterPrint(segs[1..]);
        ParseMention(segs[0], Print(segs[1..]));
      } else if |segs| == 1 {
        TextIsSkipped(segs[0].content, "");
        assert Print(segs) == segs[0].content + "" && segs[0].content + "" == segs[0].content;
        assert segs == [segs[0]];
      } else {
        assert CanonicalSegment(segs[1]) && !segs[1].Text?;
        CanonicalRest(segs, 2);
        ParseAfterPrint(segs[2..]);
        ParseTextThenMention(segs[0].content, segs[1], Print(segs[2..]));
        assert segs[1..][1..] == segs[2..];
        assert Print(segs) == segs[0].content + (PrintSegment(segs[1]) + Print(segs[2..]));
        assert segs == [Text(segs[0].content), segs[1]] + segs[2..];
      }
    }
  }

  // ---------- the method ----------

  lemma SliceAt(content: string, last: nat, p: Pieces)
    requires last <= |content| && content[last..] == p.text + p.raw + p.rest
    ensures var index := last + |p.text|;
            index + |p.raw| <= |content| && content[last..index] == p.text &&
            content[index..index + |p.raw|] == p.raw && content[index + |p.raw|..] == p.rest
  {
    var left := content[last..];
    assert content[last..last + |p.text|] == left[..|p.text|];
    assert content[last + |p.text|..last + |p.text| + |p.raw|] == left[|p.text|..|p.text| + |p.raw|];
    assert content[last + |p.text| + |p.raw|..] == left[|p.text| + |p.raw|..];
  }

  /** The text still to be parsed, from position i on, is the one that yields left. */
  ghost predicate Remaining(content: string, i: nat, left: seq<Segment>) {
    i <= |content| && left == Parse(content[i..])
  }

  lemma ExecFinds(content: string, last: nat, p: Pieces, left: seq<Segment>) returns (after: seq<Segment>)
    requires Remaining(content, last, left) && Split(content[last..]) == Some(p)
    ensures |p.raw| >= 4 && Remaining(content, last + |p.text| + |p.raw|, after)
    ensures left == TextBefore(content[last..last + |p.text|]) + [MentionOf(p.raw)] + after
  {
    ParseStep(content[last..], p);
    SplitMeaning(content[last..]);
    SliceAt(content, last, p);
    after := Parse(p.rest);
  }

  lemma ExecEnds(content: string, last: nat, left: seq<Segment>)
    requires Remaining(content, last, left) && Split(content[last..]).None?
    ensures left == TextBefore(content[last..])
  {}

  /** What a match at index leaves to parse. */
  ghost predicate Cut(content: string, last: nat, left: seq<Segment>, found: bool, index: nat, raw: string,
                      after: seq<Segment>)
    requires last <= |content|
  {
    if found
    then last <= index && |raw| >= 4 && Remaining(content, index + |raw|, after) &&
         left == TextBefore(content[last..index]) + [MentionOf(raw)] + after
    else left == TextBefore(content[last..])
  }

  lemma CutAt(content: string, last: nat, left: seq<Segment>) returns (after: seq<Segment>)
    requires Remaining(content, last, left)
    ensures match Split(content[last..])
            case None => Cut(content, last, left, false, last, "", after)
            case Some(p) => Cut(content, last, left, true, last + |p.text|, p.raw, after)
  {
    match Split(content[last..])
    case None =>
      ExecEnds(content, last, left);
      after := [];
    case Some(p) => after := ExecFinds(content, last, p, left);
  }

  method FindMatch(content: string, lastIndex: nat) returns (found: bool, index: nat, raw: string)
    requires lastIndex <= |content|
    ensures match Split(content[lastIndex..])
            case None => !found && index == lastIndex && raw == ""
            case Some(p) => found && index == lastIndex + |p.text| && raw == p.raw
  {
    var p := Split(content[lastIndex..]);
    found, index, raw := p.Some?, lastIndex, "";
    if found {
      index, raw := lastIndex + |p.value.text|, p.value.raw;
    }
  }

  /** regex.exec: where the next match starts and the text it covers. `left` is the
      parse of the text from lastIndex on, `after` that of what follows the match. */
  method Exec(content: string, lastIndex: nat, ghost left: seq<Segment>)
    returns (found: bool, index: nat, raw: string, ghost after: seq<Segment>)
    requires Remaining(content, lastIndex, left)
    ensures Cut(content, lastIndex, left, found, index, raw, after)
  {
    after := CutAt(content, lastIndex, left);
    found, index, raw := FindMatch(content, lastIndex);
  }

  lemma Regroup(a: seq<Segment>, t: seq<Segment>, m: Segment, r: seq<Segment>)
    ensures a + (t + [m] + r) == (a + t + [m]) + r
  {}

  method ParseStoredMentions(content: string) returns (segments: seq<Segment>)
    ensures segments == Parse(content)
  {
    segments := [];
    var lastIndex := 0;
    assert content[0..] == content;
    ghost var all, left := Parse(content), Parse(content);
    var found, index, raw, after := Exec(content, lastIndex, left);
    while found
      invariant lastIndex <= |content| && segments + left == all
      invariant index >= 0 && Cut(content, lastIndex, left, found, index, raw, after)
      decreases |content| - lastIndex
    {
      ghost var before, text := segments, TextBefore(content[lastIndex..index]);
      Regroup(before, text, MentionOf(raw), after);
      if index > lastIndex {
        segments := segments + [Text(content[lastIndex..index])];
      } else {
        assert before + text == before;
      }
      segments := segments + [MentionOf(raw)];
      lastIndex := index + |raw|;
      left := after;
      found, index, raw, after := Exec(content, lastIndex, left);
    }
    if lastIndex < |content| {
      segments := segments + [Text(content[lastIndex..])];
    }
  }
}
