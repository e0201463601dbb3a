/** Mentions in the mobile comment composer: finding, inserting and serialising them. */
module Mentions {
  import opened Wrappers
  import opened Sequences
  import opened Text

  // The invisible separator that marks an inserted mention.
  const SENTINEL := '\U{2063}'

  datatype Type = Member | Agent | Squad | All | Issue

  datatype Marker = Marker(kind: Type, id: string, name: string)

  function TypeText(t: Type): string {
    match t
    case Member => "member"
    case Agent => "agent"
    case Squad => "squad"
    case All => "all"
    case Issue => "issue"
  }

  // What a reader sees of a link: issues drop the at-sign.
  function Caption(m: Marker): string {
    if m.kind == Issue then m.name else ['@'] + m.name
  }

  function Link(m: Marker): string {
    "[" + Caption(m) + "](mention://" + TypeText(m.kind) + "/" + m.id + ")"
  }

  // ---- The token at the cursor ----

  // An at-sign that begins a word, with neither whitespace nor another at-sign up to the cursor.
  predicate IsToken(text: string, cursor: int, start: int) {
    && 0 <= start < cursor <= |text| && text[start] == '@'
    && (forall j | start < j < cursor :: text[j] != '@' && !Whitespace(text[j]))
    && (start > 0 ==> Whitespace(text[start - 1]))
  }

  method TokenAtCursor(text: string, cursor: int) returns (r: Option<(int, string)>)
    ensures r.Some? ==> IsToken(text, cursor, r.value.0) && r.value.1 == text[r.value.0 + 1..cursor]
    ensures r.None? ==> forall start :: !IsToken(text, cursor, start)
  {
    if cursor < 1 || cursor > |text| {
      return None;
    }
    var i := cursor - 1;
    while i >= 0 && text[i] != '@'
      invariant -1 <= i < cursor
      invariant forall j | i < j < cursor :: text[j] != '@' && !Whitespace(text[j])
    {
      if Whitespace(text[i]) {
        return None;
      }
      i := i - 1;
    }
    if i < 0 {
      return None;
    }
    if i > 0 && text[i - 1] == SENTINEL {
      return None;
    }
    if i > 0 && !Whitespace(text[i - 1]) {
      return None;
    }
    r := Some((i, text[i + 1..cursor]));
  }

  /** There is at most one token at a cursor. */
  lemma TokenIsUnique(text: string, cursor: int, a: int, b: int)
    requires IsToken(text, cursor, a) && IsToken(text, cursor, b)
    ensures a == b
  {
  }

  // ---- Inserting ----

  function Insertion(m: Marker): string {
    [SENTINEL, '@'] + m.name + [' ']
  }

  function From(text: string, i: nat): string {
    if i <= |text| then text[i..] else ""
  }

  function UpTo(text: string, i: nat): string {
    if i <= |text| then text[..i] else text
  }

  // The new text and where the cursor goes.
  function InsertMention(text: string, start: nat, queryLength: nat, m: Marker): (string, nat) {
    var before, insert := UpTo(text, start), Insertion(m);
    (before + insert + From(text, start + 1 + queryLength), |before| + |insert|)
  }

  // ---- Tokens of a text ----

  datatype Token = Char(c: char) | Stray | Mention(word: string)

  function WordEnd(text: string, i: nat): (e: nat)
    requires i <= |text|
    ensures i <= e <= |text|
    decreases |text| - i
  {
    if i == |text| || Whitespace(text[i]) then i else WordEnd(text, i + 1)
  }

  predicate AtMention(text: string) {
    |text| > 1 && text[0] == SENTINEL && text[1] == '@'
  }

  function Head(text: string): Token
    requires text != ""
  {
    if AtMention(text) then Mention(text[2..WordEnd(text, 2)]) else if text[0] == SENTINEL then Stray else Char(text[0])
  }

  // How much of the text the first token takes.
  function HeadSize(text: string): (n: nat)
    requires text != ""
    ensures 0 < n <= |text|
  {
    if AtMention(text) then WordEnd(text, 2) else 1
  }

  function Tokens(text: string): seq<Token>
    decreases |text|
  {
    if text == "" then [] else [Head(text)] + Tokens(text[HeadSize(text)..])
  }

  function Words(ts: seq<Token>): seq<string> {
    if ts == [] then [] else (if ts[0].Mention? then [ts[0].word] else []) + Words(ts[1..])
  }

  function Written(t: Token): string {
    match t
    case Char(c) => [c]
    case Stray => [SENTINEL]
    case Mention(word) => [SENTINEL, '@'] + word
  }

  function Source(ts: seq<Token>): string {
    if ts == [] then "" else Written(ts[0]) + Source(ts[1..])
  }

  lemma HeadIsWritten(text: string)
    requires text != ""
    ensures Written(Head(text)) == text[..HeadSize(text)]
  {
    if AtMention(text) {
      var e := WordEnd(text, 2);
      assert text[..e] == text[..2] + text[2..e];
      assert text[..2] == [SENTINEL, '@'];
    }
  }

  lemma TokensTail(text: string)
    requires text != ""
    ensures Tokens(text) == [Head(text)] + Tokens(text[HeadSize(text)..])
    ensures Tokens(text)[0] == Head(text) && Tokens(text)[1..] == Tokens(text[HeadSize(text)..])
  {
  }

  lemma SourceCons(t: Token, ts: seq<Token>)
    ensures Source([t] + ts) == Written(t) + Source(ts)
  {
    assert ([t] + ts)[1..] == ts;
  }

  /** The tokens are a reading of the text: written back they give it unchanged. */
  lemma {:induction false} TokensReadText(text: string)
    ensures Source(Tokens(text)) == text
    decreases |text|
  {
    if text != "" {
      var n, rest := HeadSize(text), text[HeadSize(text)..];
      HeadIsWritten(text);
      TokensTail(text);
      TokensReadText(rest);
      SourceCons(Head(text), Tokens(rest));
      TwoParts(text, n);
    }
  }

  function Strip(text: string): string {
    if text == "" then "" else (if text[0] == SENTINEL then "" else [text[0]]) + Strip(text[1..])
  }

  // ---- Serialising ----

  function Prepend(s: string, r: Option<string>): Option<string> {
    if r.Some? then Some(s + r.value) else None
  }

  // The scan over the remaining tokens with the markers from k on; nothing when it aborts or markers are left.
  function Scan(ts: seq<Token>, markers: seq<Marker>, link: Marker -> string, k: nat): Option<string> {
    if ts == [] then (if k == |markers| then Some("") else None)
    else
      match ts[0]
      case Char(c) => Prepend([c], Scan(ts[1..], markers, link, k))
      case Stray => Scan(ts[1..], markers, link, k)
      case Mention(word) =>
        if k < |markers| && markers[k].name == word then Prepend(link(markers[k]), Scan(ts[1..], markers, link, k + 1)) else None
  }

  function SerializedWith(text: string, markers: seq<Marker>, link: Marker -> string): string {
    Scan(Tokens(text), markers, link, 0).GetOr(Strip(text))
  }

  function Serialized(text: string, markers: seq<Marker>): string {
    SerializedWith(text, markers, Link)
  }

  lemma PrependTwice(a: string, b: string, r: Option<string>)
    ensures Prepend(a, Prepend(b, r)) == Prepend(a + b, r)
    ensures Prepend("", r) == r
  {
    if r.Some? {
      assert a + (b + r.value) == a + b + r.value;
      assert "" + r.value == r.value;
    }
  }

  lemma ScanChar(text: string, p: nat, markers: seq<Marker>, link: Marker -> string, k: nat)
    requires p < |text| && text[p] != SENTINEL
    ensures Scan(Tokens(text[p..]), markers, link, k) == Prepend([text[p]], Scan(Tokens(text[p + 1..]), markers, link, k))
  {
    TokensTail(text[p..]);
    SliceOfTail(text, p, 0, 1);
  }

  lemma {:induction false} ScanPlain(text: string, p: nat, at: nat, markers: seq<Marker>, link: Marker -> string, k: nat)
    requires p <= at <= |text| && forall i | p <= i < at :: text[i] != SENTINEL
    ensures Scan(Tokens(text[p..]), markers, link, k) == Prepend(text[p..at], Scan(Tokens(text[at..]), markers, link, k))
    decreases at - p
  {
    var last := Scan(Tokens(text[at..]), markers, link, k);
    if p == at {
      PrependTwice("", "", last);
      assert text[p..p] == "";
    } else {
      ScanChar(text, p, markers, link, k);
      ScanPlain(text, p + 1, at, markers, link, k);
      PrependTwice([text[p]], text[p + 1..at], last);
      assert [text[p]] + text[p + 1..at] == text[p..at];
    }
  }

  lemma ScanStray(text: string, markers: seq<Marker>, link: Marker -> string, k: nat)
    requires text != "" && text[0] == SENTINEL && !AtMention(text)
    ensures Scan(Tokens(text), markers, link, k) == Scan(Tokens(text[1..]), markers, link, k)
  {
    TokensTail(text);
  }

  lemma ScanRun(text: string, word: string, tail: string, markers: seq<Marker>, link: Marker -> string, k: nat)
    requires AtMention(text) && word == text[2..WordEnd(text, 2)] && tail == text[WordEnd(text, 2)..]
    ensures Scan(Tokens(text), markers, link, k)
         == if k < |markers| && markers[k].name == word then Prepend(link(markers[k]), Scan(Tokens(tail), markers, link, k + 1))
            else None
  {
    TokensTail(text);
  }

  lemma {:induction false} NothingToStrip(text: string)
    requires SENTINEL !in text
    ensures Strip(text) == text
  {
    if text != "" {
      assert text[0] in text;
      NothingToStrip(text[1..]);
      assert text == [text[0]] + text[1..];
    }
  }

  /** Without sentinels the scan could only give the text back, so returning it at once is the same. */
  lemma FastPathAgrees(text: string, markers: seq<Marker>, link: Marker -> string)
    requires SENTINEL !in text
    ensures SerializedWith(text, markers, link) == text
  {
    NothingToStrip(text);
    ScanPlain(text, 0, |text|, markers, link, 0);
    assert text[0..] == text && text[0..|text|] == text && text[|text|..] == "";
  }

  // The first sentinel from a position on, or the end of the text.
  method FindSentinel(text: string, from: nat) returns (i: nat)
    requires from <= |text|
    ensures from <= i <= |text| && (forall j | from <= j < i :: text[j] != SENTINEL) && (i < |text| ==> text[i] == SENTINEL)
  {
    i := from;
    while i < |text| && text[i] != SENTINEL
      invariant from <= i <= |text| && forall j | from <= j < i :: text[j] != SENTINEL
    {
      i := i + 1;
    }
  }

  method ReadWord(text: string, from: nat) returns (e: nat)
    requires from <= |text|
    ensures e == WordEnd(text, from)
  {
    e := from;
    while e < |text| && !Whitespace(text[e])
      invariant from <= e <= |text| && WordEnd(text, e) == WordEnd(text, from)
    {
      e := e + 1;
    }
  }

  // The scan still to come from this position, with what has been put out so far.
  ghost predicate Remaining(text: string, markers: seq<Marker>, link: Marker -> string, cursor: nat, out: string, k: nat)
    requires cursor <= |text|
  {
    Scan(Tokens(text), markers, link, 0) == Prepend(out, Scan(Tokens(text[cursor..]), markers, link, k))
  }

  lemma PassPlain(text: string, markers: seq<Marker>, link: Marker -> string, cursor: nat, at: nat, out: string, k: nat)
    requires cursor <= at <= |text| && (forall i | cursor <= i < at :: text[i] != SENTINEL)
    requires Remaining(text, markers, link, cursor, out, k)
    ensures Remaining(text, markers, link, at, out + text[cursor..at], k)
  {
    ScanPlain(text, cursor, at, markers, link, k);
    PrependTwice(out, text[cursor..at], Scan(Tokens(text[at..]), markers, link, k));
  }

  lemma {:induction false} WordEndShift(text: string, p: nat, i: nat)
    requires p + i <= |text|
    ensures WordEnd(text[p..], i) + p == WordEnd(text, p + i)
    decreases |text| - i
  {
    if p + i < |text| && !Whitespace(text[p + i]) {
      WordEndShift(text, p, i + 1);
    }
  }

  predicate Fitting(text: string, markers: seq<Marker>, at: nat, k: nat)
    requires at + 1 < |text|
  {
    k < |markers| && markers[k].name == text[at + 2..WordEnd(text, at + 2)]
  }

  lemma ScanMention(text: string, markers: seq<Marker>, link: Marker -> string, at: nat, k: nat)
    requires at + 1 < |text| && text[at] == SENTINEL && text[at + 1] == '@'
    ensures Scan(Tokens(text[at..]), markers, link, k)
         == if Fitting(text, markers, at, k)
            then Prepend(link(markers[k]), Scan(Tokens(text[WordEnd(text, at + 2)..]), markers, link, k + 1)) else None
  {
    var e := WordEnd(text, at + 2);
    WordEndShift(text, at, 2);
    SliceOfTail(text, at, 2, e - at);
    ScanRun(text[at..], text[at + 2..e], text[e..], markers, link, k);
  }

  lemma PassMention(text: string, markers: seq<Marker>, link: Marker -> string, at: nat, out: string, k: nat)
    requires at + 1 < |text| && text[at] == SENTINEL && text[at + 1] == '@' && Remaining(text, markers, link, at, out, k)
    ensures Fitting(text, markers, at, k) ==>
              Remaining(text, markers, link, WordEnd(text, at + 2), out + link(markers[k]), k + 1)
    ensures !Fitting(text, markers, at, k) ==> Scan(Tokens(text), markers, link, 0) == None
  {
    ScanMention(text, markers, link, at, k);
    if k < |markers| {
      PrependTwice(out, link(markers[k]), Scan(Tokens(text[WordEnd(text, at + 2)..]), markers, link, k + 1));
    }
  }

  lemma PassStray(text: string, markers: seq<Marker>, link: Marker -> string, at: nat, out: string, k: nat)
    requires at < |text| && text[at] == SENTINEL && (at + 1 == |text| || text[at + 1] != '@') && Remaining(text, markers, link, at, out, k)
    ensures Remaining(text, markers, link, at + 1, out, k)
  {
    assert text[at..][1..] == text[at + 1..];
    ScanStray(text[at..], markers, link, k);
  }

  // The mention at a sentinel: where its word ends and what to put out for it, unless the marker does not fit.
  method TakeMention(text: string, markers: seq<Marker>, link: Marker -> string, at: nat, k: nat, ghost out: string)
    returns (r: Option<(nat, string)>)
    requires at + 1 < |text| && text[at] == SENTINEL && text[at + 1] == '@' && Remaining(text, markers, link, at, out, k)
    ensures r.None? ==> Scan(Tokens(text), markers, link, 0) == None
    ensures r.Some? ==> at + 2 <= r.value.0 <= |text| && Remaining(text, markers, link, r.value.0, out + r.value.1, k + 1)
  {
    var wordEnd := ReadWord(text, at + 2);
    var word := text[at + 2..wordEnd];
    PassMention(text, markers, link, at, out, k);
    if k >= |markers| || markers[k].name != word {
      return None;
    }
    r := Some((wordEnd, link(markers[k])));
  }

  lemma AllRead(text: string, markers: seq<Marker>, link: Marker -> string, out: string, k: nat)
    requires Remaining(text, markers, link, |text|, out, k)
    ensures SerializedWith(text, markers, link) == if k == |markers| then out else Strip(text)
  {
    assert text[|text|..] == "";
    assert out + "" == out;
  }

  lemma NothingRead(text: string, markers: seq<Marker>, link: Marker -> string)
    ensures Remaining(text, markers, link, 0, "", 0)
  {
    assert text[0..] == text;
    PrependTwice("", "", Scan(Tokens(text), markers, link, 0));
  }

  // Puts out the text up to the next sentinel.
  method PushPlain(text: string, markers: seq<Marker>, link: Marker -> string, cursor: nat, out: string, k: nat)
    returns (at: nat, passed: string)
    requires cursor < |text| && Remaining(text, markers, link, cursor, out, k)
    ensures cursor <= at <= |text| && (at < |text| ==> text[at] == SENTINEL) && Remaining(text, markers, link, at, passed, k)
  {
    at := FindSentinel(text, cursor);
    PassPlain(text, markers, link, cursor, at, out, k);
    passed := out + text[cursor..at];
  }

  // Goes past a sentinel and what it marks; nothing when a mention has no fitting marker.
  method PushMarked(text: string, markers: seq<Marker>, link: Marker -> string, at: nat, out: string, k: nat)
    returns (r: Option<(nat, string, nat)>)
    requires at < |text| && text[at] == SENTINEL && Remaining(text, markers, link, at, out, k)
    ensures r.None? ==> Scan(Tokens(text), markers, link, 0) == None
    ensures r.Some? ==> at < r.value.0 <= |text| && Remaining(text, markers, link, r.value.0, r.value.1, r.value.2)
  {
    if at + 1 == |text| || text[at + 1] != '@' {
      PassStray(text, markers, link, at, out, k);
      return Some((at + 1, out, k));
    }
    var taken := TakeMention(text, markers, link, at, k, out);
    if taken.None? {
      return None;
    }
    r := Some((taken.value.0, out + taken.value.1, k + 1));
  }

  method SerializeWith(text: string, markers: seq<Marker>, link: Marker -> string) returns (r: string)
    ensures r == SerializedWith(text, markers, link)
  {
    if SENTINEL !in text {
      FastPathAgrees(text, markers, link);
      return text;
    }
    var out, cursor, markerIndex := "", 0, 0;
    NothingRead(text, markers, link);
    while cursor < |text|
      invariant cursor <= |text| && Remaining(text, markers, link, cursor, out, markerIndex)
    {
      var sentinelAt, passed := PushPlain(text, markers, link, cursor, out, markerIndex);
      if sentinelAt == |text| {
        cursor, out := sentinelAt, passed;
      } else {
        var next := PushMarked(text, markers, link, sentinelAt, passed, markerIndex);
        if next.None? {
          return Strip(text);
        }
        cursor, out, markerIndex := next.value.0, next.value.1, next.value.2;
      }
    }
    AllRead(text, markers, link, out, markerIndex);
    r := if markerIndex != |markers| then Strip(text) else out;
  }

  method SerializeMentions(text: string, markers: seq<Marker>) returns (r: string)
    ensures r == Serialized(text, markers)
  {
    r := SerializeWith(text, markers, Link);
  }

  // ---- All or nothing ----

  function Name(m: Marker): string {
    m.name
  }

  // The text with each mention shown this way; stray sentinels disappear.
  function Render(ts: seq<Token>, shown: seq<string>): string {
    if ts == [] then ""
    else
      match ts[0]
      case Char(c) => [c] + Render(ts[1..], shown)
      case Stray => Render(ts[1..], shown)
      case Mention(_) => if shown == [] then Render(ts[1..], shown) else shown[0] + Render(ts[1..], shown[1..])
  }

  lemma {:induction false} ScanExact(ts: seq<Token>, markers: seq<Marker>, link: Marker -> string, k: nat)
    requires k <= |markers|
    ensures Scan(ts, markers, link, k).Some? <==> Words(ts) == Map(Name, markers[k..])
    ensures Scan(ts, markers, link, k).Some? ==> Scan(ts, markers, link, k).value == Render(ts, Map(link, markers[k..]))
  {
    if ts == [] {
      assert |Map(Name, markers[k..])| == |markers| - k;
    } else if !ts[0].Mention? {
      ScanExact(ts[1..], markers, link, k);
      assert Words(ts) == Words(ts[1..]);
    } else if k < |markers| {
      ScanExact(ts[1..], markers, link, k + 1);
      assert Map(Name, markers[k..]) == [markers[k].name] + Map(Name, markers[k + 1..]);
      assert Map(link, markers[k..])[1..] == Map(link, markers[k + 1..]);
      assert Words(ts)[1..] == Words(ts[1..]);
    } else {
      assert Map(Name, markers[k..]) == [];
    }
  }

  /** Either every mention is linked, in order, or none: linked exactly when the marked words are the markers' names. */
  lemma AllOrNothing(text: string, markers: seq<Marker>)
    ensures Serialized(text, markers)
         == if Words(Tokens(text)) == Map(Name, markers) then Render(Tokens(text), Map(Link, markers)) else Strip(text)
  {
    ScanExact(Tokens(text), markers, Link, 0);
    assert markers[0..] == markers;
  }

  function Typed(word: string): string {
    ['@'] + word
  }

  lemma StripHead(c: char, rest: string)
    ensures Strip([c] + rest) == (if c == SENTINEL then "" else [c]) + Strip(rest)
  {
    assert ([c] + rest)[1..] == rest;
  }

  lemma {:induction false} StripConcat(a: string, b: string)
    ensures Strip(a + b) == Strip(a) + Strip(b)
  {
    if a == "" {
      assert a + b == b;
    } else {
      var c, rest := a[0], a[1..];
      StripConcat(rest, b);
      StripHead(c, rest);
      StripHead(c, rest + b);
      HeadTail(a);
      ConcatAssoc([c], rest, b);
      ConcatAssoc(if c == SENTINEL then "" else [c], Strip(rest), Strip(b));
    }
  }

  lemma {:induction false} RenderStrips(ts: seq<Token>)
    ensures Strip(Render(ts, Map(Typed, Words(ts)))) == Strip(Source(ts))
  {
    if ts != [] {
      HeadTail(ts);
      RenderStrips(ts[1..]);
      StripsCons(ts[0], ts[1..]);
    }
  }

  lemma StripsCons(t: Token, rest: seq<Token>)
    requires Strip(Render(rest, Map(Typed, Words(rest)))) == Strip(Source(rest))
    ensures Strip(Render([t] + rest, Map(Typed, Words([t] + rest)))) == Strip(Source([t] + rest))
  {
    WordsCons(t, rest);
    SourceCons(t, rest);
    if t.Mention? {
      MentionCons(t.word, rest);
    } else {
      assert Words([t] + rest) == Words(rest);
      RenderCons(t, rest, Map(Typed, Words(rest)));
      StripHead(Written(t)[0], Source(rest));
      if t.Char? {
        StripHead(t.c, Render(rest, Map(Typed, Words(rest))));
      }
    }
  }

  lemma MentionCons(word: string, rest: seq<Token>)
    requires Strip(Render(rest, Map(Typed, Words(rest)))) == Strip(Source(rest))
    ensures Strip(Render([Mention(word)] + rest, Map(Typed, [word] + Words(rest)))) == Strip(Written(Mention(word)) + Source(rest))
  {
    var shown := Map(Typed, [word] + Words(rest));
    assert shown[0] == Typed(word) && shown[1..] == Map(Typed, Words(rest));
    RenderCons(Mention(word), rest, shown);
    MentionStrips(word);
    StripConcat(Written(Mention(word)), Source(rest));
    StripConcat(Typed(word), Render(rest, shown[1..]));
  }

  lemma MentionStrips(word: string)
    ensures Strip([SENTINEL, '@'] + word) == Strip(Typed(word))
  {
    assert [SENTINEL, '@'] + word == [SENTINEL] + Typed(word);
    StripConcat([SENTINEL], Typed(word));
    assert [SENTINEL][1..] == "";
  }

  /** Stripping loses nothing but sentinels: it is the text with every marked word as its at-name. */
  lemma StripIsTyped(text: string)
    ensures Strip(Render(Tokens(text), Map(Typed, Words(Tokens(text))))) == Strip(text)
  {
    RenderStrips(Tokens(text));
    TokensReadText(text);
  }

  function Issues(markers: seq<Marker>): nat {
    if markers == [] then 0 else Issues(markers[1..]) + if markers[0].kind == Issue then 1 else 0
  }

  lemma {:induction false} CaptionSizes(ts: seq<Token>, markers: seq<Marker>)
    requires Words(ts) == Map(Name, markers)
    ensures |Strip(Render(ts, Map(Caption, markers)))| + Issues(markers) == |Strip(Source(ts))|
  {
    if ts == [] {
      assert |Map(Name, markers)| == |markers|;
    } else {
      var t, rest := ts[0], ts[1..];
      HeadTail(ts);
      WordsCons(t, rest);
      if t.Mention? {
        assert |Map(Name, markers)| == |markers|;
        var later := markers[1..];
        assert Map(Name, later) == Map(Name, markers)[1..] == Words(rest);
        assert Map(Name, markers)[0] == t.word;
        CaptionSizes(rest, later);
        CaptionSize(t.word, rest, markers);
      } else {
        assert Words(ts) == Words(rest);
        CaptionSizes(rest, markers);
        PlainSize(t, rest, Map(Caption, markers));
      }
    }
  }

  lemma PlainSize(t: Token, rest: seq<Token>, shown: seq<string>)
    requires !t.Mention?
    ensures |Strip(Render([t] + rest, shown))| - |Strip(Render(rest, shown))| == |Strip(Source([t] + rest))| - |Strip(Source(rest))|
  {
    RenderCons(t, rest, shown);
    SourceCons(t, rest);
    StripHead(Written(t)[0], Source(rest));
    if t.Char? {
      StripHead(t.c, Render(rest, shown));
    }
  }

  lemma CaptionSize(word: string, rest: seq<Token>, markers: seq<Marker>)
    requires markers != [] && markers[0].name == word
    ensures |Strip(Render([Mention(word)] + rest, Map(Caption, markers)))| + (if markers[0].kind == Issue then 1 else 0)
         == |Strip(Typed(word))| + |Strip(Render(rest, Map(Caption, markers[1..])))|
    ensures |Strip(Source([Mention(word)] + rest))| == |Strip(Typed(word))| + |Strip(Source(rest))|
  {
    var shown := Map(Caption, markers);
    assert shown[1..] == Map(Caption, markers[1..]);
    RenderCons(Mention(word), rest, shown);
    StripConcat(shown[0], Render(rest, shown[1..]));
    StripHead('@', word);
    SourceCons(Mention(word), rest);
    MentionStrips(word);
    StripConcat(Written(Mention(word)), Source(rest));
  }

  lemma {:induction false} NoIssues(markers: seq<Marker>)
    ensures Issues(markers) == 0 <==> forall m | m in markers :: m.kind != Issue
  {
    if markers != [] {
      HeadTail(markers);
      NoIssues(markers[1..]);
    }
  }

  lemma TypedCaptions(markers: seq<Marker>)
    requires forall m | m in markers :: m.kind != Issue
    ensures Map(Caption, markers) == Map(Typed, Map(Name, markers))
  {
    forall i | 0 <= i < |markers| ensures Map(Caption, markers)[i] == Map(Typed, Map(Name, markers))[i] {
      assert markers[i] in markers;
    }
  }

  /**
   A linked text, read by its captions, is the stripped text exactly when it
   mentions no issue: captions of issues have no at-sign.
   */
  lemma BothReadAlikeExactly(text: string, markers: seq<Marker>)
    requires Words(Tokens(text)) == Map(Name, markers)
    ensures Serialized(text, markers) == Render(Tokens(text), Map(Link, markers))
    ensures Strip(Render(Tokens(text), Map(Caption, markers))) == Strip(text) <==> forall m | m in markers :: m.kind != Issue
  {
    AllOrNothing(text, markers);
    TokensReadText(text);
    CaptionSizes(Tokens(text), markers);
    NoIssues(markers);
    StripIsTyped(text);
    if Issues(markers) == 0 {
      TypedCaptions(markers);
    }
  }

  predicate Unspaced(s: string) {
    forall c | c in s :: !Whitespace(c)
  }

  lemma {:induction false} WordIsUnspaced(text: string, i: nat)
    requires i <= |text|
    ensures Unspaced(text[i..WordEnd(text, i)])
    decreases |text| - i
  {
    if WordEnd(text, i) > i {
      WordIsUnspaced(text, i + 1);
      assert text[i..WordEnd(text, i)] == [text[i]] + text[i + 1..WordEnd(text, i)];
    }
  }

  lemma WordsCons(t: Token, ts: seq<Token>)
    ensures Words([t] + ts) == (if t.Mention? then [t.word] else []) + Words(ts)
  {
    assert ([t] + ts)[1..] == ts;
  }

  lemma RenderCons(t: Token, ts: seq<Token>, shown: seq<string>)
    ensures t.Char? ==> Render([t] + ts, shown) == [t.c] + Render(ts, shown)
    ensures t.Stray? ==> Render([t] + ts, shown) == Render(ts, shown)
    ensures t.Mention? && shown != [] ==> Render([t] + ts, shown) == shown[0] + Render(ts, shown[1..])
  {
    assert ([t] + ts)[1..] == ts;
  }

  lemma {:induction false} WordsUnspaced(text: string)
    ensures forall w | w in Words(Tokens(text)) :: Unspaced(w)
    decreases |text|
  {
    if text != "" {
      TokensTail(text);
      WordsUnspaced(text[HeadSize(text)..]);
      WordsCons(Head(text), Tokens(text[HeadSize(text)..]));
      if AtMention(text) {
        WordIsUnspaced(text, 2);
      }
    }
  }

  /** A name with whitespace in it is never linked, and takes every other mention of the text with it. */
  lemma SpacedNameFallsBack(text: string, markers: seq<Marker>, m: Marker)
    requires m in markers && !Unspaced(m.name)
    ensures Serialized(text, markers) == Strip(text)
  {
    AllOrNothing(text, markers);
    WordsUnspaced(text);
    var i :| 0 <= i < |markers| && markers[i] == m;
    assert Map(Name, markers)[i] == m.name;
    assert Map(Name, markers)[i] in Map(Name, markers);
  }

  // ---- Texts built from mentions ----

  // Nothing before can run into what follows.
  predicate Closed(text: string) {
    text == "" || Whitespace(text[|text| - 1])
  }

  lemma {:induction false} WordEndInside(a: string, b: string, i: nat)
    requires i < |a| && Closed(a)
    ensures WordEnd(a + b, i) == WordEnd(a, i) < |a|
    decreases |a| - i
  {
    if !Whitespace(a[i]) {
      WordEndInside(a, b, i + 1);
    }
  }

  lemma HeadInside(a: string, b: string)
    requires Closed(a) && a != ""
    ensures HeadSize(a + b) == HeadSize(a) <= |a| && Closed(a[HeadSize(a)..])
    ensures (a + b)[HeadSize(a)..] == a[HeadSize(a)..] + b
    ensures Head(a + b) == Head(a)
  {
    if AtMention(a) {
      WordEndInside(a, b, 2);
      assert (a + b)[2..WordEnd(a, 2)] == a[2..WordEnd(a, 2)];
    }
  }

  /** After whitespace a text is read afresh. */
  lemma {:induction false} TokensConcat(a: string, b: string)
    requires Closed(a)
    ensures Tokens(a + b) == Tokens(a) + Tokens(b)
    decreases |a|
  {
    if a == "" {
      assert a + b == b;
    } else {
      var n := HeadSize(a);
      HeadInside(a, b);
      TokensConcat(a[n..], b);
      TokensTail(a);
      TokensTail(a + b);
      ConcatAssoc([Head(a)], Tokens(a[n..]), Tokens(b));
    }
  }

  lemma {:induction false} WordsConcat(a: seq<Token>, b: seq<Token>)
    ensures Words(a + b) == Words(a) + Words(b)
  {
    if a == [] {
      assert a + b == b;
    } else {
      WordsConcat(a[1..], b);
      WordsCons(a[0], a[1..]);
      WordsCons(a[0], a[1..] + b);
      HeadTail(a);
      ConcatAssoc([a[0]], a[1..], b);
      ConcatAssoc(if a[0].Mention? then [a[0].word] else [], Words(a[1..]), Words(b));
    }
  }

  // Nothing at all or whitespace first: where a marked word ends.
  predicate OpensWide(text: string) {
    text == "" || Whitespace(text[0])
  }

  lemma {:induction false} WordEndIs(text: string, i: nat, e: nat)
    requires i <= e <= |text| && (forall j | i <= j < e :: !Whitespace(text[j])) && (e < |text| ==> Whitespace(text[e]))
    ensures WordEnd(text, i) == e
    decreases e - i
  {
    if i < e {
      WordEndIs(text, i + 1, e);
    }
  }

  function Marked(name: string, after: string): string {
    [SENTINEL, '@'] + name + after
  }

  // A run that is followed by whitespace or by nothing is read as one mention of the whole name.
  lemma RunIsMention(name: string, after: string)
    requires Unspaced(name) && OpensWide(after)
    ensures Tokens(Marked(name, after)) == [Mention(name)] + Tokens(after)
  {
    var text, e := Marked(name, after), 2 + |name|;
    assert text[2..e] == name && text[e..] == after;
    forall j | 2 <= j < e ensures !Whitespace(text[j]) {
      assert text[j] == name[j - 2] && name[j - 2] in name;
    }
    WordEndIs(text, 2, e);
  }

  lemma WordsOfRun(name: string, after: string)
    requires Unspaced(name) && OpensWide(after)
    ensures Words(Tokens(Marked(name, after))) == [name] + Words(Tokens(after))
  {
    RunIsMention(name, after);
    WordsCons(Mention(name), Tokens(after));
  }

  /** A text that is one issue mention: linked it reads as the bare name, stripped as the at-name. */
  lemma IssueReadsDifferently(m: Marker)
    requires m.kind == Issue && Unspaced(m.name) && SENTINEL !in m.name
    ensures Serialized(Marked(m.name, ""), [m]) == Link(m)
    ensures Caption(m) == m.name && Strip(Marked(m.name, "")) == "@" + m.name
  {
    var text := Marked(m.name, "");
    RunIsMention(m.name, "");
    WordsOfRun(m.name, "");
    assert Map(Name, [m]) == [m.name];
    AllOrNothing(text, [m]);
    RenderCons(Mention(m.name), [], [Link(m)]);
    assert Map(Link, [m]) == [Link(m)];
    ConcatAssoc([SENTINEL, '@'], m.name, "");
    MentionStrips(m.name);
    StripHead('@', m.name);
    NothingToStrip(m.name);
    assert [SENTINEL, '@'] + m.name + "" == [SENTINEL, '@'] + m.name;
  }

  lemma SpaceIsPlain(text: string)
    ensures Words(Tokens([' '] + text)) == Words(Tokens(text))
  {
    assert ([' '] + text)[1..] == text;
    TokensTail([' '] + text);
    WordsCons(Char(' '), Tokens(text));
  }

  lemma WordsAround(front: string, m: Marker, back: string)
    requires Closed(front) && Unspaced(m.name)
    ensures Words(Tokens(front + Insertion(m) + back)) == Words(Tokens(front)) + [m.name] + Words(Tokens(back))
  {
    var run := Marked(m.name, [' '] + back);
    ConcatAssoc(front, Insertion(m), back);
    ConcatAssoc([SENTINEL, '@'] + m.name, [' '], back);
    TokensConcat(front, run);
    WordsConcat(Tokens(front), Tokens(run));
    WordsOfRun(m.name, [' '] + back);
    SpaceIsPlain(back);
    ConcatAssoc(Words(Tokens(front)), [m.name], Words(Tokens(back)));
  }

  lemma NamesAround(before: seq<Marker>, m: Marker, after: seq<Marker>)
    ensures Map(Name, before + [m] + after) == Map(Name, before) + [m.name] + Map(Name, after)
  {
  }

  lemma WordsOfInserted(text: string, start: nat, queryLength: nat, m: Marker)
    requires IsToken(text, start + 1 + queryLength, start) && Unspaced(m.name)
    ensures Words(Tokens(InsertMention(text, start, queryLength, m).0))
         == Words(Tokens(text[..start])) + [m.name] + Words(Tokens(text[start + 1 + queryLength..]))
  {
    assert Closed(text[..start]);
    WordsAround(text[..start], m, text[start + 1 + queryLength..]);
  }

  /**
   A mention put where the composer finds its token is read back as exactly its
   name, between the mentions before and after it; so it links if they do.
   */
  lemma InsertedMentionLinks(text: string, start: nat, queryLength: nat, m: Marker, before: seq<Marker>, after: seq<Marker>)
    requires IsToken(text, start + 1 + queryLength, start) && Unspaced(m.name)
    requires Words(Tokens(text[..start])) == Map(Name, before)
    requires Words(Tokens(text[start + 1 + queryLength..])) == Map(Name, after)
    ensures Serialized(InsertMention(text, start, queryLength, m).0, before + [m] + after)
         == Render(Tokens(InsertMention(text, start, queryLength, m).0), Map(Link, before + [m] + after))
  {
    WordsOfInserted(text, start, queryLength, m);
    NamesAround(before, m, after);
    AllOrNothing(InsertMention(text, start, queryLength, m).0, before + [m] + after);
  }

  // Plain text, then runs each with the plain text behind it.
  datatype Run = Run(marker: Marker, behind: string)

  function Composed(runs: seq<Run>): string {
    if runs == [] then "" else Marked(runs[0].marker.name, runs[0].behind + Composed(runs[1..]))
  }

  function Linked(runs: seq<Run>, link: Marker -> string): string {
    if runs == [] then "" else link(runs[0].marker) + runs[0].behind + Linked(runs[1..], link)
  }

  predicate Plain(s: string) {
    SENTINEL !in s
  }

  // Names without whitespace, each run closed off by whitespace or the end of the text.
  predicate WellSpaced(runs: seq<Run>) {
    forall i | 0 <= i < |runs| ::
      && Unspaced(runs[i].marker.name) && Plain(runs[i].behind)
      && (if runs[i].behind == "" then i == |runs| - 1 else Whitespace(runs[i].behind[0]))
  }

  lemma CharTokens(c: char, rest: string)
    requires c != SENTINEL
    ensures Tokens([c] + rest) == [Char(c)] + Tokens(rest)
  {
    TokensTail([c] + rest);
    assert ([c] + rest)[1..] == rest;
  }

  lemma {:induction false} PlainTokens(s: string, rest: string, shown: seq<string>)
    requires Plain(s)
    ensures Words(Tokens(s + rest)) == Words(Tokens(rest))
    ensures Render(Tokens(s + rest), shown) == s + Render(Tokens(rest), shown)
  {
    if s == "" {
      assert s + rest == rest;
    } else {
      var c, more := s[0], s[1..] + rest;
      assert c in s;
      PlainTokens(s[1..], rest, shown);
      CharTokens(c, more);
      WordsCons(Char(c), Tokens(more));
      RenderCons(Char(c), Tokens(more), shown);
      HeadTail(s);
      ConcatAssoc([c], s[1..], rest);
      ConcatAssoc([c], s[1..], Render(Tokens(rest), shown));
    }
  }

  function Markers(runs: seq<Run>): seq<Marker> {
    if runs == [] then [] else [runs[0].marker] + Markers(runs[1..])
  }

  lemma RunRead(link: Marker -> string, m: Marker, behind: string, rest: string, ms: seq<Marker>)
    requires Unspaced(m.name) && Plain(behind) && OpensWide(behind + rest)
    requires Words(Tokens(rest)) == Map(Name, ms)
    ensures Words(Tokens(Marked(m.name, behind + rest))) == [m.name] + Map(Name, ms)
    ensures Render(Tokens(Marked(m.name, behind + rest)), Map(link, [m] + ms))
         == link(m) + (behind + Render(Tokens(rest), Map(link, ms)))
  {
    PlainTokens(behind, rest, Map(link, ms));
    WordsOfRun(m.name, behind + rest);
    RenderOfRun(link, m, behind + rest, ms);
  }

  lemma RenderOfRun(link: Marker -> string, m: Marker, after: string, ms: seq<Marker>)
    requires Unspaced(m.name) && OpensWide(after)
    ensures Render(Tokens(Marked(m.name, after)), Map(link, [m] + ms)) == link(m) + Render(Tokens(after), Map(link, ms))
  {
    RunIsMention(m.name, after);
    var links := Map(link, [m] + ms);
    assert links[1..] == Map(link, ms);
    RenderCons(Mention(m.name), Tokens(after), links);
  }

  lemma WellSpacedTail(runs: seq<Run>)
    requires WellSpaced(runs) && runs != []
    ensures WellSpaced(runs[1..]) && Unspaced(runs[0].marker.name) && Plain(runs[0].behind)
    ensures OpensWide(runs[0].behind + Composed(runs[1..]))
  {
    assert forall i | 0 <= i < |runs| - 1 :: runs[1..][i] == runs[i + 1];
    assert runs[0].behind == "" ==> runs[1..] == [];
  }

  lemma {:induction false} RunsRead(runs: seq<Run>, link: Marker -> string)
    requires WellSpaced(runs)
    ensures Words(Tokens(Composed(runs))) == Map(Name, Markers(runs))
    ensures Render(Tokens(Composed(runs)), Map(link, Markers(runs))) == Linked(runs, link)
  {
    if runs != [] {
      var rest := runs[1..];
      WellSpacedTail(runs);
      RunsRead(rest, link);
      var m, behind := runs[0].marker, runs[0].behind;
      RunRead(link, m, behind, Composed(rest), Markers(rest));
      assert Map(Name, [m] + Markers(rest)) == [m.name] + Map(Name, Markers(rest));
      ConcatAssoc(link(m), behind, Linked(rest, link));
    }
  }

  /** A text of such runs is always linked in full. */
  lemma WellSpacedLinks(start: string, runs: seq<Run>)
    requires Plain(start) && WellSpaced(runs)
    ensures Serialized(start + Composed(runs), Markers(runs)) == start + Linked(runs, Link)
  {
    PlainTokens(start, Composed(runs), Map(Link, Markers(runs)));
    RunsRead(runs, Link);
    AllOrNothing(start + Composed(runs), Markers(runs));
  }
}
