/** Serialised mentions in terms of characters: how a text is read, and what is written for it. */
module MentionText {
  import opened Wrappers
  import opened Sequences
  import opened Text
  import opened Mentions

  // ---- Reading ----

  /**
   The pieces of a text: plain characters; marks that no at-sign follows; and
   marked words, each up to the next blank or the end of the text.
   */
  ghost predicate Spells(ts: seq<Token>, text: string) {
    if ts == [] then text == ""
    else
      match ts[0]
      case Char(c) => text != "" && text[0] == c && c != '\U{2063}' && Spells(ts[1..], text[1..])
      case Stray => text != "" && text[0] == '\U{2063}' && (|text| == 1 || text[1] != '@') && Spells(ts[1..], text[1..])
      case Mention(word) =>
        && |text| >= 2 + |word| && text[0] == '\U{2063}' && text[1] == '@' && text[2..2 + |word|] == word
        && (forall c | c in word :: c !in BLANKS) && (|text| > 2 + |word| ==> text[2 + |word|] in BLANKS)
        && Spells(ts[1..], text[2 + |word|..])
  }

  lemma {:induction false} WordEndsAtBlank(text: string, i: nat)
    requires i <= |text|
    ensures var e := WordEnd(text, i); (forall c | c in text[i..e] :: c !in BLANKS) && (e < |text| ==> text[e] in BLANKS)
    decreases |text| - i
  {
    if i < |text| {
      BlanksAreWhitespace(text[i]);
      if !Whitespace(text[i]) {
        WordEndsAtBlank(text, i + 1);
        var e := WordEnd(text, i + 1);
        assert text[i..e] == [text[i]] + text[i + 1..e];
      }
    }
  }

  lemma {:induction false} TokensSpell(text: string)
    ensures Spells(Tokens(text), text)
    decreases |text|
  {
    if text != "" {
      TokensTail(text);
      TokensSpell(text[HeadSize(text)..]);
      if AtMention(text) {
        WordEndsAtBlank(text, 2);
      }
    }
  }

  // ---- Writing ----

  // The link of a mention, as Markdown.
  ghost predicate IsLink(m: Marker, s: string) {
    match m.kind
    case Member => s == "[@" + m.name + "](mention://member/" + m.id + ")"
    case Agent => s == "[@" + m.name + "](mention://agent/" + m.id + ")"
    case Squad => s == "[@" + m.name + "](mention://squad/" + m.id + ")"
    case All => s == "[@" + m.name + "](mention://all/" + m.id + ")"
    case Issue => s == "[" + m.name + "](mention://issue/" + m.id + ")"
  }

  /** Plain characters stay, stray marks go, and each marked word becomes the link of the next marker, which it names. */
  ghost predicate Writes(ts: seq<Token>, markers: seq<Marker>, out: string) {
    if ts == [] then markers == [] && out == ""
    else
      match ts[0]
      case Char(c) => out != "" && out[0] == c && Writes(ts[1..], markers, out[1..])
      case Stray => Writes(ts[1..], markers, out)
      case Mention(word) =>
        markers != [] && markers[0].name == word
        && exists link, rest :: IsLink(markers[0], link) && out == link + rest && Writes(ts[1..], markers[1..], rest)
  }

  lemma LinkIsLink(m: Marker)
    ensures IsLink(m, Link(m))
  {
    assert ['@'] + m.name == "@" + m.name;
    ConcatAssoc("[", "@", m.name);
    assert "[" + "@" == "[@";
    assert TypeText(m.kind) == match m.kind case Member => "member" case Agent => "agent" case Squad => "squad" case All => "all" case Issue => "issue";
    var caption := "[" + Caption(m);
    assert "](mention://" + "member" + "/" == "](mention://member/" && "](mention://" + "agent" + "/" == "](mention://agent/";
    assert "](mention://" + "squad" + "/" == "](mention://squad/" && "](mention://" + "all" + "/" == "](mention://all/";
    assert "](mention://" + "issue" + "/" == "](mention://issue/";
    Joined(caption, "](mention://", TypeText(m.kind), "/");
  }

  lemma Joined(a: string, b: string, c: string, d: string)
    ensures a + b + c + d == a + (b + c + d)
  {
  }

  lemma {:induction false} RenderWrites(ts: seq<Token>, markers: seq<Marker>)
    requires Words(ts) == Map(Name, markers)
    ensures Writes(ts, markers, Render(ts, Map(Link, markers)))
  {
    if ts != [] {
      var t, rest := ts[0], ts[1..];
      HeadTail(ts);
      WordsCons(t, rest);
      var links := Map(Link, markers);
      RenderCons(t, rest, links);
      match t
      case Char(c) =>
        RenderWrites(rest, markers);
        assert ([c] + Render(rest, links))[1..] == Render(rest, links);
      case Stray => RenderWrites(rest, markers);
      case Mention(word) =>
        assert |markers| == |Map(Name, markers)| > 0 && Map(Name, markers)[0] == word;
        assert Map(Name, markers[1..]) == Map(Name, markers)[1..] == Words(rest);
        assert links[1..] == Map(Link, markers[1..]);
        RenderWrites(rest, markers[1..]);
        LinkIsLink(markers[0]);
    }
  }

  lemma {:induction false} WritesNames(ts: seq<Token>, markers: seq<Marker>, out: string)
    requires Writes(ts, markers, out)
    ensures Words(ts) == Map(Name, markers)
  {
    if ts != [] {
      HeadTail(ts);
      WordsCons(ts[0], ts[1..]);
      match ts[0]
      case Char(_) => WritesNames(ts[1..], markers, out[1..]);
      case Stray => WritesNames(ts[1..], markers, out);
      case Mention(word) =>
        var link, rest :| IsLink(markers[0], link) && out == link + rest && Writes(ts[1..], markers[1..], rest);
        WritesNames(ts[1..], markers[1..], rest);
        assert Map(Name, markers) == [word] + Map(Name, markers[1..]);
    }
  }

  // ---- Stripping ----

  ghost predicate Visible(c: char) {
    c != '\U{2063}'
  }

  ghost predicate SameChar(c: char, d: char) {
    c == d
  }

  lemma StripOneMore(c: char, rest: string, at: seq<nat>) returns (more: seq<nat>)
    requires Read(rest, Strip(rest), at, Visible, SameChar)
    ensures Read([c] + rest, Strip([c] + rest), more, Visible, SameChar)
  {
    StripHead(c, rest);
    if Visible(c) {
      ReadTakes(c, c, rest, Strip(rest), at, Visible, SameChar);
      more := [0] + Later(at);
    } else {
      ReadSkips(c, rest, Strip(rest), at, Visible, SameChar);
      assert "" + Strip(rest) == Strip(rest);
      more := Later(at);
    }
  }

  lemma {:induction false} StripKeeps(text: string) returns (at: seq<nat>)
    ensures Read(text, Strip(text), at, Visible, SameChar)
  {
    at := [];
    if text != "" {
      at := StripKeeps(text[1..]);
      HeadTail(text);
      at := StripOneMore(text[0], text[1..], at);
    }
  }

  /**
   What serialising gives for any text and markers: the links written in its
   place if they can all be written, and otherwise the text without its marks.
   */
  lemma SerializedReads(text: string, markers: seq<Marker>) returns (ts: seq<Token>, at: seq<nat>)
    ensures Spells(ts, text)
    ensures var out := Serialized(text, markers);
            || Writes(ts, markers, out)
            || ((forall o :: !Writes(ts, markers, o)) && Read(text, out, at, Visible, SameChar))
  {
    ts := Tokens(text);
    at := StripKeeps(text);
    TokensSpell(text);
    AllOrNothing(text, markers);
    if Words(ts) == Map(Name, markers) {
      RenderWrites(ts, markers);
    } else {
      forall o ensures !Writes(ts, markers, o) {
        if Writes(ts, markers, o) {
          WritesNames(ts, markers, o);
        }
      }
    }
  }

  /** Inserting replaces the at-sign and the query by the marked name and a blank, and puts the cursor behind it. */
  lemma InsertLeaves(text: string, start: nat, queryLength: nat, m: Marker)
    requires start + 1 + queryLength <= |text|
    ensures var r := InsertMention(text, start, queryLength, m);
            && r.0 == text[..start] + "\U{2063}@" + m.name + " " + text[start + 1 + queryLength..]
            && r.1 == start + |m.name| + 3
  {
    assert [SENTINEL, '@'] == "\U{2063}@" && [' '] == " ";
    Joined(text[..start], "\U{2063}@", m.name, " ");
  }
}
