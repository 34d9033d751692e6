/** The document generator of talk2DSL.java (`DocumentGenerationService`):
    `generateMeaningfulText` builds a fixed-format document from the `topic`
    and `keywords` entries of a DSL properties map, one bullet per
    comma-separated keyword, each with the sentence
    `generateSentenceForKeyword` produces. Loading the properties file and
    writing the document out are not modelled: the map arrives as an input
    and the document is the result. */
module Talk2Dsl {
  import opened Strings

  const DefaultTopic := "Unknown Topic"
  const KeyAspectsHeading := "Key aspects include:"
  const NoAspectsLine := "No specific aspects provided for discussion."

  // ---------------------------------------------------------------------
  // `generateSentenceForKeyword`
  // ---------------------------------------------------------------------

  /** `generateSentenceForKeyword(keyword, topic)`: the `String.format`
      template with the keyword and the topic filled in. */
  function SentenceForKeyword(keyword: string, topic: string): string {
    "The concept of " + keyword + " is crucial in " + topic + ", ensuring meaningful outcomes."
  }

  /** The sentence is the fixed text around its two arguments: 61
      characters of template, the keyword after the 15-character opening
      and the topic just before the 31-character ending. */
  lemma SentenceLayout(keyword: string, topic: string)
    ensures var s := SentenceForKeyword(keyword, topic);
      && |s| == |keyword| + |topic| + 61
      && s[15..15 + |keyword|] == keyword
      && s[|s| - 31 - |topic|..|s| - 31] == topic
  {
    var s := SentenceForKeyword(keyword, topic);
    var opening, middle, ending := "The concept of ", " is crucial in ", ", ensuring meaningful outcomes.";
    assert |opening| == 15 && |middle| == 15 && |ending| == 31;
    assert s == opening + keyword + middle + topic + ending;
    assert s[15..15 + |keyword|] == keyword;
    assert s[|s| - 31 - |topic|..|s| - 31] == topic;
  }

  /** For a fixed topic the sentence names its keyword unambiguously, and
      for a fixed keyword its topic. */
  lemma SentenceDeterminesArguments(k1: string, t1: string, k2: string, t2: string)
    requires SentenceForKeyword(k1, t1) == SentenceForKeyword(k2, t2)
    ensures t1 == t2 ==> k1 == k2
    ensures k1 == k2 ==> t1 == t2
  {
    SentenceLayout(k1, t1);
    SentenceLayout(k2, t2);
  }

  // ---------------------------------------------------------------------
  // Java's `String.split(",")`
  // ---------------------------------------------------------------------

  /** The trailing empty pieces removed, as `split` with limit 0 does. */
  function DropTrailingEmpty(pieces: seq<string>): (kept: seq<string>)
    ensures |kept| <= |pieces| && kept == pieces[..|kept|]
    ensures kept == [] || kept[|kept| - 1] != []
  {
    if pieces != [] && pieces[|pieces| - 1] == [] then DropTrailingEmpty(pieces[..|pieces| - 1]) else pieces
  }

  /** Only empty pieces are removed. */
  lemma {:induction false} DropTrailingEmptyDropsEmpty(pieces: seq<string>)
    ensures forall k | |DropTrailingEmpty(pieces)| <= k < |pieces| :: pieces[k] == []
  {
    if pieces != [] && pieces[|pieces| - 1] == [] {
      DropTrailingEmptyDropsEmpty(pieces[..|pieces| - 1]);
    }
  }

  /** `s.split(",")`: a string without a comma is its own single piece;
      otherwise the pieces between commas, without the trailing empty ones. */
  function JavaSplitComma(s: string): seq<string> {
    if ',' !in s then [s] else DropTrailingEmpty(SplitOn(s, ','))
  }

  /** Joining two non-empty runs of pieces puts one separator between them. */
  lemma {:induction false} JoinWithAppend(a: seq<string>, b: seq<string>, sep: string)
    requires |a| >= 1 && |b| >= 1
    ensures JoinWith(a + b, sep) == JoinWith(a, sep) + sep + JoinWith(b, sep)
    decreases |a|
  {
    if |a| == 1 {
      assert (a + b)[1..] == b;
    } else {
      assert (a + b)[1..] == a[1..] + b;
      JoinWithAppend(a[1..], b, sep);
    }
  }

  /** Empty pieces joined by a one-character separator give only that character. */
  lemma {:induction false} JoinEmptyPieces(pieces: seq<string>, c: char)
    requires forall i | 0 <= i < |pieces| :: pieces[i] == []
    ensures forall k | 0 <= k < |JoinWith(pieces, [c])| :: JoinWith(pieces, [c])[k] == c
  {
    if |pieces| > 1 {
      JoinEmptyPieces(pieces[1..], c);
      assert JoinWith(pieces, [c]) == [c] + JoinWith(pieces[1..], [c]);
    }
  }

  /** The pieces hold no comma, joined with commas they are a prefix of the
      input and everything after that prefix is a comma, and the last piece
      is empty only when it is the input itself. Together these say the
      pieces are the input's comma-separated fields with the trailing empty
      fields removed. */
  lemma JavaSplitCommaFields(s: string)
    ensures var pieces := JavaSplitComma(s);
      && (forall i | 0 <= i < |pieces| :: ',' !in pieces[i])
      && StartsWith(s, JoinWith(pieces, ","))
      && (forall k | |JoinWith(pieces, ",")| <= k < |s| :: s[k] == ',')
      && (',' !in s ==> pieces == [s])
      && (',' in s ==> pieces == [] || pieces[|pieces| - 1] != [])
  {
    if ',' in s {
      var all := SplitOn(s, ',');
      JoinSplitOn(s, ',');
      DropTrailingEmptyDropsEmpty(all);
      KeptPiecesPrefix(all, DropTrailingEmpty(all), ',');
    }
  }

  /** Joined pieces start with the join of any leading run of them, and
      when the pieces after that run are all empty only separators follow. */
  lemma KeptPiecesPrefix(all: seq<string>, kept: seq<string>, c: char)
    requires |kept| <= |all| && kept == all[..|kept|]
    requires forall k | |kept| <= k < |all| :: all[k] == []
    ensures StartsWith(JoinWith(all, [c]), JoinWith(kept, [c]))
    ensures forall k | |JoinWith(kept, [c])| <= k < |JoinWith(all, [c])| :: JoinWith(all, [c])[k] == c
  {
    if kept == [] {
      JoinEmptyPieces(all, c);
    } else if |kept| == |all| {
      assert all == kept;
      SelfPrefix(JoinWith(all, [c]));
    } else {
      var dropped := all[|kept|..];
      assert all == kept + dropped;
      assert forall k | 0 <= k < |dropped| :: dropped[k] == all[|kept| + k];
      EmptyPiecesAfter(kept, dropped, c);
    }
  }

  lemma SelfPrefix(s: string)
    ensures StartsWith(s, s)
  {
    assert s[..|s|] == s;
  }

  /** Joining pieces followed by empty pieces adds only separators. */
  lemma EmptyPiecesAfter(kept: seq<string>, dropped: seq<string>, c: char)
    requires kept != [] && dropped != []
    requires forall k | 0 <= k < |dropped| :: dropped[k] == []
    ensures var whole, front := JoinWith(kept + dropped, [c]), JoinWith(kept, [c]);
      && StartsWith(whole, front)
      && forall k | |front| <= k < |whole| :: whole[k] == c
  {
    var whole, front, back := JoinWith(kept + dropped, [c]), JoinWith(kept, [c]), JoinWith(dropped, [c]);
    JoinEmptyPieces(dropped, c);
    JoinWithAppend(kept, dropped, [c]);
    assert whole == front + [c] + back;
    assert whole[..|front|] == front;
    forall k | |front| <= k < |whole|
      ensures whole[k] == c
    {
      if k > |front| {
        assert whole[k] == back[k - |front| - 1];
      }
    }
  }

  // ---------------------------------------------------------------------
  // `generateMeaningfulText`
  // ---------------------------------------------------------------------

  /** `dslContent.getOrDefault(key, default)`. */
  function GetOrDefault(dsl: map<string, string>, key: string, default: string): string {
    if key in dsl then dsl[key] else default
  }

  function Topic(dsl: map<string, string>): string {
    GetOrDefault(dsl, "topic", DefaultTopic)
  }

  function Keywords(dsl: map<string, string>): string {
    GetOrDefault(dsl, "keywords", "")
  }

  /** Each line followed by a line break: the text a StringBuilder holds
      after the lines have been appended one by one. */
  function Terminated(lines: seq<string>): string {
    if lines == [] then "" else Terminated(lines[..|lines| - 1]) + lines[|lines| - 1] + "\n"
  }

  /** The bullet line of one (already trimmed) keyword. */
  function BulletLine(keyword: string, topic: string): string {
    "- " + keyword + ": " + SentenceForKeyword(keyword, topic)
  }

  /** One bullet line per piece of the keyword array, each piece trimmed. */
  function BulletLines(pieces: seq<string>, topic: string): (lines: seq<string>)
    ensures |lines| == |pieces|
  {
    if pieces == [] then []
    else BulletLines(pieces[..|pieces| - 1], topic) + [BulletLine(JavaTrim(pieces[|pieces| - 1]), topic)]
  }

  /** The title line and the empty line after it. */
  function TitleLines(topic: string): seq<string> {
    ["Document on " + topic, ""]
  }

  function IntroLine(topic: string): string {
    "This document explores the concept of " + topic + "."
  }

  /** The lines of the document for a topic and a keyword list: the title,
      an empty line, the introduction, and either the heading with one
      bullet per comma-separated keyword or the line saying there are
      none. */
  function DocumentLinesFor(topic: string, keywords: string): seq<string> {
    TitleLines(topic) + [IntroLine(topic)]
      + if keywords != "" then [KeyAspectsHeading] + BulletLines(JavaSplitComma(keywords), topic)
        else [NoAspectsLine]
  }

  /** The lines of the document generated from a DSL map. */
  function DocumentLines(dsl: map<string, string>): seq<string> {
    DocumentLinesFor(Topic(dsl), Keywords(dsl))
  }

  /** Appending a line and a break to the text of some lines gives the text
      of those lines and one more. */
  lemma AppendLine(text: string, lines: seq<string>, line: string)
    requires text == Terminated(lines)
    ensures text + line + "\n" == Terminated(lines + [line])
  {
    assert (lines + [line])[..|lines|] == lines;
  }

  /** `append(title).append("\n\n")` is the title line and an empty line. */
  lemma TitleText(topic: string)
    ensures "Document on " + topic + "\n\n" == Terminated(TitleLines(topic))
  {
    var title := "Document on " + topic;
    var lines := TitleLines(topic);
    assert lines[..1] == [title] && lines[1] == "";
    assert [title][..0] == [];
    assert Terminated([title]) == title + "\n";
    assert Terminated(lines) == title + "\n" + "" + "\n";
  }

  /** `append(lead).append(topic).append(".\n")` is the line `<lead><topic>.` */
  lemma DotLineText(doc: string, lines: seq<string>, lead: string, topic: string)
    requires doc == Terminated(lines)
    ensures doc + lead + topic + ".\n" == Terminated(lines + [lead + topic + "."])
  {
    AppendLine(doc, lines, lead + topic + ".");
  }

  /** `generateMeaningfulText`: the StringBuilder receives the title, the
      introduction, and then either the heading and one bullet per keyword,
      in the loop's order, or the line saying there are none; the result is
      the document's lines, each followed by a line break. */
  method GenerateMeaningfulText(dslContent: map<string, string>) returns (document: string)
    ensures document == Terminated(DocumentLines(dslContent))
  {
    var topic := if "topic" in dslContent then dslContent["topic"] else DefaultTopic;
    var keywords := if "keywords" in dslContent then dslContent["keywords"] else "";
    assert topic == Topic(dslContent) && keywords == Keywords(dslContent);
    document := "Document on " + topic + "\n\n";
    TitleText(topic);
    DotLineText(document, TitleLines(topic), "This document explores the concept of ", topic);
    document := document + "This document explores the concept of " + topic + ".\n";
    ghost var opening := TitleLines(topic) + [IntroLine(topic)];
    if keywords != "" {
      var keywordArray := JavaSplitComma(keywords);
      AppendLine(document, opening, KeyAspectsHeading);
      document := document + KeyAspectsHeading + "\n";
      document := AppendBullets(document, keywordArray, topic);
      TerminatedAppend(opening + [KeyAspectsHeading], BulletLines(keywordArray, topic));
      AppendAssoc(opening, [KeyAspectsHeading], BulletLines(keywordArray, topic));
    } else {
      AppendLine(document, opening, NoAspectsLine);
      document := document + NoAspectsLine + "\n";
    }
  }

  /** The keyword loop of `generateMeaningfulText`: one bullet line per
      piece, trimmed, appended in order after `head`. */
  method AppendBullets(head: string, keywordArray: seq<string>, topic: string) returns (document: string)
    ensures document == head + Terminated(BulletLines(keywordArray, topic))
  {
    document := head;
    assert head + Terminated(BulletLines(keywordArray[..0], topic)) == head;
    var i := 0;
    while i < |keywordArray|
      invariant 0 <= i <= |keywordArray|
      invariant document == head + Terminated(BulletLines(keywordArray[..i], topic))
    {
      var keyword := JavaTrim(keywordArray[i]);
      var bullet := BulletLine(keyword, topic);
      AppendLineAfter(head, BulletLines(keywordArray[..i], topic), bullet);
      BulletLinesStep(keywordArray, i, topic);
      document := document + bullet + "\n";
      assert document == head + Terminated(BulletLines(keywordArray[..i + 1], topic));
      i := i + 1;
      assert document == head + Terminated(BulletLines(keywordArray[..i], topic));
    }
    assert keywordArray[..i] == keywordArray;
  }

  /** The loop's step: appending a bullet and a break after the bullets so
      far gives the text of one more bullet. */
  lemma AppendLineAfter(head: string, lines: seq<string>, line: string)
    ensures head + Terminated(lines) + line + "\n" == head + Terminated(lines + [line])
  {
    assert (lines + [line])[..|lines|] == lines;
  }

  lemma BulletLinesStep(pieces: seq<string>, i: nat, topic: string)
    requires i < |pieces|
    ensures BulletLines(pieces[..i + 1], topic) == BulletLines(pieces[..i], topic) + [BulletLine(JavaTrim(pieces[i]), topic)]
  {
    assert pieces[..i + 1][..i] == pieces[..i];
  }

  lemma AppendAssoc(a: seq<string>, b: seq<string>, c: seq<string>)
    ensures a + (b + c) == a + b + c
  {
  }

  /** The text of two runs of lines is the text of the first followed by
      that of the second. */
  lemma {:induction false} TerminatedAppend(a: seq<string>, b: seq<string>)
    ensures Terminated(a + b) == Terminated(a) + Terminated(b)
    decreases |b|
  {
    if b == [] {
      assert a + b == a;
    } else {
      TerminatedAppend(a, b[..|b| - 1]);
      assert (a + b)[..|a + b| - 1] == a + b[..|b| - 1];
    }
  }

  // ---------------------------------------------------------------------
  // Properties of the document
  // ---------------------------------------------------------------------

  /** The k-th bullet line is the k-th piece, trimmed, with its sentence. */
  lemma {:induction false} BulletLinesAt(pieces: seq<string>, topic: string, k: int)
    requires 0 <= k < |pieces|
    ensures BulletLines(pieces, topic)[k] == BulletLine(JavaTrim(pieces[k]), topic)
    decreases |pieces|
  {
    if k < |pieces| - 1 {
      BulletLinesAt(pieces[..|pieces| - 1], topic, k);
    }
  }

  /** Terminated text of at least one line ends with a line break. */
  lemma TerminatedEndsWithNewline(lines: seq<string>)
    requires lines != []
    ensures var t := Terminated(lines); t != [] && t[|t| - 1] == '\n'
  {
  }

  /** The generated document always ends with a line break. */
  lemma DocumentEndsWithNewline(dsl: map<string, string>)
    ensures var doc := Terminated(DocumentLines(dsl)); doc != [] && doc[|doc| - 1] == '\n'
  {
    TerminatedEndsWithNewline(DocumentLines(dsl));
  }

  /** The document opens with "Document on <topic>", an empty line and
      "This document explores the concept of <topic>.", whatever the
      keywords. */
  lemma {:induction false} TerminatedPrefix(a: seq<string>, b: seq<string>)
    ensures StartsWith(Terminated(a + b), Terminated(a))
    decreases |b|
  {
    if b == [] {
      assert a + b == a;
    } else {
      var c := a + b[..|b| - 1];
      TerminatedPrefix(a, b[..|b| - 1]);
      assert (a + b)[..|a + b| - 1] == c;
    }
  }

  lemma DocumentOpening(dsl: map<string, string>)
    ensures StartsWith(Terminated(DocumentLines(dsl)),
      "Document on " + Topic(dsl) + "\n\n" + "This document explores the concept of " + Topic(dsl) + ".\n")
  {
    var topic := Topic(dsl);
    var opening := TitleLines(topic) + [IntroLine(topic)];
    TitleText(topic);
    DotLineText("Document on " + topic + "\n\n", TitleLines(topic), "This document explores the concept of ", topic);
    var rest := DocumentLines(dsl)[3..];
    assert DocumentLines(dsl) == opening + rest;
    TerminatedPrefix(opening, rest);
  }

  /** Terminated lines are the lines joined by line breaks, with an empty
      piece after the last break. */
  lemma {:induction false} TerminatedIsJoin(lines: seq<string>)
    ensures Terminated(lines) == JoinWith(lines + [""], "\n")
    decreases |lines|
  {
    if lines != [] {
      var init := lines[..|lines| - 1];
      TerminatedIsJoin(init);
      assert lines == init + [lines[|lines| - 1]];
      JoinWithAppend(init + [lines[|lines| - 1]], [""], "\n");
      if init != [] {
        JoinWithAppend(init, [lines[|lines| - 1]], "\n");
        JoinWithAppend(init, [""], "\n");
      }
    }
  }

  /** The fixed texts of a bullet line hold no line break. */
  lemma TemplateSingleLine()
    ensures '\n' !in "- " && '\n' !in ": "
    ensures '\n' !in "The concept of " && '\n' !in " is crucial in "
    ensures '\n' !in ", ensuring meaningful outcomes."
  {
    TemplateEndingSingleLine();
  }

  lemma TemplateEndingSingleLine()
    ensures '\n' !in ", ensuring meaningful outcomes."
  {
  }

  /** Single-line topic and keywords give single-line bullets. */
  lemma {:induction false} BulletLinesSingleLine(pieces: seq<string>, topic: string)
    requires '\n' !in topic
    requires forall i | 0 <= i < |pieces| :: '\n' !in pieces[i]
    ensures forall k | 0 <= k < |BulletLines(pieces, topic)| :: '\n' !in BulletLines(pieces, topic)[k]
  {
    if pieces != [] {
      BulletLinesSingleLine(pieces[..|pieces| - 1], topic);
      JavaTrimKeepsOut(pieces[|pieces| - 1], '\n');
      TemplateSingleLine();
    }
  }

  /** The fixed lines of the document hold no line break. */
  lemma FixedLinesSingleLine(topic: string)
    requires '\n' !in topic
    ensures '\n' !in "Document on " + topic && '\n' !in IntroLine(topic)
    ensures '\n' !in KeyAspectsHeading && '\n' !in NoAspectsLine
  {
    IntroSingleLine(topic);
    NoAspectsSingleLine();
  }

  lemma IntroSingleLine(topic: string)
    requires '\n' !in topic
    ensures '\n' !in IntroLine(topic)
  {
  }

  lemma NoAspectsSingleLine()
    ensures '\n' !in NoAspectsLine
  {
  }

  /** When neither the topic nor the keywords hold a line break, splitting
      the document at its line breaks gives back exactly its lines, and the
      empty text after the final break. */
  lemma DocumentSplitsIntoLines(dsl: map<string, string>)
    requires '\n' !in Topic(dsl) && '\n' !in Keywords(dsl)
    ensures SplitOn(Terminated(DocumentLines(dsl)), '\n') == DocumentLines(dsl) + [""]
  {
    var topic, keywords := Topic(dsl), Keywords(dsl);
    var lines := DocumentLines(dsl);
    TerminatedIsJoin(lines);
    FixedLinesSingleLine(topic);
    if keywords != "" {
      SplitPiecesKeepOut(keywords, '\n');
      BulletLinesSingleLine(JavaSplitComma(keywords), topic);
    }
    assert forall i | 0 <= i < |lines + [""]| :: '\n' !in (lines + [""])[i];
    SplitOnJoin(lines + [""], '\n');
  }

  /** The pieces of a string without `x` do not hold `x`. */
  lemma SplitPiecesKeepOut(s: string, x: char)
    requires x !in s
    ensures forall i | 0 <= i < |JavaSplitComma(s)| :: x !in JavaSplitComma(s)[i]
  {
    if ',' in s {
      SplitOnKeepsOut(s, ',', x);
    }
  }

  /** There is one bullet per piece `split(",")` returns, after the three
      opening lines and the heading; without keywords there are four lines. */
  lemma DocumentLineCount(dsl: map<string, string>)
    ensures Keywords(dsl) != "" ==> |DocumentLines(dsl)| == 4 + |JavaSplitComma(Keywords(dsl))|
    ensures Keywords(dsl) == "" ==> |DocumentLines(dsl)| == 4
  {
  }

  /** Absent keys take their defaults: the title names "Unknown Topic"; and
      when the keywords are absent or present but empty, the last line says
      there are no aspects. */
  lemma DocumentDefaults(dsl: map<string, string>)
    ensures "topic" !in dsl ==> DocumentLines(dsl)[0] == "Document on Unknown Topic"
    ensures Keywords(dsl) == "" <==> ("keywords" !in dsl || dsl["keywords"] == "")
    ensures Keywords(dsl) == "" ==> DocumentLines(dsl)[3..] == ["No specific aspects provided for discussion."]
  {
    var topic, keywords := Topic(dsl), Keywords(dsl);
    var front := TitleLines(topic) + [IntroLine(topic)];
    var rest := if keywords != "" then [KeyAspectsHeading] + BulletLines(JavaSplitComma(keywords), topic) else [NoAspectsLine];
    assert DocumentLines(dsl) == front + rest;
    assert |front| == 3 && front[0] == "Document on " + topic;
  }

  /** The bullets follow the heading in the keyword array's order: line
      4 + k is the k-th piece, trimmed, with its sentence. */
  lemma DocumentBullets(dsl: map<string, string>)
    requires Keywords(dsl) != ""
    ensures var pieces := JavaSplitComma(Keywords(dsl));
      && DocumentLines(dsl)[3] == KeyAspectsHeading
      && forall k | 0 <= k < |pieces| :: DocumentLines(dsl)[4 + k] == BulletLine(JavaTrim(pieces[k]), Topic(dsl))
  {
    var topic, pieces := Topic(dsl), JavaSplitComma(Keywords(dsl));
    var front := TitleLines(topic) + [IntroLine(topic)];
    assert DocumentLines(dsl) == front + ([KeyAspectsHeading] + BulletLines(pieces, topic));
    LineAfter(front, KeyAspectsHeading, BulletLines(pieces, topic));
    forall k | 0 <= k < |pieces| ensures DocumentLines(dsl)[4 + k] == BulletLine(JavaTrim(pieces[k]), topic) {
      DocumentBulletAt(topic, Keywords(dsl), k);
    }
  }

  /** Line 4 + k of a document with keywords is the k-th bullet. */
  lemma DocumentBulletAt(topic: string, keywords: string, k: int)
    requires keywords != "" && 0 <= k < |JavaSplitComma(keywords)|
    ensures DocumentLinesFor(topic, keywords)[4 + k] == BulletLine(JavaTrim(JavaSplitComma(keywords)[k]), topic)
  {
    var pieces := JavaSplitComma(keywords);
    var front, bullets := TitleLines(topic) + [IntroLine(topic)], BulletLines(pieces, topic);
    assert DocumentLinesFor(topic, keywords) == front + ([KeyAspectsHeading] + bullets);
    BulletLinesAt(pieces, topic, k);
    LinesAfter(front, KeyAspectsHeading, bullets, k);
  }

  /** The line placed after a run of lines sits at the run's length. */
  lemma LineAfter(front: seq<string>, line: string, back: seq<string>)
    ensures (front + ([line] + back))[|front|] == line
  {
  }

  /** The lines placed after a run of lines and one more line keep their
      order, shifted by the run's length plus one. */
  lemma LinesAfter(front: seq<string>, line: string, back: seq<string>, k: int)
    requires 0 <= k < |back|
    ensures (front + ([line] + back))[|front| + 1 + k] == back[k]
  {
  }

  /** A keyword list without a comma is one bullet: the whole list, trimmed. */
  lemma SingleKeyword(dsl: map<string, string>)
    requires Keywords(dsl) != "" && ',' !in Keywords(dsl)
    ensures DocumentLines(dsl)[3..] == [KeyAspectsHeading, BulletLine(JavaTrim(Keywords(dsl)), Topic(dsl))]
  {
    BulletLinesAt([Keywords(dsl)], Topic(dsl), 0);
  }
}
