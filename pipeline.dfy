/**
 * The default path end to end: the Markdown the writer produces for a
 * document's sections, saved and read back line by line by the Markdown
 * reader, gives one slide per level-1 section after the first, in order.
 */
module Pipeline {
  import opened Strings
  import opened DataStructs
  import opened MarkdownParser
  import MarkdownProperties
  import GeneratorProperties
  import WordParser
  import JsonToMd

  // ---------------------------------------------------------------------
  // Reading a saved text back
  // ---------------------------------------------------------------------

  /** Python's `f.readlines()` on a saved text: each line keeps its "\n", and there is no empty last line. */
  function ReadLines(text: string): (r: seq<string>)
    ensures var pieces := Split(text, '\n');
      && |r| == (if pieces[|pieces| - 1] == "" then |pieces| - 1 else |pieces|)
      && forall i :: 0 <= i < |pieces| - 1 ==> r[i] == pieces[i] + "\n"
  {
    var pieces := Split(text, '\n');
    var n := |pieces| - 1;
    seq(n, i requires 0 <= i < n => pieces[i] + "\n") + (if pieces[n] == "" then [] else [pieces[n]])
  }

  /** The reader strips every line, so it reads the lines of `readlines` as it reads the pieces between line breaks. */
  lemma ReadLinesParse(text: string)
    ensures Parse(ReadLines(text)) == Parse(Split(text, '\n'))
  {
    ReadLinesTrim(text);
    ParseKeptPieces(ReadLines(text), Split(text, '\n'));
  }

  /** The lines strip to the pieces, less a blank last piece. */
  predicate StripsTo(lines: seq<string>, pieces: seq<string>) {
    && pieces != []
    && |lines| == (if pieces[|pieces| - 1] == "" then |pieces| - 1 else |pieces|)
    && forall i :: 0 <= i < |lines| ==> Trim(lines[i]) == Trim(pieces[i])
  }

  /** Each line `readlines` gives strips to the piece it comes from. */
  lemma ReadLinesTrim(text: string)
    ensures StripsTo(ReadLines(text), Split(text, '\n'))
  {
    forall i | 0 <= i < |ReadLines(text)|
      ensures Trim(ReadLines(text)[i]) == Trim(Split(text, '\n')[i])
    {
      ReadLineTrim(text, i);
    }
  }

  lemma ReadLineTrim(text: string, i: nat)
    requires i < |ReadLines(text)|
    ensures i < |Split(text, '\n')| && Trim(ReadLines(text)[i]) == Trim(Split(text, '\n')[i])
  {
    var pieces := Split(text, '\n');
    if i < |pieces| - 1 {
      TrimNewline(pieces[i]);
    }
  }

  /** Lines that strip to the pieces are parsed as the pieces. */
  lemma ParseKeptPieces(lines: seq<string>, pieces: seq<string>)
    requires StripsTo(lines, pieces)
    ensures Parse(lines) == Parse(pieces)
  {
    var n := |pieces| - 1;
    if pieces[n] == "" {
      ParseSameTrim(lines, pieces[..n]);
      ParseDropsBlank(pieces);
    } else {
      ParseSameTrim(lines, pieces);
    }
  }

  /** Lines that strip to the same text are parsed alike. */
  lemma ParseSameTrim(a: seq<string>, b: seq<string>)
    requires |a| == |b| && forall i :: 0 <= i < |a| ==> Trim(a[i]) == Trim(b[i])
    ensures Parse(a) == Parse(b)
  {
    forall i | 0 <= i < |a|
      ensures ClassifyLine(a[i]) == ClassifyLine(b[i])
    {
      var t := Trim(a[i]);
      assert Trim(b[i]) == t;
    }
    assert ClassifyAll(a) == ClassifyAll(b);
  }

  /** A blank last line changes nothing. */
  lemma ParseDropsBlank(a: seq<string>)
    requires a != [] && a[|a| - 1] == ""
    ensures Parse(a) == Parse(a[..|a| - 1])
  {
    var init := a[..|a| - 1];
    MarkdownProperties.SkippedLineIgnored(init, |init|, "");
    assert init[..|init|] + [""] + init[|init|..] == a;
  }

  // ---------------------------------------------------------------------
  // The `## ` lines of a text
  // ---------------------------------------------------------------------

  /** The title a raw line opens a slide with, if it opens one: the stripped group of a `## ` line. */
  function LineHead(line: string): seq<string> {
    match MatchH2(Trim(line))
    case Some(g) => [Trim(g)]
    case None => []
  }

  /** A line opens a slide exactly when `##` matches it once stripped, in the cover section or after it. */
  lemma LineHeadIsSlide(line: string)
    ensures var kind := ClassifyLine(line).inCover;
      LineHead(line) == if kind.NewSlide? then [kind.title] else []
  {
    MarkdownProperties.NewSlideIffH2(Trim(line), true);
  }

  function Heads(lines: seq<string>): seq<string> {
    if lines == [] then [] else Heads(lines[..|lines| - 1]) + LineHead(lines[|lines| - 1])
  }

  /** The heads of the pieces between the line breaks of a text. */
  function PartHeads(part: string): seq<string> {
    Heads(Split(part, '\n'))
  }

  /** The heads of the parts, part by part. */
  function JoinHeads(parts: seq<string>): seq<string> {
    if parts == [] then [] else JoinHeads(parts[..|parts| - 1]) + PartHeads(parts[|parts| - 1])
  }

  lemma HeadsOne(a: string)
    ensures Heads([a]) == LineHead(a)
  {
    assert [a][..0] == [];
  }

  lemma JoinHeadsOne(x: string)
    ensures JoinHeads([x]) == PartHeads(x)
  {
    assert [x][..0] == [];
  }

  /** A blank line opens no slide. */
  lemma BlankNoHead()
    ensures LineHead("") == [] && PartHeads("") == []
  {
    SplitNoSeparator("", '\n');
    HeadsOne("");
  }

  lemma {:induction false} HeadsAreSlideTitles(lines: seq<string>, n: nat)
    requires n <= |lines|
    ensures MarkdownProperties.SlideTitles(ClassifyAll(lines), n) == Heads(lines[..n])
  {
    if n > 0 {
      HeadsAreSlideTitles(lines, n - 1);
      assert lines[..n][..n - 1] == lines[..n - 1];
      LineHeadIsSlide(lines[n - 1]);
    }
  }

  lemma {:induction false} HeadsAppend(a: seq<string>, b: seq<string>)
    ensures Heads(a + b) == Heads(a) + Heads(b)
  {
    if b != [] {
      var c := b[..|b| - 1];
      assert (a + b)[..|a + b| - 1] == a + c;
      HeadsAppend(a, c);
    } else {
      assert a + b == a;
    }
  }

  lemma {:induction false} JoinHeadsAppend(a: seq<string>, b: seq<string>)
    ensures JoinHeads(a + b) == JoinHeads(a) + JoinHeads(b)
  {
    if b != [] {
      var c := b[..|b| - 1];
      assert (a + b)[..|a + b| - 1] == a + c;
      JoinHeadsAppend(a, c);
    } else {
      assert a + b == a;
    }
  }

  /** Splitting the joined parts at the line breaks gives the heads of every part, in order. */
  lemma {:induction false} JoinHeadsSplit(parts: seq<string>)
    ensures Heads(Split(Join(parts, "\n"), '\n')) == JoinHeads(parts)
  {
    if parts == [] {
      BlankNoHead();
    } else {
      var init, x := parts[..|parts| - 1], parts[|parts| - 1];
      if init == [] {
        assert parts == [x];
        JoinHeadsOne(x);
      } else {
        JoinHeadsSplit(init);
        assert init + [x] == parts;
        JoinAppend(init, x, "\n");
        SplitAround(Join(init, "\n"), '\n', x);
        HeadsAppend(Split(Join(init, "\n"), '\n'), Split(x, '\n'));
      }
    }
  }

  // ---------------------------------------------------------------------
  // Lines that open no slide
  // ---------------------------------------------------------------------

  /** A raw line `##` does not match once stripped. */
  predicate PlainPiece(line: string) {
    MatchH2(Trim(line)).None?
  }

  /** A text none of whose lines `##` matches. */
  predicate PlainPart(part: string) {
    forall j :: 0 <= j < |Split(part, '\n')| ==> PlainPiece(Split(part, '\n')[j])
  }

  predicate AllPlain(parts: seq<string>) {
    forall i :: 0 <= i < |parts| ==> PlainPart(parts[i])
  }

  lemma {:induction false} PlainPiecesNoHeads(lines: seq<string>)
    requires forall j :: 0 <= j < |lines| ==> PlainPiece(lines[j])
    ensures Heads(lines) == []
  {
    if lines != [] {
      PlainPiecesNoHeads(lines[..|lines| - 1]);
    }
  }

  /** Texts none of whose lines `##` matches open no slide. */
  lemma {:induction false} PlainNoHeads(parts: seq<string>)
    requires AllPlain(parts)
    ensures JoinHeads(parts) == []
  {
    if parts != [] {
      PlainNoHeads(parts[..|parts| - 1]);
      PlainPiecesNoHeads(Split(parts[|parts| - 1], '\n'));
    }
  }

  lemma AllPlainAppend(a: seq<string>, b: seq<string>)
    requires AllPlain(a) && AllPlain(b)
    ensures AllPlain(a + b)
  {
    forall i | 0 <= i < |a + b|
      ensures PlainPart((a + b)[i])
    {
      if i < |a| {
        assert (a + b)[i] == a[i];
      } else {
        assert (a + b)[i] == b[i - |a|];
      }
    }
  }

  /** A stripped line that does not start with `##` is plain. */
  lemma NoH2Prefix(line: string)
    requires !StartsWith(Trim(line), "##")
    ensures PlainPiece(line)
  {
  }

  /** A line that starts with `###` is plain: `##` must be followed by white space. */
  lemma H3Plain(line: string)
    requires StartsWith(line, "###")
    ensures PlainPiece(line)
  {
    var t := Trim(line);
    TrimKeepsHead(line);
    TrimRightKeeps(line, 2);
    assert t[..3] == line[..3];
    var rest := t[2..];
    assert rest[0] == '#';
    TrimLeftOfTrimmed(rest);
  }

  lemma BlankPlain()
    ensures PlainPiece("") && PlainPart("")
  {
    SplitNoSeparator("", '\n');
  }

  /** A single line, with or without a line break after it. */
  lemma OneLinePlain(a: string)
    requires '\n' !in a && PlainPiece(a)
    ensures PlainPart(a) && PlainPart(a + "\n")
  {
    SplitNoSeparator(a, '\n');
    SplitNoSeparator("", '\n');
    SplitAround(a, '\n', "");
    assert a + ['\n'] + "" == a + "\n";
    BlankPlain();
    assert Split(a + "\n", '\n') == [a, ""];
  }

  /** A line break in front adds a blank line. */
  lemma LeadingBreakPlain(x: string)
    requires PlainPart(x)
    ensures PlainPart("\n" + x)
  {
    BlankPlain();
    SplitAround("", '\n', x);
    assert "\n" + x == "" + ['\n'] + x;
    SplitNoSeparator("", '\n');
    var pieces := Split("\n" + x, '\n');
    assert pieces == [""] + Split(x, '\n');
    forall j | 0 <= j < |pieces|
      ensures PlainPiece(pieces[j])
    {
      if j > 0 {
        assert pieces[j] == Split(x, '\n')[j - 1];
      }
    }
  }

  /** A text without line breaks whose stripped form does not start with `##`. */
  predicate PlainText(t: string) {
    '\n' !in t && !StartsWith(Trim(t), "##")
  }

  lemma PlainTextPlain(t: string)
    requires PlainText(t)
    ensures PlainPart(t) && PlainPart(t + "\n")
  {
    NoH2Prefix(t);
    OneLinePlain(t);
  }

  /** A line that starts with a character other than white space and `#` (a `- ` item, the `# ` cover line). */
  lemma NotHashPlain(c: char, a: string)
    requires '\n' !in a && !IsSpace(c) && c != '#'
    ensures PlainText([c] + a)
  {
    TrimKeepsHead([c] + a);
  }

  lemma CoverLinePlain(title: string)
    requires '\n' !in title
    ensures PlainPart("# " + title + "\n")
  {
    var line := "# " + title;
    assert '\n' !in line;
    TrimKeepsHead(line);
    var t := Trim(line);
    assert t == line[..|t|];
    if |t| >= 2 {
      assert t[1] == ' ';
    }
    PlainTextPlain(line);
  }

  lemma SeparatorPlain()
    ensures PlainPart(JsonToMd.Separator)
  {
    TrimLeftOfTrimmed("---");
    TrimRightOfTrimmed("---");
    NoH2Prefix("---");
    OneLinePlain("---");
    LeadingBreakPlain("---" + "\n");
    assert JsonToMd.Separator == "\n" + ("---" + "\n");
  }

  /** A `### `, `#### `, ... heading line between line breaks. */
  lemma HashHeadingPlain(hashes: string, title: string)
    requires |hashes| >= 3 && forall i :: 0 <= i < |hashes| ==> hashes[i] == '#'
    requires '\n' !in title
    ensures PlainPart("\n" + hashes + " " + title + "\n")
  {
    var line := hashes + " " + title;
    assert line[..3] == hashes[..3] == "###";
    H3Plain(line);
    OneLinePlain(line);
    LeadingBreakPlain(line + "\n");
    assert "\n" + hashes + " " + title + "\n" == "\n" + (line + "\n");
  }

  /** A `## ` line opens one slide, titled with the stripped title. */
  lemma PageLineHeads(title: string)
    requires title != [] && IsTrimmed(title) && '\n' !in title
    ensures JoinHeads(["## " + title + "\n"]) == [title]
  {
    var line := "## " + title;
    PageLineMatch(title);
    assert Split(line + "\n", '\n') == [line, ""] by {
      SplitNoSeparator(line, '\n');
      SplitNoSeparator("", '\n');
      SplitAround(line, '\n', "");
      assert line + ['\n'] + "" == line + "\n";
    }
    assert Heads([line, ""]) == [title] by {
      HeadsAppend([line], [""]);
      assert [line] + [""] == [line, ""];
      HeadsOne(line);
      HeadsOne("");
      BlankNoHead();
    }
    JoinHeadsOne(line + "\n");
  }

  lemma PageLineMatch(title: string)
    requires title != [] && IsTrimmed(title) && '\n' !in title
    ensures '\n' !in "## " + title && LineHead("## " + title) == [title]
  {
    var line := "## " + title;
    assert line[|line| - 1] == title[|title| - 1];
    TrimLeftOfTrimmed(line);
    TrimRightOfTrimmed(line);
    assert "##" + " " + title == line;
    assert AllSpace(" ");
    MatchMarkerComplete("##", " ", title);
    TrimLeftOfTrimmed(title);
    TrimRightOfTrimmed(title);
  }

  // ---------------------------------------------------------------------
  // Sections
  // ---------------------------------------------------------------------

  /** The texts the writer puts on lines of their own cannot be read as `## ` headings. */
  predicate PlainBlock(b: WordParser.Block) {
    match b
    case Paragraph(t) => PlainText(t)
    case List(items) => forall k :: 0 <= k < |items| ==> '\n' !in items[k]
  }

  /**
   * A section the writer turns into lines the reader reads back: no line
   * breaks inside a heading or a block, page titles non-empty and already
   * stripped, and no paragraph that reads as a `## ` heading.
   */
  predicate Writable(s: WordParser.Section) {
    && (s.level >= 1 ==> '\n' !in s.title)
    && (s.level == 1 ==> s.title != [] && IsTrimmed(s.title))
    && forall k :: 0 <= k < |s.blocks| ==> PlainBlock(s.blocks[k])
  }

  /** The titles of the level-1 sections after the first among the first `n`: the writer's `## ` pages. */
  function PageTitles(secs: seq<WordParser.Section>, n: nat): seq<string>
    requires n <= |secs|
  {
    if n == 0 then []
    else if n > 1 && secs[n - 1].level == 1 then PageTitles(secs, n - 1) + [secs[n - 1].title]
    else PageTitles(secs, n - 1)
  }

  lemma ItemLinePlain(x: string)
    requires '\n' !in x
    ensures PlainPart("- " + x)
  {
    NotHashPlain('-', " " + x);
    assert ['-'] + (" " + x) == "- " + x;
    PlainTextPlain("- " + x);
  }

  lemma ItemsPlain(items: seq<string>)
    requires forall k :: 0 <= k < |items| ==> '\n' !in items[k]
    ensures AllPlain(JsonToMd.ItemLines(items, |items|) + [""])
  {
    var lines := JsonToMd.ItemLines(items, |items|) + [""];
    JsonToMd.ItemLinesShape(items, |items|);
    BlankPlain();
    forall k | 0 <= k < |lines|
      ensures PlainPart(lines[k])
    {
      if k < |items| {
        ItemLinePlain(items[k]);
      }
    }
  }

  lemma BlockPlain(b: WordParser.Block)
    requires PlainBlock(b)
    ensures AllPlain(JsonToMd.BlockLines(b))
  {
    match b
    case Paragraph(t) =>
      PlainTextPlain(t);
    case List(items) =>
      ItemsPlain(items);
  }

  lemma {:induction false} BlocksPlain(blocks: seq<WordParser.Block>, n: nat)
    requires n <= |blocks| && forall k :: 0 <= k < |blocks| ==> PlainBlock(blocks[k])
    ensures AllPlain(JsonToMd.BlocksLines(blocks, n))
  {
    if n > 0 {
      BlocksPlain(blocks, n - 1);
      BlocksPlainStep(blocks, n);
    }
  }

  lemma BlocksPlainStep(blocks: seq<WordParser.Block>, n: nat)
    requires 0 < n <= |blocks| && forall k :: 0 <= k < |blocks| ==> PlainBlock(blocks[k])
    requires AllPlain(JsonToMd.BlocksLines(blocks, n - 1))
    ensures AllPlain(JsonToMd.BlocksLines(blocks, n))
  {
    BlockPlain(blocks[n - 1]);
    AllPlainAppend(JsonToMd.BlocksLines(blocks, n - 1), JsonToMd.BlockLines(blocks[n - 1]));
  }

  lemma {:induction false} PreamblePlain(blocks: seq<WordParser.Block>, n: nat)
    requires n <= |blocks| && forall k :: 0 <= k < |blocks| ==> PlainBlock(blocks[k])
    ensures AllPlain(JsonToMd.PreambleLines(blocks, n))
  {
    if n > 0 {
      PreamblePlain(blocks, n - 1);
      PreamblePlainStep(blocks, n);
    }
  }

  lemma PreamblePlainStep(blocks: seq<WordParser.Block>, n: nat)
    requires 0 < n <= |blocks| && forall k :: 0 <= k < |blocks| ==> PlainBlock(blocks[k])
    requires AllPlain(JsonToMd.PreambleLines(blocks, n - 1))
    ensures AllPlain(JsonToMd.PreambleLines(blocks, n))
  {
    var b := blocks[n - 1];
    if b.Paragraph? {
      PlainTextPlain(b.text);
      AllPlainAppend(JsonToMd.PreambleLines(blocks, n - 1), [b.text]);
    }
  }

  /** The separator and the `## ` line in front of a page. */
  lemma PageHeadingHeads(title: string)
    requires title != [] && IsTrimmed(title) && '\n' !in title
    ensures JoinHeads([JsonToMd.Separator, "## " + title + "\n"]) == [title]
  {
    SeparatorPlain();
    PlainNoHeads([JsonToMd.Separator]);
    PageLineHeads(title);
    JoinHeadsAppend([JsonToMd.Separator], ["## " + title + "\n"]);
  }

  lemma SubHeadingPlain(i: nat, s: WordParser.Section)
    requires s.level >= 2 && '\n' !in s.title
    ensures AllPlain(JsonToMd.HeadingLines(i, s))
  {
    if s.level == 2 {
      HashHeadingPlain("###", s.title);
      assert "\n### " + s.title + "\n" == "\n" + "###" + " " + s.title + "\n";
    } else {
      HashHeadingPlain(JsonToMd.Hashes(s.level + 1), s.title);
    }
  }

  lemma HeadingHeads(i: nat, s: WordParser.Section)
    requires Writable(s)
    ensures JoinHeads(JsonToMd.HeadingLines(i, s)) == if i > 0 && s.level == 1 then [s.title] else []
  {
    if s.level == 1 && i != 0 {
      PageHeadingHeads(s.title);
    } else if s.level >= 2 {
      SubHeadingPlain(i, s);
      PlainNoHeads(JsonToMd.HeadingLines(i, s));
    }
  }

  lemma SectionHeads(i: nat, s: WordParser.Section)
    requires Writable(s)
    ensures JoinHeads(JsonToMd.SectionLines(i, s)) == if i > 0 && s.level == 1 then [s.title] else []
  {
    if s.level == 0 {
      PreamblePlain(s.blocks, |s.blocks|);
      BlankPlain();
      AllPlainAppend(JsonToMd.PreambleLines(s.blocks, |s.blocks|), [""]);
      PlainNoHeads(JsonToMd.PreambleLines(s.blocks, |s.blocks|) + [""]);
    } else {
      HeadingHeads(i, s);
      BlocksPlain(s.blocks, |s.blocks|);
      PlainNoHeads(JsonToMd.BlocksLines(s.blocks, |s.blocks|));
      JoinHeadsAppend(JsonToMd.HeadingLines(i, s), JsonToMd.BlocksLines(s.blocks, |s.blocks|));
    }
  }

  lemma {:induction false} SectionsHeads(secs: seq<WordParser.Section>, n: nat)
    requires n <= |secs| && forall i :: 0 <= i < |secs| ==> Writable(secs[i])
    ensures JoinHeads(JsonToMd.SectionsLines(secs, n)) == PageTitles(secs, n)
  {
    if n > 0 {
      SectionsHeads(secs, n - 1);
      SectionHeads(n - 1, secs[n - 1]);
      JoinHeadsAppend(JsonToMd.SectionsLines(secs, n - 1), JsonToMd.SectionLines(n - 1, secs[n - 1]));
    }
  }

  /** Lines that open no slide around the body leave its heads as they are. */
  lemma FrameHeads(cover: string, body: seq<string>, last: string)
    requires PlainPart(cover) && PlainPart(last)
    ensures JoinHeads([cover] + body + [last]) == JoinHeads(body)
  {
    PlainNoHeads([cover]);
    PlainNoHeads([last]);
    JoinHeadsAppend([cover], body);
    JoinHeadsAppend([cover] + body, [last]);
  }

  lemma DefaultTitleOneLine()
    ensures '\n' !in JsonToMd.DefaultTitle
  {
  }

  lemma MainTitleOneLine(secs: seq<WordParser.Section>)
    requires secs != [] && secs[0].level == 1 ==> '\n' !in secs[0].title
    ensures '\n' !in JsonToMd.MainTitle(secs)
  {
    DefaultTitleOneLine();
  }

  /** The cover title line and the closing separator open no slide. */
  lemma DefaultFrameHeads(secs: seq<WordParser.Section>)
    requires secs != [] && secs[0].level == 1 ==> '\n' !in secs[0].title
    ensures JoinHeads(JsonToMd.DefaultLines(secs)) == JoinHeads(JsonToMd.SectionsLines(secs, |secs|))
  {
    MainTitleOneLine(secs);
    CoverLinePlain(JsonToMd.MainTitle(secs));
    SeparatorPlain();
    FrameHeads("# " + JsonToMd.MainTitle(secs) + "\n", JsonToMd.SectionsLines(secs, |secs|), JsonToMd.Separator);
  }

  lemma DefaultHeads(secs: seq<WordParser.Section>)
    requires forall i :: 0 <= i < |secs| ==> Writable(secs[i])
    ensures JoinHeads(JsonToMd.DefaultLines(secs)) == PageTitles(secs, |secs|)
  {
    if secs != [] {
      assert Writable(secs[0]);
    }
    DefaultFrameHeads(secs);
    SectionsHeads(secs, |secs|);
  }

  // ---------------------------------------------------------------------
  // The round trip
  // ---------------------------------------------------------------------

  /**
   * The Markdown the default writer produces, saved and read back, gives one
   * slide per level-1 section after the first, in order, titled with that
   * section's title and numbered from page 2 on.
   */
  lemma DefaultMarkdownSlides(secs: seq<WordParser.Section>)
    requires forall i :: 0 <= i < |secs| ==> Writable(secs[i])
    ensures var slides := Parse(ReadLines(JsonToMd.DefaultMarkdown(secs))).slides;
      && |slides| == |PageTitles(secs, |secs|)|
      && forall k :: 0 <= k < |slides| ==> slides[k].title == PageTitles(secs, |secs|)[k] && slides[k].pageIndex == k + 2
  {
    var md := JsonToMd.DefaultMarkdown(secs);
    var lines := Split(md, '\n');
    ReadLinesParse(md);
    var ks := ClassifyAll(lines);
    forall i | 0 <= i < |ks|
      ensures MarkdownProperties.Coherent(ks[i])
    {
      MarkdownProperties.ClassifyLineCoherent(lines[i]);
    }
    MarkdownProperties.SlidesAreH2Lines(ks, |lines|);
    HeadsAreSlideTitles(lines, |lines|);
    assert lines[..|lines|] == lines;
    JoinHeadsSplit(JsonToMd.DefaultLines(secs));
    DefaultHeads(secs);
  }

  /** The slides the reader opens carry distinct page numbers, whatever the lines. */
  lemma ParsedPagesDistinct(lines: seq<string>)
    ensures GeneratorProperties.DistinctPages(Parse(lines).slides)
  {
    var ks := ClassifyAll(lines);
    forall i | 0 <= i < |ks|
      ensures MarkdownProperties.Coherent(ks[i])
    {
      MarkdownProperties.ClassifyLineCoherent(lines[i]);
    }
    MarkdownProperties.SlidesAreH2Lines(ks, |lines|);
  }
}
