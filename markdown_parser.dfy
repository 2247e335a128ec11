/**
 * The Markdown reader: a line-driven state machine that turns the agreed
 * Markdown layout (`#` cover title, `key：value` cover metadata, `##` pages,
 * `###` blocks, `-` bullets, `**关键词：…**` keywords, plain text) into a
 * PresentationData.
 *
 * The specification is a fold: `Classify` decides what a stripped line is
 * (the order of the tests is the order of the source's checks), `Step` applies
 * it to a ParserState, and `Parse` runs `Step` over all lines. `ParseLines`
 * is the source's loop, with its four variables, proved equal to `Parse`.
 */
module MarkdownParser {
  import opened Strings
  import opened DataStructs
  import opened Outcomes

  // ---------------------------------------------------------------------
  // The five patterns, on a stripped line
  // ---------------------------------------------------------------------

  /**
   * `^M\s+(.+)$` for a literal marker M, on a stripped line: M, at least one
   * white-space character, then a non-empty rest without a newline; the
   * result is that rest (group 1).
   */
  function MatchMarker(line: string, marker: string): (g: Option<string>)
    ensures g.Some? ==>
      && StartsWith(line, marker)
      && |marker| < |line| - |g.value|
      && g.value != [] && !IsSpace(g.value[0]) && '\n' !in g.value
  {
    if !StartsWith(line, marker) then None
    else
      var rest := line[|marker|..];
      var g := TrimLeft(rest);
      if |g| < |rest| && g != [] && '\n' !in g then Some(g) else None
  }

  /** Group 1 is the line's tail: the line is the marker, white space, then the group. */
  lemma MatchMarkerSound(line: string, marker: string)
    requires MatchMarker(line, marker).Some?
    ensures var g := MatchMarker(line, marker).value;
      && line == marker + line[|marker|..|line| - |g|] + g
      && AllSpace(line[|marker|..|line| - |g|])
  {
    var g := MatchMarker(line, marker).value;
    var rest := line[|marker|..];
    TrimLeftSuffix(rest);
    TrimLeftDropsSpace(rest);
    assert line[|marker|..|line| - |g|] == rest[..|rest| - |g|];
    assert line[|line| - |g|..] == g;
    assert line == line[..|marker|] + line[|marker|..|line| - |g|] + line[|line| - |g|..];
  }

  /** Every line of the shape marker, spaces, text matches, and group 1 is the text. */
  lemma MatchMarkerComplete(marker: string, spaces: string, text: string)
    requires spaces != [] && AllSpace(spaces)
    requires text != [] && !IsSpace(text[0]) && '\n' !in text
    ensures MatchMarker(marker + spaces + text, marker) == Some(text)
  {
    var line := marker + spaces + text;
    assert line[..|marker|] == marker;
    assert line[|marker|..] == spaces + text;
    TrimLeftSpacePrefix(spaces, text);
    TrimLeftOfTrimmed(text);
  }

  function MatchH1(line: string): Option<string> { MatchMarker(line, "#") }
  function MatchH2(line: string): Option<string> { MatchMarker(line, "##") }
  function MatchH3(line: string): Option<string> { MatchMarker(line, "###") }
  function MatchBullet(line: string): Option<string> { MatchMarker(line, "-") }

  /** The ASCII colon and the full-width colon. */
  const Colons: set<char> := {':', '：'}

  /**
   * `^([^：:]+)[：:]\s*(.+)$` on a stripped line, with both groups stripped:
   * the key is the text before the first colon (it must not be empty), the
   * value what follows the colon and its white space (non-empty, no newline).
   */
  function MatchKeyValue(line: string): (r: Option<(string, string)>)
  {
    match IndexOfAny(line, Colons)
    case None => None
    case Some(i) =>
      var g := TrimLeft(line[i + 1..]);
      if i == 0 || g == [] || '\n' in g then None
      else
        var key := Trim(line[..i]);
        TrimChars(line[..i]);
        Some((key, Trim(g)))
  }

  /** The key holds no colon and the value no newline; the key comes from before the first colon. */
  lemma MatchKeyValueSound(line: string)
    requires MatchKeyValue(line).Some?
    ensures var (key, value) := MatchKeyValue(line).value;
      && (forall c :: c in key ==> c !in Colons)
      && '\n' !in value
      && exists i :: 0 < i < |line| && line[i] in Colons && key == Trim(line[..i])
  {
    var i := IndexOfAny(line, Colons).value;
    IndexOfAnyIsFirst(line, Colons);
    TrimChars(line[..i]);
    var g := TrimLeft(line[i + 1..]);
    TrimChars(g);
    assert forall c :: c in Trim(g) ==> c in g;
  }

  /** A key without colons, a colon, optional space and a value: the key and value are read back stripped. */
  lemma {:induction false} MatchKeyValueComplete(key: string, colon: char, spaces: string, value: string)
    requires key != [] && forall c :: c in key ==> c !in Colons
    requires colon in Colons && AllSpace(spaces)
    requires value != [] && !IsSpace(value[0]) && '\n' !in value
    ensures MatchKeyValue(key + [colon] + spaces + value) == Some((Trim(key), Trim(value)))
  {
    var line := key + [colon] + spaces + value;
    assert IndexOfAny(line, Colons) == Some(|key|) by {
      IndexOfAnyFirst(line, Colons, |key|);
    }
    assert line[..|key|] == key;
    assert line[|key| + 1..] == spaces + value;
    TrimLeftSpacePrefix(spaces, value);
    TrimLeftOfTrimmed(value);
  }

  const KeywordOpen := "**关键词："

  /** `line.startswith('**关键词：') and line.endswith('**')` */
  predicate IsKeywordLine(line: string) {
    StartsWith(line, KeywordOpen) && EndsWith(line, "**")
  }

  /** `line.replace('**关键词：', '').replace('**', '').strip()` */
  function KeywordText(line: string): string {
    Trim(RemoveAll(RemoveAll(line, KeywordOpen), "**"))
  }

  /** Blank lines, `---` separators and `<!--` comments. */
  predicate IsSkipped(line: string) {
    line == "" || line == "---" || StartsWith(line, "<!--")
  }

  // ---------------------------------------------------------------------
  // The dispatch
  // ---------------------------------------------------------------------

  datatype LineKind =
    | Skip
    | CoverTitle(title: string)
    | NewSlide(title: string)
    | NewBlock(subtitle: string)
    | BulletItem(text: string)
    | Meta(key: string, value: string)
    | Keyword(text: string)
    | Text(text: string)

  /**
   * What a stripped line is, tested in the source's order; the key/value
   * test is made only in the cover section (before the first `##`).
   */
  function Classify(line: string, isCover: bool): LineKind {
    if IsSkipped(line) then Skip
    else if MatchH1(line).Some? then CoverTitle(Trim(MatchH1(line).value))
    else if MatchH2(line).Some? then NewSlide(Trim(MatchH2(line).value))
    else if MatchH3(line).Some? then NewBlock(Trim(MatchH3(line).value))
    else if MatchBullet(line).Some? then BulletItem(Trim(MatchBullet(line).value))
    else if isCover && MatchKeyValue(line).Some? then Meta(MatchKeyValue(line).value.0, MatchKeyValue(line).value.1)
    else if IsKeywordLine(line) then Keyword(KeywordText(line))
    else Text(line)
  }

  /** A line starting with `##` is never a cover title: `#` must be followed by white space. */
  lemma H2IsNotH1(line: string)
    requires StartsWith(line, "##")
    ensures MatchH1(line).None? && line[0] == '#'
  {
    assert line[0] == line[..2][0] == '#';
    assert line[1..][0] == '#';
    TrimLeftOfTrimmed(line[1..]);
  }

  /** Every line `##` matches opens a slide, whatever the parser's state. */
  lemma {:induction false} H2LineOpensSlide(line: string, isCover: bool)
    requires MatchH2(line).Some?
    ensures Classify(line, isCover) == NewSlide(Trim(MatchH2(line).value))
  {
    H2IsNotH1(line);
    HashLineIsNotSkipped(line);
  }

  lemma HashLineIsNotSkipped(line: string)
    requires line != [] && line[0] == '#'
    ensures !IsSkipped(line)
  {
    if |line| >= 4 {
      assert line[..4][0] == line[0] != "<!--"[0];
    }
    assert "---"[0] != line[0];
  }

  // ---------------------------------------------------------------------
  // The state and one step
  // ---------------------------------------------------------------------

  function Last<T>(s: seq<T>): T
    requires s != []
  {
    s[|s| - 1]
  }

  /**
   * The parser's state. The source's current slide is always the slide it
   * appended last, and its current block the block it appended last to that
   * slide, so the state keeps the data and whether there is a current block.
   */
  datatype ParserState = ParserState(data: PresentationData, inBlock: bool)

  const Init := ParserState(PresentationData(), false)

  /**
   * What the source keeps true between lines: a current block exists only
   * as the last block of the last slide, and without one the last slide has
   * no blocks at all.
   */
  predicate Inv(st: ParserState) {
    var slides := st.data.slides;
    && (st.inBlock ==> slides != [] && Last(slides).blocks != [])
    && (!st.inBlock && slides != [] ==> Last(slides).blocks == [])
  }

  function WithLastSlide(d: PresentationData, s: SlideData): PresentationData
    requires d.slides != []
  {
    d.(slides := d.slides[|d.slides| - 1 := s])
  }

  /** Appends a block to the last slide. */
  function AddBlock(d: PresentationData, b: ContentBlock): PresentationData
    requires d.slides != []
  {
    var s := Last(d.slides);
    WithLastSlide(d, s.(blocks := s.blocks + [b]))
  }

  /** Replaces the last block of the last slide (no change when there is none). */
  function WithLastBlock(d: PresentationData, b: ContentBlock): PresentationData {
    if d.slides == [] || Last(d.slides).blocks == [] then d
    else
      var s := Last(d.slides);
      WithLastSlide(d, s.(blocks := s.blocks[|s.blocks| - 1 := b]))
  }

  /** Appends a text to the bullets of the last block of the last slide. */
  function AppendToLastBlock(d: PresentationData, x: string): PresentationData {
    if d.slides == [] || Last(d.slides).blocks == [] then d
    else
      var b := Last(Last(d.slides).blocks);
      WithLastBlock(d, b.(bullets := b.bullets + [x]))
  }

  /**
   * A raw line as the loop sees it: stripped, then classified as it would be
   * in the cover section and as it would be after the first `##`.
   */
  datatype Classified = Classified(inCover: LineKind, afterCover: LineKind)

  function ClassifyLine(rawLine: string): Classified {
    var line := Trim(rawLine);
    Classified(Classify(line, true), Classify(line, false))
  }

  /** Every line classified, in order. */
  function ClassifyAll(lines: seq<string>): (r: seq<Classified>)
    ensures |r| == |lines| && forall i :: 0 <= i < |lines| ==> r[i] == ClassifyLine(lines[i])
  {
    seq(|lines|, i requires 0 <= i < |lines| => ClassifyLine(lines[i]))
  }

  /** The kind that counts in the state `st`: the cover section lasts until the first slide. */
  function KindIn(st: ParserState, c: Classified): LineKind {
    if st.data.slides == [] then c.inCover else c.afterCover
  }

  /** What one classified line does to the state. */
  function Step(st: ParserState, c: Classified): ParserState {
    Apply(st, KindIn(st, c))
  }

  /** The effect of one classified line. */
  function Apply(st: ParserState, kind: LineKind): ParserState {
    var d := st.data;
    match kind
    case Skip => st
    case CoverTitle(t) => st.(data := d.(coverTitle := t))
    case NewSlide(t) =>
      ParserState(d.(slides := d.slides + [SlideData(title := t, pageIndex := |d.slides| + 1 + 1)]), false)
    case NewBlock(sub) =>
      if d.slides == [] then st
      else ParserState(AddBlock(d, ContentBlock(subtitle := sub)), true)
    case BulletItem(x) =>
      if st.inBlock then st.(data := AppendToLastBlock(d, x))
      else if d.slides == [] then st
      else if Last(d.slides).blocks == [] then ParserState(AddBlock(d, ContentBlock(subtitle := "")), true)
      else st.(data := AppendToLastBlock(d, x))
    case Meta(k, v) => st.(data := d.(metaInfo := d.metaInfo[k := v]))
    case Keyword(k) =>
      if st.inBlock && d.slides != [] && Last(d.slides).blocks != [] then
        st.(data := WithLastBlock(d, Last(Last(d.slides).blocks).(keyword := k)))
      else st
    case Text(t) =>
      if d.slides == [] then st
      else if !st.inBlock then
        var s := Last(d.slides);
        st.(data := WithLastSlide(d, s.(description := if s.description != "" then s.description + "\n" + t else t)))
      else st.(data := AppendToLastBlock(d, t))
  }

  /** The state after the first `n` lines, one step per line, first line first. */
  function StateAfter(ks: seq<Classified>, n: nat): ParserState
    requires n <= |ks|
  {
    if n == 0 then Init else Step(StateAfter(ks, n - 1), ks[n - 1])
  }

  /** The state reached from `st` by the lines from position `i` on. */
  function RunFrom(st: ParserState, ks: seq<Classified>, i: nat): ParserState
    requires i <= |ks|
    decreases |ks| - i
  {
    if i == |ks| then st else RunFrom(Step(st, ks[i]), ks, i + 1)
  }

  /** Running the remaining lines from the state after the first `i` gives the state after all of them. */
  lemma {:induction false} RunFromIsStateAfter(ks: seq<Classified>, i: nat)
    requires i <= |ks|
    ensures RunFrom(StateAfter(ks, i), ks, i) == StateAfter(ks, |ks|)
    decreases |ks| - i
  {
    if i < |ks| {
      RunFromIsStateAfter(ks, i + 1);
    }
  }

  /** The PresentationData that `parse_lines` returns. */
  function Parse(lines: seq<string>): PresentationData {
    StateAfter(ClassifyAll(lines), |lines|).data
  }

  // ---------------------------------------------------------------------
  // The source's loop
  // ---------------------------------------------------------------------

  /**
   * The local variables of `parse_lines` besides the data: the current slide
   * and the current block as positions in the data, whether the parser is
   * still in the cover section, and the number of slides opened so far.
   */
  datatype Cursor = Cursor(currentSlide: Option<nat>, currentBlock: Option<nat>, isCoverSection: bool, slideCounter: nat)

  /** How the cursor points into the data: at the last slide, and at the last block of that slide. */
  predicate Points(data: PresentationData, c: Cursor) {
    && c.isCoverSection == (data.slides == [])
    && c.slideCounter == |data.slides|
    && c.currentSlide == (if data.slides == [] then None else Some(|data.slides| - 1))
    && (c.currentBlock.Some? ==> data.slides != [] && c.currentBlock.value + 1 == |Last(data.slides).blocks|)
    && (c.currentBlock.None? && data.slides != [] ==> Last(data.slides).blocks == [])
  }

  /**
   * The body of the `parse_lines` loop once the line is classified: the
   * source's updates through the current slide and current block.
   */
  method ApplyLine(data: PresentationData, c: Cursor, kind: LineKind) returns (data': PresentationData, c': Cursor)
    requires Points(data, c)
    ensures Points(data', c')
    ensures ParserState(data', c'.currentBlock.Some?) == Apply(ParserState(data, c.currentBlock.Some?), kind)
  {
    data', c' := data, c;
    match kind {
      case Skip =>
      case CoverTitle(title) =>
        data' := data.(coverTitle := title);
      case NewSlide(title) =>
        var counter := c.slideCounter + 1;
        data' := data.(slides := data.slides + [SlideData(title := title, pageIndex := counter + 1)]);
        c' := Cursor(Some(|data'.slides| - 1), None, false, counter);
      case NewBlock(subtitle) =>
        if c.currentSlide.Some? {
          var s := data.slides[c.currentSlide.value];
          s := s.(blocks := s.blocks + [ContentBlock(subtitle := subtitle)]);
          data' := data.(slides := data.slides[c.currentSlide.value := s]);
          c' := c.(currentBlock := Some(|s.blocks| - 1));
        }
      case BulletItem(content) =>
        if c.currentBlock.Some? {
          var s := data.slides[c.currentSlide.value];
          var b := s.blocks[c.currentBlock.value];
          s := s.(blocks := s.blocks[c.currentBlock.value := b.(bullets := b.bullets + [content])]);
          data' := data.(slides := data.slides[c.currentSlide.value := s]);
        } else if c.currentSlide.Some? {
          var s := data.slides[c.currentSlide.value];
          if s.blocks == [] {
            // an anonymous block is opened; the bullet's own text is not kept
            s := s.(blocks := s.blocks + [ContentBlock(subtitle := "")]);
            data' := data.(slides := data.slides[c.currentSlide.value := s]);
            c' := c.(currentBlock := Some(|s.blocks| - 1));
          } else {
            // the source appends to the slide's last block here, but without a
            // current block the current slide has no blocks
            assert false;
          }
        }
      case Meta(key, value) =>
        data' := data.(metaInfo := data.metaInfo[key := value]);
      case Keyword(keyword) =>
        if c.currentBlock.Some? {
          var s := data.slides[c.currentSlide.value];
          var b := s.blocks[c.currentBlock.value];
          s := s.(blocks := s.blocks[c.currentBlock.value := b.(keyword := keyword)]);
          data' := data.(slides := data.slides[c.currentSlide.value := s]);
        }
      case Text(text) =>
        if !c.isCoverSection && c.currentSlide.Some? {
          var s := data.slides[c.currentSlide.value];
          if c.currentBlock.None? {
            if s.description != "" {
              s := s.(description := s.description + "\n" + text);
            } else {
              s := s.(description := text);
            }
          } else {
            var b := s.blocks[c.currentBlock.value];
            s := s.(blocks := s.blocks[c.currentBlock.value := b.(bullets := b.bullets + [text])]);
          }
          data' := data.(slides := data.slides[c.currentSlide.value := s]);
        }
    }
  }

  /**
   * `parse_lines`: every line is stripped and classified, and its effect
   * applied through the current slide and block; proved equal to `Parse`.
   */
  method ParseLines(lines: seq<string>) returns (data: PresentationData)
    ensures data == Parse(lines)
  {
    ghost var ks := ClassifyAll(lines);
    RunFromIsStateAfter(ks, 0);
    data := PresentationData();
    var c := Cursor(None, None, true, 0);
    for i := 0 to |lines|
      invariant Points(data, c)
      invariant RunFrom(ParserState(data, c.currentBlock.Some?), ks, i) == RunFrom(Init, ks, 0)
    {
      var line := Trim(lines[i]);
      var kind := Classify(line, c.isCoverSection);
      data, c := ApplyLine(data, c, kind);
    }
  }

  // ---------------------------------------------------------------------
  // parse_file
  // ---------------------------------------------------------------------

  /**
   * `parse_file`: the file system is a map from an existing path to the
   * lines read from it; a missing path is FileNotFoundError.
   */
  function ParseFile(files: map<string, seq<string>>, path: string): (r: Result<PresentationData>)
    ensures r.Failure? <==> path !in files
    ensures r.Failure? ==> r.error == FileNotFound(path)
    ensures r.Success? ==> r.value == Parse(files[path])
  {
    if path !in files then Failure(FileNotFound(path)) else Success(Parse(files[path]))
  }
}
