/**
 * The Word reader: a document is a sequence of paragraphs, each a style name
 * and a text, and `WordParser.parse` groups them into sections. A heading
 * paragraph opens a section, consecutive list paragraphs share one list
 * block, any other paragraph is a paragraph block, and the leading
 * "Preamble" section is dropped when it stayed empty and a heading followed.
 *
 * The result is the JSON-like document handed to the Markdown writer.
 */
module WordParser {
  import opened Strings
  import opened Outcomes

  /** A paragraph of the Word document: its style's name and its text. */
  datatype DocParagraph = DocParagraph(style: string, text: string)

  /** A block of a section: `{"type": "paragraph", "text"}` or `{"type": "list", "items"}`. */
  datatype Block = Paragraph(text: string) | List(items: seq<string>)

  datatype Section = Section(level: int, title: string, blocks: seq<Block>)

  /** The parse result: `meta.source` and `sections`. */
  datatype Document = Document(source: string, sections: seq<Section>)

  /** Where the document comes from: a path, or an uploaded byte stream. */
  datatype DocSource = Path(path: string) | Upload

  const Preamble := Section(0, "Preamble", [])

  // ---------------------------------------------------------------------
  // Python's int() on the last word of a heading style
  // ---------------------------------------------------------------------

  predicate IsDigit(c: char) {
    '0' <= c <= '9'
  }

  /** The digits of `int()`'s argument: ASCII digits, single underscores only between two digits. */
  predicate WellFormedDigits(t: string) {
    && t != [] && IsDigit(t[0]) && IsDigit(t[|t| - 1])
    && (forall i :: 0 <= i < |t| ==> IsDigit(t[i]) || t[i] == '_')
    && !Contains(t, "__")
  }

  function WithoutUnderscores(t: string): string {
    if t == [] then []
    else if t[|t| - 1] == '_' then WithoutUnderscores(t[..|t| - 1])
    else WithoutUnderscores(t[..|t| - 1]) + [t[|t| - 1]]
  }

  /** The value of a string of ASCII digits, most significant first. */
  function DigitsValue(ds: string): nat
    requires forall i :: 0 <= i < |ds| ==> IsDigit(ds[i])
  {
    if ds == [] then 0
    else DigitsValue(ds[..|ds| - 1]) * 10 + DigitValue(ds[|ds| - 1])
  }

  function DigitValue(c: char): nat
    requires IsDigit(c)
  {
    c as int - '0' as int
  }


  lemma {:induction false} WithoutUnderscoresDigits(t: string)
    requires forall i :: 0 <= i < |t| ==> IsDigit(t[i]) || t[i] == '_'
    ensures forall i :: 0 <= i < |WithoutUnderscores(t)| ==> IsDigit(WithoutUnderscores(t)[i])
  {
    if t != [] {
      WithoutUnderscoresDigits(t[..|t| - 1]);
    }
  }

  /**
   * `int(w)` for a word without white space: an optional sign, then digits;
   * anything else is a ValueError (None).
   */
  function ParseInt(w: string): Option<int> {
    var negative := w != [] && w[0] == '-';
    var digits := if w != [] && (w[0] == '-' || w[0] == '+') then w[1..] else w;
    if !WellFormedDigits(digits) then None
    else
      WithoutUnderscoresDigits(digits);
      var n: int := DigitsValue(WithoutUnderscores(digits));
      Some(if negative then -n else n)
  }

  /** The decimal rendering of a number, as `str()` writes it. */
  function NatToString(n: nat): (s: string)
    ensures s != []
  {
    if n < 10 then [('0' as int + n) as char]
    else NatToString(n / 10) + [('0' as int + n % 10) as char]
  }

  function IntToString(n: int): string {
    if n < 0 then "-" + NatToString(-n) else NatToString(n)
  }

  lemma {:induction false} NatToStringValue(n: nat)
    ensures forall i :: 0 <= i < |NatToString(n)| ==> IsDigit(NatToString(n)[i])
    ensures DigitsValue(NatToString(n)) == n
    ensures WithoutUnderscores(NatToString(n)) == NatToString(n)
  {
    var s := NatToString(n);
    if n >= 10 {
      NatToStringValue(n / 10);
      assert s[..|s| - 1] == NatToString(n / 10);
    }
  }

  /** `int(str(n)) == n`: reading back a written number gives the number. */
  lemma IntRoundTrip(n: int)
    ensures ParseInt(IntToString(n)) == Some(n)
  {
    var m := if n < 0 then -n else n;
    var s := IntToString(n);
    var digits := NatToString(m);
    NatToStringValue(m);
    NatToStringWellFormed(m);
    if n < 0 {
      assert s[0] == '-' && s[1..] == digits;
    } else {
      assert s == digits && IsDigit(s[0]);
    }
  }

  lemma NatToStringWellFormed(m: nat)
    ensures WellFormedDigits(NatToString(m))
  {
    var d := NatToString(m);
    NatToStringValue(m);
    NoUnderscoreNoDouble(d);
  }

  lemma {:induction false} NoUnderscoreNoDouble(d: string)
    requires forall i :: 0 <= i < |d| ==> IsDigit(d[i])
    ensures !Contains(d, "__")
    decreases |d|
  {
    if d != [] {
      if |d| >= 2 {
        assert d[..2][0] == d[0];
      }
      NoUnderscoreNoDouble(d[1..]);
    }
  }

  // ---------------------------------------------------------------------
  // Styles
  // ---------------------------------------------------------------------

  /** The text after the last white space (the whole of it when there is none). */
  function AfterLastSpace(t: string): (w: string)
    ensures |w| <= |t|
  {
    if t == [] || IsSpace(t[|t| - 1]) then []
    else AfterLastSpace(t[..|t| - 1]) + [t[|t| - 1]]
  }

  /** `style.split()[-1]`: the last white-space separated word. */
  function LastWord(style: string): string {
    AfterLastSpace(TrimRight(style))
  }

  lemma {:induction false} AfterLastSpaceShape(t: string)
    ensures var w := AfterLastSpace(t);
      && |w| <= |t| && w == t[|t| - |w|..]
      && (forall i :: 0 <= i < |w| ==> !IsSpace(w[i]))
      && (|w| < |t| ==> IsSpace(t[|t| - |w| - 1]))
  {
    if t != [] && !IsSpace(t[|t| - 1]) {
      var u := t[..|t| - 1];
      var c := t[|t| - 1];
      AfterLastSpaceShape(u);
      var v := AfterLastSpace(u);
      var w := v + [c];
      assert AfterLastSpace(t) == w;
      assert t == u + [c];
      assert w == t[|t| - |w|..] by {
        assert v == u[|u| - |v|..];
        assert t[|t| - |w|..] == u[|u| - |v|..] + [c];
      }
      assert forall i :: 0 <= i < |w| ==> !IsSpace(w[i]) by {
        forall i | 0 <= i < |w| ensures !IsSpace(w[i]) {
          if i < |v| { assert w[i] == v[i]; } else { assert w[i] == c; }
        }
      }
      if |w| < |t| {
        assert t[|t| - |w| - 1] == u[|u| - |v| - 1];
      }
    }
  }

  /** The last word is a suffix of the style without white space, preceded by white space unless it is the whole (right-stripped) style. */
  lemma LastWordIsLastWord(style: string)
    ensures var t := TrimRight(style); var w := LastWord(style);
      && w == t[|t| - |w|..]
      && (forall i :: 0 <= i < |w| ==> !IsSpace(w[i]))
      && (|w| < |t| ==> IsSpace(t[|t| - |w| - 1]))
  {
    AfterLastSpaceShape(TrimRight(style));
  }

  predicate IsHeadingStyle(style: string) {
    StartsWith(style, "Heading")
  }

  predicate IsListStyle(style: string) {
    Contains(style, "List Bullet") || StartsWith(style, "List")
  }

  /** `int(style.split()[-1])`, or 1 when that is not a number ("Heading", "Heading Title"). */
  function HeadingLevel(style: string): int {
    match ParseInt(LastWord(style))
    case Some(n) => n
    case None => 1
  }

  /** `Heading n` has level n, for any integer n. */
  lemma HeadingLevelOf(n: int)
    ensures HeadingLevel("Heading " + IntToString(n)) == n
  {
    var style := "Heading " + IntToString(n);
    var s := IntToString(n);
    NatToStringValue(if n < 0 then -n else n);
    assert s != [] && !IsSpace(s[|s| - 1]) && (s[0] == '-' || IsDigit(s[0])) by {
      if n < 0 { assert s[1..] == NatToString(-n); }
    }
    assert s[|s| - 1] == style[|style| - 1];
    TrimRightOfTrimmed(style);
    assert LastWord(style) == s by {
      AfterLastSpaceAfterSpace("Heading ", s);
    }
    IntRoundTrip(n);
  }

  lemma {:induction false} AfterLastSpaceAfterSpace(p: string, w: string)
    requires p != [] && IsSpace(p[|p| - 1])
    requires forall i :: 0 <= i < |w| ==> !IsSpace(w[i])
    ensures AfterLastSpace(p + w) == w
  {
    if w == [] {
      assert p + w == p;
    } else {
      assert (p + w)[..|p + w| - 1] == p + w[..|w| - 1];
      AfterLastSpaceAfterSpace(p, w[..|w| - 1]);
    }
  }

  // ---------------------------------------------------------------------
  // The fold
  // ---------------------------------------------------------------------

  function LastOf<T>(s: seq<T>): T
    requires s != []
  {
    s[|s| - 1]
  }

  /** The block list after one more list item: it joins a list block that ends the list, or starts one. */
  function AddListItem(blocks: seq<Block>, item: string): seq<Block> {
    if blocks != [] && LastOf(blocks).List? then
      blocks[..|blocks| - 1] + [List(LastOf(blocks).items + [item])]
    else blocks + [List([item])]
  }

  /** What a paragraph is, tested in the source's order: blank, heading, list item, or body text. */
  datatype ParaKind =
    | Blank
    | HeadingPara(level: int, title: string)
    | ListPara(item: string)
    | BodyPara(text: string)

  function ClassifyParagraph(p: DocParagraph): ParaKind {
    var text := Trim(p.text);
    if text == [] then Blank
    else if IsHeadingStyle(p.style) then HeadingPara(HeadingLevel(p.style), text)
    else if IsListStyle(p.style) then ListPara(text)
    else BodyPara(text)
  }

  function ClassifyAll(paras: seq<DocParagraph>): (r: seq<ParaKind>)
    ensures |r| == |paras| && forall i :: 0 <= i < |paras| ==> r[i] == ClassifyParagraph(paras[i])
  {
    seq(|paras|, i requires 0 <= i < |paras| => ClassifyParagraph(paras[i]))
  }

  /** What one paragraph does to the sections so far; the last section is the current one. */
  function AddKind(secs: seq<Section>, k: ParaKind): seq<Section>
    requires secs != []
  {
    var cur := LastOf(secs);
    match k
    case Blank => secs
    case HeadingPara(level, title) => secs + [Section(level, title, [])]
    case ListPara(item) => secs[..|secs| - 1] + [cur.(blocks := AddListItem(cur.blocks, item))]
    case BodyPara(text) => secs[..|secs| - 1] + [cur.(blocks := cur.blocks + [Paragraph(text)])]
  }

  /** The sections after the first `n` paragraphs, starting from the preamble alone. */
  function SectionsAfter(ks: seq<ParaKind>, n: nat): (r: seq<Section>)
    requires n <= |ks|
    ensures r != []
  {
    if n == 0 then [Preamble] else AddKind(SectionsAfter(ks, n - 1), ks[n - 1])
  }

  /** The final clean-up: an empty preamble goes when another section follows it. */
  function DropEmptyPreamble(secs: seq<Section>): seq<Section>
    requires secs != []
  {
    if |secs| > 1 && secs[0].blocks == [] then secs[1..] else secs
  }

  function Sectionise(paras: seq<DocParagraph>): seq<Section> {
    DropEmptyPreamble(SectionsAfter(ClassifyAll(paras), |paras|))
  }

  // ---------------------------------------------------------------------
  // The source's loop
  // ---------------------------------------------------------------------

  /**
   * The loop of `parse`: `done` are the sections already closed and `current`
   * the one receiving blocks (the source's `current_section`, which is always
   * the last entry of its section list).
   */
  method ParseParagraphs(paras: seq<DocParagraph>) returns (sections: seq<Section>)
    ensures sections == Sectionise(paras)
  {
    ghost var ks := ClassifyAll(paras);
    var done, current := [], Preamble;
    for i := 0 to |paras|
      invariant done + [current] == SectionsAfter(ks, i)
    {
      var kind := ClassifyParagraph(paras[i]);
      assert kind == ks[i];
      SectionsStep(ks, i);
      done, current := AddParagraph(done, current, kind);
    }
    sections := done + [current];
    assert Sectionise(paras) == DropEmptyPreamble(sections);
    if |sections| > 1 && sections[0].blocks == [] {
      sections := sections[1..];
    }
  }

  /** One more paragraph is one more application of `AddKind`. */
  lemma SectionsStep(ks: seq<ParaKind>, i: nat)
    requires i < |ks|
    ensures SectionsAfter(ks, i + 1) == AddKind(SectionsAfter(ks, i), ks[i])
  {}

  /** The body of the loop for one paragraph: a heading closes the current section and opens the next. */
  method AddParagraph(done: seq<Section>, current: Section, kind: ParaKind) returns (done': seq<Section>, current': Section)
    ensures done' + [current'] == AddKind(done + [current], kind)
  {
    done', current' := done, current;
    match kind {
      case Blank =>
      case HeadingPara(level, title) =>
        done' := done + [current];
        current' := Section(level, title, []);
      case ListPara(item) =>
        var blocks := current.blocks;
        if blocks != [] && blocks[|blocks| - 1].List? {
          current' := current.(blocks := blocks[..|blocks| - 1] + [List(blocks[|blocks| - 1].items + [item])]);
        } else {
          current' := current.(blocks := blocks + [List([item])]);
        }
      case BodyPara(text) =>
        current' := current.(blocks := current.blocks + [Paragraph(text)]);
    }
    assert (done + [current])[..|done|] == done;
  }

  /** `os.path.basename`: what follows the last `/`. */
  function Basename(path: string): string {
    if path == [] || path[|path| - 1] == '/' then []
    else Basename(path[..|path| - 1]) + [path[|path| - 1]]
  }

  /**
   * `parse`: a path that does not exist (the file system is the set of
   * existing paths) is FileNotFoundError; the source name is the path's base
   * name, or "uploaded_file" for a stream.
   */
  method Parse(existing: set<string>, src: DocSource, paras: seq<DocParagraph>) returns (r: Result<Document>)
    ensures r.Failure? <==> src.Path? && src.path !in existing
    ensures r.Failure? ==> r.error == FileNotFound(src.path)
    ensures r.Success? ==> r.value.sections == Sectionise(paras)
    ensures r.Success? ==> r.value.source == if src.Path? then Basename(src.path) else "uploaded_file"
  {
    if src.Path? && src.path !in existing {
      return Failure(FileNotFound(src.path));
    }
    var name := if src.Path? then Basename(src.path) else "uploaded_file";
    var sections := ParseParagraphs(paras);
    r := Success(Document(name, sections));
  }
}
