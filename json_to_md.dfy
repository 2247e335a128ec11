/**
 * The Markdown writer: turns the sections of a parsed Word document into the
 * Markdown layout the Markdown reader expects. In the default mode each
 * section becomes a few output lines that are joined with "\n"; in the AI
 * mode the document is flattened to marked-up text and handed to a
 * language model, which is a parameter here.
 */
module JsonToMd {
  import opened Strings
  import opened WordParser
  import WordProperties

  const DefaultTitle := "项目成果汇报"
  const Separator := "\n---\n"

  /** The cover title: the first section's title when it is a level-1 section. */
  function MainTitle(secs: seq<Section>): string {
    if secs != [] && secs[0].level == 1 then secs[0].title else DefaultTitle
  }

  /** `"#" * n`. */
  function Hashes(n: int): (r: string)
    ensures |r| == if n < 0 then 0 else n
    ensures forall i :: 0 <= i < |r| ==> r[i] == '#'
  {
    if n <= 0 then [] else Hashes(n - 1) + "#"
  }

  /** The heading lines of the section at position `i`: none for the first level-1 section, none for levels below 1. */
  function HeadingLines(i: nat, s: Section): seq<string> {
    if s.level == 1 then
      if i == 0 then [] else [Separator, "## " + s.title + "\n"]
    else if s.level == 2 then ["\n### " + s.title + "\n"]
    else if s.level >= 3 then ["\n" + Hashes(s.level + 1) + " " + s.title + "\n"]
    else []
  }

  /** The `- item` lines of the first `n` items of a list. */
  function ItemLines(items: seq<string>, n: nat): seq<string>
    requires n <= |items|
  {
    if n == 0 then [] else ItemLines(items, n - 1) + ["- " + items[n - 1]]
  }

  /** A list gives exactly one line per item, in order: the item behind `- `. */
  lemma {:induction false} ItemLinesShape(items: seq<string>, n: nat)
    requires n <= |items|
    ensures |ItemLines(items, n)| == n
    ensures forall k :: 0 <= k < n ==> ItemLines(items, n)[k] == "- " + items[k]
  {
    if n > 0 {
      ItemLinesShape(items, n - 1);
    }
  }

  function BlockLines(b: Block): seq<string> {
    match b
    case Paragraph(t) => [t + "\n"]
    case List(items) => ItemLines(items, |items|) + [""]
  }

  /** The lines of the first `n` blocks of a section of level 1 or more. */
  function BlocksLines(blocks: seq<Block>, n: nat): seq<string>
    requires n <= |blocks|
  {
    if n == 0 then [] else BlocksLines(blocks, n - 1) + BlockLines(blocks[n - 1])
  }

  /** The lines of the first `n` blocks of a level-0 section: its paragraphs only, lists are dropped. */
  function PreambleLines(blocks: seq<Block>, n: nat): seq<string>
    requires n <= |blocks|
  {
    if n == 0 then []
    else if blocks[n - 1].Paragraph? then PreambleLines(blocks, n - 1) + [blocks[n - 1].text]
    else PreambleLines(blocks, n - 1)
  }

  function SectionLines(i: nat, s: Section): seq<string> {
    if s.level == 0 then PreambleLines(s.blocks, |s.blocks|) + [""]
    else HeadingLines(i, s) + BlocksLines(s.blocks, |s.blocks|)
  }

  /** The lines of the first `n` sections. */
  function SectionsLines(secs: seq<Section>, n: nat): seq<string>
    requires n <= |secs|
  {
    if n == 0 then [] else SectionsLines(secs, n - 1) + SectionLines(n - 1, secs[n - 1])
  }

  /** Every line `_convert_default` collects: the cover title, the sections, and a closing separator. */
  function DefaultLines(secs: seq<Section>): seq<string> {
    ["# " + MainTitle(secs) + "\n"] + SectionsLines(secs, |secs|) + [Separator]
  }

  function DefaultMarkdown(secs: seq<Section>): string {
    Join(DefaultLines(secs), "\n")
  }

  // ---------------------------------------------------------------------
  // The source's loops
  // ---------------------------------------------------------------------

  /** `_convert_default`: the lines are collected one by one and joined with "\n". */
  method ConvertDefault(doc: Document) returns (md: string)
    ensures md == DefaultMarkdown(doc.sections)
  {
    var sections := doc.sections;
    var mainTitle := DefaultTitle;
    if sections != [] && sections[0].level == 1 {
      mainTitle := sections[0].title;
    }
    var body := [];
    for i := 0 to |sections|
      invariant body == SectionsLines(sections, i)
    {
      var more := AppendSection(i, sections[i]);
      body := body + more;
    }
    assert mainTitle == MainTitle(sections);
    var out := ["# " + mainTitle + "\n"] + body + [Separator];
    assert out == DefaultLines(sections);
    md := Join(out, "\n");
  }

  /** The lines one section adds, in the order the source appends them. */
  method AppendSection(i: nat, section: Section) returns (out: seq<string>)
    ensures out == SectionLines(i, section)
  {
    var blocks := section.blocks;
    if section.level == 0 {
      var texts := [];
      for j := 0 to |blocks|
        invariant texts == PreambleLines(blocks, j)
      {
        if blocks[j].Paragraph? {
          texts := texts + [blocks[j].text];
        }
      }
      return texts + [""];
    }
    var heading := [];
    if section.level == 1 {
      if i != 0 {
        heading := [Separator, "## " + section.title + "\n"];
      }
    } else if section.level == 2 {
      heading := ["\n### " + section.title + "\n"];
    } else if section.level >= 3 {
      var prefix := Hashes(section.level + 1);
      heading := ["\n" + prefix + " " + section.title + "\n"];
    }
    var body := [];
    for j := 0 to |blocks|
      invariant body == BlocksLines(blocks, j)
    {
      var more := AppendBlock(blocks[j]);
      body := body + more;
    }
    out := heading + body;
  }

  /** The lines of one block of a section of level 1 or more. */
  method AppendBlock(block: Block) returns (out: seq<string>)
    ensures out == BlockLines(block)
  {
    match block {
      case Paragraph(t) =>
        out := [t + "\n"];
      case List(items) =>
        out := [];
        for k := 0 to |items|
          invariant out == ItemLines(items, k)
        {
          out := out + ["- " + items[k]];
        }
        out := out + [""];
    }
  }

  // ---------------------------------------------------------------------
  // The AI mode
  // ---------------------------------------------------------------------

  /** `json.dumps` of one string, with `ensure_ascii=False`: quotes, backslashes and control characters escaped. */
  function JsonEscapeChar(c: char): string {
    if c == '"' then "\\\""
    else if c == '\\' then "\\\\"
    else if c == '\n' then "\\n"
    else if c == '\r' then "\\r"
    else if c == '\t' then "\\t"
    else if c == '\U{8}' then "\\b"
    else if c == '\U{c}' then "\\f"
    else if c < ' ' then "\\u00" + [HexDigit(c as int / 16), HexDigit(c as int % 16)]
    else [c]
  }

  function HexDigit(d: int): char
    requires 0 <= d < 16
  {
    if d < 10 then ('0' as int + d) as char else ('a' as int + d - 10) as char
  }

  function JsonEscape(s: string): string {
    if s == [] then [] else JsonEscape(s[..|s| - 1]) + JsonEscapeChar(s[|s| - 1])
  }

  /** `json.dumps({"source": name}, ensure_ascii=False)`. */
  function MetaJson(source: string): string {
    "{\"source\": \"" + JsonEscape(source) + "\"}"
  }

  const MarkerOpen := "\n[原始章节 (Level "

  /** The line that marks the start of a section in the text handed to the model. */
  function Marker(s: Section): string {
    MarkerOpen + IntToString(s.level) + ")：" + s.title + "]"
  }

  /** The lines a section adds to the text handed to the model: a marker, then its paragraphs and `- ` items. */
  function FlatSectionLines(s: Section): seq<string> {
    [Marker(s)] + FlatBlocksLines(s.blocks, |s.blocks|)
  }

  function FlatBlocksLines(blocks: seq<Block>, n: nat): seq<string>
    requires n <= |blocks|
  {
    if n == 0 then []
    else FlatBlocksLines(blocks, n - 1) + (match blocks[n - 1]
      case Paragraph(t) => [t]
      case List(items) => ItemLines(items, |items|))
  }

  function FlatSections(secs: seq<Section>, n: nat): seq<string>
    requires n <= |secs|
  {
    if n == 0 then [] else FlatSections(secs, n - 1) + FlatSectionLines(secs[n - 1])
  }

  /** The buffer `_convert_with_ai` builds: the metadata (never empty, it holds the source name), then every section. */
  function FlatLines(doc: Document): seq<string> {
    ["[文档元数据]\n" + MetaJson(doc.source) + "\n"] + FlatSections(doc.sections, |doc.sections|)
  }

  /** The flattening loop of `_convert_with_ai`. */
  method Flatten(doc: Document) returns (text: string)
    ensures text == Join(FlatLines(doc), "\n")
  {
    var sections := doc.sections;
    var body := [];
    for i := 0 to |sections|
      invariant body == FlatSections(sections, i)
    {
      var section := sections[i];
      var marker := Marker(section);
      var blocks := section.blocks;
      var lines := [];
      for j := 0 to |blocks|
        invariant lines == FlatBlocksLines(blocks, j)
      {
        match blocks[j] {
          case Paragraph(t) =>
            lines := lines + [t];
          case List(items) =>
            var itemLines := [];
            for k := 0 to |items|
              invariant itemLines == ItemLines(items, k)
            {
              itemLines := itemLines + ["- " + items[k]];
            }
            lines := lines + itemLines;
        }
      }
      body := body + ([marker] + lines);
    }
    var buffer := ["[文档元数据]\n" + MetaJson(doc.source) + "\n"] + body;
    text := Join(buffer, "\n");
  }

  /**
   * `convert`: mode 1 flattens the document and hands the text to
   * `restructure`, the restructuring call the AI mode intends; any other
   * mode uses the default writer.
   */
  method Convert(doc: Document, mode: int, restructure: string -> string) returns (md: string)
    ensures mode == 1 ==> md == restructure(Join(FlatLines(doc), "\n"))
    ensures mode != 1 ==> md == DefaultMarkdown(doc.sections)
  {
    if mode == 1 {
      var text := Flatten(doc);
      md := restructure(text);
    } else {
      md := ConvertDefault(doc);
    }
  }

  // ---------------------------------------------------------------------
  // Properties of the default output
  // ---------------------------------------------------------------------

  /** The default Markdown opens with the `# ` cover title line and always closes with a `---` separator. */
  lemma DefaultMarkdownFrame(secs: seq<Section>)
    ensures StartsWith(DefaultMarkdown(secs), "# " + MainTitle(secs) + "\n")
    ensures EndsWith(DefaultMarkdown(secs), "\n---\n")
  {
    JoinEnds(DefaultLines(secs), "\n");
  }

  // ---------------------------------------------------------------------
  // Properties of the text handed to the model
  // ---------------------------------------------------------------------

  /** `line` carries `text`: it is the text itself, the text as a `- ` item, or a section marker titled with it. */
  predicate Carries(line: string, text: string) {
    || line == text
    || line == "- " + text
    || (StartsWith(line, MarkerOpen) && EndsWith(line, ")：" + text + "]"))
  }

  /** A section's marker carries the section's title. */
  lemma MarkerCarries(s: Section)
    ensures Carries(Marker(s), s.title)
  {
    var head := MarkerOpen + IntToString(s.level);
    var m := Marker(s);
    assert m == head + (")：" + s.title + "]");
    assert m[..|MarkerOpen|] == MarkerOpen;
    assert m[|m| - |")：" + s.title + "]"|..] == ")：" + s.title + "]";
  }

  /** The blocks give one line per block text, in order: a paragraph as it is, an item behind `- `. */
  lemma {:induction false} FlatBlocksTexts(blocks: seq<Block>, n: nat)
    requires n <= |blocks|
    ensures var lines, texts := FlatBlocksLines(blocks, n), WordProperties.BlockTexts(blocks[..n]);
      && |lines| == |texts|
      && forall k :: 0 <= k < |lines| ==> lines[k] == texts[k] || lines[k] == "- " + texts[k]
  {
    if n > 0 {
      FlatBlocksTexts(blocks, n - 1);
      assert blocks[..n][..n - 1] == blocks[..n - 1];
      var b := blocks[n - 1];
      if b.List? {
        ItemLinesShape(b.items, |b.items|);
      }
    }
  }

  /** Line by line, `lines` carries `texts`. */
  predicate CarriesAll(lines: seq<string>, texts: seq<string>) {
    |lines| == |texts| && forall k :: 0 <= k < |lines| ==> Carries(lines[k], texts[k])
  }

  lemma CarriesAllAppend(a: seq<string>, b: seq<string>, ta: seq<string>, tb: seq<string>)
    requires CarriesAll(a, ta) && CarriesAll(b, tb)
    ensures CarriesAll(a + b, ta + tb)
  {
    forall k | 0 <= k < |a + b|
      ensures Carries((a + b)[k], (ta + tb)[k])
    {
      if k < |a| {
        assert (a + b)[k] == a[k] && (ta + tb)[k] == ta[k];
      } else {
        assert (a + b)[k] == b[k - |a|] && (ta + tb)[k] == tb[k - |a|];
      }
    }
  }

  /**
   * After the metadata line, the text handed to the model holds one line per
   * title and block text of the document, in document order: each section's
   * marker, then its paragraphs and `- ` items.
   */
  lemma {:induction false} FlatSectionsTexts(secs: seq<Section>, n: nat)
    requires n <= |secs|
    ensures CarriesAll(FlatSections(secs, n), WordProperties.AllTexts(secs[..n]))
  {
    if n > 0 {
      FlatSectionsTexts(secs, n - 1);
      var s := secs[n - 1];
      assert secs[..n][..n - 1] == secs[..n - 1];
      var blockLines, blockTexts := FlatBlocksLines(s.blocks, |s.blocks|), WordProperties.BlockTexts(s.blocks);
      FlatBlocksTexts(s.blocks, |s.blocks|);
      assert s.blocks[..|s.blocks|] == s.blocks;
      assert CarriesAll(blockLines, blockTexts);
      MarkerCarries(s);
      CarriesAllAppend(FlatSections(secs, n - 1), [Marker(s)], WordProperties.AllTexts(secs[..n - 1]), [s.title]);
      CarriesAllAppend(FlatSections(secs, n - 1) + [Marker(s)], blockLines, WordProperties.AllTexts(secs[..n - 1]) + [s.title], blockTexts);
    }
  }

  /** The text handed to the model: the metadata line, then one line carrying each title and block text, in order. */
  lemma FlatLinesTexts(doc: Document)
    ensures var lines, texts := FlatLines(doc), WordProperties.AllTexts(doc.sections);
      && lines[0] == "[文档元数据]\n" + MetaJson(doc.source) + "\n"
      && |lines| == 1 + |texts|
      && forall k :: 0 <= k < |texts| ==> Carries(lines[k + 1], texts[k])
  {
    FlatSectionsTexts(doc.sections, |doc.sections|);
    assert doc.sections[..|doc.sections|] == doc.sections;
  }
}
