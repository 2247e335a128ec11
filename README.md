# word-ppt in Dafny

A model of the core of word-ppt. word-ppt turns a Word document into a
PowerPoint deck through an intermediate Markdown file:

- **Word reader** (`WordParser`, `WordProperties`). The document's paragraphs
  (style name and text) are grouped into sections. A heading paragraph
  opens a section, consecutive list paragraphs share one list block, and
  the leading "Preamble" section is dropped when it stayed empty and a
  heading followed.
- **Markdown writer** (`JsonToMd`). The sections become Markdown: `## `
  slides, `### ` blocks, `- ` items and `---` separators. The AI mode
  instead flattens the document to marked-up text and hands it to a
  restructuring call, which is a function parameter here (the source's
  client defines no such call; see "Left out").
- **Markdown reader** (`MarkdownParser`, `MarkdownProperties`). The
  `parse_lines` state machine reads the Markdown into the presentation
  data:
  - a cover title and cover metadata;
  - one slide per `## ` line, numbered from 2;
  - blocks with bullets and keywords;
  - slide descriptions.

  The datatypes are in `DataStructs`.
- **Template filler** (`PptGenerator`, `GeneratorProperties`). The
  template's text shapes are indexed by name. The cover texts go into the
  `cover_*` shapes and every slide's texts into its `page{p}_title`,
  `page{p}_desc` and `page{p}_bullet{j}` shapes. Shapes are objects whose
  text frames the fill methods change in place. Each fill is specified as a
  sequence of writes by shape name.
- **Slide helpers** (`PptUtils`, `PptUtilsProperties`). Covers moving a
  slide, duplicating a shape or a slide, and copying a placeholder's
  content. A shape's XML element is a sequence of tagged child nodes. The
  copies replace a child where it stands or insert it at a fixed place,
  and the model states exactly which children change. A shape's position
  is the `xfrm` inside its `spPr` child, so a copied `spPr` carries the
  source's own position with it. A placeholder whose `spPr` holds no
  `xfrm` shows the position it inherits from its layout.
- **Round trip** (`Pipeline`). The Markdown the default writer produces,
  saved and read back with `readlines`, gives one slide per level-1 section
  after the first, in order, titled with the section's title and numbered
  from page 2.

Shared pieces:

- `Strings` holds Python's `strip`, `startswith`, `str.join` and
  `str.split` on `seq<char>`, with white space as `str.isspace` sees it.
- `Outcomes` holds the `FileNotFoundError` result that the file-reading
  entry points return.

Reading a file is modelled as a lookup in the set (or map) of existing
paths. A Word document is its sequence of paragraphs, and a loaded template
is its slides' shapes.

Three library behaviours are modelled as python-pptx and lxml do them:

- **Inserting a child or a slide.** A position past the end appends. A
  negative position counts from the end. A negative position further back
  than the start also appends, which is what lxml's `insert` does.
- **`TextFrame.clear()`.** It keeps the first paragraph, with its level,
  and drops the paragraph's runs.
- **`int()` on the last word of a heading style.** The model accepts an
  optional sign, then ASCII digits with single underscores between them.
  Anything else is the ValueError branch, which gives level 1.

Two behaviours of the code are modelled as written and stated as lemmas:

- A `- ` line directly under a `## ` slide opens an empty anonymous block,
  but the bullet's own text is not stored (`BulletOutsideBlock`). The
  source's branch that appends to the slide's last block in that case can
  never run, because without a current block the current slide has no
  blocks.
- A `**关键词：...**` line in the cover section matches the key/value
  pattern first, so it becomes metadata (`KeywordLineInCover`).

## Model

| member | source | states |
|---|---|---|
| MarkdownParser.MatchMarker | parser/markdown_parser.py:15-18 | group 1 of `^M\s+(.+)$` follows the marker and at least one white-space character, is non-empty, starts with a non-space and holds no newline |
| MarkdownParser.MatchMarkerSound | parser/markdown_parser.py:15-18 | a matched line is exactly the marker, a non-empty run of white space, then group 1 |
| MarkdownParser.MatchMarkerComplete | parser/markdown_parser.py:15-18 | every line made of the marker, white space and a text that starts with a non-space matches, and group 1 is that text |
| MarkdownParser.MatchKeyValueSound | parser/markdown_parser.py:19 | a key/value match splits the line at its first colon (either width) into a colon-free key and the value after optional white space, both stripped |
| MarkdownParser.MatchKeyValueComplete | parser/markdown_parser.py:19 | every colon-free key, colon, white space and value line matches, with key and value stripped |
| MarkdownParser.H2IsNotH1 | parser/markdown_parser.py:15-16 | a line starting with `##` never matches the cover-title pattern |
| MarkdownParser.H2LineOpensSlide | parser/markdown_parser.py:63-79 | a `## ` line opens a slide titled with its stripped group, in the cover section or after it |
| MarkdownParser.HashLineIsNotSkipped | parser/markdown_parser.py:49-54 | a line starting with `#` is never skipped as blank, separator or comment |
| MarkdownParser.ApplyLine | parser/markdown_parser.py:56-151 | one line's updates through the current slide and block equal the state-machine step `Apply`; the current slide is the last slide and the current block the last block of the last slide |
| MarkdownParser.ParseLines | parser/markdown_parser.py:33-153 | the loop's result is the fold `Parse` of the classified lines |
| MarkdownParser.ParseFile | parser/markdown_parser.py:21-31 | fails with FileNotFound of the path exactly when the path does not exist; otherwise parses the file's lines |
| MarkdownProperties.ClassifyCoherent | parser/markdown_parser.py:120-148 | the cover section changes a line's kind only for key/value lines, which are metadata there and keyword or text after it |
| MarkdownProperties.SkippedLineIsSkip | parser/markdown_parser.py:48-54 | blank lines, `---` and `<!--` lines are skipped before any pattern is tried |
| MarkdownProperties.CoverTitleIffH1 | parser/markdown_parser.py:56-60 | a kept line sets the cover title exactly when `# ` matches it, and the title is the stripped group |
| MarkdownProperties.NewSlideIffH2 | parser/markdown_parser.py:62-79 | a line opens a slide exactly when `## ` matches it, with the stripped group as title |
| MarkdownProperties.MetaOnlyInCover | parser/markdown_parser.py:120-127 | metadata is only read in the cover section, and only from key/value lines |
| MarkdownProperties.KeywordTextOf | parser/markdown_parser.py:129-131 | `**关键词：x**` is a keyword line whose keyword is `x` stripped |
| MarkdownProperties.StarLineIsNoHeading | parser/markdown_parser.py:56-118 | a line starting with `*` matches no heading or bullet pattern and is not skipped |
| MarkdownProperties.KeywordLineClassified | parser/markdown_parser.py:129-134 | after the cover section a `**关键词：x**` line is the keyword `x` stripped |
| MarkdownProperties.KeywordLineInCover | parser/markdown_parser.py:120-127 | in the cover section the same line is metadata, because the key/value test comes first |
| MarkdownProperties.KeywordLineIsKeyValue | parser/markdown_parser.py:19 | a keyword line matches the key/value pattern |
| MarkdownProperties.ApplyKeepsInv | parser/markdown_parser.py:62-148 | every step keeps the invariant that a current block is the last block of the last slide, and that without one the last slide has no blocks |
| MarkdownProperties.InvAlways | parser/markdown_parser.py:45-151 | the invariant holds after any number of lines |
| MarkdownProperties.BulletOutsideBlock | parser/markdown_parser.py:96-118 | a bullet directly under a slide opens one anonymous empty block and its own text is not stored |
| MarkdownProperties.SkipShifts | parser/markdown_parser.py:48-54 | inserting a skipped line anywhere leaves the state after the later lines unchanged |
| MarkdownProperties.SamePrefix | parser/markdown_parser.py:45 | the state after `n` lines depends on those lines only |
| MarkdownProperties.SkippedLineClassified | parser/markdown_parser.py:46-54 | a line that strips to a skipped line is skipped in both sections |
| MarkdownProperties.SkippedLineIgnored | parser/markdown_parser.py:48-54 | inserting a blank, separator or comment line anywhere does not change the parse |
| MarkdownProperties.CoverTitleIsLast | parser/markdown_parser.py:56-60 | the cover title is that of the last `# ` line, or "" when there is none |
| MarkdownProperties.ApplyKeepsHeads | parser/markdown_parser.py:82-148 | a line that does not open a slide keeps the number, titles and page numbers of the slides |
| MarkdownProperties.SlidesAreH2Lines | parser/markdown_parser.py:62-79 | there is one slide per `## ` line, in order, titled with its stripped text, and slide `k` has page number `k + 2` |
| MarkdownProperties.CoverLineTouchesOnlyCover | parser/markdown_parser.py:82-148 | before the first slide a line changes only the cover title or the metadata |
| MarkdownProperties.MetaFrozenAfterFirstSlide | parser/markdown_parser.py:62-127 | once a slide exists the metadata never changes again |
| WordParser.ParseParagraphs | parser/word_parser.py:44-103 | the paragraph loop and the clean-up give `Sectionise` of the paragraphs |
| WordParser.AddParagraph | parser/word_parser.py:56-99 | one paragraph's effect on the closed sections and the current section equals the step `AddKind` |
| WordParser.Parse | parser/word_parser.py:22-105 | fails with FileNotFound exactly for a missing path; otherwise the sections are `Sectionise` of the paragraphs and the source is the path's base name, or "uploaded_file" for a stream |
| WordParser.IntRoundTrip | parser/word_parser.py:64-66 | `int()` reads back every number `str()` writes |
| WordParser.HeadingLevelOf | parser/word_parser.py:63-68 | the level of style "Heading n" is `n` |
| WordParser.LastWordIsLastWord | parser/word_parser.py:66 | `split()[-1]` is a white-space-free suffix of the style preceded by white space |
| WordParser.NatToString | parser/word_parser.py:66 | a number's decimal rendering is never empty |
| WordParser.NatToStringValue | parser/word_parser.py:66 | the rendering is ASCII digits only, without underscores, and their decimal value is the number |
| WordProperties.HeadingWins | parser/word_parser.py:56-77 | a paragraph opens a section exactly when its stripped text is not empty and its style starts with "Heading", even when the style is also a list style |
| WordProperties.SectionsAreHeadings | parser/word_parser.py:48-77 | the preamble comes first, then exactly one section per heading paragraph, in order, with its level and stripped text |
| WordProperties.PreambleKept | parser/word_parser.py:101-103 | the result is never empty; the preamble stays exactly when it has blocks or no heading exists, and otherwise only it is dropped |
| WordProperties.AddListItemMerges | parser/word_parser.py:80-90 | adding a list item never makes two list blocks adjacent |
| WordProperties.ListsMerged | parser/word_parser.py:80-90 | no section ever holds two adjacent list blocks |
| WordProperties.ParseMergesLists | parser/word_parser.py:22-105 | no section of the result holds two adjacent list blocks |
| WordProperties.TextsPreserved | parser/word_parser.py:55-99 | the titles, paragraph texts and list items of the sections are the stripped non-blank paragraph texts, in document order, after the preamble's title |
| WordProperties.AddKindTexts | parser/word_parser.py:55-99 | one paragraph adds exactly its stripped text, if any, at the end of the texts |
| WordProperties.ParseKeepsTexts | parser/word_parser.py:22-105 | every stripped non-blank paragraph text is kept in order, with the clean-up dropping only the preamble's title |
| WordProperties.CleanUpKeepsTexts | parser/word_parser.py:101-103 | the clean-up drops only the empty preamble's title |
| WordProperties.BasenameIsLastPart | parser/word_parser.py:35 | the base name is the suffix after the path's last `/` |
| JsonToMd.Hashes | parser/json_to_md.py:77 | `"#" * n` is `max(n, 0)` hash characters |
| JsonToMd.ConvertDefault | parser/json_to_md.py:33-93 | the collected lines joined with newlines are `DefaultMarkdown` of the sections, which the Markdown reader reads back as one slide per later level-1 section (`Pipeline.DefaultMarkdownSlides`) |
| JsonToMd.AppendSection | parser/json_to_md.py:46-87 | one section's lines: its preamble paragraphs and an empty line, or its heading for its level and position, then its blocks; among them a `## ` line exactly for a level-1 section after the first (`Pipeline.SectionHeads`) |
| JsonToMd.AppendBlock | parser/json_to_md.py:81-87 | a paragraph's line, or one `- ` line per list item followed by an empty line, none of them a `## ` line (`Pipeline.BlockPlain`) |
| JsonToMd.ItemLinesShape | parser/json_to_md.py:85-86 | a list gives exactly one line per item, in order, the item behind `- ` |
| JsonToMd.Flatten | parser/json_to_md.py:103-128 | the flattened text is the buffer joined with newlines, whose lines carry the document's titles and texts in order (`JsonToMd.FlatLinesTexts`) |
| JsonToMd.MarkerCarries | parser/json_to_md.py:117 | a section's marker line opens with `\n[原始章节 (Level ` and ends with the title and `]` |
| JsonToMd.FlatBlocksTexts | parser/json_to_md.py:120-126 | the blocks give one line per block text, in order: a paragraph as it is, an item behind `- ` |
| JsonToMd.FlatSectionsTexts | parser/json_to_md.py:111-126 | the sections give one line per title and block text, in document order, each carrying its text |
| JsonToMd.FlatLinesTexts | parser/json_to_md.py:104-128 | the buffer is the metadata line, then exactly one line carrying each title and block text of the document, in order |
| JsonToMd.Convert | parser/json_to_md.py:21-31 | mode 1 returns `restructure` of the flattened text; any other mode returns the default Markdown |
| JsonToMd.DefaultMarkdownFrame | parser/json_to_md.py:40-93 | the default Markdown starts with the `# ` cover-title line and ends with the `---` separator |
| PptGenerator.Shape.SetText | ppt/generator.py:125-148 | the frame becomes `SetTextFrame` of the old frame |
| PptGenerator.Shape.SetTextWithFormatting | ppt/generator.py:150-189 | the frame becomes `FormatFrame` of the old frame |
| PptGenerator.BuildShapeMap | ppt/generator.py:43-59 | the mapping is the index of all text shapes of all slides by name, the later shape winning |
| PptGenerator.ShapeIndexKeys | ppt/generator.py:49-57 | a name is a key exactly when some shape with a text frame has it, and it maps to a shape of that name |
| PptGenerator.ShapeIndexLastWins | ppt/generator.py:49-57 | a name maps to the last text shape with that name |
| PptGenerator.ApplyWrites | ppt/generator.py:77-123 | the fills never add or remove a shape from the index |
| PptGenerator.SetTextOn | ppt/generator.py:79 | `_set_text` on the named shape changes that frame only |
| PptGenerator.FormatOn | ppt/generator.py:121 | `_set_text_with_formatting` on the named shape changes that frame only |
| PptGenerator.FillCover | ppt/generator.py:61-79 | the frames after the cover fill are the cover writes applied: each of the six cover names with a non-empty text, in order |
| PptGenerator.FillSlides | ppt/generator.py:81-123 | the frames after the slide fill are every slide's writes applied in order |
| PptGenerator.FillSlide | ppt/generator.py:85-123 | one slide writes its title, its non-empty description, then block `j` into `page{p}_bullet{j+1}` |
| PptGenerator.FillHeader | ppt/generator.py:86-98 | one slide writes its title and, when not empty, its description |
| PptGenerator.FillBlocks | ppt/generator.py:101-123 | block `j` is formatted into `page{p}_bullet{j+1}` when that shape exists |
| PptGenerator.ApplyWritesAppend | ppt/generator.py:29-35 | applying two write sequences in turn is applying their concatenation |
| PptGenerator.NewGenerator | ppt/generator.py:13-18 | fails with FileNotFound exactly when the template path does not exist |
| PptGenerator.IndexedShapesAreShapes | ppt/generator.py:43-59 | the index holds only shapes of the template |
| PptGenerator.Generate | ppt/generator.py:20-35 | the index is built from the template, then the cover's and the slides' writes are applied to its frames; every template shape outside the index keeps its frame |
| GeneratorProperties.SetTextShows | ppt/generator.py:125-148 | after `_set_text` the first paragraph shows exactly the text and keeps its level and its runs' number and fonts; a paragraph without runs gets one run of inherited font; later paragraphs are untouched |
| GeneratorProperties.BulletParasShape | ppt/generator.py:178-187 | one level-1 paragraph per bullet, in order, each a single run in the template's font |
| GeneratorProperties.FormatShows | ppt/generator.py:150-189 | after `_set_text_with_formatting` the frame is the title paragraph (empty when the title is, else one bold run) followed by exactly one level-1 paragraph per bullet |
| GeneratorProperties.BoldTitleOnly | ppt/generator.py:173-213 | the title run is always bold, a bullet run keeps the template's bold flag, and a named template font also sets the East Asian typeface |
| GeneratorProperties.UntouchedKept | ppt/generator.py:77-123 | a shape no write names keeps its frame |
| GeneratorProperties.WriteLands | ppt/generator.py:77-123 | with distinct names each write's effect is what its shape shows at the end |
| GeneratorProperties.SlideKeyInjective | ppt/generator.py:89-102 | `page{p}_{s}` names are distinct for distinct pages or suffixes |
| GeneratorProperties.BulletSuffixInjective | ppt/generator.py:102 | distinct block numbers give distinct `bullet{j}` suffixes |
| GeneratorProperties.CoverIsNoSlideKey | ppt/generator.py:68-102 | no cover name is a slide shape name |
| GeneratorProperties.CoverWritesFromPairs | ppt/generator.py:77-79 | the cover writes have distinct names and each comes from a cover pair with a non-empty text |
| GeneratorProperties.CoverWriteIn | ppt/generator.py:77-79 | every cover pair with a non-empty text is written |
| GeneratorProperties.EmptyCoverUntouched | ppt/generator.py:78 | a cover shape whose text is empty is not written |
| GeneratorProperties.SlideWritesDistinct | ppt/generator.py:85-123 | one slide's writes have distinct names, all on its page |
| GeneratorProperties.SlidesWritesDistinct | ppt/generator.py:85-123 | with distinct page numbers all slide writes have distinct names |
| GeneratorProperties.DeckWritesDistinct | ppt/generator.py:61-123 | with distinct page numbers no shape is written twice |
| GeneratorProperties.CoverFilled | ppt/generator.py:61-79 | a cover shape ends showing its non-empty text through `_set_text`, else its old frame |
| GeneratorProperties.SlideTitleFilled | ppt/generator.py:88-91 | every slide's title shape ends showing its title |
| GeneratorProperties.SlideDescFilled | ppt/generator.py:95-98 | a slide's description shape ends showing its non-empty description |
| GeneratorProperties.SlideBlockFilled | ppt/generator.py:100-121 | the `page{p}_bullet{j+1}` shape ends formatted with block `j`'s subtitle and bullets |
| GeneratorProperties.OtherShapesKept | ppt/generator.py:61-123 | a shape that is neither a cover shape nor on a filled page keeps its frame |
| PptUtils.FindTag | utils/ppt_utils.py:83-86 | the position of the first child with the tag, or none when no child has it |
| PptUtils.SlideShape.Put | utils/ppt_utils.py:85-100 | the copy replaces the first child of its tag in place, or is inserted at the given position |
| PptUtils.SlideShape.RemoveStyle | utils/ppt_utils.py:120-123 | the first style child is removed |
| PptUtils.SlideShape.PutStyle | utils/ppt_utils.py:104-123 | the source's style replaces the destination's, or is inserted after `spPr` or appended; without a source style the destination's is removed |
| PptUtils.SlideShape.SetPosition | utils/ppt_utils.py:126-129 | setting `left`, `top`, `width` and `height` writes them into the `xfrm` of the first `spPr` and changes nothing else (`PptUtilsProperties.SetXfrmPlaces`) |
| PptUtils.CopyPlaceholderContent | utils/ppt_utils.py:76-129 | text body (between two text shapes), `spPr` and style are copied in; then the source's position, its own or the one it inherits, is written into the destination's `spPr`; a graphic frame (kind `Complex`) has no `spPr` property, so after the text-body step it raises AttributeError (`ok` false); the name is kept |
| PptUtils.DuplicateShape | utils/ppt_utils.py:131-259 | one new shape is appended to the slide with the copied children for its kind, no inherited position and no placeholder link, and the kept or `_copy_` name; so it stands where the copied `spPr` says (`PptUtilsProperties.CopyPosition`); a complex shape is cloned whole, placeholder link included, and not returned |
| PptUtils.MoveSlide | utils/ppt_utils.py:274-281 | an out-of-range old index changes nothing and fails; otherwise the slide list is `Moved` |
| PptUtils.PhIndexHolds | utils/ppt_utils.py:37-39 | the index holds the slide's placeholders under their own `idx`, and every placeholder's `idx` is a key |
| PptUtils.BuildPlaceholderMap | utils/ppt_utils.py:37-39 | the map is the placeholder index, a later placeholder replacing an earlier one with the same `idx` |
| PptUtils.FilterOutMember | utils/ppt_utils.py:42-57 | a shape is still to be removed exactly when it was on the slide and was not kept |
| PptUtils.DuplicateSlide | utils/ppt_utils.py:20-74 | an out-of-range index raises IndexError before a slide is added; otherwise the new slide is appended and stays. Without error it holds the matched placeholders with their sources copied in, then one fresh copy per unmatched source shape, in order, with unmatched placeholders removed. A graphic frame matched to a placeholder raises AttributeError exactly at the first such source shape; the new slide then holds what the loop had done by then, and nothing is removed. The source slide and its shapes are unchanged |
| PptUtils.Transplant | utils/ppt_utils.py:36-72 | the new slide's shapes are the kept placeholders in their order, then the copies of the unmatched source shapes; each kept placeholder has absorbed its matching sources; when the loop raises, the old shapes stay, followed by the copies made before the failing source, and each placeholder holds what the earlier sources copied into it, plus the failing source's text-body step if that source matched it |
| PptUtils.AbsorbInto | utils/ppt_utils.py:60-63 | a matched placeholder takes the source's content, the source's position written into its `spPr`, and the source's name; a graphic frame raises after the text-body step, and the name is not set |
| PptUtils.PlaceStep | utils/ppt_utils.py:47-64 | a matched source placeholder keeps its destination and is copied into it, or, for a graphic frame, leaves the loop in its failure state |
| PptUtils.CopyStep | utils/ppt_utils.py:66-67 | an unmatched source shape is duplicated under its own name as a new last shape |
| PptUtils.MatchShapes | utils/ppt_utils.py:42-67 | the shape loop: the removal list is the unmatched destination shapes, the copies are appended in source order, and each placeholder absorbs its matches; it stops at the first graphic frame matched to a placeholder, with the copies and placeholders as far as it got |
| PptUtils.RemoveShapes | utils/ppt_utils.py:69-72 | the listed shapes are removed and everything else keeps its order |
| PptUtilsProperties.PutChildPlaces | utils/ppt_utils.py:85-100 | a present tag's child is replaced where it stands, all else unchanged; otherwise the copy lands at the position or at the end, and removing it gives back the old children |
| PptUtilsProperties.PutChildOnly | utils/ppt_utils.py:85-100 | putting a copy in makes it the first child of its tag, drops the old first one, and leaves every other tag's children alone |
| PptUtilsProperties.DropStyleOnly | utils/ppt_utils.py:120-123 | removing the style drops only the first style child |
| PptUtilsProperties.StyleAfterSpPr | utils/ppt_utils.py:114-117 | a style joining a shape without one lands right after its `spPr` |
| PptUtilsProperties.CopyTxBodyOnly | utils/ppt_utils.py:82-90 | only the first text body changes, and only between two text shapes |
| PptUtilsProperties.CopySpPrOnly | utils/ppt_utils.py:93-100 | only the first `spPr` changes, to the source's |
| PptUtilsProperties.CopyStyleOnly | utils/ppt_utils.py:104-123 | only the first style changes: to the source's, or it is dropped |
| PptUtilsProperties.PlaceholderChildrenOnly | utils/ppt_utils.py:76-123 | per tag, the placeholder copy changes exactly the first text body, `spPr` and style, and no other child |
| PptUtilsProperties.PlaceholderTakesSource | utils/ppt_utils.py:76-123 | the copied placeholder shows the source's `spPr`, style and text body, and loses a lone style of its own when the source has none |
| PptUtilsProperties.AutoShapeChildrenOnly | utils/ppt_utils.py:152-194 | an auto shape's copy takes the source's `spPr`, style and text body in place of the new element's, and keeps its other children |
| PptUtilsProperties.CopyNameShape | utils/ppt_utils.py:253-257 | without `keep_name` the copy is named `<name>_copy_` plus the first eight hex characters, never the source's name |
| PptUtilsProperties.MovedReorders | utils/ppt_utils.py:274-281 | moving keeps the same slides, puts the moved one at its new position and the others in their old order |
| PptUtilsProperties.MovedInPlace | utils/ppt_utils.py:274-281 | moving a slide to its own position changes nothing |
| PptUtilsProperties.PhIndexLastWins | utils/ppt_utils.py:37-39 | a placeholder is the one indexed for its `idx` unless a later one has the same `idx` |
| PptUtilsProperties.KeptSetMeaning | utils/ppt_utils.py:47-57 | the kept placeholders are exactly those some source placeholder found by `idx` |
| PptUtilsProperties.AbsorbTakesLast | utils/ppt_utils.py:60-63 | a placeholder matched several times ends with the name of the last match and, when either has an `spPr`, that match's position (own or inherited) in its own `spPr`; it keeps the position it inherits, and an unmatched one is unchanged |
| PptUtilsProperties.SetXfrmPlaces | utils/ppt_utils.py:126-129 | setting the position changes only the `xfrm` of the first `spPr`, which then holds it; without an `spPr` nothing changes |
| PptUtilsProperties.PlaceholderTakesPosition | utils/ppt_utils.py:93-129 | after `_copy_placeholder_content` the destination shows the source's position, own or inherited, whenever either shape has an `spPr`; its `spPr` is the source's with that position; a source without a position leaves the copied children as they are |
| PptUtilsProperties.RaisesIffGraphicFrameMatched | utils/ppt_utils.py:45-60 | the shape loop raises exactly when some source graphic frame matches a placeholder of the new slide, and it raises at such a shape |
| PptUtilsProperties.CopyPosition | utils/ppt_utils.py:140-237 | a clone stands where its source stands; any other copy stands at the source's own `xfrm` (a picture whose new element has no `spPr` has no position); so a placeholder that shows only its inherited position yields a copy with no position |
| Pipeline.ReadLines | parser/markdown_parser.py:28-29 | `readlines` gives each piece between line breaks followed by its line break, and the last piece as it is unless it is empty |
| Pipeline.ReadLinesParse | parser/markdown_parser.py:45-54 | the reader parses the `readlines` lines as it parses the pieces between line breaks, since it strips every line and skips a blank one |
| Pipeline.ParseSameTrim | parser/markdown_parser.py:45-46 | lines that strip to the same text are parsed alike |
| Pipeline.ParseDropsBlank | parser/markdown_parser.py:48-49 | a blank last line does not change the parse |
| Pipeline.LineHeadIsSlide | parser/markdown_parser.py:62-79 | a raw line opens a slide exactly when `^##\s+(.+)$` matches it once stripped, titled with the stripped group |
| Pipeline.HeadsAreSlideTitles | parser/markdown_parser.py:45-79 | the titles of the slides opened by the lines are the heads of the lines, in order |
| Pipeline.JoinHeadsSplit | parser/json_to_md.py:93 | the lines of the joined text open the slides of each appended line in turn |
| Pipeline.H3Plain | parser/markdown_parser.py:16 | a line starting with `###` never matches `^##\s+` |
| Pipeline.CoverLinePlain | parser/json_to_md.py:44 | the `# ` cover line opens no slide |
| Pipeline.SeparatorPlain | parser/json_to_md.py:68 | the `---` separator opens no slide |
| Pipeline.HashHeadingPlain | parser/json_to_md.py:72-78 | a `###` or deeper heading line opens no slide |
| Pipeline.PageLineMatch | parser/json_to_md.py:69 | the `## title` line matches the slide pattern with the title as its group |
| Pipeline.PageLineHeads | parser/json_to_md.py:69 | the `## title` line opens exactly one slide, titled with the title |
| Pipeline.BlockPlain | parser/json_to_md.py:80-87 | no paragraph or item line of a block opens a slide |
| Pipeline.HeadingHeads | parser/json_to_md.py:59-78 | a heading opens a slide exactly for a level-1 section after the first, titled with its title |
| Pipeline.SectionHeads | parser/json_to_md.py:46-87 | a section's lines open one slide, with its title, exactly when it is a level-1 section after the first |
| Pipeline.SectionsHeads | parser/json_to_md.py:46-87 | the sections' lines open one slide per level-1 section after the first, in order |
| Pipeline.DefaultHeads | parser/json_to_md.py:33-93 | the whole default output opens one slide per level-1 section after the first, in order |
| Pipeline.DefaultMarkdownSlides | parser/json_to_md.py:33-93 | the default Markdown read back has exactly one slide per level-1 section after the first, in order, titled with its title, the `k`-th on page `k + 2` |
| Pipeline.ParsedPagesDistinct | parser/markdown_parser.py:62-79 | the slides the reader opens always carry distinct page numbers |

## Left out

- Reading and writing files: the Markdown lines, the Word paragraphs and the template's shapes are inputs; `save_json`, `prs.save`, `os.makedirs` and the console messages are not modelled.
- MarkdownParser.ParseFile: `readlines` keeps each line's newline; the model takes the lines without it, which `strip` removes anyway (`Pipeline.ReadLinesParse` shows the two readings parse alike).
- Pipeline.ReadLines: the translation of `\r` and `\r\n` line ends by text-mode `open` is not modelled; the writer only emits `\n`.
- Pipeline.DefaultMarkdownSlides: holds for sections whose titles and texts have no line break, whose level-1 titles are non-empty and already stripped, and whose paragraphs do not strip to a `##` line. The writer does not escape texts, so other documents can give extra or different slides.
- JsonToMd.Convert: the source's mode 1 calls `restructure_content`, which `LLMClient` does not define (ai/llm_client.py:7-75 has only `__init__`, `chat_completion` and `refine_text`), so every mode-1 call raises AttributeError after the flattening; the parameter `restructure` models the evidently intended call. The HTTP client is not part of this model.
- JsonToMd.Flatten: always emits the metadata line; the source skips it when `meta` is empty, which the Word reader never produces.
- Missing JSON keys: documents are typed values, so the `.get` defaults of the Markdown writer (level 0, title "" or "无标题章节") are not modelled.
- WordParser.HeadingLevel: `int()` also accepts surrounding white space and non-ASCII digits; only ASCII digits are modelled, and the last word of a style never has surrounding white space.
- Font colours and the exception handlers of `_copy_font_style` and `_set_ea_font` are not modelled; a font is its name, East Asian typeface, size and bold and italic flags.
- `_copy_font` is not modelled: nothing calls it.
- PptGenerator.Shape.SetText: a frame with no paragraph gets one new empty paragraph; python-pptx never gives a text frame without one.
- PptGenerator.Shape.SetTextWithFormatting: a frame with no paragraph gets a level-0 paragraph; in the source, `text_frame.clear()` (ppt/generator.py:164) raises IndexError on such a frame, which python-pptx never gives.
- Images: the picture blob is not modelled, and neither are the exception branches of the picture and connector copies.
- Random values: the `uuid4` token of a copy's name is a parameter `hex`, and the random ids a cloned complex shape receives are not modelled.
- PptUtils.DuplicateSlide: the new slide made by `add_slide` from the source's layout (or the first layout on failure) is the parameter `dest`, and the library's blank element of each shape kind is the parameter `blank`.
- PptUtils.DuplicateSlide: requires every source shape other than a complex one to have `spPr`; python-pptx's `p:sp`, `p:pic` and `p:cxnSp` elements require that child, and reading it where it is missing raises, which is not modelled.
- PptUtils.CopyPlaceholderContent: a matched source of kind `Complex` is taken to be a graphic frame, since group shapes are never placeholders; the AttributeError it raises is the `ok` result, and the caller stops there.
- PptUtils.CopyPlaceholderContent: a source with no position at all (no `xfrm` of its own and none inherited) makes the source's `dst.left = src.left` write `None`; that path is not modelled, and the destination keeps the position its copied `spPr` holds.
- PptUtils.SlideShape.SetPosition: a shape without `spPr` is left unchanged; python-pptx always gives a shape an `spPr`, where it adds the `xfrm` when missing.
- PptUtils.DuplicateShape: the position the new element is created at (`shape.left` and the rest, or a connector's end points) is not modelled apart from the new element's children `blank`, because the copied `spPr` replaces the new element's own `spPr` and the position in it, except for a picture whose new element has none. A source that is neither a placeholder nor positioned passes `None` coordinates to `add_shape`; that path is not modelled.
- PptUtils.DuplicateShape: a group or graphic frame keeps its position in `grpSpPr` or `p:xfrm`, not in `spPr`; the model reads it through the same `spPr` child, which the whole-element clone copies unchanged either way.
- PptUtils.DuplicateSlide: the source shapes are read as values when the copy starts. The contract requires that no shape of the source slide is also a shape of the new slide, since python-pptx slides never share shape elements; from this the contract proves that the source slide is unchanged.
