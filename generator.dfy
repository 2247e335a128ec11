/**
 * The template filler. A template's shapes are objects with a name and a text
 * frame; the generator indexes them by name, writes the cover texts into the
 * `cover_*` shapes and every slide's texts into its `page{p}_*` shapes.
 *
 * A text frame is a sequence of paragraphs, a paragraph a level and a
 * sequence of runs, a run a text and a font. What a fill does is specified
 * as a sequence of writes applied to the frames by name (`ApplyWrites`); the
 * methods change the shapes in place and are proved to do exactly that.
 */
module PptGenerator {
  import opened Strings
  import opened Outcomes
  import opened DataStructs
  import WordParser

  // ---------------------------------------------------------------------
  // Text frames
  // ---------------------------------------------------------------------

  /** The font attributes a run can carry; None is "inherited". */
  datatype Font = Font(name: Option<string>, eastAsian: Option<string>, size: Option<int>, bold: Option<bool>, italic: Option<bool>)

  const InheritedFont := Font(None, None, None, None, None)

  datatype Run = Run(text: string, font: Font)

  datatype Para = Para(level: int, runs: seq<Run>)

  type Frame = seq<Para>

  /** What a paragraph shows: its runs' texts, one after the other. */
  function ParaText(runs: seq<Run>): string {
    if runs == [] then "" else ParaText(runs[..|runs| - 1]) + runs[|runs| - 1].text
  }

  /** The runs with their text emptied and their fonts kept. */
  function Blanked(runs: seq<Run>): (r: seq<Run>)
    ensures |r| == |runs|
  {
    seq(|runs|, i requires 0 <= i < |runs| => runs[i].(text := ""))
  }

  /**
   * `_set_text`: a frame without paragraphs gets one; in the first paragraph
   * the first run takes the text and later runs are emptied, or, without
   * runs, one new run with inherited font holds the text.
   */
  function SetTextFrame(frame: Frame, text: string): Frame {
    var f := if frame == [] then [Para(0, [])] else frame;
    var p := f[0];
    var runs := if p.runs != [] then [p.runs[0].(text := text)] + Blanked(p.runs[1..]) else [Run(text, InheritedFont)];
    [p.(runs := runs)] + f[1..]
  }

  /**
   * `_copy_font_style` into a fresh run: a non-empty name (also set as the
   * East Asian typeface), a non-zero size, and any set bold or italic flag
   * are copied.
   */
  function CopyFont(src: Font, dest: Font): Font {
    var named := src.name.Some? && src.name.value != "";
    Font(
      if named then src.name else dest.name,
      if named then src.name else dest.eastAsian,
      if src.size.Some? && src.size.value != 0 then src.size else dest.size,
      if src.bold.Some? then src.bold else dest.bold,
      if src.italic.Some? then src.italic else dest.italic)
  }

  /** The first run of the first paragraph, whose font the new runs copy, if there is one. */
  function TemplateFont(frame: Frame): Option<Font> {
    if frame != [] && frame[0].runs != [] then Some(frame[0].runs[0].font) else None
  }

  function StyledFont(template: Option<Font>): Font {
    match template
    case Some(f) => CopyFont(f, InheritedFont)
    case None => InheritedFont
  }

  /** The paragraph of one bullet: level 1, one run in the template's font. */
  function BulletParas(bullets: seq<string>, template: Option<Font>, n: nat): seq<Para>
    requires n <= |bullets|
  {
    if n == 0 then [] else BulletParas(bullets, template, n - 1) + [Para(1, [Run(bullets[n - 1], StyledFont(template))])]
  }

  /**
   * `_set_text_with_formatting`: `clear()` keeps one empty first paragraph
   * (with its level); a non-empty title goes there as one bold run, and each
   * bullet follows as a paragraph of level 1.
   */
  function FormatFrame(frame: Frame, title: string, bullets: seq<string>): Frame {
    var template := TemplateFont(frame);
    var level0 := if frame == [] then 0 else frame[0].level;
    var titleRuns := if title != "" then [Run(title, StyledFont(template).(bold := Some(true)))] else [];
    [Para(level0, titleRuns)] + BulletParas(bullets, template, |bullets|)
  }

  /** A shape of the template: a name, whether it has a text frame, and the frame. */
  class Shape {
    const name: string
    const hasTextFrame: bool
    var frame: Frame

    constructor (name: string, hasTextFrame: bool, frame: Frame)
      ensures this.name == name && this.hasTextFrame == hasTextFrame && this.frame == frame
    {
      this.name := name;
      this.hasTextFrame := hasTextFrame;
      this.frame := frame;
    }

    /** `_set_text` on this shape. */
    method SetText(text: string)
      modifies this
      ensures frame == SetTextFrame(old(frame), text)
    {
      if frame == [] {
        frame := [Para(0, [])];
      }
      var p := frame[0];
      if p.runs != [] {
        var runs := p.runs[0 := p.runs[0].(text := text)];
        for i := 1 to |runs|
          invariant |runs| == |p.runs| && runs[0] == p.runs[0].(text := text)
          invariant forall j :: 1 <= j < i ==> runs[j] == p.runs[j].(text := "")
          invariant forall j :: i <= j < |runs| ==> runs[j] == p.runs[j]
        {
          runs := runs[i := runs[i].(text := "")];
        }
        assert runs == [p.runs[0].(text := text)] + Blanked(p.runs[1..]);
        frame := frame[0 := p.(runs := runs)];
      } else {
        frame := frame[0 := p.(runs := [Run(text, InheritedFont)])];
      }
    }

    /** `_set_text_with_formatting` on this shape. */
    method SetTextWithFormatting(title: string, bullets: seq<string>)
      modifies this
      ensures frame == FormatFrame(old(frame), title, bullets)
    {
      var template: Option<Font> := None;
      if frame != [] && frame[0].runs != [] {
        template := Some(frame[0].runs[0].font);
      }
      var level0 := if frame == [] then 0 else frame[0].level;
      frame := [Para(level0, [])];
      if title != "" {
        var font := StyledFont(template).(bold := Some(true));
        frame := [Para(level0, [Run(title, font)])];
      }
      ghost var head := frame;
      for k := 0 to |bullets|
        invariant frame == head + BulletParas(bullets, template, k)
      {
        frame := frame + [Para(1, [Run(bullets[k], StyledFont(template))])];
      }
    }
  }

  // ---------------------------------------------------------------------
  // The shape index
  // ---------------------------------------------------------------------

  /** The index after the first `n` shapes (in slide order): every shape with a text frame under its name, a later one replacing an earlier one. */
  function ShapeIndex(shapes: seq<Shape>, n: nat): map<string, Shape>
    requires n <= |shapes|
  {
    if n == 0 then map[]
    else
      var m := ShapeIndex(shapes, n - 1);
      var s := shapes[n - 1];
      if s.hasTextFrame then m[s.name := s] else m
  }

  /** Every shape of the template, slide after slide. */
  function AllShapes(slides: seq<seq<Shape>>): seq<Shape> {
    if slides == [] then [] else AllShapes(slides[..|slides| - 1]) + slides[|slides| - 1]
  }

  lemma {:induction false} AllShapesOfSlides(slides: seq<seq<Shape>>)
    ensures forall s :: s in AllShapes(slides) ==> exists i :: 0 <= i < |slides| && s in slides[i]
  {
    if slides != [] {
      AllShapesOfSlides(slides[..|slides| - 1]);
    }
  }

  /** An index keyed by the shapes' own names: different keys hold different shapes. */
  predicate Named(m: map<string, Shape>) {
    forall k :: k in m ==> m[k].name == k
  }

  /** `_build_shape_map`. */
  method BuildShapeMap(slides: seq<seq<Shape>>) returns (mapping: map<string, Shape>)
    ensures mapping == ShapeIndex(AllShapes(slides), |AllShapes(slides)|)
  {
    mapping := map[];
    ghost var seen: seq<Shape> := [];
    for i := 0 to |slides|
      invariant seen == AllShapes(slides[..i])
      invariant mapping == ShapeIndex(seen, |seen|)
    {
      var slide := slides[i];
      for j := 0 to |slide|
        invariant seen == AllShapes(slides[..i]) + slide[..j]
        invariant mapping == ShapeIndex(seen, |seen|)
      {
        var shape := slide[j];
        if shape.hasTextFrame {
          mapping := mapping[shape.name := shape];
        }
        IndexExtends(seen, shape);
        seen := seen + [shape];
        assert seen == AllShapes(slides[..i]) + slide[..j + 1];
      }
      assert slides[..i + 1][..i] == slides[..i];
      assert slide[..|slide|] == slide;
    }
    assert slides[..|slides|] == slides;
  }

  lemma IndexExtends(shapes: seq<Shape>, s: Shape)
    ensures ShapeIndex(shapes + [s], |shapes| + 1)
         == if s.hasTextFrame then ShapeIndex(shapes, |shapes|)[s.name := s] else ShapeIndex(shapes, |shapes|)
  {
    SameIndexPrefix(shapes, shapes + [s], |shapes|);
  }

  lemma {:induction false} SameIndexPrefix(a: seq<Shape>, b: seq<Shape>, n: nat)
    requires n <= |a| && n <= |b| && a[..n] == b[..n]
    ensures ShapeIndex(a, n) == ShapeIndex(b, n)
  {
    if n > 0 {
      assert a[n - 1] == a[..n][n - 1];
      assert b[n - 1] == b[..n][n - 1];
      assert a[..n - 1] == a[..n][..n - 1];
      assert b[..n - 1] == b[..n][..n - 1];
      SameIndexPrefix(a, b, n - 1);
    }
  }

  /** Shape `i` has a text frame and no later one among the first `n` with a text frame has its name. */
  predicate IsLastWithName(shapes: seq<Shape>, n: nat, i: nat)
    requires i < n <= |shapes|
  {
    shapes[i].hasTextFrame && forall j :: i < j < n && shapes[j].hasTextFrame ==> shapes[j].name != shapes[i].name
  }

  /** The index is keyed by names, and a name is indexed exactly when some shape with a text frame has it. */
  lemma {:induction false} ShapeIndexKeys(shapes: seq<Shape>, n: nat)
    requires n <= |shapes|
    ensures Named(ShapeIndex(shapes, n))
    ensures forall k :: k in ShapeIndex(shapes, n) <==>
      exists i :: 0 <= i < n && shapes[i].hasTextFrame && shapes[i].name == k
  {
    if n > 0 {
      ShapeIndexKeys(shapes, n - 1);
    }
  }

  /** Under a name the index holds the last shape with a text frame of that name: later shapes win. */
  lemma {:induction false} ShapeIndexLastWins(shapes: seq<Shape>, n: nat)
    requires n <= |shapes|
    ensures forall i :: 0 <= i < n && IsLastWithName(shapes, n, i) ==>
      shapes[i].name in ShapeIndex(shapes, n) && ShapeIndex(shapes, n)[shapes[i].name] == shapes[i]
  {
    if n > 0 {
      ShapeIndexLastWins(shapes, n - 1);
      forall i | 0 <= i < n - 1 && IsLastWithName(shapes, n, i)
        ensures IsLastWithName(shapes, n - 1, i)
      {}
    }
  }

  // ---------------------------------------------------------------------
  // Writes: what a fill does, by shape name
  // ---------------------------------------------------------------------

  /** One text operation on the shape of a name: `_set_text` or `_set_text_with_formatting`. */
  datatype Write =
    | TextWrite(key: string, text: string)
    | FormatWrite(key: string, title: string, bullets: seq<string>)

  function Effect(frame: Frame, w: Write): Frame {
    match w
    case TextWrite(_, text) => SetTextFrame(frame, text)
    case FormatWrite(_, title, bullets) => FormatFrame(frame, title, bullets)
  }

  /** A write changes the frame under its name when a shape has that name, and nothing otherwise. */
  function ApplyWrite(frames: map<string, Frame>, w: Write): (r: map<string, Frame>)
    ensures r.Keys == frames.Keys
  {
    if w.key in frames then frames[w.key := Effect(frames[w.key], w)] else frames
  }

  /** The writes in order; they never add or remove a shape. */
  function ApplyWrites(frames: map<string, Frame>, ws: seq<Write>): (r: map<string, Frame>)
    ensures r.Keys == frames.Keys
  {
    if ws == [] then frames else ApplyWrite(ApplyWrites(frames, ws[..|ws| - 1]), ws[|ws| - 1])
  }

  /** The frames of the indexed shapes, by name. */
  function Frames(m: map<string, Shape>): map<string, Frame>
    reads m.Values
  {
    map k | k in m :: m[k].frame
  }

  // ---------------------------------------------------------------------
  // The cover
  // ---------------------------------------------------------------------

  /** `meta_info.get(key, "")`. */
  function MetaGet(meta: map<string, string>, key: string): string {
    if key in meta then meta[key] else ""
  }

  /** `cover_mapping`, in its order: shape name and text. */
  function CoverPairs(data: PresentationData): seq<(string, string)> {
    [ ("cover_title", data.coverTitle),
      ("cover_project", MetaGet(data.metaInfo, "项目名称")),
      ("cover_presenter", MetaGet(data.metaInfo, "汇报人")),
      ("cover_dept", MetaGet(data.metaInfo, "部门 / 团队")),
      ("cover_date", MetaGet(data.metaInfo, "日期")),
      ("cover_company", MetaGet(data.metaInfo, "公司名称")) ]
  }

  /** The writes of `_fill_cover` for the first `n` pairs: an empty text writes nothing. */
  function CoverWrites(pairs: seq<(string, string)>, n: nat): seq<Write>
    requires n <= |pairs|
  {
    if n == 0 then []
    else if pairs[n - 1].1 != "" then CoverWrites(pairs, n - 1) + [TextWrite(pairs[n - 1].0, pairs[n - 1].1)]
    else CoverWrites(pairs, n - 1)
  }

  /** `_set_text` on the shape of a name, seen on the frames by name. */
  method SetTextOn(m: map<string, Shape>, name: string, text: string)
    requires Named(m) && name in m
    modifies m[name]
    ensures Frames(m) == ApplyWrite(old(Frames(m)), TextWrite(name, text))
  {
    m[name].SetText(text);
    forall k | k in m && k != name
      ensures m[k].frame == old(m[k].frame)
    {
      assert m[k].name != m[name].name;
    }
  }

  /** `_set_text_with_formatting` on the shape of a name, seen on the frames by name. */
  method FormatOn(m: map<string, Shape>, name: string, title: string, bullets: seq<string>)
    requires Named(m) && name in m
    modifies m[name]
    ensures Frames(m) == ApplyWrite(old(Frames(m)), FormatWrite(name, title, bullets))
  {
    m[name].SetTextWithFormatting(title, bullets);
    forall k | k in m && k != name
      ensures m[k].frame == old(m[k].frame)
    {
      assert m[k].name != m[name].name;
    }
  }

  /** `_fill_cover`: every cover shape that exists gets its non-empty text. */
  method FillCover(m: map<string, Shape>, data: PresentationData)
    requires Named(m)
    modifies m.Values
    ensures Frames(m) == ApplyWrites(old(Frames(m)), CoverWrites(CoverPairs(data), 6))
  {
    var pairs := CoverPairs(data);
    for i := 0 to |pairs|
      invariant Frames(m) == ApplyWrites(old(Frames(m)), CoverWrites(pairs, i))
    {
      var (name, text) := pairs[i];
      ghost var before := Frames(m);
      if name in m && text != "" {
        SetTextOn(m, name, text);
      }
      assert Frames(m) == if text != "" then ApplyWrite(before, TextWrite(name, text)) else before;
    }
  }

  // ---------------------------------------------------------------------
  // The content slides
  // ---------------------------------------------------------------------

  /** The shape name `page{p}_{suffix}`, the page number printed as `str` prints an int. */
  function SlideKey(p: int, suffix: string): string {
    "page" + WordParser.IntToString(p) + "_" + suffix
  }

  /** The suffix of the `j`-th block's shape, counted from 1. */
  function BulletSuffix(j: int): string {
    "bullet" + WordParser.IntToString(j)
  }

  /** The writes of the first `n` blocks of a slide: the `j`-th block formats `page{p}_bullet{j}`. */
  function BlockWrites(p: int, blocks: seq<ContentBlock>, n: nat): seq<Write>
    requires n <= |blocks|
  {
    if n == 0 then []
    else BlockWrites(p, blocks, n - 1) + [FormatWrite(SlideKey(p, BulletSuffix(n)), blocks[n - 1].subtitle, blocks[n - 1].bullets)]
  }

  /** The writes of one slide: its title always, its description when not empty, then its blocks. */
  function SlideWrites(s: SlideData): seq<Write> {
    var p := s.pageIndex;
    [TextWrite(SlideKey(p, "title"), s.title)]
      + (if s.description != "" then [TextWrite(SlideKey(p, "desc"), s.description)] else [])
      + BlockWrites(p, s.blocks, |s.blocks|)
  }

  /** The writes of the first `n` slides, in order. */
  function SlidesWrites(slides: seq<SlideData>, n: nat): seq<Write>
    requires n <= |slides|
  {
    Joined(SlideWrites, slides, n)
  }

  /** The writes `f` gives the first `n` slides, one slide after the other. */
  function Joined(f: SlideData -> seq<Write>, slides: seq<SlideData>, n: nat): seq<Write>
    requires n <= |slides|
  {
    if n == 0 then [] else Joined(f, slides, n - 1) + f(slides[n - 1])
  }

  lemma {:induction false} ApplyWritesAppend(frames: map<string, Frame>, a: seq<Write>, b: seq<Write>)
    ensures ApplyWrites(frames, a + b) == ApplyWrites(ApplyWrites(frames, a), b)
    decreases |b|
  {
    if b == [] {
      assert a + b == a;
    } else {
      assert (a + b)[..|a + b| - 1] == a + b[..|b| - 1];
      ApplyWritesAppend(frames, a, b[..|b| - 1]);
    }
  }

  /** `_fill_slides`: every slide's title, description and blocks go into the shapes of its page number that exist. */
  method FillSlides(m: map<string, Shape>, data: PresentationData)
    requires Named(m)
    modifies m.Values
    ensures Frames(m) == ApplyWrites(old(Frames(m)), SlidesWrites(data.slides, |data.slides|))
  {
    var slides := data.slides;
    for i := 0 to |slides|
      invariant Frames(m) == ApplyWrites(old(Frames(m)), SlidesWrites(slides, i))
    {
      FillSlide(m, slides[i]);
      ApplyWritesAppend(old(Frames(m)), SlidesWrites(slides, i), SlideWrites(slides[i]));
    }
  }

  /** The writes of a slide before its blocks. */
  function HeaderWrites(s: SlideData): seq<Write> {
    [TextWrite(SlideKey(s.pageIndex, "title"), s.title)]
      + (if s.description != "" then [TextWrite(SlideKey(s.pageIndex, "desc"), s.description)] else [])
  }

  /** One iteration of `_fill_slides`. */
  method FillSlide(m: map<string, Shape>, slide: SlideData)
    requires Named(m)
    modifies m.Values
    ensures Frames(m) == ApplyWrites(old(Frames(m)), SlideWrites(slide))
  {
    FillHeader(m, slide);
    ghost var mid := Frames(m);
    FillBlocks(m, slide.pageIndex, slide.blocks);
    ApplyWritesAppend(old(Frames(m)), HeaderWrites(slide), BlockWrites(slide.pageIndex, slide.blocks, |slide.blocks|));
    assert SlideWrites(slide) == HeaderWrites(slide) + BlockWrites(slide.pageIndex, slide.blocks, |slide.blocks|);
  }

  /** The title (always) and the description (when not empty) of a slide. */
  method FillHeader(m: map<string, Shape>, slide: SlideData)
    requires Named(m)
    modifies m.Values
    ensures Frames(m) == ApplyWrites(old(Frames(m)), HeaderWrites(slide))
  {
    var p := slide.pageIndex;
    var titleKey := SlideKey(p, "title");
    var title := [TextWrite(titleKey, slide.title)];
    if titleKey in m {
      SetTextOn(m, titleKey, slide.title);
    }
    assert title[..0] == [];
    assert Frames(m) == ApplyWrites(old(Frames(m)), title);
    var descKey := SlideKey(p, "desc");
    if slide.description != "" {
      if descKey in m {
        SetTextOn(m, descKey, slide.description);
      }
      var both := title + [TextWrite(descKey, slide.description)];
      assert both[..1] == title;
      assert Frames(m) == ApplyWrites(old(Frames(m)), both);
    } else {
      assert title + [] == title;
    }
  }

  /** The blocks of a slide: the `j`-th formats `page{p}_bullet{j}` when that shape exists. */
  method FillBlocks(m: map<string, Shape>, p: int, blocks: seq<ContentBlock>)
    requires Named(m)
    modifies m.Values
    ensures Frames(m) == ApplyWrites(old(Frames(m)), BlockWrites(p, blocks, |blocks|))
  {
    for j := 0 to |blocks|
      invariant Frames(m) == ApplyWrites(old(Frames(m)), BlockWrites(p, blocks, j))
    {
      var bulletKey := SlideKey(p, BulletSuffix(j + 1));
      if bulletKey in m {
        FormatOn(m, bulletKey, blocks[j].subtitle, blocks[j].bullets);
      }
    }
  }

  // ---------------------------------------------------------------------
  // The generator
  // ---------------------------------------------------------------------

  /** A generator: the template to read and the file to write. */
  datatype Generator = Generator(templatePath: string, outputPath: string)

  /** The constructor: a template path that does not exist is FileNotFoundError, checked before anything else. */
  function NewGenerator(existing: set<string>, templatePath: string, outputPath: string): (r: Result<Generator>)
    ensures r.Failure? <==> templatePath !in existing
    ensures r.Failure? ==> r.error == FileNotFound(templatePath)
    ensures r.Success? ==> r.value.templatePath == templatePath && r.value.outputPath == outputPath
  {
    if templatePath !in existing then Failure(FileNotFound(templatePath))
    else Success(Generator(templatePath, outputPath))
  }

  /** Every shape the index holds is a shape of the template. */
  lemma {:induction false} IndexedShapesAreShapes(shapes: seq<Shape>, n: nat)
    requires n <= |shapes|
    ensures forall k :: k in ShapeIndex(shapes, n) ==> ShapeIndex(shapes, n)[k] in shapes
  {
    if n > 0 {
      IndexedShapesAreShapes(shapes, n - 1);
    }
  }

  /** All writes of a deck: the cover's, then every slide's. */
  function DeckWrites(data: PresentationData): seq<Write> {
    CoverWrites(CoverPairs(data), 6) + SlidesWrites(data.slides, |data.slides|)
  }

  /**
   * `generate` on the shapes of the loaded template (slide by slide): the
   * index is built, then the cover and the slides are filled. Saving the
   * file is not part of this model.
   */
  method Generate(gen: Generator, slides: seq<seq<Shape>>, data: PresentationData) returns (m: map<string, Shape>)
    modifies set s | s in AllShapes(slides)
    ensures m == ShapeIndex(AllShapes(slides), |AllShapes(slides)|)
    ensures Frames(m) == ApplyWrites(old(Frames(m)), DeckWrites(data))
    ensures forall s :: s in AllShapes(slides) && s !in m.Values ==> s.frame == old(s.frame)
  {
    AllShapesOfSlides(slides);
    m := BuildShapeMap(slides);
    ShapeIndexKeys(AllShapes(slides), |AllShapes(slides)|);
    IndexedShapesAreShapes(AllShapes(slides), |AllShapes(slides)|);
    assert m.Values <= set s | s in AllShapes(slides);
    ghost var start := Frames(m);
    assert start == old(Frames(m));
    label filling:
    Fill(m, data);
    forall s | s in AllShapes(slides) && s !in m.Values
      ensures s.frame == old(s.frame)
    {
      assert s.frame == old@filling(s.frame);
    }
  }

  /** The two fills of `generate`, on the index: the cover, then the slides. */
  method Fill(m: map<string, Shape>, data: PresentationData)
    requires Named(m)
    modifies m.Values
    ensures Frames(m) == ApplyWrites(old(Frames(m)), DeckWrites(data))
  {
    ghost var start := Frames(m);
    FillCover(m, data);
    FillSlides(m, data);
    ApplyWritesAppend(start, CoverWrites(CoverPairs(data), 6), SlidesWrites(data.slides, |data.slides|));
  }
}
