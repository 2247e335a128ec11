/**
 * What filling a template promises: `_set_text` makes the first paragraph
 * show the text and keeps the run formatting, `_set_text_with_formatting`
 * shows the title and one level-1 paragraph per bullet, the shape names a
 * deck writes are all different (so no write overrides another), every
 * shape gets exactly the text of its name, and shapes no write names keep
 * their frame.
 */
module GeneratorProperties {
  import opened Strings
  import opened DataStructs
  import opened PptGenerator
  import WordParser

  // ---------------------------------------------------------------------
  // Text frames
  // ---------------------------------------------------------------------

  lemma {:induction false} ParaTextAppend(a: seq<Run>, b: seq<Run>)
    ensures ParaText(a + b) == ParaText(a) + ParaText(b)
    decreases |b|
  {
    if b == [] {
      assert a + b == a;
    } else {
      assert (a + b)[..|a + b| - 1] == a + b[..|b| - 1];
      ParaTextAppend(a, b[..|b| - 1]);
    }
  }

  lemma {:induction false} BlankedShowsNothing(runs: seq<Run>)
    ensures ParaText(Blanked(runs)) == ""
    decreases |runs|
  {
    if runs != [] {
      assert Blanked(runs)[..|runs| - 1] == Blanked(runs[..|runs| - 1]);
      BlankedShowsNothing(runs[..|runs| - 1]);
    }
  }

  lemma OneRunText(r: Run)
    ensures ParaText([r]) == r.text
  {
    assert [r][..0] == [];
  }

  /** The first paragraph keeps its run count and every run's font. */
  predicate FontsKept(before: seq<Run>, after: seq<Run>) {
    |after| == |before| && forall i :: 0 <= i < |after| ==> after[i].font == before[i].font
  }

  predicate SetTextResult(frame: Frame, text: string, r: Frame) {
    && r != []
    && ParaText(r[0].runs) == text
    && |r| == (if frame == [] then 1 else |frame|)
    && (frame != [] ==> r[0].level == frame[0].level && r[1..] == frame[1..])
    && (frame != [] && frame[0].runs != [] ==> FontsKept(frame[0].runs, r[0].runs))
    && (frame == [] || frame[0].runs == [] ==> r[0].runs == [Run(text, InheritedFont)])
  }

  /**
   * After `_set_text` the first paragraph shows exactly the text; it keeps
   * its level and, when it had runs, their number and fonts; a paragraph
   * without runs gets one run of inherited font; later paragraphs are kept.
   */
  lemma SetTextShows(frame: Frame, text: string)
    ensures SetTextResult(frame, text, SetTextFrame(frame, text))
  {
    var r := SetTextFrame(frame, text);
    var f := if frame == [] then [Para(0, [])] else frame;
    var runs := f[0].runs;
    if runs != [] {
      var first := runs[0].(text := text);
      ParaTextAppend([first], Blanked(runs[1..]));
      BlankedShowsNothing(runs[1..]);
      OneRunText(first);
      assert r[0].runs == [first] + Blanked(runs[1..]);
    } else {
      OneRunText(Run(text, InheritedFont));
    }
  }

  lemma {:induction false} BulletParasShape(bullets: seq<string>, template: Option<Font>, n: nat)
    requires n <= |bullets|
    ensures |BulletParas(bullets, template, n)| == n
    ensures forall k :: 0 <= k < n ==> BulletParas(bullets, template, n)[k] == Para(1, [Run(bullets[k], StyledFont(template))])
  {
    if n > 0 {
      BulletParasShape(bullets, template, n - 1);
    }
  }

  predicate FormatResult(frame: Frame, title: string, bullets: seq<string>, r: Frame) {
    && |r| == 1 + |bullets|
    && ParaText(r[0].runs) == title
    && (title != "" ==> r[0].runs == [Run(title, StyledFont(TemplateFont(frame)).(bold := Some(true)))])
    && (forall k :: 0 <= k < |bullets| ==> r[k + 1] == Para(1, [Run(bullets[k], StyledFont(TemplateFont(frame)))]))
    && (forall k :: 0 <= k < |bullets| ==> ParaText(r[k + 1].runs) == bullets[k])
  }

  /**
   * After `_set_text_with_formatting` the frame holds the title paragraph
   * (empty when the title is, else one bold run in the template's font) and
   * then exactly one level-1 paragraph per bullet, in order, in the
   * template's font; nothing of the old text remains.
   */
  lemma FormatShows(frame: Frame, title: string, bullets: seq<string>)
    ensures FormatResult(frame, title, bullets, FormatFrame(frame, title, bullets))
  {
    var template := TemplateFont(frame);
    var r := FormatFrame(frame, title, bullets);
    BulletParasShape(bullets, template, |bullets|);
    if title != "" {
      OneRunText(Run(title, StyledFont(template).(bold := Some(true))));
    }
    forall k | 0 <= k < |bullets|
      ensures ParaText(r[k + 1].runs) == bullets[k]
    {
      OneRunText(Run(bullets[k], StyledFont(template)));
    }
  }

  /** The bold flag of a formatted title is always set; a bullet's bold flag is the template run's. */
  lemma BoldTitleOnly(src: Font)
    ensures StyledFont(Some(src)).(bold := Some(true)).bold == Some(true)
    ensures StyledFont(Some(src)).bold == src.bold
    ensures src.name.Some? && src.name.value != "" ==> StyledFont(Some(src)).eastAsian == src.name
  {}

  // ---------------------------------------------------------------------
  // Applying writes
  // ---------------------------------------------------------------------

  predicate DistinctKeys(ws: seq<Write>) {
    forall i, j :: 0 <= i < j < |ws| ==> ws[i].key != ws[j].key
  }

  predicate Untouched(ws: seq<Write>, k: string) {
    forall i :: 0 <= i < |ws| ==> ws[i].key != k
  }

  /** A shape no write names keeps its frame. */
  lemma {:induction false} UntouchedKept(frames: map<string, Frame>, ws: seq<Write>, k: string)
    requires k in frames && Untouched(ws, k)
    ensures k in ApplyWrites(frames, ws) && ApplyWrites(frames, ws)[k] == frames[k]
    decreases |ws|
  {
    if ws != [] {
      UntouchedKept(frames, ws[..|ws| - 1], k);
    }
  }

  /** With all names different, the shape of a write's name ends up with that write's effect on its original frame. */
  lemma {:induction false} WriteLands(frames: map<string, Frame>, ws: seq<Write>, i: nat)
    requires DistinctKeys(ws) && i < |ws| && ws[i].key in frames
    ensures ApplyWrites(frames, ws)[ws[i].key] == Effect(frames[ws[i].key], ws[i])
    decreases |ws|
  {
    var pre := ws[..|ws| - 1];
    if i == |ws| - 1 {
      assert Untouched(pre, ws[i].key);
      UntouchedKept(frames, pre, ws[i].key);
    } else {
      WriteLands(frames, pre, i);
    }
  }

  lemma WriteLandsIn(frames: map<string, Frame>, ws: seq<Write>, w: Write)
    requires DistinctKeys(ws) && w in ws && w.key in frames
    ensures ApplyWrites(frames, ws)[w.key] == Effect(frames[w.key], w)
  {
    var i :| 0 <= i < |ws| && ws[i] == w;
    WriteLands(frames, ws, i);
  }

  lemma DistinctAppend(a: seq<Write>, b: seq<Write>)
    requires DistinctKeys(a) && DistinctKeys(b)
    requires forall i, j :: 0 <= i < |a| && 0 <= j < |b| ==> a[i].key != b[j].key
    ensures DistinctKeys(a + b)
  {
    var ab := a + b;
    forall i, j | 0 <= i < j < |ab|
      ensures ab[i].key != ab[j].key
    {
      if j < |a| {
      } else if i < |a| {
        assert ab[j] == b[j - |a|];
      } else {
        assert ab[i] == b[i - |a|] && ab[j] == b[j - |a|];
      }
    }
  }

  // ---------------------------------------------------------------------
  // Shape names
  // ---------------------------------------------------------------------

  lemma IntToStringNoUnderscore(n: int)
    ensures '_' !in WordParser.IntToString(n)
  {
    var s := WordParser.IntToString(n);
    WordParser.NatToStringValue(if n < 0 then -n else n);
    if n < 0 {
      assert s[1..] == WordParser.NatToString(-n);
      assert forall i :: 1 <= i < |s| ==> s[i] == s[1..][i - 1];
    }
  }

  /** Two strings cut at a separator that neither front part holds have equal fronts and backs. */
  lemma FirstSplit(a: string, b: string, c: string, d: string, x: char)
    requires x !in a && x !in c && a + [x] + b == c + [x] + d
    ensures a == c && b == d
  {
    var s := a + [x] + b;
    FirstAt(a, b, x);
    FirstAt(c, d, x);
    assert |a| == |c|;
    assert a == s[..|a|] == c;
    assert b == s[|a| + 1..] == d;
  }

  /** The first `x` of `a + [x] + b` is at `|a|` when `a` holds none. */
  lemma FirstAt(a: string, b: string, x: char)
    requires x !in a
    ensures forall i :: 0 <= i < |a| ==> (a + [x] + b)[i] != x
    ensures (a + [x] + b)[|a|] == x
  {
    forall i | 0 <= i < |a|
      ensures (a + [x] + b)[i] != x
    {
      assert (a + [x] + b)[i] == a[i];
    }
  }

  /** `page{p}_{suffix}` determines both the page number and the suffix. */
  lemma SlideKeyInjective(p: int, q: int, a: string, b: string)
    requires SlideKey(p, a) == SlideKey(q, b)
    ensures p == q && a == b
  {
    var s := SlideKey(p, a);
    var ip, iq := WordParser.IntToString(p), WordParser.IntToString(q);
    assert s[4..] == ip + ['_'] + a;
    assert SlideKey(q, b)[4..] == iq + ['_'] + b;
    IntToStringNoUnderscore(p);
    IntToStringNoUnderscore(q);
    FirstSplit(ip, a, iq, b, '_');
    WordParser.IntRoundTrip(p);
    WordParser.IntRoundTrip(q);
  }

  lemma BulletSuffixInjective(i: int, j: int)
    requires BulletSuffix(i) == BulletSuffix(j)
    ensures i == j
  {
    assert BulletSuffix(i)[6..] == WordParser.IntToString(i);
    assert BulletSuffix(j)[6..] == WordParser.IntToString(j);
    WordParser.IntRoundTrip(i);
    WordParser.IntRoundTrip(j);
  }

  /** A cover shape's name is never a slide shape's name. */
  lemma CoverIsNoSlideKey(data: PresentationData, j: nat, p: int, suffix: string)
    requires j < 6
    ensures CoverPairs(data)[j].0 != SlideKey(p, suffix)
  {
    assert CoverPairs(data)[j].0[0] == 'c';
    assert SlideKey(p, suffix)[0] == 'p';
  }

  // ---------------------------------------------------------------------
  // The writes of the cover
  // ---------------------------------------------------------------------

  predicate DistinctNames(pairs: seq<(string, string)>) {
    forall i, j :: 0 <= i < j < |pairs| ==> pairs[i].0 != pairs[j].0
  }

  /** Each cover write is the pair of a shape name and a non-empty text, taken from among the first `n` pairs. */
  predicate FromPairs(pairs: seq<(string, string)>, n: nat, w: Write)
    requires n <= |pairs|
  {
    exists j :: 0 <= j < n && pairs[j].1 != "" && w == TextWrite(pairs[j].0, pairs[j].1)
  }

  lemma {:induction false} CoverWritesFromPairs(pairs: seq<(string, string)>, n: nat)
    requires n <= |pairs| && DistinctNames(pairs)
    ensures DistinctKeys(CoverWrites(pairs, n))
    ensures forall i :: 0 <= i < |CoverWrites(pairs, n)| ==> FromPairs(pairs, n, CoverWrites(pairs, n)[i])
  {
    if n > 0 {
      CoverWritesFromPairs(pairs, n - 1);
      var ws := CoverWrites(pairs, n - 1);
      forall i | 0 <= i < |ws|
        ensures FromPairs(pairs, n, ws[i]) && ws[i].key != pairs[n - 1].0
      {
        var j :| 0 <= j < n - 1 && pairs[j].1 != "" && ws[i] == TextWrite(pairs[j].0, pairs[j].1);
      }
      if pairs[n - 1].1 != "" {
        var w := TextWrite(pairs[n - 1].0, pairs[n - 1].1);
        assert FromPairs(pairs, n, w);
        DistinctAppend(ws, [w]);
      }
    }
  }

  /** A non-empty text among the first `n` pairs is written to its shape name. */
  lemma {:induction false} CoverWriteIn(pairs: seq<(string, string)>, n: nat, j: nat)
    requires j < n <= |pairs| && pairs[j].1 != ""
    ensures TextWrite(pairs[j].0, pairs[j].1) in CoverWrites(pairs, n)
  {
    if j < n - 1 {
      CoverWriteIn(pairs, n - 1, j);
    }
  }

  /** A cover name whose text is empty is written by no cover write. */
  lemma EmptyCoverUntouched(pairs: seq<(string, string)>, j: nat)
    requires j < |pairs| && DistinctNames(pairs) && pairs[j].1 == ""
    ensures Untouched(CoverWrites(pairs, |pairs|), pairs[j].0)
  {
    CoverWritesAvoid(pairs, |pairs|, pairs[j].0);
  }

  /** A name no written pair carries is written by no cover write. */
  lemma {:induction false} CoverWritesAvoid(pairs: seq<(string, string)>, n: nat, k: string)
    requires n <= |pairs|
    requires forall j :: 0 <= j < n && pairs[j].1 != "" ==> pairs[j].0 != k
    ensures Untouched(CoverWrites(pairs, n), k)
  {
    if n > 0 {
      CoverWritesAvoid(pairs, n - 1, k);
      if pairs[n - 1].1 != "" {
        UntouchedAppend(CoverWrites(pairs, n - 1), [TextWrite(pairs[n - 1].0, pairs[n - 1].1)], k);
      }
    }
  }

  lemma UntouchedAppend(a: seq<Write>, b: seq<Write>, k: string)
    requires Untouched(a, k) && Untouched(b, k)
    ensures Untouched(a + b, k)
  {
    forall i | 0 <= i < |a + b|
      ensures (a + b)[i].key != k
    {
      if i >= |a| {
        assert (a + b)[i] == b[i - |a|];
      }
    }
  }


  // ---------------------------------------------------------------------
  // The writes of the slides
  // ---------------------------------------------------------------------

  /** A name of the shapes of page `p`. */
  ghost predicate OnPage(k: string, p: int) {
    exists suffix :: k == SlideKey(p, suffix)
  }

  lemma OnOnePage(k: string, p: int, q: int)
    requires OnPage(k, p) && OnPage(k, q)
    ensures p == q
  {
    var a :| k == SlideKey(p, a);
    var b :| k == SlideKey(q, b);
    SlideKeyInjective(p, q, a, b);
  }

  lemma {:induction false} BlockWritesShape(p: int, blocks: seq<ContentBlock>, n: nat)
    requires n <= |blocks|
    ensures |BlockWrites(p, blocks, n)| == n
    ensures forall j :: 0 <= j < n ==>
      BlockWrites(p, blocks, n)[j] == FormatWrite(SlideKey(p, BulletSuffix(j + 1)), blocks[j].subtitle, blocks[j].bullets)
  {
    if n > 0 {
      BlockWritesShape(p, blocks, n - 1);
    }
  }

  /** The suffixes of one slide's names: `title`, then `desc` when there is a description, then one `bullet{j}` per block. */
  function Suffixes(s: SlideData): seq<string> {
    ["title"] + (if s.description != "" then ["desc"] else []) + seq(|s.blocks|, j requires 0 <= j < |s.blocks| => BulletSuffix(j + 1))
  }

  lemma SuffixesDistinct(s: SlideData)
    ensures forall i, j :: 0 <= i < j < |Suffixes(s)| ==> Suffixes(s)[i] != Suffixes(s)[j]
  {
    var sx := Suffixes(s);
    var h := if s.description != "" then 2 else 1;
    forall i, j | 0 <= i < j < |sx|
      ensures sx[i] != sx[j]
    {
      if j >= h {
        assert sx[j] == BulletSuffix(j - h + 1) && sx[j][0] == 'b';
        if i >= h {
          assert sx[i] == BulletSuffix(i - h + 1);
          if sx[i] == sx[j] {
            BulletSuffixInjective(i - h + 1, j - h + 1);
          }
        }
      }
    }
  }

  /** The writes of a slide name `page{p}_{suffix}` for its suffixes in order. */
  lemma SlideWritesKeys(s: SlideData)
    ensures |SlideWrites(s)| == |Suffixes(s)|
    ensures forall i :: 0 <= i < |SlideWrites(s)| ==> SlideWrites(s)[i].key == SlideKey(s.pageIndex, Suffixes(s)[i])
  {
    var p, ws, sx := s.pageIndex, SlideWrites(s), Suffixes(s);
    var h := if s.description != "" then 2 else 1;
    var bw := BlockWrites(p, s.blocks, |s.blocks|);
    BlockWritesShape(p, s.blocks, |s.blocks|);
    assert |ws| == h + |bw| && |sx| == h + |s.blocks|;
    forall i | 0 <= i < |ws|
      ensures ws[i].key == SlideKey(p, sx[i])
    {
      if i >= h {
        assert ws[i] == bw[i - h];
        assert sx[i] == BulletSuffix(i - h + 1);
      }
    }
  }

  lemma SlideWritesDistinct(s: SlideData)
    ensures DistinctKeys(SlideWrites(s))
    ensures forall i :: 0 <= i < |SlideWrites(s)| ==> OnPage(SlideWrites(s)[i].key, s.pageIndex)
  {
    var ws := SlideWrites(s);
    SlideWritesKeys(s);
    SuffixesDistinct(s);
    forall i, j | 0 <= i < j < |ws|
      ensures ws[i].key != ws[j].key
    {
      if ws[i].key == ws[j].key {
        SlideKeyInjective(s.pageIndex, s.pageIndex, Suffixes(s)[i], Suffixes(s)[j]);
      }
    }
  }

  /** No two slides share a page number. */
  predicate DistinctPages(slides: seq<SlideData>) {
    forall i, j :: 0 <= i < j < |slides| ==> slides[i].pageIndex != slides[j].pageIndex
  }

  /** A name on the page of one of the first `n` slides. */
  ghost predicate OnSomePage(k: string, slides: seq<SlideData>, n: nat)
    requires n <= |slides|
  {
    exists j :: 0 <= j < n && OnPage(k, slides[j].pageIndex)
  }

  lemma SlidesWritesDistinct(slides: seq<SlideData>, n: nat)
    requires n <= |slides| && DistinctPages(slides)
    ensures DistinctKeys(SlidesWrites(slides, n))
    ensures forall i :: 0 <= i < |SlidesWrites(slides, n)| ==> OnSomePage(SlidesWrites(slides, n)[i].key, slides, n)
  {
    forall i | 0 <= i < n
      ensures SlideWritesOnPage(SlideWrites(slides[i]), slides[i].pageIndex)
    {
      SlideWritesDistinct(slides[i]);
    }
    JoinedDistinct(SlideWrites, slides, n);
  }

  lemma SlideWriteIn(slides: seq<SlideData>, n: nat, j: nat, w: Write)
    requires j < n <= |slides| && w in SlideWrites(slides[j])
    ensures w in SlidesWrites(slides, n)
  {
    JoinedIn(SlideWrites, slides, n, j, w);
  }

  /** Distinct names, all on page `p`. */
  ghost predicate SlideWritesOnPage(ws: seq<Write>, p: int) {
    DistinctKeys(ws) && forall m :: 0 <= m < |ws| ==> OnPage(ws[m].key, p)
  }

  lemma {:induction false} JoinedDistinct(f: SlideData -> seq<Write>, slides: seq<SlideData>, n: nat)
    requires n <= |slides| && DistinctPages(slides)
    requires forall i :: 0 <= i < n ==> SlideWritesOnPage(f(slides[i]), slides[i].pageIndex)
    ensures DistinctKeys(Joined(f, slides, n))
    ensures forall i :: 0 <= i < |Joined(f, slides, n)| ==> OnSomePage(Joined(f, slides, n)[i].key, slides, n)
  {
    if n > 0 {
      JoinedDistinct(f, slides, n - 1);
      var a, b := Joined(f, slides, n - 1), f(slides[n - 1]);
      assert SlideWritesOnPage(b, slides[n - 1].pageIndex);
      PagesApart(a, b, slides, n - 1);
      DistinctAppend(a, b);
      PagesAppend(a, b, slides, n - 1);
    }
  }

  /** Names on the pages of the first `m` slides differ from the names on page `m`. */
  lemma PagesApart(a: seq<Write>, b: seq<Write>, slides: seq<SlideData>, m: nat)
    requires m < |slides| && DistinctPages(slides)
    requires forall i :: 0 <= i < |a| ==> OnSomePage(a[i].key, slides, m)
    requires forall j :: 0 <= j < |b| ==> OnPage(b[j].key, slides[m].pageIndex)
    ensures forall i, j :: 0 <= i < |a| && 0 <= j < |b| ==> a[i].key != b[j].key
  {
    forall i, j | 0 <= i < |a| && 0 <= j < |b|
      ensures a[i].key != b[j].key
    {
      var j' :| 0 <= j' < m && OnPage(a[i].key, slides[j'].pageIndex);
      if a[i].key == b[j].key {
        OnOnePage(a[i].key, slides[j'].pageIndex, slides[m].pageIndex);
      }
    }
  }

  lemma PagesAppend(a: seq<Write>, b: seq<Write>, slides: seq<SlideData>, m: nat)
    requires m < |slides|
    requires forall i :: 0 <= i < |a| ==> OnSomePage(a[i].key, slides, m)
    requires forall j :: 0 <= j < |b| ==> OnPage(b[j].key, slides[m].pageIndex)
    ensures forall i :: 0 <= i < |a + b| ==> OnSomePage((a + b)[i].key, slides, m + 1)
  {
    var ab := a + b;
    forall i | 0 <= i < |ab|
      ensures OnSomePage(ab[i].key, slides, m + 1)
    {
      if i < |a| {
        var j' :| 0 <= j' < m && OnPage(a[i].key, slides[j'].pageIndex);
        assert ab[i] == a[i];
      } else {
        assert ab[i] == b[i - |a|];
        assert OnPage(ab[i].key, slides[m].pageIndex);
      }
    }
  }

  lemma {:induction false} JoinedIn(f: SlideData -> seq<Write>, slides: seq<SlideData>, n: nat, j: nat, w: Write)
    requires j < n <= |slides| && w in f(slides[j])
    ensures w in Joined(f, slides, n)
  {
    if j < n - 1 {
      JoinedIn(f, slides, n - 1, j, w);
    }
  }

  lemma {:induction false} JoinedUntouched(f: SlideData -> seq<Write>, slides: seq<SlideData>, n: nat, k: string)
    requires n <= |slides|
    requires forall i :: 0 <= i < n ==> Untouched(f(slides[i]), k)
    ensures Untouched(Joined(f, slides, n), k)
  {
    if n > 0 {
      JoinedUntouched(f, slides, n - 1, k);
      var a, b := Joined(f, slides, n - 1), f(slides[n - 1]);
      assert Untouched(b, k);
      forall i | 0 <= i < |a + b|
        ensures (a + b)[i].key != k
      {
        if i >= |a| {
          assert (a + b)[i] == b[i - |a|];
        }
      }
    }
  }

  // ---------------------------------------------------------------------
  // The whole deck
  // ---------------------------------------------------------------------

  lemma CoverNamesDistinct(data: PresentationData)
    ensures DistinctNames(CoverPairs(data))
  {}

  /** With distinct page numbers, no two writes of a deck name the same shape. */
  lemma DeckWritesDistinct(data: PresentationData)
    requires DistinctPages(data.slides)
    ensures DistinctKeys(DeckWrites(data))
  {
    var pairs := CoverPairs(data);
    var a, b := CoverWrites(pairs, 6), SlidesWrites(data.slides, |data.slides|);
    CoverWritesFromPairs(pairs, 6);
    SlidesWritesDistinct(data.slides, |data.slides|);
    forall i | 0 <= i < |a|
      ensures Untouched(b, a[i].key)
    {
      assert FromPairs(pairs, 6, a[i]);
      var c :| 0 <= c < 6 && pairs[c].1 != "" && a[i] == TextWrite(pairs[c].0, pairs[c].1);
      SlidesAvoidCover(data, c);
    }
    DistinctAppend(a, b);
  }

  /** No slide writes a cover name. */
  lemma SlidesAvoidCover(data: PresentationData, j: nat)
    requires j < 6
    ensures Untouched(SlidesWrites(data.slides, |data.slides|), CoverPairs(data)[j].0)
  {
    var name := CoverPairs(data)[j].0;
    forall i | 0 <= i < |data.slides|
      ensures !OnPage(name, data.slides[i].pageIndex)
    {
      if OnPage(name, data.slides[i].pageIndex) {
        var suffix :| name == SlideKey(data.slides[i].pageIndex, suffix);
        CoverIsNoSlideKey(data, j, data.slides[i].pageIndex, suffix);
      }
    }
    UntouchedInSlides(data.slides, |data.slides|, name);
  }


  /** What a filled cover shape shows: its non-empty text through `_set_text`, else its old frame. */
  lemma CoverFilled(frames: map<string, Frame>, data: PresentationData, j: nat)
    requires j < 6
    requires CoverPairs(data)[j].0 in frames
    ensures var (name, text) := CoverPairs(data)[j];
      ApplyWrites(frames, DeckWrites(data))[name]
        == if text != "" then SetTextFrame(frames[name], text) else frames[name]
  {
    var pairs := CoverPairs(data);
    var (name, text) := pairs[j];
    var a, b := CoverWrites(pairs, 6), SlidesWrites(data.slides, |data.slides|);
    var mid := ApplyWrites(frames, a);
    ApplyWritesAppend(frames, a, b);
    SlidesAvoidCover(data, j);
    UntouchedKept(mid, b, name);
    CoverNamesDistinct(data);
    if text != "" {
      CoverWritesFromPairs(pairs, 6);
      CoverWriteIn(pairs, 6, j);
      WriteLandsIn(frames, a, TextWrite(name, text));
    } else {
      EmptyCoverUntouched(pairs, j);
      UntouchedKept(frames, a, name);
    }
  }

  /** The title shape of every slide shows the slide's title (even an empty one). */
  lemma SlideTitleFilled(frames: map<string, Frame>, data: PresentationData, i: nat)
    requires DistinctPages(data.slides) && i < |data.slides|
    requires SlideKey(data.slides[i].pageIndex, "title") in frames
    ensures var key := SlideKey(data.slides[i].pageIndex, "title");
      ApplyWrites(frames, DeckWrites(data))[key] == SetTextFrame(frames[key], data.slides[i].title)
  {
    var s := data.slides[i];
    var w := TextWrite(SlideKey(s.pageIndex, "title"), s.title);
    assert SlideWrites(s)[0] == w;
    SlideWriteIn(data.slides, |data.slides|, i, w);
    DeckWritesDistinct(data);
    WriteLandsIn(frames, DeckWrites(data), w);
  }

  /** The description shape of a slide with a description shows it. */
  lemma SlideDescFilled(frames: map<string, Frame>, data: PresentationData, i: nat)
    requires DistinctPages(data.slides) && i < |data.slides| && data.slides[i].description != ""
    requires SlideKey(data.slides[i].pageIndex, "desc") in frames
    ensures var key := SlideKey(data.slides[i].pageIndex, "desc");
      ApplyWrites(frames, DeckWrites(data))[key] == SetTextFrame(frames[key], data.slides[i].description)
  {
    var s := data.slides[i];
    var w := TextWrite(SlideKey(s.pageIndex, "desc"), s.description);
    assert SlideWrites(s)[1] == w;
    SlideWriteIn(data.slides, |data.slides|, i, w);
    DeckWritesDistinct(data);
    WriteLandsIn(frames, DeckWrites(data), w);
  }

  /** The `page{p}_bullet{j+1}` shape shows block `j`'s subtitle and bullets. */
  lemma SlideBlockFilled(frames: map<string, Frame>, data: PresentationData, i: nat, j: nat)
    requires DistinctPages(data.slides) && i < |data.slides| && j < |data.slides[i].blocks|
    requires SlideKey(data.slides[i].pageIndex, BulletSuffix(j + 1)) in frames
    ensures var key := SlideKey(data.slides[i].pageIndex, BulletSuffix(j + 1));
      var block := data.slides[i].blocks[j];
      ApplyWrites(frames, DeckWrites(data))[key] == FormatFrame(frames[key], block.subtitle, block.bullets)
  {
    var s := data.slides[i];
    var block := s.blocks[j];
    var w := FormatWrite(SlideKey(s.pageIndex, BulletSuffix(j + 1)), block.subtitle, block.bullets);
    BlockWritesShape(s.pageIndex, s.blocks, |s.blocks|);
    var head := [TextWrite(SlideKey(s.pageIndex, "title"), s.title)]
      + (if s.description != "" then [TextWrite(SlideKey(s.pageIndex, "desc"), s.description)] else []);
    assert SlideWrites(s)[|head| + j] == w;
    SlideWriteIn(data.slides, |data.slides|, i, w);
    DeckWritesDistinct(data);
    WriteLandsIn(frames, DeckWrites(data), w);
  }

  /** A shape whose name is neither a cover name nor on the page of any slide keeps its frame. */
  lemma OtherShapesKept(frames: map<string, Frame>, data: PresentationData, k: string)
    requires k in frames
    requires forall j :: 0 <= j < 6 ==> CoverPairs(data)[j].0 != k
    requires forall i :: 0 <= i < |data.slides| ==> !OnPage(k, data.slides[i].pageIndex)
    ensures ApplyWrites(frames, DeckWrites(data))[k] == frames[k]
  {
    var pairs := CoverPairs(data);
    var a, b := CoverWrites(pairs, 6), SlidesWrites(data.slides, |data.slides|);
    CoverWritesAvoid(pairs, 6, k);
    UntouchedInSlides(data.slides, |data.slides|, k);
    UntouchedAppend(a, b, k);
    UntouchedKept(frames, DeckWrites(data), k);
  }

  lemma UntouchedInSlides(slides: seq<SlideData>, n: nat, k: string)
    requires n <= |slides|
    requires forall i :: 0 <= i < n ==> !OnPage(k, slides[i].pageIndex)
    ensures Untouched(SlidesWrites(slides, n), k)
  {
    forall i | 0 <= i < n
      ensures Untouched(SlideWrites(slides[i]), k)
    {
      SlideWritesDistinct(slides[i]);
    }
    JoinedUntouched(SlideWrites, slides, n, k);
  }

}
