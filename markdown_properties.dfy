/**
 * What `parse_lines` promises about its result. The state-machine facts are
 * stated on the fold `StateAfter` over any sequence of classified lines; the
 * facts about single lines say how a raw line is classified.
 */
module MarkdownProperties {
  import opened Strings
  import opened DataStructs
  import opened MarkdownParser

  // ---------------------------------------------------------------------
  // Classifying one line
  // ---------------------------------------------------------------------

  /**
   * The cover section changes the kind of a line only when it is a
   * `key: value` line: there it is metadata, after it a keyword or plain text.
   */
  predicate Coherent(c: Classified) {
    c.inCover == c.afterCover || (c.inCover.Meta? && (c.afterCover.Keyword? || c.afterCover.Text?))
  }

  lemma ClassifyCoherent(line: string)
    ensures Coherent(Classified(Classify(line, true), Classify(line, false)))
  {}

  lemma ClassifyLineCoherent(rawLine: string)
    ensures Coherent(ClassifyLine(rawLine))
  {
    ClassifyCoherent(Trim(rawLine));
  }

  /** Blank lines, `---` and comments are skipped before any pattern is tried. */
  lemma SkippedLineIsSkip(line: string, isCover: bool)
    requires IsSkipped(line)
    ensures Classify(line, isCover) == Skip
  {}

  /** A line is a cover title exactly when `#` matches it; its title is group 1 stripped. */
  lemma CoverTitleIffH1(line: string, isCover: bool)
    requires !IsSkipped(line)
    ensures Classify(line, isCover).CoverTitle? <==> MatchH1(line).Some?
    ensures MatchH1(line).Some? ==> Classify(line, isCover) == CoverTitle(Trim(MatchH1(line).value))
  {}

  /** A line opens a slide exactly when `##` matches it, in or after the cover section. */
  lemma NewSlideIffH2(line: string, isCover: bool)
    ensures Classify(line, isCover).NewSlide? <==> MatchH2(line).Some?
    ensures MatchH2(line).Some? ==> Classify(line, isCover) == NewSlide(Trim(MatchH2(line).value))
  {
    if MatchH2(line).Some? {
      H2LineOpensSlide(line, isCover);
    }
  }

  /** A key/value line is metadata in the cover section only. */
  lemma MetaOnlyInCover(line: string)
    ensures !Classify(line, false).Meta?
    ensures Classify(line, true).Meta? ==> MatchKeyValue(line).Some?
  {}

  /** `**关键词：x**` with no `*` inside yields the keyword `x` stripped. */
  lemma KeywordTextOf(x: string)
    requires '*' !in x
    ensures IsKeywordLine(KeywordOpen + x + "**")
    ensures KeywordText(KeywordOpen + x + "**") == Trim(x)
  {
    var line := KeywordOpen + x + "**";
    assert line[..|KeywordOpen|] == KeywordOpen;
    assert line[|line| - 2..] == "**";
    assert line[|KeywordOpen|..] == x + "**";
    RemoveAllStarFree(x, KeywordOpen);
    RemoveClosingStars(x);
  }

  /** A line starting with `*` is no heading, no bullet and not skipped. */
  lemma StarLineIsNoHeading(line: string)
    requires line != [] && line[0] == '*'
    ensures MatchH1(line).None? && MatchH2(line).None? && MatchH3(line).None? && MatchBullet(line).None?
    ensures !IsSkipped(line)
  {
    assert !StartsWith(line, "#") && !StartsWith(line, "##") && !StartsWith(line, "###") && !StartsWith(line, "-") by {
      assert forall p: string :: p != [] && p[0] != '*' ==> !StartsWith(line, p) by {
        forall p: string | p != [] && p[0] != '*' && StartsWith(line, p) ensures false {
        }
      }
    }
    if |line| >= 4 {
      assert line[..4][0] == '*' != "<!--"[0];
    }
    assert line != "---" by { assert "---"[0] != line[0]; }
  }

  /** After the cover section a keyword line is a keyword. */
  lemma KeywordLineClassified(x: string)
    requires '*' !in x
    ensures Classify(KeywordOpen + x + "**", false) == Keyword(Trim(x))
  {
    var line := KeywordOpen + x + "**";
    KeywordTextOf(x);
    StarLineIsNoHeading(line);
  }

  /** In the cover section the same line is metadata: its `：` makes it a key/value line first. */
  lemma KeywordLineInCover(x: string)
    requires '*' !in x && '\n' !in x
    ensures Classify(KeywordOpen + x + "**", true).Meta?
  {
    var line := KeywordOpen + x + "**";
    StarLineIsNoHeading(line);
    KeywordLineIsKeyValue(x);
  }

  lemma KeywordLineIsKeyValue(x: string)
    requires '*' !in x && '\n' !in x
    ensures MatchKeyValue(KeywordOpen + x + "**").Some?
  {
    var line := KeywordOpen + x + "**";
    assert line[5] == '：';
    IndexOfAnyFirst(line, Colons, 5);
    var rest := line[6..];
    assert rest == x + "**";
    TrimLeftSuffix(rest);
    TrimLeftDropsSpace(rest);
    var g := TrimLeft(rest);
    assert IndexOfAny(line, Colons) == Some(5);
    assert g != [] by {
      assert !IsSpace(rest[|rest| - 1]);
    }
    assert '\n' !in g by {
      assert forall k :: 0 <= k < |g| ==> g[k] == rest[|rest| - |g| + k];
    }
  }

  // ---------------------------------------------------------------------
  // The aliasing invariant and the branch it rules out
  // ---------------------------------------------------------------------

  lemma ApplyKeepsInv(st: ParserState, kind: LineKind)
    requires Inv(st)
    ensures Inv(Apply(st, kind))
  {
    var d := st.data;
    match kind
    case NewBlock(sub) =>
      if d.slides != [] {
        assert Last(AddBlock(d, ContentBlock(subtitle := sub)).slides).blocks != [];
      }
    case BulletItem(x) =>
      if !st.inBlock && d.slides != [] {
        assert Last(AddBlock(d, ContentBlock(subtitle := "")).slides).blocks != [];
      }
    case _ =>
  }

  /** Between any two lines a current block is the last block of the last slide, and without one that slide has no blocks. */
  lemma {:induction false} InvAlways(ks: seq<Classified>, n: nat)
    requires n <= |ks|
    ensures Inv(StateAfter(ks, n))
  {
    if n > 0 {
      InvAlways(ks, n - 1);
      ApplyKeepsInv(StateAfter(ks, n - 1), KindIn(StateAfter(ks, n - 1), ks[n - 1]));
    }
  }

  /**
   * A bullet under a slide but outside any block always opens the anonymous
   * block (the "continue the slide's last block" case never happens), and
   * that bullet's own text is not stored.
   */
  lemma BulletOutsideBlock(ks: seq<Classified>, n: nat, x: string)
    requires n <= |ks|
    requires !StateAfter(ks, n).inBlock && StateAfter(ks, n).data.slides != []
    ensures var st := StateAfter(ks, n);
      Apply(st, BulletItem(x)) == ParserState(AddBlock(st.data, ContentBlock(subtitle := "")), true)
    ensures Last(Apply(StateAfter(ks, n), BulletItem(x)).data.slides).blocks == [ContentBlock()]
  {
    InvAlways(ks, n);
  }

  // ---------------------------------------------------------------------
  // Skipped lines
  // ---------------------------------------------------------------------

  /** A skipped line changes nothing, wherever it stands. */
  lemma {:induction false} SkipShifts(ks: seq<Classified>, k: nat, n: nat)
    requires k <= n <= |ks|
    ensures StateAfter(ks[..k] + [Classified(Skip, Skip)] + ks[k..], n + 1) == StateAfter(ks, n)
  {
    var longer := ks[..k] + [Classified(Skip, Skip)] + ks[k..];
    if n == k {
      SamePrefix(ks, longer, k);
    } else {
      SkipShifts(ks, k, n - 1);
      assert longer[n] == ks[n - 1];
    }
  }

  /** Two inputs that agree on their first `n` lines reach the same state after them. */
  lemma {:induction false} SamePrefix(a: seq<Classified>, b: seq<Classified>, n: nat)
    requires n <= |a| && n <= |b| && a[..n] == b[..n]
    ensures StateAfter(a, n) == StateAfter(b, n)
  {
    if n > 0 {
      assert a[n - 1] == a[..n][n - 1] == b[..n][n - 1] == b[n - 1];
      assert a[..n - 1] == a[..n][..n - 1];
      assert b[..n - 1] == b[..n][..n - 1];
      SamePrefix(a, b, n - 1);
    }
  }

  /** A raw line that is skipped once stripped is skipped in and after the cover section. */
  lemma SkippedLineClassified(x: string)
    requires IsSkipped(Trim(x))
    ensures ClassifyLine(x) == Classified(Skip, Skip)
  {
    SkippedLineIsSkip(Trim(x), true);
    SkippedLineIsSkip(Trim(x), false);
  }

  /** Classification is line by line: inserting a line inserts its classification. */
  lemma ClassifyAllInsert(lines: seq<string>, k: nat, x: string)
    requires k <= |lines|
    ensures ClassifyAll(lines[..k] + [x] + lines[k..])
         == ClassifyAll(lines)[..k] + [ClassifyLine(x)] + ClassifyAll(lines)[k..]
  {
    var ks := ClassifyAll(lines);
    var longer := lines[..k] + [x] + lines[k..];
    var want := ks[..k] + [ClassifyLine(x)] + ks[k..];
    forall i | 0 <= i < |longer|
      ensures ClassifyAll(longer)[i] == want[i]
    {
      if i < k {
        assert longer[i] == lines[i];
      } else if k < i {
        assert longer[i] == lines[i - 1];
      }
    }
  }

  /** Inserting a blank line, a `---` or a comment anywhere leaves the parse unchanged. */
  lemma SkippedLineIgnored(lines: seq<string>, k: nat, x: string)
    requires k <= |lines| && IsSkipped(Trim(x))
    ensures Parse(lines[..k] + [x] + lines[k..]) == Parse(lines)
  {
    SkippedLineClassified(x);
    ClassifyAllInsert(lines, k, x);
    SkipShifts(ClassifyAll(lines), k, |lines|);
  }

  // ---------------------------------------------------------------------
  // The cover title
  // ---------------------------------------------------------------------

  /** The cover title after the first `n` lines: that of the last cover-title line among them, or "". */
  function LastCoverTitle(ks: seq<Classified>, n: nat): string
    requires n <= |ks|
  {
    if n == 0 then ""
    else if ks[n - 1].inCover.CoverTitle? then ks[n - 1].inCover.title
    else LastCoverTitle(ks, n - 1)
  }

  /** A `# ` line sets the cover title and a later one overwrites it; nothing else touches it. */
  lemma {:induction false} CoverTitleIsLast(ks: seq<Classified>, n: nat)
    requires n <= |ks| && forall i :: 0 <= i < |ks| ==> Coherent(ks[i])
    ensures StateAfter(ks, n).data.coverTitle == LastCoverTitle(ks, n)
  {
    if n > 0 {
      CoverTitleIsLast(ks, n - 1);
      assert Coherent(ks[n - 1]);
    }
  }

  // ---------------------------------------------------------------------
  // The slides
  // ---------------------------------------------------------------------

  /** The titles of the slide-opening lines among the first `n`, in order. */
  function SlideTitles(ks: seq<Classified>, n: nat): seq<string>
    requires n <= |ks|
  {
    if n == 0 then []
    else if ks[n - 1].inCover.NewSlide? then SlideTitles(ks, n - 1) + [ks[n - 1].inCover.title]
    else SlideTitles(ks, n - 1)
  }

  predicate SameHeads(a: seq<SlideData>, b: seq<SlideData>) {
    |a| == |b| && forall k :: 0 <= k < |a| ==> a[k].title == b[k].title && a[k].pageIndex == b[k].pageIndex
  }

  /** Only a `## ` line adds a slide; every other line leaves the slide titles and page numbers alone. */
  lemma ApplyKeepsHeads(st: ParserState, kind: LineKind)
    requires !kind.NewSlide?
    ensures SameHeads(st.data.slides, Apply(st, kind).data.slides)
  {}

  /**
   * There is one slide per `## ` line, in order, titled with its stripped
   * text, and the page numbers run 2, 3, 4, ...
   */
  lemma {:induction false} SlidesAreH2Lines(ks: seq<Classified>, n: nat)
    requires n <= |ks| && forall i :: 0 <= i < |ks| ==> Coherent(ks[i])
    ensures var slides := StateAfter(ks, n).data.slides;
      && |slides| == |SlideTitles(ks, n)|
      && forall k :: 0 <= k < |slides| ==> slides[k].title == SlideTitles(ks, n)[k] && slides[k].pageIndex == k + 2
  {
    if n > 0 {
      SlidesAreH2Lines(ks, n - 1);
      var st := StateAfter(ks, n - 1);
      var kind := KindIn(st, ks[n - 1]);
      assert Coherent(ks[n - 1]);
      if !kind.NewSlide? {
        ApplyKeepsHeads(st, kind);
      }
    }
  }

  // ---------------------------------------------------------------------
  // The cover section
  // ---------------------------------------------------------------------

  /**
   * Before the first `## ` a line can only set the cover title or a metadata
   * entry: `###` blocks, bullets, keywords and plain text there are dropped.
   */
  lemma CoverLineTouchesOnlyCover(st: ParserState, kind: LineKind)
    requires st.data.slides == [] && !st.inBlock && !kind.NewSlide?
    ensures var st' := Apply(st, kind);
      && st'.data.slides == [] && !st'.inBlock
      && (!kind.CoverTitle? ==> st'.data.coverTitle == st.data.coverTitle)
      && (!kind.Meta? ==> st'.data.metaInfo == st.data.metaInfo)
  {}

  /** Once a slide exists the metadata never changes. */
  lemma {:induction false} MetaFrozenAfterFirstSlide(ks: seq<Classified>, m: nat, n: nat)
    requires m <= n <= |ks|
    requires StateAfter(ks, m).data.slides != []
    requires forall i :: 0 <= i < |ks| ==> !ks[i].afterCover.Meta?
    ensures StateAfter(ks, n).data.metaInfo == StateAfter(ks, m).data.metaInfo
    ensures StateAfter(ks, n).data.slides != []
  {
    if n > m {
      MetaFrozenAfterFirstSlide(ks, m, n - 1);
      var st := StateAfter(ks, n - 1);
      assert KindIn(st, ks[n - 1]) == ks[n - 1].afterCover;
      SlideLineKeepsMeta(st, ks[n - 1].afterCover);
    }
  }

  /** After the first slide a line that is no metadata line keeps the metadata and the slides. */
  lemma SlideLineKeepsMeta(st: ParserState, kind: LineKind)
    requires st.data.slides != [] && !kind.Meta?
    ensures Apply(st, kind).data.metaInfo == st.data.metaInfo
    ensures Apply(st, kind).data.slides != []
  {}
}
