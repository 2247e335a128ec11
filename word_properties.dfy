/**
 * What `WordParser.parse` promises about its sections: one per heading
 * paragraph after the preamble, list paragraphs merged so that no two list
 * blocks are adjacent, and every non-blank paragraph text kept, stripped, in
 * document order.
 */
module WordProperties {
  import opened Strings
  import opened WordParser

  // ---------------------------------------------------------------------
  // Headings
  // ---------------------------------------------------------------------

  /** A paragraph is a heading exactly when its text is not blank and its style starts with "Heading", whatever else the style says. */
  lemma HeadingWins(p: DocParagraph)
    ensures ClassifyParagraph(p).HeadingPara? <==> Trim(p.text) != [] && IsHeadingStyle(p.style)
    ensures ClassifyParagraph(p).HeadingPara? ==>
      ClassifyParagraph(p) == HeadingPara(HeadingLevel(p.style), Trim(p.text))
  {}

  /** The (level, title) of every heading among the first `n` paragraphs, in order. */
  function Headings(ks: seq<ParaKind>, n: nat): seq<(int, string)>
    requires n <= |ks|
  {
    if n == 0 then []
    else if ks[n - 1].HeadingPara? then Headings(ks, n - 1) + [(ks[n - 1].level, ks[n - 1].title)]
    else Headings(ks, n - 1)
  }

  predicate HeadsMatch(secs: seq<Section>, heads: seq<(int, string)>) {
    && |secs| == 1 + |heads|
    && secs[0].level == 0 && secs[0].title == "Preamble"
    && forall k :: 0 <= k < |heads| ==> secs[k + 1].level == heads[k].0 && secs[k + 1].title == heads[k].1
  }

  /**
   * The preamble comes first, and after it there is exactly one section per
   * non-blank heading paragraph, in order, with that paragraph's level and
   * stripped text; a heading style wins over a list style.
   */
  lemma {:induction false} SectionsAreHeadings(ks: seq<ParaKind>, n: nat)
    requires n <= |ks|
    ensures HeadsMatch(SectionsAfter(ks, n), Headings(ks, n))
  {
    if n > 0 {
      SectionsAreHeadings(ks, n - 1);
      var secs := SectionsAfter(ks, n - 1);
      var secs' := SectionsAfter(ks, n);
      if ks[n - 1].ListPara? || ks[n - 1].BodyPara? {
        assert forall k :: 0 <= k < |secs| - 1 ==> secs'[k] == secs[k];
      }
    }
  }

  /** After the clean-up the result starts with the preamble exactly when it has content or no heading exists. */
  lemma PreambleKept(paras: seq<DocParagraph>)
    ensures var ks := ClassifyAll(paras); var secs := SectionsAfter(ks, |ks|);
      && Sectionise(paras) != []
      && (Sectionise(paras) == secs <==> secs[0].blocks != [] || Headings(ks, |ks|) == [])
      && (Sectionise(paras) != secs ==> Sectionise(paras) == secs[1..])
  {
    var ks := ClassifyAll(paras);
    SectionsAreHeadings(ks, |ks|);
  }

  // ---------------------------------------------------------------------
  // List merging
  // ---------------------------------------------------------------------

  predicate NoAdjacentLists(blocks: seq<Block>) {
    forall j :: 0 < j < |blocks| ==> !(blocks[j - 1].List? && blocks[j].List?)
  }

  predicate AllMerged(secs: seq<Section>) {
    forall k :: 0 <= k < |secs| ==> NoAdjacentLists(secs[k].blocks)
  }

  lemma AddListItemMerges(blocks: seq<Block>, item: string)
    requires NoAdjacentLists(blocks)
    ensures NoAdjacentLists(AddListItem(blocks, item))
  {
    var r := AddListItem(blocks, item);
    if blocks != [] && LastOf(blocks).List? {
      assert forall j :: 0 <= j < |blocks| - 1 ==> r[j] == blocks[j];
    }
  }

  /** Consecutive list paragraphs end up in one list block: no section ever has two list blocks in a row. */
  lemma {:induction false} ListsMerged(ks: seq<ParaKind>, n: nat)
    requires n <= |ks|
    ensures AllMerged(SectionsAfter(ks, n))
  {
    if n > 0 {
      ListsMerged(ks, n - 1);
      var secs := SectionsAfter(ks, n - 1);
      var cur := LastOf(secs);
      assert NoAdjacentLists(cur.blocks);
      match ks[n - 1]
      case ListPara(item) =>
        AddListItemMerges(cur.blocks, item);
      case BodyPara(text) =>
        var bs := cur.blocks + [Paragraph(text)];
        assert forall j :: 0 <= j < |cur.blocks| ==> bs[j] == cur.blocks[j];
      case _ =>
    }
  }

  /** The same holds for the result of `parse`. */
  lemma ParseMergesLists(paras: seq<DocParagraph>)
    ensures AllMerged(Sectionise(paras))
  {
    ListsMerged(ClassifyAll(paras), |paras|);
  }

  // ---------------------------------------------------------------------
  // No text lost, none reordered
  // ---------------------------------------------------------------------

  function BlockText(b: Block): seq<string> {
    match b
    case Paragraph(t) => [t]
    case List(items) => items
  }

  function BlockTexts(blocks: seq<Block>): seq<string> {
    if blocks == [] then [] else BlockTexts(blocks[..|blocks| - 1]) + BlockText(LastOf(blocks))
  }

  /** Every title and block text of the sections, in order. */
  function AllTexts(secs: seq<Section>): seq<string> {
    if secs == [] then []
    else AllTexts(secs[..|secs| - 1]) + [LastOf(secs).title] + BlockTexts(LastOf(secs).blocks)
  }

  /** The text a paragraph contributes: none when blank, else its stripped text. */
  function KindTexts(k: ParaKind): seq<string> {
    match k
    case Blank => []
    case HeadingPara(_, t) => [t]
    case ListPara(t) => [t]
    case BodyPara(t) => [t]
  }

  lemma KindTextsOfParagraph(p: DocParagraph)
    ensures KindTexts(ClassifyParagraph(p)) == if Trim(p.text) == [] then [] else [Trim(p.text)]
  {}

  /** The stripped text of every non-blank paragraph among the first `n`, in order. */
  function ParaTexts(ks: seq<ParaKind>, n: nat): seq<string>
    requires n <= |ks|
  {
    if n == 0 then [] else ParaTexts(ks, n - 1) + KindTexts(ks[n - 1])
  }

  lemma AddListItemTexts(blocks: seq<Block>, item: string)
    ensures BlockTexts(AddListItem(blocks, item)) == BlockTexts(blocks) + [item]
  {
    var r := AddListItem(blocks, item);
    if blocks != [] && LastOf(blocks).List? {
      assert r[..|r| - 1] == blocks[..|blocks| - 1];
    } else {
      assert r[..|r| - 1] == blocks;
    }
  }

  lemma LastSectionGrows(secs: seq<Section>, s: Section, t: string)
    requires secs != [] && s.title == LastOf(secs).title
    requires BlockTexts(s.blocks) == BlockTexts(LastOf(secs).blocks) + [t]
    ensures AllTexts(secs[..|secs| - 1] + [s]) == AllTexts(secs) + [t]
  {
    var pre := secs[..|secs| - 1];
    var secs' := pre + [s];
    assert secs'[..|secs'| - 1] == pre;
    var a, b := AllTexts(pre), BlockTexts(LastOf(secs).blocks);
    assert AllTexts(secs') == a + [s.title] + (b + [t]);
    assert AllTexts(secs) == a + [s.title] + b;
    AppendAssoc(a + [s.title], b, [t]);
  }

  /**
   * Every non-blank paragraph's stripped text appears exactly once, in
   * document order, as a section title or a block text, after the
   * preamble's title.
   */
  lemma {:induction false} TextsPreserved(ks: seq<ParaKind>, n: nat)
    requires n <= |ks|
    ensures AllTexts(SectionsAfter(ks, n)) == [Preamble.title] + ParaTexts(ks, n)
  {
    if n == 0 {
      assert [Preamble][..0] == [];
    } else {
      TextsPreserved(ks, n - 1);
      StepTexts(ks, n);
      AppendAssoc([Preamble.title], ParaTexts(ks, n - 1), KindTexts(ks[n - 1]));
    }
  }

  lemma StepTexts(ks: seq<ParaKind>, n: nat)
    requires 0 < n <= |ks|
    ensures AllTexts(SectionsAfter(ks, n)) == AllTexts(SectionsAfter(ks, n - 1)) + KindTexts(ks[n - 1])
  {
    AddKindTexts(SectionsAfter(ks, n - 1), ks[n - 1]);
  }

  /** One paragraph adds its own text, and only it, at the end of the texts. */
  lemma AddKindTexts(secs: seq<Section>, k: ParaKind)
    requires secs != []
    ensures AllTexts(AddKind(secs, k)) == AllTexts(secs) + KindTexts(k)
  {
    var cur := LastOf(secs);
    match k
    case Blank =>
    case HeadingPara(level, title) =>
      var secs' := secs + [Section(level, title, [])];
      assert secs'[..|secs'| - 1] == secs;
    case ListPara(item) =>
      AddListItemTexts(cur.blocks, item);
      LastSectionGrows(secs, cur.(blocks := AddListItem(cur.blocks, item)), item);
    case BodyPara(text) =>
      var bs := cur.blocks + [Paragraph(text)];
      assert bs[..|bs| - 1] == cur.blocks;
      LastSectionGrows(secs, cur.(blocks := bs), text);
  }

  /** The final result keeps every paragraph text; only the empty preamble's own title can go. */
  lemma ParseKeepsTexts(paras: seq<DocParagraph>)
    ensures var ks := ClassifyAll(paras); var secs := SectionsAfter(ks, |ks|);
      AllTexts(Sectionise(paras))
        == (if Sectionise(paras) == secs then [Preamble.title] else []) + ParaTexts(ks, |ks|)
  {
    var ks := ClassifyAll(paras);
    CleanUpKeepsTexts(ks);
  }

  lemma CleanUpKeepsTexts(ks: seq<ParaKind>)
    ensures var secs := SectionsAfter(ks, |ks|);
      AllTexts(DropEmptyPreamble(secs))
        == (if DropEmptyPreamble(secs) == secs then [Preamble.title] else []) + ParaTexts(ks, |ks|)
  {
    var secs := SectionsAfter(ks, |ks|);
    TextsPreserved(ks, |ks|);
    SectionsAreHeadings(ks, |ks|);
    DropPreambleTexts(secs, ParaTexts(ks, |ks|));
  }

  lemma DropPreambleTexts(secs: seq<Section>, texts: seq<string>)
    requires secs != [] && AllTexts(secs) == [secs[0].title] + texts
    ensures AllTexts(DropEmptyPreamble(secs)) == (if DropEmptyPreamble(secs) == secs then [secs[0].title] else []) + texts
  {
    if DropEmptyPreamble(secs) != secs {
      DropFirstTexts(secs);
      var rest := AllTexts(secs[1..]);
      assert ([secs[0].title] + rest)[1..] == rest;
      assert ([secs[0].title] + texts)[1..] == texts;
    }
  }

  lemma {:induction false} DropFirstTexts(secs: seq<Section>)
    requires |secs| > 1 && secs[0].blocks == []
    ensures AllTexts(secs) == [secs[0].title] + AllTexts(secs[1..])
    decreases |secs|
  {
    var rest := secs[1..];
    if |secs| == 2 {
      assert secs[..1] == [secs[0]];
      assert [secs[0]][..0] == [];
      assert rest[..0] == [];
    } else {
      DropFirstTexts(secs[..|secs| - 1]);
      assert secs[..|secs| - 1][1..] == rest[..|rest| - 1];
    }
  }

  // ---------------------------------------------------------------------
  // The source name
  // ---------------------------------------------------------------------

  /** The base name is the part of the path after its last `/`: a suffix with no `/`, preceded by `/` unless it is the whole path. */
  lemma {:induction false} BasenameIsLastPart(path: string)
    ensures var b := Basename(path);
      && |b| <= |path| && b == path[|path| - |b|..]
      && (forall i :: 0 <= i < |b| ==> b[i] != '/')
      && (|b| < |path| ==> path[|path| - |b| - 1] == '/')
  {
    if path != [] && path[|path| - 1] != '/' {
      BasenameIsLastPart(path[..|path| - 1]);
    }
  }
}
