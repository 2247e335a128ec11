/**
 * What the slide helpers promise: a copied child takes the place of the one
 * it replaces (or is inserted where the helper says), the children of every
 * other tag are left as they were, a moved slide is the same deck in another
 * order, and the placeholder index keeps the last placeholder of each `idx`.
 */
module PptUtilsProperties {
  import opened Strings
  import opened PptUtils

  // ---------------------------------------------------------------------
  // The children of one tag
  // ---------------------------------------------------------------------

  /** The children with tag `t`, in document order. */
  function Only(cs: seq<Node>, t: Tag): seq<Node> {
    if cs == [] then [] else (if cs[0].tag == t then [cs[0]] else []) + Only(cs[1..], t)
  }

  function DropHead(xs: seq<Node>): seq<Node> {
    if xs == [] then [] else xs[1..]
  }

  /** The children of one tag after a copy of `src` went in: it becomes the first of them, replacing the old first. */
  function Copied(src: Option<Node>, xs: seq<Node>): seq<Node> {
    match src
    case Some(x) => [x] + DropHead(xs)
    case None => xs
  }

  lemma {:induction false} OnlyConcat(a: seq<Node>, b: seq<Node>, t: Tag)
    ensures Only(a + b, t) == Only(a, t) + Only(b, t)
  {
    if a == [] {
      assert a + b == b;
    } else {
      assert (a + b)[1..] == a[1..] + b;
      OnlyConcat(a[1..], b, t);
      AppendAssoc(if a[0].tag == t then [a[0]] else [], Only(a[1..], t), Only(b, t));
    }
  }

  lemma {:induction false} OnlyNone(cs: seq<Node>, t: Tag)
    requires forall j :: 0 <= j < |cs| ==> cs[j].tag != t
    ensures Only(cs, t) == []
  {
    if cs != [] {
      OnlyNone(cs[1..], t);
    }
  }

  lemma OnlyOne(x: Node, t: Tag)
    ensures Only([x], t) == if x.tag == t then [x] else []
  {
    assert [x][1..] == [];
  }

  /** `find` returns the first child of the tag: the head of `Only`. */
  lemma {:induction false} FirstIsHead(cs: seq<Node>, t: Tag)
    ensures First(cs, t) == if Only(cs, t) == [] then None else Some(Only(cs, t)[0])
  {
    if cs != [] && cs[0].tag != t {
      FirstIsHead(cs[1..], t);
    }
  }

  // ---------------------------------------------------------------------
  // Putting a copy in
  // ---------------------------------------------------------------------

  /**
   * A copy whose tag is present takes the place of the first such child,
   * everything else staying where it was; otherwise it is inserted at `pos`,
   * or appended when `pos` is past the end, and removing it gives back the
   * children as they were.
   */
  lemma PutChildPlaces(cs: seq<Node>, node: Node, pos: nat)
    ensures FindTag(cs, node.tag).Some? ==>
      var j := FindTag(cs, node.tag).value; var r := PutChild(cs, node, pos);
      && |r| == |cs| && r[j] == node && (forall k :: 0 <= k < |cs| && k != j ==> r[k] == cs[k])
    ensures FindTag(cs, node.tag).None? ==>
      var p := if pos <= |cs| then pos else |cs|; var r := PutChild(cs, node, pos);
      && |r| == |cs| + 1 && r[p] == node && RemoveAt(r, p) == cs
  {
    match FindTag(cs, node.tag)
    case Some(j) => ReplacePlaces(cs, node, pos, j);
    case None => InsertPlaces(cs, node, pos);
  }

  lemma ReplacePlaces(cs: seq<Node>, node: Node, pos: nat, j: nat)
    requires FindTag(cs, node.tag) == Some(j)
    ensures var r := PutChild(cs, node, pos);
      |r| == |cs| && r[j] == node && (forall k :: 0 <= k < |cs| && k != j ==> r[k] == cs[k])
  {
    ReplacedForm(cs, node, pos, j);
  }

  /** A copy whose tag is present stands exactly where the first child of that tag stood. */
  lemma ReplacedForm(cs: seq<Node>, node: Node, pos: nat, j: nat)
    requires FindTag(cs, node.tag) == Some(j)
    ensures PutChild(cs, node, pos) == cs[..j] + [node] + cs[j + 1..]
  {
    var r := PutChild(cs, node, pos);
    var rest := RemoveAt(cs, j);
    assert rest == cs[..j] + cs[j + 1..];
    if j < |rest| {
      assert r == rest[..j] + [node] + rest[j..];
      assert rest[..j] == cs[..j] && rest[j..] == cs[j + 1..];
    } else {
      assert r == rest + [node];
      assert cs[j + 1..] == [];
    }
  }

  lemma InsertPlaces(cs: seq<Node>, node: Node, pos: nat)
    requires FindTag(cs, node.tag).None?
    ensures var p := if pos <= |cs| then pos else |cs|; var r := PutChild(cs, node, pos);
      |r| == |cs| + 1 && r[p] == node && RemoveAt(r, p) == cs
  {
    var r := PutChild(cs, node, pos);
    var p := if pos <= |cs| then pos else |cs|;
    assert r == cs[..p] + [node] + cs[p..] by {
      if pos >= |cs| {
        assert r == cs + [node];
        assert cs[..p] == cs && cs[p..] == [];
      }
    }
    assert RemoveAt(r, p) == cs[..p] + cs[p..];
    assert cs == cs[..p] + cs[p..];
  }

  /** The children as a sequence: with `j` the first child of a tag, nothing before it has that tag. */
  lemma SplitAt(cs: seq<Node>, j: nat, t: Tag)
    requires FindTag(cs, t) == Some(j)
    ensures cs == cs[..j] + [cs[j]] + cs[j + 1..]
    ensures Only(cs[..j], t) == []
    ensures Only(cs, t) == [cs[j]] + Only(cs[j + 1..], t)
  {
    var a, x, b := cs[..j], cs[j], cs[j + 1..];
    assert cs == a + [x] + b;
    OnlyNone(a, t);
    OnlyAround(a, x, b, t);
    assert [] + [x] + Only(b, t) == [x] + Only(b, t);
  }

  /** `Only` of a sequence split around one child. */
  lemma OnlyAround(a: seq<Node>, x: Node, b: seq<Node>, t: Tag)
    ensures Only(a + [x] + b, t) == Only(a, t) + (if x.tag == t then [x] else []) + Only(b, t)
  {
    OnlyConcat(a + [x], b, t);
    OnlyConcat(a, [x], t);
    OnlyOne(x, t);
  }

  /** Putting a copy in makes it the first child of its tag, drops the old first one, and leaves every other tag's children alone. */
  lemma PutChildOnly(cs: seq<Node>, node: Node, pos: nat, t: Tag)
    ensures Only(PutChild(cs, node, pos), t) == if t == node.tag then Copied(Some(node), Only(cs, t)) else Only(cs, t)
  {
    match FindTag(cs, node.tag)
    case Some(j) => ReplaceOnly(cs, node, pos, j, t);
    case None => InsertOnly(cs, node, pos, t);
  }

  lemma ReplaceOnly(cs: seq<Node>, node: Node, pos: nat, j: nat, t: Tag)
    requires FindTag(cs, node.tag) == Some(j)
    ensures Only(PutChild(cs, node, pos), t) == if t == node.tag then Copied(Some(node), Only(cs, t)) else Only(cs, t)
  {
    ReplacedForm(cs, node, pos, j);
    SplitAt(cs, j, node.tag);
    if t == node.tag {
      ReplaceOnlySame(cs, node, j);
    } else {
      ReplaceOnlyOther(cs, node, j, t);
    }
  }

  lemma ReplaceOnlySame(cs: seq<Node>, node: Node, j: nat)
    requires j < |cs| && cs[j].tag == node.tag
    requires Only(cs[..j], node.tag) == []
    requires Only(cs, node.tag) == [cs[j]] + Only(cs[j + 1..], node.tag)
    ensures Only(cs[..j] + [node] + cs[j + 1..], node.tag) == Copied(Some(node), Only(cs, node.tag))
  {
    var a, b, t := cs[..j], cs[j + 1..], node.tag;
    OnlyAround(a, node, b, t);
    assert [] + [node] + Only(b, t) == [node] + Only(b, t);
    assert DropHead(Only(cs, t)) == Only(b, t);
    assert Copied(Some(node), Only(cs, t)) == [node] + Only(b, t);
  }

  lemma ReplaceOnlyOther(cs: seq<Node>, node: Node, j: nat, t: Tag)
    requires j < |cs| && cs[j].tag == node.tag && t != node.tag
    requires cs == cs[..j] + [cs[j]] + cs[j + 1..]
    ensures Only(cs[..j] + [node] + cs[j + 1..], t) == Only(cs, t)
  {
    var a, x, b := cs[..j], cs[j], cs[j + 1..];
    OnlyAround(a, node, b, t);
    OnlyAround(a, x, b, t);
    assert Only(cs, t) == Only(a, t) + [] + Only(b, t);
  }

  lemma InsertOnly(cs: seq<Node>, node: Node, pos: nat, t: Tag)
    requires FindTag(cs, node.tag).None?
    ensures Only(PutChild(cs, node, pos), t) == if t == node.tag then Copied(Some(node), Only(cs, t)) else Only(cs, t)
  {
    var p := if pos <= |cs| then pos else |cs|;
    InsertForm(cs, node, pos, p);
    SplitJoin(cs, p);
    InsertOnlyAt(cs[..p], node, cs[p..], t);
  }

  /** Where the copy goes when its tag is missing: at `pos`, or at the end. */
  lemma InsertForm(cs: seq<Node>, node: Node, pos: nat, p: nat)
    requires FindTag(cs, node.tag).None?
    requires p == if pos <= |cs| then pos else |cs|
    ensures PutChild(cs, node, pos) == cs[..p] + [node] + cs[p..]
  {
    assert PutChild(cs, node, pos) == InsertAt(cs, pos, node);
    if pos >= |cs| {
      assert cs[..p] == cs && cs[p..] == [];
      assert cs[..p] + [node] + cs[p..] == cs + [node];
    } else {
      assert InsertAt(cs, pos, node) == cs[..pos] + [node] + cs[pos..];
    }
  }

  lemma SplitJoin(cs: seq<Node>, p: nat)
    requires p <= |cs|
    ensures cs == cs[..p] + cs[p..]
  {}

  lemma InsertOnlyAt(a: seq<Node>, node: Node, b: seq<Node>, t: Tag)
    requires forall j :: 0 <= j < |a + b| ==> (a + b)[j].tag != node.tag
    ensures Only(a + [node] + b, t) == if t == node.tag then Copied(Some(node), Only(a + b, t)) else Only(a + b, t)
  {
    OnlyAround(a, node, b, t);
    OnlyConcat(a, b, t);
    if t == node.tag {
      OnlyNone(a + b, t);
      assert Only(a, t) == [] && Only(b, t) == [];
      assert [] + [node] + [] == [node];
    } else {
      assert Only(a, t) + [] + Only(b, t) == Only(a, t) + Only(b, t);
    }
  }

  /** Removing the style drops the first style child and nothing else. */
  lemma DropStyleOnly(cs: seq<Node>, t: Tag)
    ensures Only(DropStyle(cs), t) == if t == Style then DropHead(Only(cs, t)) else Only(cs, t)
  {
    match FindTag(cs, Style)
    case Some(j) =>
      var a, x, b := cs[..j], cs[j], cs[j + 1..];
      SplitAt(cs, j, Style);
      assert DropStyle(cs) == a + b;
      OnlyConcat(a, b, t);
      OnlyAround(a, x, b, t);
      if t == Style {
        assert Only(cs, t) == [x] + Only(b, t);
        assert DropHead(Only(cs, t)) == Only(b, t);
        assert Only(a, t) + Only(b, t) == Only(b, t);
      } else {
        assert Only(cs, t) == Only(a, t) + [] + Only(b, t);
        assert Only(a, t) + [] == Only(a, t);
      }
    case None =>
      if t == Style {
        OnlyNone(cs, t);
      }
  }

  /** A style that was missing goes right after `spPr`, which stays where it was. */
  lemma StyleAfterSpPr(cs: seq<Node>, s: Node)
    requires s.tag == Style && FindTag(cs, Style).None? && FindTag(cs, SpPr).Some?
    ensures var k := FindTag(cs, SpPr).value; var r := PutChild(cs, s, StylePos(cs));
      && k + 1 < |r| && r[k] == cs[k] && r[k].tag == SpPr && r[k + 1] == s
  {
    PutChildPlaces(cs, s, StylePos(cs));
  }

  // ---------------------------------------------------------------------
  // The three copy steps and the two copies
  // ---------------------------------------------------------------------

  lemma CopyTxBodyOnly(src: seq<Node>, dst: seq<Node>, texts: bool, t: Tag)
    ensures Only(CopyTxBody(src, dst, texts), t) ==
      if t == TxBody && texts then Copied(First(src, TxBody), Only(dst, t)) else Only(dst, t)
  {
    match First(src, TxBody)
    case Some(x) =>
      FindTagFinds(src, TxBody);
      if texts {
        PutChildOnly(dst, x, |dst|, t);
      }
    case None =>
  }

  lemma CopySpPrOnly(src: seq<Node>, dst: seq<Node>, t: Tag)
    ensures Only(CopySpPr(src, dst), t) == if t == SpPr then Copied(First(src, SpPr), Only(dst, t)) else Only(dst, t)
  {
    match First(src, SpPr)
    case Some(x) =>
      FindTagFinds(src, SpPr);
      PutChildOnly(dst, x, 1, t);
    case None =>
  }

  lemma CopyStyleOnly(src: seq<Node>, dst: seq<Node>, t: Tag)
    ensures Only(CopyStyle(src, dst), t) ==
      if t != Style then Only(dst, t)
      else if First(src, Style).Some? then Copied(First(src, Style), Only(dst, t))
      else DropHead(Only(dst, t))
  {
    match First(src, Style)
    case Some(x) =>
      FindTagFinds(src, Style);
      PutChildOnly(dst, x, StylePos(dst), t);
    case None =>
      DropStyleOnly(dst, t);
  }

  lemma FindTagFinds(cs: seq<Node>, t: Tag)
    ensures First(cs, t).Some? ==> First(cs, t).value.tag == t
  {}

  /**
   * `_copy_placeholder_content`: the destination's first text body (when
   * both shapes have text frames), first `spPr` and first style become the
   * source's; without a source style the destination's first style goes;
   * the children of every other tag stay as they were.
   */
  lemma PlaceholderChildrenOnly(src: seq<Node>, dst: seq<Node>, texts: bool, t: Tag)
    ensures Only(PlaceholderChildren(src, dst, texts), t) ==
      if t == TxBody then (if texts then Copied(First(src, TxBody), Only(dst, t)) else Only(dst, t))
      else if t == SpPr then Copied(First(src, SpPr), Only(dst, t))
      else if t == Style then (if First(src, Style).Some? then Copied(First(src, Style), Only(dst, t)) else DropHead(Only(dst, t)))
      else Only(dst, t)
  {
    var a := CopyTxBody(src, dst, texts);
    var b := CopySpPr(src, a);
    CopyTxBodyOnly(src, dst, texts, t);
    CopySpPrOnly(src, a, t);
    CopyStyleOnly(src, b, t);
  }

  /** In particular the copied placeholder shows the source's `spPr` and style, and loses its own style when the source has none. */
  lemma PlaceholderTakesSource(src: seq<Node>, dst: seq<Node>, texts: bool)
    ensures var r := PlaceholderChildren(src, dst, texts);
      && (First(src, SpPr).Some? ==> First(r, SpPr) == First(src, SpPr))
      && (First(src, SpPr).None? ==> First(r, SpPr) == First(dst, SpPr))
      && (First(src, Style).Some? ==> First(r, Style) == First(src, Style))
      && (First(src, Style).None? && |Only(dst, Style)| <= 1 ==> First(r, Style).None?)
      && (texts && First(src, TxBody).Some? ==> First(r, TxBody) == First(src, TxBody))
  {
    var r := PlaceholderChildren(src, dst, texts);
    PlaceholderChildrenOnly(src, dst, texts, SpPr);
    PlaceholderChildrenOnly(src, dst, texts, Style);
    PlaceholderChildrenOnly(src, dst, texts, TxBody);
    FirstIsHead(r, SpPr);
    FirstIsHead(r, Style);
    FirstIsHead(r, TxBody);
    FirstIsHead(dst, SpPr);
  }

  /**
   * `duplicate_shape` of an auto shape or text box: the new element's first
   * `spPr` and style become the source's (its style goes when the source has
   * none), its text body the source's when the source has a text frame, and
   * its other children are the blank element's.
   */
  lemma AutoShapeChildrenOnly(src: seq<Node>, blank: seq<Node>, hasText: bool, t: Tag)
    requires First(src, SpPr).Some?
    ensures Only(AutoShapeChildren(src, blank, hasText), t) ==
      if t == TxBody then (if hasText then Copied(First(src, TxBody), Only(blank, t)) else Only(blank, t))
      else if t == SpPr then Copied(First(src, SpPr), Only(blank, t))
      else if t == Style then (if First(src, Style).Some? then Copied(First(src, Style), Only(blank, t)) else DropHead(Only(blank, t)))
      else Only(blank, t)
  {
    var p := First(src, SpPr).value;
    FindTagFinds(src, SpPr);
    var a := PutChild(blank, p, 1);
    var b := CopyStyle(src, a);
    PutChildOnly(blank, p, 1, t);
    CopyStyleOnly(src, a, t);
    CopyTxBodyOnly(src, b, hasText, t);
  }

  // ---------------------------------------------------------------------
  // Names of copies
  // ---------------------------------------------------------------------

  /** Without `keep_name` the copy is named `<name>_copy_<first 8 hex characters>`, never the source's own name. */
  lemma CopyNameShape(name: string, hex: string)
    ensures var r := CopyName(name, false, hex); var h := if |hex| <= 8 then |hex| else 8;
      && |r| == |name| + 6 + h && r[..|name|] == name && r[|name|..|name| + 6] == "_copy_"
      && r[|name| + 6..] == hex[..h] && r != name
  {
    var h := if |hex| <= 8 then |hex| else 8;
    assert hex[..h] == (if |hex| <= 8 then hex else hex[..8]);
  }

  // ---------------------------------------------------------------------
  // Moving a slide
  // ---------------------------------------------------------------------

  /** Moving a slide reorders the deck: the same slides, the moved one at its new place, the others in their old order. */
  lemma MovedReorders<T>(slides: seq<T>, from: nat, to: int)
    requires from < |slides|
    ensures var r := Moved(slides, from, to); var p := InsertPos(|slides| - 1, to);
      && multiset(r) == multiset(slides)
      && p < |r| && r[p] == slides[from]
      && r[..p] + r[p + 1..] == slides[..from] + slides[from + 1..]
  {
    var rest := slides[..from] + slides[from + 1..];
    var p := InsertPos(|rest|, to);
    assert |rest| == |slides| - 1;
    assert Moved(slides, from, to) == rest[..p] + [slides[from]] + rest[p..];
    InsertedAround(rest, p, slides[from]);
    RemovedAround(slides, from);
  }

  /** Putting `x` at `p` of `rest`: `x` sits at `p`, the others keep their order, and the multiset grows by `x`. */
  lemma InsertedAround<T>(rest: seq<T>, p: nat, x: T)
    requires p <= |rest|
    ensures var r := rest[..p] + [x] + rest[p..];
      && p < |r| && r[p] == x
      && r[..p] + r[p + 1..] == rest
      && multiset(r) == multiset(rest) + multiset{x}
  {
    var r := rest[..p] + [x] + rest[p..];
    assert r[..p] == rest[..p];
    assert r[p + 1..] == rest[p..];
    assert rest == rest[..p] + rest[p..];
  }

  /** Taking out the element at `from` leaves a sequence whose multiset lacks just that element. */
  lemma RemovedAround<T>(slides: seq<T>, from: nat)
    requires from < |slides|
    ensures multiset(slides[..from] + slides[from + 1..]) + multiset{slides[from]} == multiset(slides)
  {
    assert slides == slides[..from] + [slides[from]] + slides[from + 1..];
  }


  /** Moving a slide to where it already is changes nothing. */
  lemma MovedInPlace<T>(slides: seq<T>, i: nat)
    requires i < |slides|
    ensures Moved(slides, i, i) == slides
  {
    var rest := slides[..i] + slides[i + 1..];
    assert rest[..i] == slides[..i];
    assert rest[i..] == slides[i + 1..];
    assert slides == slides[..i] + [slides[i]] + slides[i + 1..];
  }

  // ---------------------------------------------------------------------
  // Placeholders of the new slide
  // ---------------------------------------------------------------------

  /** A placeholder is the one the index keeps for its `idx` unless a later placeholder has the same `idx`. */
  lemma {:induction false} PhIndexLastWins(shapes: seq<SlideShape>, n: nat, j: nat)
    requires j < n <= |shapes| && shapes[j].isPlaceholder
    ensures var m := PhIndex(shapes, n);
      && shapes[j].phIdx in m
      && (m[shapes[j].phIdx] == shapes[j] || exists l :: j < l < n && shapes[l].isPlaceholder && shapes[l].phIdx == shapes[j].phIdx)
  {
    PhIndexHolds(shapes, n);
    if j < n - 1 {
      PhIndexLastWins(shapes, n - 1, j);
      var s := shapes[n - 1];
      if s.isPlaceholder && s.phIdx == shapes[j].phIdx {
        assert j < n - 1 < n;
      }
    }
  }

  /** The placeholders the shape loop keeps are exactly those a source placeholder found by its `idx`. */
  lemma {:induction false} KeptSetMeaning(srcs: seq<ShapeData>, n: nat, ph: map<int, SlideShape>, x: SlideShape)
    requires n <= |srcs|
    ensures x in KeptSet(srcs, n, ph) <==> exists i :: 0 <= i < n && Matched(srcs[i], ph) && ph[srcs[i].phIdx] == x
  {
    if n > 0 {
      KeptSetMeaning(srcs, n - 1, ph, x);
      if Matched(srcs[n - 1], ph) && ph[srcs[n - 1].phIdx] == x {
        assert 0 <= n - 1 < n;
      }
    }
  }

  /** After the copies a matched placeholder carries the name of the last source placeholder with its `idx`, and that source's position, own or inherited, in its `spPr`. */
  lemma AbsorbTakesLast(v: ShapeVal, texts: bool, ms: seq<ShapeData>)
    ensures ms == [] ==> Absorb(v, texts, ms) == v
    ensures Absorb(v, texts, ms).inherited == v.inherited
    ensures ms != [] ==>
      var last := ms[|ms| - 1];
      var prev := Absorb(v, texts, ms[..|ms| - 1]);
      var r := Absorb(v, texts, ms);
      && r.name == last.name
      && (Position(last).Some? && (First(last.children, SpPr).Some? || First(prev.children, SpPr).Some?) ==> OwnXfrm(r.children) == Position(last))
  {
    if ms != [] {
      var last := ms[|ms| - 1];
      var prev := Absorb(v, texts, ms[..|ms| - 1]);
      AbsorbTakesLast(v, texts, ms[..|ms| - 1]);
      PlaceholderTakesPosition(last, prev.children, last.hasTextFrame && texts);
    }
  }

  // ---------------------------------------------------------------------
  // Positions
  // ---------------------------------------------------------------------

  /** Setting the position changes the `xfrm` of the first `spPr` and nothing else; without an `spPr` nothing changes. */
  lemma SetXfrmPlaces(cs: seq<Node>, g: Geometry)
    ensures var r := SetXfrm(cs, g);
      && (forall j :: 0 <= j < |cs| ==> r[j].tag == cs[j].tag && r[j].content == cs[j].content)
      && (forall j :: 0 <= j < |cs| && FindTag(cs, SpPr) != Some(j) ==> r[j] == cs[j])
      && (First(cs, SpPr).Some? ==> First(r, SpPr) == Some(First(cs, SpPr).value.(xfrm := Some(g))))
      && (First(cs, SpPr).None? ==> r == cs)
  {
    var r := SetXfrm(cs, g);
    FindTagSameTags(cs, r, SpPr);
  }

  /** `find` looks only at tags: children with the same tags, index by index, give the same answer. */
  lemma {:induction false} FindTagSameTags(a: seq<Node>, b: seq<Node>, t: Tag)
    requires |a| == |b| && forall j :: 0 <= j < |a| ==> a[j].tag == b[j].tag
    ensures FindTag(a, t) == FindTag(b, t)
  {
    if a != [] && a[0].tag != t {
      FindTagSameTags(a[1..], b[1..], t);
    }
  }

  /**
   * `_copy_placeholder_content` ends by writing the source's position, its own
   * or the one it inherits, into the destination's `spPr`: the destination then
   * shows that position, and its `spPr` is the source's with that position.
   */
  lemma PlaceholderTakesPosition(src: ShapeData, dst: seq<Node>, texts: bool)
    ensures var r := WithPosition(PlaceholderChildren(src.children, dst, texts), Position(src));
      && (Position(src).Some? && (First(src.children, SpPr).Some? || First(dst, SpPr).Some?) ==> OwnXfrm(r) == Position(src))
      && (Position(src).Some? && First(src.children, SpPr).Some? ==> First(r, SpPr) == Some(First(src.children, SpPr).value.(xfrm := Position(src))))
      && (Position(src).None? ==> r == PlaceholderChildren(src.children, dst, texts))
  {
    var c := PlaceholderChildren(src.children, dst, texts);
    PlaceholderTakesSource(src.children, dst, texts);
    if Position(src).Some? {
      SetXfrmPlaces(c, Position(src).value);
    }
  }

  /**
   * Where `duplicate_shape` puts its copy: a clone stands where the source
   * stands; any other copy stands where the copied `spPr` says, which is the
   * source's own `xfrm` (a picture whose new element has no `spPr` has none).
   * So a placeholder that shows only its layout's position yields a copy
   * with no position at all.
   */
  lemma CopyPosition(shape: ShapeData, copy: ShapeData, blank: seq<Node>)
    requires shape.kind != Complex ==> First(shape.children, SpPr).Some?
    requires copy.children == CopyChildren(shape.kind, shape.children, shape.hasTextFrame, blank)
    requires copy.isPlaceholder == (shape.kind == Complex && shape.isPlaceholder)
    requires copy.inherited == (if shape.kind == Complex then shape.inherited else None)
    ensures Position(copy) ==
      if shape.kind == Complex then Position(shape)
      else if shape.kind == Picture && First(blank, SpPr).None? then None
      else OwnXfrm(shape.children)
    ensures shape.kind != Complex && shape.isPlaceholder && OwnXfrm(shape.children).None? && shape.inherited.Some? ==>
      Position(shape).Some? && Position(copy).None?
  {
    var src := shape.children;
    var r := copy.children;
    if shape.kind != Complex && !(shape.kind == Picture && First(blank, SpPr).None?) {
      var p := First(src, SpPr).value;
      FindTagFinds(src, SpPr);
      if shape.kind == AutoShape || shape.kind == TextBox {
        AutoShapeChildrenOnly(src, blank, shape.hasTextFrame, SpPr);
      } else {
        PutChildOnly(blank, p, 1, SpPr);
      }
      FirstIsHead(r, SpPr);
    }
  }

  /** `duplicate_slide` raises AttributeError exactly when some source graphic frame matches a placeholder of the new slide, at the first such shape. */
  lemma RaisesIffGraphicFrameMatched(srcs: seq<ShapeData>, ph: map<int, SlideShape>)
    ensures Reached(srcs, ph) < |srcs| <==> exists i :: 0 <= i < |srcs| && srcs[i].kind == Complex && Matched(srcs[i], ph)
    ensures Reached(srcs, ph) < |srcs| ==> srcs[Reached(srcs, ph)].kind == Complex && srcs[Reached(srcs, ph)].isPlaceholder
  {
    var n := Reached(srcs, ph);
    if n < |srcs| {
      assert srcs[n].kind == Complex && Matched(srcs[n], ph);
    }
  }
}
