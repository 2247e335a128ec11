/**
 * The slide and shape helpers. A shape's XML element is a sequence of
 * tagged child nodes (`spPr`, `p:style`, `txBody`, ...), each an opaque
 * subtree; deep copies are values. Shapes and slides are objects the helpers
 * change in place: a copy replaces a child where it stands, or inserts it
 * at a fixed place when it is missing.
 */
module PptUtils {
  import opened Strings

  // ---------------------------------------------------------------------
  // Element children
  // ---------------------------------------------------------------------

  datatype Tag = NvSpPr | SpPr | Style | TxBody | OtherTag(name: string)

  /** A shape's position: offset and extent, as an `a:xfrm` element holds them. */
  datatype Geometry = Geometry(left: int, top: int, width: int, height: int)

  /**
   * A child element: its tag, its (opaque) subtree and, for `spPr`, the
   * position its `a:xfrm` holds (`None` when it holds none). A deep copy of
   * an `spPr` carries that position with it.
   */
  datatype Node = Node(tag: Tag, content: string, xfrm: Option<Geometry>)

  /** The position of the first child with the tag, as `find` and the `spPr`/`txBody` properties return it. */
  function FindTag(cs: seq<Node>, tag: Tag): (r: Option<nat>)
    ensures r.Some? ==> r.value < |cs| && cs[r.value].tag == tag && forall j :: 0 <= j < r.value ==> cs[j].tag != tag
    ensures r.None? ==> forall j :: 0 <= j < |cs| ==> cs[j].tag != tag
  {
    if cs == [] then None
    else if cs[0].tag == tag then Some(0)
    else match FindTag(cs[1..], tag)
      case None => None
      case Some(i) => Some(i + 1)
  }

  /** The first child with the tag, if any. */
  function First(cs: seq<Node>, tag: Tag): Option<Node> {
    match FindTag(cs, tag)
    case None => None
    case Some(i) => Some(cs[i])
  }

  /** `insert(i, x)`: at position `i`, or at the end when `i` is past it. */
  function InsertAt(cs: seq<Node>, i: nat, x: Node): (r: seq<Node>)
    ensures |r| == |cs| + 1
  {
    if i >= |cs| then cs + [x] else cs[..i] + [x] + cs[i..]
  }

  /** `remove` of the child at position `i`. */
  function RemoveAt(cs: seq<Node>, i: nat): (r: seq<Node>)
    requires i < |cs|
    ensures |r| == |cs| - 1
  {
    cs[..i] + cs[i + 1..]
  }

  /**
   * Putting a copy in: where a child with its tag exists, the copy takes its
   * position (it is removed, and the copy inserted at its index); otherwise
   * the copy is inserted at `pos`.
   */
  function PutChild(cs: seq<Node>, node: Node, pos: nat): seq<Node> {
    match FindTag(cs, node.tag)
    case Some(j) => InsertAt(RemoveAt(cs, j), j, node)
    case None => InsertAt(cs, pos, node)
  }

  /** Removing the first `p:style` child, if there is one. */
  function DropStyle(cs: seq<Node>): seq<Node> {
    match FindTag(cs, Style)
    case Some(j) => RemoveAt(cs, j)
    case None => cs
  }

  /** Where a missing style goes: right after `spPr` when there is one, else at the end. */
  function StylePos(cs: seq<Node>): nat {
    match FindTag(cs, SpPr)
    case Some(k) => k + 1
    case None => |cs|
  }

  /** The position the shape's own `spPr` holds, if any. */
  function OwnXfrm(cs: seq<Node>): Option<Geometry> {
    match First(cs, SpPr)
    case Some(p) => p.xfrm
    case None => None
  }

  /** Setting `left`, `top`, `width` and `height`: they are written into the `xfrm` of the shape's `spPr`. */
  function SetXfrm(cs: seq<Node>, g: Geometry): (r: seq<Node>)
    ensures |r| == |cs|
  {
    match FindTag(cs, SpPr)
    case Some(k) => cs[k := cs[k].(xfrm := Some(g))]
    case None => cs
  }

  /** Setting the position to `p` when there is one to set. */
  function WithPosition(cs: seq<Node>, p: Option<Geometry>): (r: seq<Node>)
    ensures |r| == |cs|
  {
    match p
    case Some(g) => SetXfrm(cs, g)
    case None => cs
  }

  // ---------------------------------------------------------------------
  // What the copies do to the children
  // ---------------------------------------------------------------------

  /** The `txBody` step of `_copy_placeholder_content`: only between two shapes with text frames, appended when missing. */
  function CopyTxBody(src: seq<Node>, dst: seq<Node>, texts: bool): seq<Node> {
    match First(src, TxBody)
    case Some(t) => if texts then PutChild(dst, t, |dst|) else dst
    case None => dst
  }

  /** The `spPr` step: inserted at index 1 when missing. */
  function CopySpPr(src: seq<Node>, dst: seq<Node>): seq<Node> {
    match First(src, SpPr)
    case Some(p) => PutChild(dst, p, 1)
    case None => dst
  }

  /** The style step: the source's style replaces or joins after `spPr`; without one, the destination's goes. */
  function CopyStyle(src: seq<Node>, dst: seq<Node>): seq<Node> {
    match First(src, Style)
    case Some(s) => PutChild(dst, s, StylePos(dst))
    case None => DropStyle(dst)
  }

  /** `_copy_placeholder_content` on the children: text body, then shape properties, then style. */
  function PlaceholderChildren(src: seq<Node>, dst: seq<Node>, texts: bool): seq<Node> {
    CopyStyle(src, CopySpPr(src, CopyTxBody(src, dst, texts)))
  }

  /** The children of a copied auto shape or text box: shape properties, then style, then text body. */
  function AutoShapeChildren(src: seq<Node>, blank: seq<Node>, hasText: bool): seq<Node>
    requires First(src, SpPr).Some?
  {
    var withSpPr := PutChild(blank, First(src, SpPr).value, 1);
    CopyTxBody(src, CopyStyle(src, withSpPr), hasText)
  }

  /** The kinds `duplicate_shape` tells apart. */
  datatype ShapeKind = AutoShape | TextBox | Picture | Connector | Complex

  /** The children of the copy `duplicate_shape` makes, from the new element's own children `blank`. */
  function CopyChildren(kind: ShapeKind, src: seq<Node>, hasText: bool, blank: seq<Node>): seq<Node>
    requires kind != Complex ==> First(src, SpPr).Some?
  {
    match kind
    case AutoShape => AutoShapeChildren(src, blank, hasText)
    case TextBox => AutoShapeChildren(src, blank, hasText)
    case Picture =>
      if First(blank, SpPr).Some? then PutChild(blank, First(src, SpPr).value, 1) else blank
    case Connector => PutChild(blank, First(src, SpPr).value, 1)
    case Complex => src
  }

  /** The name of a copy: the source's, or the source's with `_copy_` and the first eight characters of a random hex token. */
  function CopyName(name: string, keepName: bool, hex: string): string {
    if keepName then name else name + "_copy_" + (if |hex| <= 8 then hex else hex[..8])
  }

  // ---------------------------------------------------------------------
  // Shapes and slides
  // ---------------------------------------------------------------------

  /**
   * What a shape is, as the copies read it (they never change their source).
   * `inherited` is the position a placeholder takes from its layout when its
   * own `spPr` holds none.
   */
  datatype ShapeData = ShapeData(
    kind: ShapeKind, isPlaceholder: bool, phIdx: int, hasTextFrame: bool,
    name: string, children: seq<Node>, inherited: Option<Geometry>)

  /** The shape's `left`, `top`, `width` and `height`: its own `xfrm`, else, for a placeholder, the inherited one. */
  function Position(s: ShapeData): (r: Option<Geometry>)
    ensures OwnXfrm(s.children).Some? ==> r == OwnXfrm(s.children)
    ensures OwnXfrm(s.children).None? && !s.isPlaceholder ==> r.None?
  {
    if OwnXfrm(s.children).Some? then OwnXfrm(s.children)
    else if s.isPlaceholder then s.inherited
    else None
  }

  /** A shape on a slide: what it is, whether it is a placeholder (and its `idx`, and the position it inherits), its name and children. */
  class SlideShape {
    const kind: ShapeKind
    const isPlaceholder: bool
    const phIdx: int
    const hasTextFrame: bool
    const inherited: Option<Geometry>
    var name: string
    var children: seq<Node>

    constructor (kind: ShapeKind, isPlaceholder: bool, phIdx: int, hasTextFrame: bool, inherited: Option<Geometry>, name: string, children: seq<Node>)
      ensures this.kind == kind && this.isPlaceholder == isPlaceholder && this.phIdx == phIdx && this.hasTextFrame == hasTextFrame
      ensures this.inherited == inherited && this.name == name && this.children == children
    {
      this.kind := kind;
      this.isPlaceholder := isPlaceholder;
      this.phIdx := phIdx;
      this.hasTextFrame := hasTextFrame;
      this.inherited := inherited;
      this.name := name;
      this.children := children;
    }

    function Data(): ShapeData
      reads this
    {
      ShapeData(kind, isPlaceholder, phIdx, hasTextFrame, name, children, inherited)
    }

    /** Put a copied child in: remove the old one and insert the copy at its index, or insert the copy at `pos`. */
    method Put(node: Node, pos: nat)
      modifies this
      ensures children == PutChild(old(children), node, pos)
      ensures name == old(name)
    {
      var found := FindTag(children, node.tag);
      if found.Some? {
        var idx := found.value;
        children := RemoveAt(children, idx);
        children := InsertAt(children, idx, node);
      } else {
        children := InsertAt(children, pos, node);
      }
    }

    /** Remove the first `p:style` child, if there is one. */
    method RemoveStyle()
      modifies this
      ensures children == DropStyle(old(children))
      ensures name == old(name)
    {
      var found := FindTag(children, Style);
      if found.Some? {
        children := RemoveAt(children, found.value);
      }
    }

    /** The style step of both copies: replace, insert at `StylePos`, or drop the destination's style. */
    method PutStyle(src: seq<Node>)
      modifies this
      ensures children == CopyStyle(src, old(children))
      ensures name == old(name)
    {
      var srcStyle := First(src, Style);
      var dstStyle := FindTag(children, Style);
      if srcStyle.Some? {
        if dstStyle.Some? {
          Put(srcStyle.value, 0);
        } else {
          var spPr := FindTag(children, SpPr);
          if spPr.Some? {
            Put(srcStyle.value, spPr.value + 1);
          } else {
            Put(srcStyle.value, |children|);
          }
        }
      } else if dstStyle.Some? {
        RemoveStyle();
      }
    }

    /** Set `left`, `top`, `width` and `height` to `g`: the `xfrm` of the shape's `spPr` holds `g` afterwards. */
    method SetPosition(g: Geometry)
      modifies this
      ensures children == SetXfrm(old(children), g)
      ensures name == old(name)
    {
      var found := FindTag(children, SpPr);
      if found.Some? {
        var k := found.value;
        children := children[k := children[k].(xfrm := Some(g))];
      }
    }
  }

  class Slide {
    var shapes: seq<SlideShape>

    constructor (shapes: seq<SlideShape>)
      ensures this.shapes == shapes
    {
      this.shapes := shapes;
    }
  }

  class Presentation {
    var slides: seq<Slide>

    constructor (slides: seq<Slide>)
      ensures this.slides == slides
    {
      this.slides := slides;
    }
  }

  /**
   * `_copy_placeholder_content`: text body, shape properties and style copied
   * over, then the position. A graphic frame (kind `Complex`) has no `spPr`
   * property: reading it raises AttributeError once the text-body step is
   * done, and `ok` is false.
   */
  method CopyPlaceholderContent(src: ShapeData, dst: SlideShape) returns (ok: bool)
    modifies dst
    ensures ok <==> src.kind != Complex
    ensures ok ==> dst.children == WithPosition(PlaceholderChildren(src.children, old(dst.children), src.hasTextFrame && dst.hasTextFrame), Position(src))
    ensures !ok ==> dst.children == CopyTxBody(src.children, old(dst.children), src.hasTextFrame && dst.hasTextFrame)
    ensures dst.name == old(dst.name)
  {
    var s := src.children;
    var pos := Position(src);
    var txBody := First(s, TxBody);
    if src.hasTextFrame && dst.hasTextFrame && txBody.Some? {
      dst.Put(txBody.value, |dst.children|);
    }
    if src.kind == Complex {
      return false;
    }
    var spPr := First(s, SpPr);
    if spPr.Some? {
      dst.Put(spPr.value, 1);
    }
    dst.PutStyle(s);
    if pos.Some? {
      dst.SetPosition(pos.value);
    }
    ok := true;
  }

  /**
   * `duplicate_shape`: a new shape of the same kind is added to the slide
   * (`blank` gives the children the library gives a new element of that
   * kind) and gets the source's properties, style and text; a complex shape
   * is cloned whole and not returned. The copy is named after the source.
   * It stands where the copied `spPr` says: it is no placeholder, so it
   * inherits no position.
   */
  method DuplicateShape(shape: ShapeData, slide: Slide, keepName: bool, blank: ShapeKind -> seq<Node>, hex: string)
    returns (r: Option<SlideShape>)
    requires shape.kind != Complex ==> First(shape.children, SpPr).Some?
    modifies slide
    ensures r.Some? <==> shape.kind != Complex
    ensures |slide.shapes| == |old(slide.shapes)| + 1 && slide.shapes[..|old(slide.shapes)|] == old(slide.shapes)
    ensures fresh(slide.shapes[|old(slide.shapes)|])
    ensures r.Some? ==> r.value == slide.shapes[|old(slide.shapes)|]
    ensures var c := slide.shapes[|old(slide.shapes)|];
      && c.kind == shape.kind
      && c.children == CopyChildren(shape.kind, shape.children, shape.hasTextFrame, blank(shape.kind))
      && c.name == (if shape.kind == Complex then shape.name else CopyName(shape.name, keepName, hex))
      && c.isPlaceholder == (shape.kind == Complex && shape.isPlaceholder)
      && c.inherited == (if shape.kind == Complex then shape.inherited else None)
  {
    var src := shape.children;
    var name := shape.name;
    if shape.kind == Complex {
      var clone := new SlideShape(Complex, shape.isPlaceholder, shape.phIdx, shape.hasTextFrame, shape.inherited, name, src);
      slide.shapes := slide.shapes + [clone];
      return None;
    }
    var textFrame := shape.kind == AutoShape || shape.kind == TextBox;
    var c := new SlideShape(shape.kind, false, 0, textFrame, None, "", blank(shape.kind));
    slide.shapes := slide.shapes + [c];
    var spPr := First(src, SpPr).value;
    if shape.kind == AutoShape || shape.kind == TextBox {
      c.Put(spPr, 1);
      c.PutStyle(src);
      var txBody := First(src, TxBody);
      if shape.hasTextFrame && txBody.Some? {
        c.Put(txBody.value, |c.children|);
      }
    } else if shape.kind == Picture {
      if First(c.children, SpPr).Some? {
        c.Put(spPr, 1);
      }
    } else {
      c.Put(spPr, 1);
    }
    if keepName {
      c.name := name;
    } else {
      c.name := name + "_copy_" + (if |hex| <= 8 then hex else hex[..8]);
    }
    r := Some(c);
  }

  // ---------------------------------------------------------------------
  // Moving a slide
  // ---------------------------------------------------------------------

  /** The position `insert(i, x)` puts `x` at in a list of `len` elements: a negative `i` counts from the end, and an `i` past either end appends. */
  function InsertPos(len: nat, i: int): (p: nat)
    ensures p <= len
  {
    if i >= 0 then (if i <= len then i else len)
    else if len + i >= 0 then len + i
    else len
  }

  /** Python's `slides[i]`: the element at `i`, a negative `i` counting from the end. */
  function ListIndex(len: nat, i: int): Option<nat> {
    if 0 <= i < len then Some(i)
    else if i < 0 && len + i >= 0 then Some(len + i)
    else None
  }

  /** The slide list after the move: the slide at the old position taken out and put back in at the new one. */
  function Moved<T>(slides: seq<T>, from: nat, to: int): seq<T>
    requires from < |slides|
  {
    var rest := slides[..from] + slides[from + 1..];
    var p := InsertPos(|rest|, to);
    rest[..p] + [slides[from]] + rest[p..]
  }

  /** `move_slide`: an old index out of range raises IndexError and changes nothing. */
  method MoveSlide(pres: Presentation, oldIndex: int, newIndex: int) returns (ok: bool)
    modifies pres
    ensures ok <==> ListIndex(|old(pres.slides)|, oldIndex).Some?
    ensures ok ==> pres.slides == Moved(old(pres.slides), ListIndex(|old(pres.slides)|, oldIndex).value, newIndex)
    ensures !ok ==> pres.slides == old(pres.slides)
  {
    var slides := pres.slides;
    var from := ListIndex(|slides|, oldIndex);
    if from.None? {
      return false;
    }
    var moving := slides[from.value];
    var rest := slides[..from.value] + slides[from.value + 1..];
    var p := InsertPos(|rest|, newIndex);
    pres.slides := rest[..p] + [moving] + rest[p..];
    ok := true;
  }

  // ---------------------------------------------------------------------
  // Duplicating a slide
  // ---------------------------------------------------------------------

  /** The destination's placeholders by `idx`, after the first `n` shapes: a later placeholder replaces an earlier one. */
  function PhIndex(shapes: seq<SlideShape>, n: nat): map<int, SlideShape>
    requires n <= |shapes|
  {
    if n == 0 then map[]
    else
      var m := PhIndex(shapes, n - 1);
      var s := shapes[n - 1];
      if s.isPlaceholder then m[s.phIdx := s] else m
  }

  /** The index holds placeholders of the slide, each under its own `idx`, and every placeholder's `idx` is a key. */
  lemma {:induction false} PhIndexHolds(shapes: seq<SlideShape>, n: nat)
    requires n <= |shapes|
    ensures forall k :: k in PhIndex(shapes, n) ==>
      PhIndex(shapes, n)[k] in shapes[..n] && PhIndex(shapes, n)[k].isPlaceholder && PhIndex(shapes, n)[k].phIdx == k
    ensures forall j :: 0 <= j < n && shapes[j].isPlaceholder ==> shapes[j].phIdx in PhIndex(shapes, n)
  {
    if n > 0 {
      PhIndexHolds(shapes, n - 1);
      assert shapes[..n - 1] <= shapes[..n];
    }
  }

  /** The `dest_placeholders` loop. */
  method BuildPlaceholderMap(shapes: seq<SlideShape>) returns (m: map<int, SlideShape>)
    ensures m == PhIndex(shapes, |shapes|)
  {
    m := map[];
    for i := 0 to |shapes|
      invariant m == PhIndex(shapes, i)
    {
      var shape := shapes[i];
      if shape.isPlaceholder {
        m := m[shape.phIdx := shape];
      }
    }
  }

  /** A source shape that finds its destination placeholder. */
  predicate Matched(s: ShapeData, ph: map<int, SlideShape>) {
    s.isPlaceholder && s.phIdx in ph
  }

  /** The destination placeholders the first `n` source shapes matched. */
  function KeptSet(srcs: seq<ShapeData>, n: nat, ph: map<int, SlideShape>): set<SlideShape>
    requires n <= |srcs|
  {
    if n == 0 then {}
    else if Matched(srcs[n - 1], ph) then KeptSet(srcs, n - 1, ph) + {ph[srcs[n - 1].phIdx]}
    else KeptSet(srcs, n - 1, ph)
  }

  /** The source shapes among the first `n` that are duplicated, in order. */
  function Unmatched(srcs: seq<ShapeData>, n: nat, ph: map<int, SlideShape>): (r: seq<ShapeData>)
    requires n <= |srcs|
    ensures HasSpPr(srcs) ==> HasSpPr(r)
  {
    if n == 0 then []
    else if Matched(srcs[n - 1], ph) then Unmatched(srcs, n - 1, ph)
    else Unmatched(srcs, n - 1, ph) + [srcs[n - 1]]
  }

  /** The source placeholders among the first `n` with the given `idx`, in order. */
  function Matches(srcs: seq<ShapeData>, n: nat, idx: int): seq<ShapeData>
    requires n <= |srcs|
  {
    if n == 0 then []
    else if srcs[n - 1].isPlaceholder && srcs[n - 1].phIdx == idx then Matches(srcs, n - 1, idx) + [srcs[n - 1]]
    else Matches(srcs, n - 1, idx)
  }

  /** The shape the index holds for its own `idx`. */
  predicate IsRep(d: SlideShape, ph: map<int, SlideShape>) {
    d.isPlaceholder && d.phIdx in ph && ph[d.phIdx] == d
  }

  /** A source shape the shape loop raises on: a graphic frame (kind `Complex`) that matches a placeholder of the new slide. */
  predicate Fails(s: ShapeData, ph: map<int, SlideShape>) {
    Matched(s, ph) && s.kind == Complex
  }

  /** How far the shape loop gets: the position of the first source shape it raises on, or the number of source shapes. */
  function Reached(srcs: seq<ShapeData>, ph: map<int, SlideShape>): (n: nat)
    ensures n <= |srcs|
    ensures forall i :: 0 <= i < n ==> !Fails(srcs[i], ph)
    ensures n < |srcs| ==> Fails(srcs[n], ph)
  {
    if srcs == [] then 0
    else if Fails(srcs[0], ph) then 0
    else 1 + Reached(srcs[1..], ph)
  }

  /** The loop gets past a source shape it does not raise on, and stops at the first one it raises on. */
  lemma ReachedStep(srcs: seq<ShapeData>, ph: map<int, SlideShape>, i: nat)
    requires i < |srcs| && i <= Reached(srcs, ph)
    ensures !Fails(srcs[i], ph) ==> i + 1 <= Reached(srcs, ph)
    ensures Fails(srcs[i], ph) ==> Reached(srcs, ph) == i
  {}

  /** The source shapes that are copied into `d`: none unless `d` is the indexed placeholder of its `idx`. */
  function MatchesFor(d: SlideShape, ph: map<int, SlideShape>, srcs: seq<ShapeData>, n: nat): seq<ShapeData>
    requires n <= |srcs|
  {
    if IsRep(d, ph) then Matches(srcs, n, d.phIdx) else []
  }

  function FilterOut(shapes: seq<SlideShape>, drop: set<SlideShape>): seq<SlideShape> {
    if shapes == [] then []
    else if shapes[|shapes| - 1] in drop then FilterOut(shapes[..|shapes| - 1], drop)
    else FilterOut(shapes[..|shapes| - 1], drop) + [shapes[|shapes| - 1]]
  }

  lemma {:induction false} FilterOutNothing(shapes: seq<SlideShape>)
    ensures FilterOut(shapes, {}) == shapes
  {
    if shapes != [] {
      FilterOutNothing(shapes[..|shapes| - 1]);
    }
  }

  function FilterIn(shapes: seq<SlideShape>, keep: set<SlideShape>): seq<SlideShape> {
    if shapes == [] then []
    else if shapes[|shapes| - 1] in keep then FilterIn(shapes[..|shapes| - 1], keep) + [shapes[|shapes| - 1]]
    else FilterIn(shapes[..|shapes| - 1], keep)
  }

  /** `list.remove(x)`: the first occurrence goes. */
  function RemoveFirst(shapes: seq<SlideShape>, x: SlideShape): seq<SlideShape> {
    if shapes == [] then []
    else if shapes[0] == x then shapes[1..]
    else [shapes[0]] + RemoveFirst(shapes[1..], x)
  }

  lemma {:induction false} RemoveFirstAbsent(shapes: seq<SlideShape>, x: SlideShape)
    requires x !in shapes
    ensures RemoveFirst(shapes, x) == shapes
  {
    if shapes != [] {
      RemoveFirstAbsent(shapes[1..], x);
    }
  }

  lemma {:induction false} RemoveFirstConcat(a: seq<SlideShape>, c: seq<SlideShape>, x: SlideShape)
    requires x !in c
    ensures RemoveFirst(a + c, x) == RemoveFirst(a, x) + c
  {
    if a == [] {
      assert a + c == c;
      RemoveFirstAbsent(c, x);
    } else {
      assert (a + c)[1..] == a[1..] + c;
      RemoveFirstConcat(a[1..], c, x);
    }
  }

  lemma {:induction false} FilterOutMember(shapes: seq<SlideShape>, drop: set<SlideShape>, x: SlideShape)
    ensures x in FilterOut(shapes, drop) <==> x in shapes && x !in drop
  {
    if shapes != [] {
      FilterOutMember(shapes[..|shapes| - 1], drop, x);
      assert shapes == shapes[..|shapes| - 1] + [shapes[|shapes| - 1]];
    }
  }

  /** Dropping one more shape from a list without repeats is `list.remove` of it (which does nothing when it is not there). */
  lemma {:induction false} FilterOutAdd(shapes: seq<SlideShape>, drop: set<SlideShape>, x: SlideShape)
    requires Distinct(shapes)
    ensures FilterOut(shapes, drop + {x}) == RemoveFirst(FilterOut(shapes, drop), x)
  {
    if shapes != [] {
      var p, y := shapes[..|shapes| - 1], shapes[|shapes| - 1];
      FilterOutAdd(p, drop, x);
      var f := FilterOut(p, drop);
      if y !in drop {
        if x in f {
          FilterOutMember(p, drop, x);
          assert x != y;
          RemoveFirstConcat(f, [y], x);
        } else {
          RemoveFirstAbsent(f, x);
          if y == x {
            assert [y][0] == x;
            RemoveFirstConcat(f, [], x);
            assert f + [y] == f + [y];
            RemoveFirstAppendSelf(f, x);
          } else {
            RemoveFirstConcat(f, [y], x);
          }
        }
      }
    }
  }

  lemma RemoveFirstAppendSelf(a: seq<SlideShape>, x: SlideShape)
    requires x !in a
    ensures RemoveFirst(a + [x], x) == a
  {
    if a == [] {
    } else {
      assert (a + [x])[1..] == a[1..] + [x];
      RemoveFirstAppendSelf(a[1..], x);
    }
  }

  /** Dropping exactly the shapes outside `keep` is keeping those in it. */
  lemma {:induction false} FilterComplement(shapes: seq<SlideShape>, drop: set<SlideShape>, keep: set<SlideShape>)
    requires forall x :: x in shapes ==> (x in drop <==> x !in keep)
    ensures FilterOut(shapes, drop) == FilterIn(shapes, keep)
  {
    if shapes != [] {
      var p := shapes[..|shapes| - 1];
      assert forall x :: x in p ==> x in shapes;
      FilterComplement(p, drop, keep);
    }
  }

  /** What the copies change of a shape, and the position it inherits. */
  datatype ShapeVal = ShapeVal(name: string, children: seq<Node>, inherited: Option<Geometry>)

  function Snap(s: SlideShape): ShapeVal
    reads s
  {
    ShapeVal(s.name, s.children, s.inherited)
  }

  /** A destination placeholder after the matching source shapes were copied in, one after the other. */
  function Absorb(v: ShapeVal, texts: bool, ms: seq<ShapeData>): ShapeVal {
    if ms == [] then v else AbsorbOne(Absorb(v, texts, ms[..|ms| - 1]), texts, ms[|ms| - 1])
  }

  /** One source placeholder copied in: its content, its position, then its name. */
  function AbsorbOne(v: ShapeVal, texts: bool, m: ShapeData): ShapeVal {
    ShapeVal(m.name, WithPosition(PlaceholderChildren(m.children, v.children, m.hasTextFrame && texts), Position(m)), v.inherited)
  }

  /** A source placeholder that raises in `_copy_placeholder_content`: only its text-body step was done. */
  function AbsorbFail(v: ShapeVal, texts: bool, m: ShapeData): ShapeVal {
    v.(children := CopyTxBody(m.children, v.children, m.hasTextFrame && texts))
  }

  /**
   * A shape of the new slide when the shape loop raised at source shape `f`:
   * what the earlier sources copied into it, then, if it is the placeholder
   * source `f` matched, the text-body step of source `f`.
   */
  function AfterFailure(v: ShapeVal, e: SlideShape, ph: map<int, SlideShape>, srcs: seq<ShapeData>, f: nat): ShapeVal
    requires f < |srcs|
  {
    var a := Absorb(v, e.hasTextFrame, MatchesFor(e, ph, srcs, f));
    if Matched(srcs[f], ph) && ph[srcs[f].phIdx] == e then AbsorbFail(a, e.hasTextFrame, srcs[f]) else a
  }

  /** What `duplicate_shape` with `keep_name` makes of a source shape. */
  function CopyOf(s: ShapeData, blank: ShapeKind -> seq<Node>): ShapeVal
    requires s.kind != Complex ==> First(s.children, SpPr).Some?
  {
    ShapeVal(s.name, CopyChildren(s.kind, s.children, s.hasTextFrame, blank(s.kind)), if s.kind == Complex then s.inherited else None)
  }

  predicate Distinct(shapes: seq<SlideShape>) {
    forall i, j :: 0 <= i < j < |shapes| ==> shapes[i] != shapes[j]
  }

  predicate HasSpPr(shapes: seq<ShapeData>) {
    forall s :: s in shapes && s.kind != Complex ==> First(s.children, SpPr).Some?
  }

  /** Each copy is a new shape made from its source. */
  predicate CopiesOf(copies: seq<SlideShape>, sources: seq<ShapeData>, blank: ShapeKind -> seq<Node>)
    requires HasSpPr(sources)
    reads set s | s in copies
  {
    |copies| == |sources| && forall k :: 0 <= k < |copies| ==> Snap(copies[k]) == CopyOf(sources[k], blank)
  }

  lemma CopiesOfExtend(copies: seq<SlideShape>, sources: seq<ShapeData>, c: SlideShape, u: ShapeData, blank: ShapeKind -> seq<Node>)
    requires HasSpPr(sources + [u]) && HasSpPr(sources)
    requires CopiesOf(copies, sources, blank) && Snap(c) == CopyOf(u, blank)
    ensures CopiesOf(copies + [c], sources + [u], blank)
  {
  }

  function Elems(shapes: seq<SlideShape>): set<SlideShape> {
    set x | x in shapes
  }

  /** The shapes of a slide as they are when the copying starts. */
  function Datas(shapes: seq<SlideShape>): (r: seq<ShapeData>)
    reads Elems(shapes)
    ensures |r| == |shapes| && forall k :: 0 <= k < |r| ==> r[k] == shapes[k].Data()
  {
    seq(|shapes|, k requires 0 <= k < |shapes| reads Elems(shapes) => shapes[k].Data())
  }

  /** How `duplicate_slide` ends: with the new slide, or with the exception it raises. */
  datatype SlideOutcome = Duplicated(slide: Slide) | IndexError | AttributeError

  /**
   * `duplicate_slide`: the slide at `index` (a negative index counts from the
   * end) is copied onto `dest`, the new slide that `add_slide` made from its
   * layout and appended to the presentation. An index out of range raises
   * IndexError before any slide is added. A graphic frame matched to a
   * placeholder of the new slide raises AttributeError in the shape loop;
   * the new slide stays in the deck as far as the loop had filled it, and
   * no shape is removed from it. The source slide is never changed.
   */
  method DuplicateSlide(pres: Presentation, index: int, dest: Slide, blank: ShapeKind -> seq<Node>) returns (r: SlideOutcome)
    requires dest !in pres.slides && Distinct(dest.shapes)
    requires ListIndex(|pres.slides|, index).Some? ==>
      var source := pres.slides[ListIndex(|pres.slides|, index).value];
      HasSpPr(Datas(source.shapes)) && forall s :: s in source.shapes ==> s !in dest.shapes
    modifies pres, dest, set s | s in dest.shapes
    ensures r.IndexError? <==> ListIndex(|old(pres.slides)|, index).None?
    ensures r.IndexError? ==> pres.slides == old(pres.slides) && dest.shapes == old(dest.shapes)
    ensures !r.IndexError? ==> pres.slides == old(pres.slides) + [dest]
    ensures r.Duplicated? ==> r.slide == dest
    ensures !r.IndexError? ==>
      var source := old(pres.slides[ListIndex(|pres.slides|, index).value]);
      && source.shapes == old(source.shapes)
      && forall s :: s in source.shapes ==> unchanged(s)
    ensures !r.IndexError? ==>
      var srcs := old(Datas(pres.slides[ListIndex(|pres.slides|, index).value].shapes));
      var ph := PhIndex(old(dest.shapes), |old(dest.shapes)|);
      r.AttributeError? <==> Reached(srcs, ph) < |srcs|
    ensures r.Duplicated? ==>
      var srcs := old(Datas(pres.slides[ListIndex(|pres.slides|, index).value].shapes));
      var ph := PhIndex(old(dest.shapes), |old(dest.shapes)|);
      var kept := FilterIn(old(dest.shapes), KeptSet(srcs, |srcs|, ph));
      && |kept| <= |dest.shapes| && dest.shapes[..|kept|] == kept
      && (forall k :: |kept| <= k < |dest.shapes| ==> fresh(dest.shapes[k]))
      && CopiesOf(dest.shapes[|kept|..], Unmatched(srcs, |srcs|, ph), blank)
      && (forall d :: d in old(dest.shapes) ==> Snap(d) == Absorb(old(Snap(d)), d.hasTextFrame, MatchesFor(d, ph, srcs, |srcs|)))
    ensures r.AttributeError? ==>
      var srcs := old(Datas(pres.slides[ListIndex(|pres.slides|, index).value].shapes));
      var ph := PhIndex(old(dest.shapes), |old(dest.shapes)|);
      var f := Reached(srcs, ph);
      && f < |srcs|
      && |old(dest.shapes)| <= |dest.shapes| && dest.shapes[..|old(dest.shapes)|] == old(dest.shapes)
      && (forall k :: |old(dest.shapes)| <= k < |dest.shapes| ==> fresh(dest.shapes[k]))
      && CopiesOf(dest.shapes[|old(dest.shapes)|..], Unmatched(srcs, f, ph), blank)
      && (forall d :: d in old(dest.shapes) ==> Snap(d) == AfterFailure(old(Snap(d)), d, ph, srcs, f))
  {
    var j := ListIndex(|pres.slides|, index);
    if j.None? {
      return IndexError;
    }
    var srcs := Datas(pres.slides[j.value].shapes);
    pres.slides := pres.slides + [dest];
    var ok := Transplant(srcs, dest, blank);
    r := if ok then Duplicated(dest) else AttributeError;
  }

  /**
   * The shape loop and the clean-up of `duplicate_slide`, on the new slide
   * `dest` that `add_slide` made: a source placeholder whose `idx` the new
   * slide has is copied into that placeholder, which takes its name; any
   * other source shape is duplicated onto the new slide under its own name;
   * the new slide's shapes that no source shape matched are removed.
   */
  method Transplant(srcs: seq<ShapeData>, dest: Slide, blank: ShapeKind -> seq<Node>) returns (ok: bool)
    requires Distinct(dest.shapes) && HasSpPr(srcs)
    modifies dest, set s | s in dest.shapes
    ensures ok <==> Reached(srcs, PhIndex(old(dest.shapes), |old(dest.shapes)|)) == |srcs|
    ensures ok ==> var ph := PhIndex(old(dest.shapes), |old(dest.shapes)|); var kept := FilterIn(old(dest.shapes), KeptSet(srcs, |srcs|, ph));
      && |kept| <= |dest.shapes| && dest.shapes[..|kept|] == kept
      && (forall k :: |kept| <= k < |dest.shapes| ==> fresh(dest.shapes[k]))
      && CopiesOf(dest.shapes[|kept|..], Unmatched(srcs, |srcs|, ph), blank)
      && (forall d :: d in old(dest.shapes) ==> Snap(d) == Absorb(old(Snap(d)), d.hasTextFrame, MatchesFor(d, ph, srcs, |srcs|)))
    ensures !ok ==> var ph := PhIndex(old(dest.shapes), |old(dest.shapes)|); var f := Reached(srcs, ph);
      && f < |srcs|
      && |old(dest.shapes)| <= |dest.shapes| && dest.shapes[..|old(dest.shapes)|] == old(dest.shapes)
      && (forall k :: |old(dest.shapes)| <= k < |dest.shapes| ==> fresh(dest.shapes[k]))
      && CopiesOf(dest.shapes[|old(dest.shapes)|..], Unmatched(srcs, f, ph), blank)
      && (forall d :: d in old(dest.shapes) ==> Snap(d) == AfterFailure(old(Snap(d)), d, ph, srcs, f))
  {
    var initial := dest.shapes;
    var ph := BuildPlaceholderMap(dest.shapes);
    var toRemove;
    toRemove, ok := MatchShapes(srcs, dest, ph, blank);
    if !ok {
      forall d | d in initial
        ensures Snap(d) == AfterFailure(old(Snap(d)), d, ph, srcs, Reached(srcs, ph))
      {
        var k :| 0 <= k < |initial| && initial[k] == d;
      }
      return;
    }
    ghost var created := dest.shapes[|initial|..];
    assert dest.shapes == initial + created;
    ghost var keep := KeptSet(srcs, |srcs|, ph);
    forall t | t in toRemove
      ensures t !in created
    {
      FilterOutMember(initial, keep, t);
    }
    RemoveShapes(dest, toRemove, initial, created);
    forall x | x in initial
      ensures x in Elems(toRemove) <==> x !in keep
    {
      FilterOutMember(initial, keep, x);
    }
    FilterComplement(initial, Elems(toRemove), keep);
    forall d | d in initial
      ensures Snap(d) == Absorb(old(Snap(d)), d.hasTextFrame, MatchesFor(d, ph, srcs, |srcs|))
    {
      var k :| 0 <= k < |initial| && initial[k] == d;
    }
  }

  /** Each shape of `initial` holds, over its state `snaps` before the shape loop, what the first `i` source shapes copied into it. */
  ghost predicate AbsorbedSoFar(initial: seq<SlideShape>, snaps: seq<ShapeVal>, ph: map<int, SlideShape>, srcs: seq<ShapeData>, i: nat)
    requires i <= |srcs|
    reads Elems(initial)
  {
    && |snaps| == |initial|
    && forall k :: 0 <= k < |initial| ==>
         Snap(initial[k]) == Absorb(snaps[k], initial[k].hasTextFrame, MatchesFor(initial[k], ph, srcs, i))
  }

  /** A source shape that matched no placeholder copies nothing into the new slide's shapes. */
  lemma AbsorbedSkip(initial: seq<SlideShape>, snaps: seq<ShapeVal>, ph: map<int, SlideShape>, srcs: seq<ShapeData>, i: nat)
    requires i < |srcs| && !Matched(srcs[i], ph)
    requires AbsorbedSoFar(initial, snaps, ph, srcs, i)
    ensures AbsorbedSoFar(initial, snaps, ph, srcs, i + 1)
  {
    forall k | 0 <= k < |initial|
      ensures MatchesFor(initial[k], ph, srcs, i + 1) == MatchesFor(initial[k], ph, srcs, i)
    {}
  }

  /** A source placeholder is copied into the placeholder `d` the index holds for its `idx`, and into no other shape. */
  method AbsorbStep(srcs: seq<ShapeData>, i: nat, ph: map<int, SlideShape>, ghost initial: seq<SlideShape>, ghost snaps: seq<ShapeVal>, d: SlideShape)
    returns (ok: bool)
    requires i < |srcs| && srcs[i].isPlaceholder && d.isPlaceholder && d.phIdx == srcs[i].phIdx
    requires d.phIdx in ph && ph[d.phIdx] == d
    requires AbsorbedSoFar(initial, snaps, ph, srcs, i)
    modifies d
    ensures ok <==> srcs[i].kind != Complex
    ensures ok ==> AbsorbedSoFar(initial, snaps, ph, srcs, i + 1)
    ensures !ok ==> FailedAt(initial, snaps, ph, srcs, i)
  {
    ok := AbsorbInto(srcs[i], d);
    if !ok {
      forall k | 0 <= k < |initial|
        ensures Snap(initial[k]) == AfterFailure(snaps[k], initial[k], ph, srcs, i)
      {
        var e := initial[k];
        assert old(Snap(e)) == Absorb(snaps[k], e.hasTextFrame, MatchesFor(e, ph, srcs, i));
      }
      return;
    }
    forall k | 0 <= k < |initial|
      ensures Snap(initial[k]) == Absorb(snaps[k], initial[k].hasTextFrame, MatchesFor(initial[k], ph, srcs, i + 1))
    {
      var e := initial[k];
      assert old(Snap(e)) == Absorb(snaps[k], e.hasTextFrame, MatchesFor(e, ph, srcs, i));
      if e == d {
        assert MatchesFor(d, ph, srcs, i + 1) == MatchesFor(d, ph, srcs, i) + [srcs[i]];
      } else {
        assert MatchesFor(e, ph, srcs, i + 1) == MatchesFor(e, ph, srcs, i);
      }
    }
  }

  /** One source placeholder copied into the matching placeholder of the new slide, which takes its name; a graphic frame raises first. */
  method AbsorbInto(shape: ShapeData, d: SlideShape) returns (ok: bool)
    modifies d
    ensures ok <==> shape.kind != Complex
    ensures ok ==> Snap(d) == AbsorbOne(old(Snap(d)), d.hasTextFrame, shape)
    ensures !ok ==> Snap(d) == AbsorbFail(old(Snap(d)), d.hasTextFrame, shape)
  {
    ok := CopyPlaceholderContent(shape, d);
    if ok {
      d.name := shape.name;
    }
  }

  /** Each shape of `initial` holds, over its state `snaps` before the shape loop, what the loop left in it when it raised at source `f`. */
  ghost predicate FailedAt(initial: seq<SlideShape>, snaps: seq<ShapeVal>, ph: map<int, SlideShape>, srcs: seq<ShapeData>, f: nat)
    requires f < |srcs|
    reads Elems(initial)
  {
    && |snaps| == |initial|
    && forall k :: 0 <= k < |initial| ==> Snap(initial[k]) == AfterFailure(snaps[k], initial[k], ph, srcs, f)
  }

  /** The state of the new slide when the shape loop raised at source `f`. */
  ghost predicate FailState(srcs: seq<ShapeData>, f: nat, dest: Slide, ph: map<int, SlideShape>, blank: ShapeKind -> seq<Node>,
                            initial: seq<SlideShape>, snaps: seq<ShapeVal>, created: seq<SlideShape>)
    requires f < |srcs| && HasSpPr(srcs)
    reads dest, Elems(initial), Elems(created)
  {
    && dest.shapes == initial + created
    && CopiesOf(created, Unmatched(srcs, f, ph), blank)
    && FailedAt(initial, snaps, ph, srcs, f)
  }

  /** The state of the shape loop after the first `i` source shapes. */
  ghost predicate LoopState(srcs: seq<ShapeData>, i: nat, dest: Slide, ph: map<int, SlideShape>, blank: ShapeKind -> seq<Node>,
                            initial: seq<SlideShape>, snaps: seq<ShapeVal>, created: seq<SlideShape>, toRemove: seq<SlideShape>)
    requires i <= |srcs| && HasSpPr(srcs)
    reads dest, Elems(initial), Elems(created)
  {
    && toRemove == FilterOut(initial, KeptSet(srcs, i, ph))
    && dest.shapes == initial + created
    && CopiesOf(created, Unmatched(srcs, i, ph), blank)
    && AbsorbedSoFar(initial, snaps, ph, srcs, i)
  }

  /** A source placeholder whose `idx` the new slide has: copied into that placeholder, which leaves `shapes_to_remove`. */
  method PlaceStep(srcs: seq<ShapeData>, i: nat, dest: Slide, ph: map<int, SlideShape>, blank: ShapeKind -> seq<Node>,
                   ghost initial: seq<SlideShape>, ghost snaps: seq<ShapeVal>, ghost created: seq<SlideShape>, toRemove: seq<SlideShape>)
    returns (toRemove': seq<SlideShape>, ok: bool)
    requires i < |srcs| && HasSpPr(srcs) && Matched(srcs[i], ph) && Distinct(initial)
    requires forall k :: k in ph ==> ph[k] in initial && IsRep(ph[k], ph) && ph[k].phIdx == k
    requires Elems(created) !! Elems(initial)
    requires LoopState(srcs, i, dest, ph, blank, initial, snaps, created, toRemove)
    modifies ph[srcs[i].phIdx]
    ensures ok <==> srcs[i].kind != Complex
    ensures ok ==> LoopState(srcs, i + 1, dest, ph, blank, initial, snaps, created, toRemove')
    ensures !ok ==> FailState(srcs, i, dest, ph, blank, initial, snaps, created)
  {
    var d := ph[srcs[i].phIdx];
    FilterOutAdd(initial, KeptSet(srcs, i, ph), d);
    if d in toRemove {
      toRemove' := RemoveFirst(toRemove, d);
    } else {
      RemoveFirstAbsent(toRemove, d);
      toRemove' := toRemove;
    }
    assert d !in Elems(created);
    ok := AbsorbStep(srcs, i, ph, initial, snaps, d);
    assert Unmatched(srcs, i + 1, ph) == Unmatched(srcs, i, ph);
  }

  /** Any other source shape: duplicated onto the new slide under its own name. */
  method CopyStep(srcs: seq<ShapeData>, i: nat, dest: Slide, ph: map<int, SlideShape>, blank: ShapeKind -> seq<Node>,
                  ghost initial: seq<SlideShape>, ghost snaps: seq<ShapeVal>, ghost created: seq<SlideShape>, toRemove: seq<SlideShape>)
    returns (ghost c: SlideShape)
    requires i < |srcs| && HasSpPr(srcs) && !Matched(srcs[i], ph)
    requires LoopState(srcs, i, dest, ph, blank, initial, snaps, created, toRemove)
    modifies dest
    ensures fresh(c)
    ensures LoopState(srcs, i + 1, dest, ph, blank, initial, snaps, created + [c], toRemove)
  {
    var _ := DuplicateShape(srcs[i], dest, true, blank, "");
    c := dest.shapes[|dest.shapes| - 1];
    Appended(dest.shapes, initial + created);
    AbsorbedSkip(initial, snaps, ph, srcs, i);
    CopiesOfExtend(created, Unmatched(srcs, i, ph), c, srcs[i], blank);
  }

  /** One turn of the shape loop: the source shape `i` either goes into a matching placeholder or is duplicated. */
  method ShapeStep(srcs: seq<ShapeData>, i: nat, dest: Slide, ph: map<int, SlideShape>, blank: ShapeKind -> seq<Node>,
                   ghost initial: seq<SlideShape>, ghost snaps: seq<ShapeVal>, ghost created: seq<SlideShape>, toRemove: seq<SlideShape>)
    returns (toRemove': seq<SlideShape>, ghost extra: seq<SlideShape>, ok: bool)
    requires i < |srcs| && HasSpPr(srcs) && Distinct(initial)
    requires forall k :: k in ph ==> ph[k] in initial && IsRep(ph[k], ph) && ph[k].phIdx == k
    requires Elems(created) !! Elems(initial)
    requires LoopState(srcs, i, dest, ph, blank, initial, snaps, created, toRemove)
    modifies dest, Elems(initial)
    ensures fresh(Elems(extra))
    ensures ok <==> !Fails(srcs[i], ph)
    ensures ok ==> LoopState(srcs, i + 1, dest, ph, blank, initial, snaps, created + extra, toRemove')
    ensures !ok ==> FailState(srcs, i, dest, ph, blank, initial, snaps, created)
  {
    if srcs[i].isPlaceholder && srcs[i].phIdx in ph {
      toRemove', ok := PlaceStep(srcs, i, dest, ph, blank, initial, snaps, created, toRemove);
      extra := [];
      assert created + extra == created;
    } else {
      ghost var c := CopyStep(srcs, i, dest, ph, blank, initial, snaps, created, toRemove);
      toRemove', extra, ok := toRemove, [c], true;
    }
  }

  /** The shape loop of `duplicate_slide`: what it copies, duplicates, and leaves in `shapes_to_remove`. */
  method MatchShapes(srcs: seq<ShapeData>, dest: Slide, ph: map<int, SlideShape>, blank: ShapeKind -> seq<Node>)
    returns (toRemove: seq<SlideShape>, ok: bool)
    requires Distinct(dest.shapes) && HasSpPr(srcs) && ph == PhIndex(dest.shapes, |dest.shapes|)
    modifies dest, set s | s in dest.shapes
    ensures ok <==> Reached(srcs, ph) == |srcs|
    ensures |old(dest.shapes)| <= |dest.shapes| && dest.shapes[..|old(dest.shapes)|] == old(dest.shapes)
    ensures forall k :: |old(dest.shapes)| <= k < |dest.shapes| ==> fresh(dest.shapes[k])
    ensures CopiesOf(dest.shapes[|old(dest.shapes)|..], Unmatched(srcs, Reached(srcs, ph), ph), blank)
    ensures ok ==> toRemove == FilterOut(old(dest.shapes), KeptSet(srcs, |srcs|, ph))
    ensures ok ==> forall k :: 0 <= k < |old(dest.shapes)| ==>
      Snap(old(dest.shapes)[k]) == Absorb(old(Snap(dest.shapes[k])), old(dest.shapes)[k].hasTextFrame, MatchesFor(old(dest.shapes)[k], ph, srcs, |srcs|))
    ensures !ok ==> forall k :: 0 <= k < |old(dest.shapes)| ==>
      Snap(old(dest.shapes)[k]) == AfterFailure(old(Snap(dest.shapes[k])), old(dest.shapes)[k], ph, srcs, Reached(srcs, ph))
  {
    var initial := dest.shapes;
    PhIndexHolds(initial, |initial|);
    assert initial[..|initial|] == initial;
    ghost var snaps := seq(|initial|, k requires 0 <= k < |initial| reads Elems(initial) => Snap(initial[k]));
    ghost var created;
    toRemove, created, ok := ShapeLoop(srcs, dest, ph, blank, initial, snaps);
    forall k | |initial| <= k < |dest.shapes|
      ensures fresh(dest.shapes[k])
    {
      assert dest.shapes[k] in Elems(created) by {
        assert dest.shapes[k] == created[k - |initial|];
      }
    }
    if ok {
      LoopEnd(srcs, dest, ph, blank, initial, snaps, created, toRemove);
    } else {
      FailEnd(srcs, Reached(srcs, ph), dest, ph, blank, initial, snaps, created);
    }
  }

  /** The loop itself, over the source shapes in order. */
  method ShapeLoop(srcs: seq<ShapeData>, dest: Slide, ph: map<int, SlideShape>, blank: ShapeKind -> seq<Node>,
                   ghost initial: seq<SlideShape>, ghost snaps: seq<ShapeVal>)
    returns (toRemove: seq<SlideShape>, ghost created: seq<SlideShape>, ok: bool)
    requires HasSpPr(srcs) && Distinct(initial) && dest.shapes == initial
    requires forall k :: k in ph ==> ph[k] in initial && IsRep(ph[k], ph) && ph[k].phIdx == k
    requires |snaps| == |initial| && forall k :: 0 <= k < |initial| ==> snaps[k] == Snap(initial[k])
    modifies dest, Elems(initial)
    ensures ok <==> Reached(srcs, ph) == |srcs|
    ensures ok ==> LoopState(srcs, |srcs|, dest, ph, blank, initial, snaps, created, toRemove)
    ensures !ok ==> FailState(srcs, Reached(srcs, ph), dest, ph, blank, initial, snaps, created)
    ensures dest.shapes == initial + created && fresh(Elems(created))
  {
    toRemove := dest.shapes;
    created := [];
    ok := true;
    LoopStart(srcs, dest, ph, blank, initial, snaps, toRemove);
    for i := 0 to |srcs|
      invariant LoopState(srcs, i, dest, ph, blank, initial, snaps, created, toRemove)
      invariant Elems(created) !! Elems(initial)
      invariant fresh(Elems(created))
      invariant i <= Reached(srcs, ph)
    {
      ghost var extra;
      toRemove, extra, ok := ShapeStep(srcs, i, dest, ph, blank, initial, snaps, created, toRemove);
      ReachedStep(srcs, ph, i);
      if !ok {
        break;
      }
      ElemsAppend(created, extra);
      created := created + extra;
    }
  }

  /** Before the first source shape: nothing created, nothing kept, nothing copied in. */
  lemma LoopStart(srcs: seq<ShapeData>, dest: Slide, ph: map<int, SlideShape>, blank: ShapeKind -> seq<Node>,
                  initial: seq<SlideShape>, snaps: seq<ShapeVal>, toRemove: seq<SlideShape>)
    requires HasSpPr(srcs) && dest.shapes == initial && toRemove == initial
    requires |snaps| == |initial| && forall k :: 0 <= k < |initial| ==> snaps[k] == Snap(initial[k])
    ensures LoopState(srcs, 0, dest, ph, blank, initial, snaps, [], toRemove)
  {
    FilterOutNothing(initial);
    assert KeptSet(srcs, 0, ph) == {};
    assert initial + [] == initial;
  }

  /** After the last source shape, the loop state read as the outcome of the loop. */
  lemma LoopEnd(srcs: seq<ShapeData>, dest: Slide, ph: map<int, SlideShape>, blank: ShapeKind -> seq<Node>,
                initial: seq<SlideShape>, snaps: seq<ShapeVal>, created: seq<SlideShape>, toRemove: seq<SlideShape>)
    requires HasSpPr(srcs) && LoopState(srcs, |srcs|, dest, ph, blank, initial, snaps, created, toRemove)
    ensures toRemove == FilterOut(initial, KeptSet(srcs, |srcs|, ph))
    ensures |initial| <= |dest.shapes| && dest.shapes[..|initial|] == initial && dest.shapes[|initial|..] == created
    ensures CopiesOf(dest.shapes[|initial|..], Unmatched(srcs, |srcs|, ph), blank)
    ensures forall k :: 0 <= k < |initial| ==>
      Snap(initial[k]) == Absorb(snaps[k], initial[k].hasTextFrame, MatchesFor(initial[k], ph, srcs, |srcs|))
  {
    assert dest.shapes[..|initial|] == initial;
    assert dest.shapes[|initial|..] == created;
  }

  /** After the source shape the loop raised on, the failure state read as the outcome of the loop. */
  lemma FailEnd(srcs: seq<ShapeData>, f: nat, dest: Slide, ph: map<int, SlideShape>, blank: ShapeKind -> seq<Node>,
                initial: seq<SlideShape>, snaps: seq<ShapeVal>, created: seq<SlideShape>)
    requires f < |srcs| && HasSpPr(srcs) && FailState(srcs, f, dest, ph, blank, initial, snaps, created)
    ensures |initial| <= |dest.shapes| && dest.shapes[..|initial|] == initial && dest.shapes[|initial|..] == created
    ensures CopiesOf(dest.shapes[|initial|..], Unmatched(srcs, f, ph), blank)
    ensures forall k :: 0 <= k < |initial| ==> Snap(initial[k]) == AfterFailure(snaps[k], initial[k], ph, srcs, f)
  {
    assert dest.shapes[..|initial|] == initial;
    assert dest.shapes[|initial|..] == created;
  }

  lemma ElemsAppend(a: seq<SlideShape>, b: seq<SlideShape>)
    ensures Elems(a + b) == Elems(a) + Elems(b)
  {}

  lemma Appended(s: seq<SlideShape>, p: seq<SlideShape>)
    requires |s| == |p| + 1 && s[..|p|] == p
    ensures s == p + [s[|p|]]
  {
  }

  /** The clean-up loop: each shape left in `shapes_to_remove` is taken off the slide. */
  method RemoveShapes(dest: Slide, toRemove: seq<SlideShape>, ghost initial: seq<SlideShape>, ghost created: seq<SlideShape>)
    requires dest.shapes == initial + created && Distinct(initial)
    requires forall t :: t in toRemove ==> t !in created
    modifies dest
    ensures dest.shapes == FilterOut(initial, Elems(toRemove)) + created
  {
    FilterOutNothing(initial);
    assert Elems(toRemove[..0]) == {};
    for j := 0 to |toRemove|
      invariant dest.shapes == FilterOut(initial, Elems(toRemove[..j])) + created
    {
      var t := toRemove[j];
      RemoveFirstConcat(FilterOut(initial, Elems(toRemove[..j])), created, t);
      FilterOutAdd(initial, Elems(toRemove[..j]), t);
      assert toRemove[..j + 1] == toRemove[..j] + [t];
      assert Elems(toRemove[..j + 1]) == Elems(toRemove[..j]) + {t};
      dest.shapes := RemoveFirst(dest.shapes, t);
    }
    assert toRemove[..|toRemove|] == toRemove;
  }
}
