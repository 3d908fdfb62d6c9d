/**
 * Badge geometry: the padded background boxes and text origins that the
 * viewer paints behind a file name (bottom-left) and behind the label texts
 * (stacked at the top-right) of a region, on the preview and on the export.
 */
module Geometry {
  import opened Wrappers

  /** Distance of a badge from the region's edge. */
  const Margin := 6
  /** Space between a badge's border and its text, on every side. */
  const Pad := 6
  /** Vertical space between two stacked badges. */
  const Gap := 2

  datatype Rect = Rect(x: int, y: int, w: int, h: int)
  datatype Point = Point(x: int, y: int)
  datatype Size = Size(w: nat, h: nat)

  /**
   * The font metrics the painter measures text with: the horizontal advance of
   * a text, the line height and the ascent, all as the toolkit reports them.
   */
  datatype Metrics = Metrics(advance: string -> nat, height: nat, ascent: nat)

  /** One painted badge: its background box, where its text is drawn, and the text. */
  datatype Badge = Badge(box: Rect, origin: Point, text: string)

  predicate Inside(r: Rect, x: int, y: int) {
    r.x <= x < r.x + r.w && r.y <= y < r.y + r.h
  }

  /** The badge for `text` whose box has its top-left corner at (x, y). */
  function BadgeAt(x: int, y: int, text: string, m: Metrics): Badge {
    Badge(Rect(x, y, m.advance(text) + 2 * Pad, m.height + 2 * Pad), Point(x + Pad, y + Pad + m.ascent), text)
  }

  /** The badge for `text` at the bottom-left corner of `base`. */
  function BottomLeftAt(base: Rect, text: string, m: Metrics): (b: Badge)
    ensures b.box.x == base.x + Margin
    ensures b.box.y + b.box.h == base.y + base.h - Margin
    ensures b.box.w == m.advance(text) + 12 && b.box.h == m.height + 12
    ensures b.origin == Point(b.box.x + Pad, b.box.y + Pad + m.ascent)
    ensures b.text == text
  {
    BadgeAt(base.x + Margin, base.y + base.h - Margin - (m.height + 2 * Pad), text, m)
  }

  /** The file-name badge of `draw_bottom_left`: nothing for an empty text. */
  function BottomLeft(base: Rect, text: string, m: Metrics): (r: Option<Badge>)
    ensures r.None? <==> text == ""
    ensures r.Some? ==> r.value == BottomLeftAt(base, text, m)
  {
    if text == "" then None else Some(BottomLeftAt(base, text, m))
  }

  /** Vertical distance between the tops of two consecutive stacked badges. */
  function Pitch(m: Metrics): int {
    m.height + 2 * Pad + Gap
  }

  /**
   * One badge per text, the first with its top at `top`, each next one a box
   * height plus `Gap` lower, every one with its right edge `Margin` left of `right`.
   */
  function Column(right: int, top: int, texts: seq<string>, m: Metrics): (c: seq<Badge>)
    ensures |c| == |texts|
    decreases |texts|
  {
    if texts == [] then []
    else
      var b := BadgeAt(right - Margin - (m.advance(texts[0]) + 2 * Pad), top, texts[0], m);
      [b] + Column(right, top + b.box.h + Gap, texts[1..], m)
  }

  /**
   * Every badge of a column is the badge of its own text, right-aligned at
   * `right - Margin`, and no badge starts above `top`.
   */
  lemma {:induction false} ColumnBadges(right: int, top: int, texts: seq<string>, m: Metrics)
    ensures var c := Column(right, top, texts, m);
      && (forall i :: 0 <= i < |c| ==>
            c[i] == BadgeAt(right - Margin - (m.advance(texts[i]) + 2 * Pad), c[i].box.y, texts[i], m)
            && c[i].box.y >= top)
      && (c != [] ==> c[0].box.y == top)
    decreases |texts|
  {
    if texts != [] {
      var c := Column(right, top, texts, m);
      var rest := Column(right, top + Pitch(m), texts[1..], m);
      assert c == [c[0]] + rest;
      ColumnBadges(right, top + Pitch(m), texts[1..], m);
      forall i | 0 < i < |c|
        ensures c[i] == BadgeAt(right - Margin - (m.advance(texts[i]) + 2 * Pad), c[i].box.y, texts[i], m)
        ensures c[i].box.y >= top
      {
        assert c[i] == rest[i - 1];
        assert texts[1..][i - 1] == texts[i];
      }
    }
  }

  /**
   * Each next badge of a column starts `Gap` below the previous one's bottom,
   * so every badge lies strictly below all those before it.
   */
  lemma {:induction false} ColumnDescends(right: int, top: int, texts: seq<string>, m: Metrics)
    ensures var c := Column(right, top, texts, m);
      && (forall i :: 0 <= i < |c| - 1 ==> c[i + 1].box.y == c[i].box.y + c[i].box.h + Gap)
      && (forall i, j :: 0 <= i < j < |c| ==> c[i].box.y + c[i].box.h < c[j].box.y)
    decreases |texts|
  {
    if texts != [] {
      var c := Column(right, top, texts, m);
      var rest := Column(right, top + Pitch(m), texts[1..], m);
      assert c == [c[0]] + rest;
      ColumnDescends(right, top + Pitch(m), texts[1..], m);
      ColumnBadges(right, top + Pitch(m), texts[1..], m);
      forall i | 0 <= i < |c| - 1
        ensures c[i + 1].box.y == c[i].box.y + c[i].box.h + Gap
      {
        assert c[i + 1] == rest[i];
        if i > 0 {
          assert c[i] == rest[i - 1];
        }
      }
      forall i, j | 0 <= i < j < |c|
        ensures c[i].box.y + c[i].box.h < c[j].box.y
      {
        assert c[j] == rest[j - 1];
        if i > 0 {
          assert c[i] == rest[i - 1];
        }
      }
    }
  }

  /** The texts that are not empty, in their order. */
  function NonEmpty(texts: seq<string>): (r: seq<string>)
    ensures |r| <= |texts|
    ensures forall k :: 0 <= k < |r| ==> r[k] != ""
  {
    if texts == [] then []
    else
      (if texts[0] == "" then [] else [texts[0]]) + NonEmpty(texts[1..])
  }

  lemma {:induction false} NonEmptyAppend(a: seq<string>, b: seq<string>)
    ensures NonEmpty(a + b) == NonEmpty(a) + NonEmpty(b)
    decreases |a|
  {
    if a != [] {
      var head := if a[0] == "" then [] else [a[0]];
      assert (a + b)[1..] == a[1..] + b;
      assert NonEmpty(a + b) == head + NonEmpty(a[1..] + b);
      NonEmptyAppend(a[1..], b);
      assert head + (NonEmpty(a[1..]) + NonEmpty(b)) == (head + NonEmpty(a[1..])) + NonEmpty(b);
    } else {
      assert a + b == b;
    }
  }

  lemma {:induction false} NonEmptyOfNonEmpty(texts: seq<string>)
    requires forall k :: 0 <= k < |texts| ==> texts[k] != ""
    ensures NonEmpty(texts) == texts
    decreases |texts|
  {
    if texts != [] {
      NonEmptyOfNonEmpty(texts[1..]);
    }
  }

  lemma ColumnCons(right: int, top: int, t: string, rest: seq<string>, m: Metrics)
    ensures Column(right, top, [t] + rest, m)
         == [BadgeAt(right - Margin - (m.advance(t) + 2 * Pad), top, t, m)] + Column(right, top + Pitch(m), rest, m)
  {
    assert ([t] + rest)[1..] == rest;
  }

  lemma NonEmptyStep(texts: seq<string>, i: nat)
    requires i < |texts|
    ensures NonEmpty(texts[i..]) == (if texts[i] == "" then [] else [texts[i]]) + NonEmpty(texts[i + 1..])
  {
    assert texts[i..][1..] == texts[i + 1..];
  }

  /** One step of the stacking loop: an empty text adds nothing, any other adds its badge at `y`. */
  lemma StackStep(right: int, y: int, texts: seq<string>, i: nat, m: Metrics)
    requires i < |texts|
    ensures texts[i] == "" ==>
      Column(right, y, NonEmpty(texts[i..]), m) == Column(right, y, NonEmpty(texts[i + 1..]), m)
    ensures texts[i] != "" ==>
      Column(right, y, NonEmpty(texts[i..]), m)
      == [BadgeAt(right - Margin - (m.advance(texts[i]) + 2 * Pad), y, texts[i], m)]
         + Column(right, y + Pitch(m), NonEmpty(texts[i + 1..]), m)
  {
    NonEmptyStep(texts, i);
    if texts[i] != "" {
      ColumnCons(right, y, texts[i], NonEmpty(texts[i + 1..]), m);
    } else {
      assert [] + NonEmpty(texts[i + 1..]) == NonEmpty(texts[i + 1..]);
    }
  }

  /** One step of the preview loop: the badge of `texts[i]` at `y`. */
  lemma ColumnStep(right: int, y: int, texts: seq<string>, i: nat, m: Metrics)
    requires i < |texts|
    ensures Column(right, y, texts[i..], m)
      == [BadgeAt(right - Margin - (m.advance(texts[i]) + 2 * Pad), y, texts[i], m)]
         + Column(right, y + Pitch(m), texts[i + 1..], m)
  {
    assert texts[i..] == [texts[i]] + texts[i + 1..];
    ColumnCons(right, y, texts[i], texts[i + 1..], m);
  }

  /** The label stack of `draw_top_right_stack` for region `base`. */
  function Stack(base: Rect, texts: seq<string>, m: Metrics): (r: seq<Badge>)
    ensures |r| == |NonEmpty(texts)| <= |texts|
  {
    Column(base.x + base.w, base.y + Margin, NonEmpty(texts), m)
  }

  /**
   * The stack has one badge per non-empty text, in order; the first box's top
   * is `Margin` below the region's top; every box is the text's advance plus
   * twice `Pad` wide and the font height plus twice `Pad` high, with its right
   * edge `Margin` left of the region's right edge and the text inset by `Pad`.
   */
  lemma StackBadges(base: Rect, texts: seq<string>, m: Metrics)
    ensures var s := Stack(base, texts, m);
      && |s| == |NonEmpty(texts)|
      && (forall i :: 0 <= i < |s| ==> s[i].text == NonEmpty(texts)[i] && s[i].text != "")
      && (forall i :: 0 <= i < |s| ==>
            s[i].box.w == m.advance(s[i].text) + 12 && s[i].box.h == m.height + 12
            && s[i].box.x + s[i].box.w == base.x + base.w - Margin
            && s[i].origin == Point(s[i].box.x + Pad, s[i].box.y + Pad + m.ascent))
      && (s != [] ==> s[0].box.y == base.y + Margin)
  {
    var ts := NonEmpty(texts);
    var s := Column(base.x + base.w, base.y + Margin, ts, m);
    ColumnBadges(base.x + base.w, base.y + Margin, ts, m);
    assert s == Stack(base, texts, m);
    forall i | 0 <= i < |s|
      ensures s[i].text == ts[i] && s[i].text != ""
      ensures s[i].box.w == m.advance(s[i].text) + 12 && s[i].box.h == m.height + 12
      ensures s[i].box.x + s[i].box.w == base.x + base.w - Margin
      ensures s[i].origin == Point(s[i].box.x + Pad, s[i].box.y + Pad + m.ascent)
    {
      assert s[i] == BadgeAt(base.x + base.w - Margin - (m.advance(ts[i]) + 2 * Pad), s[i].box.y, ts[i], m);
    }
  }

  /**
   * Each next box of the stack starts `Gap` below the previous one's bottom,
   * so the boxes strictly descend and never overlap.
   */
  lemma StackDescends(base: Rect, texts: seq<string>, m: Metrics)
    ensures var s := Stack(base, texts, m);
      && (forall i :: 0 <= i < |s| - 1 ==> s[i + 1].box.y == s[i].box.y + s[i].box.h + Gap)
      && (forall i, j :: 0 <= i < j < |s| ==> s[i].box.y + s[i].box.h < s[j].box.y)
  {
    var s := Stack(base, texts, m);
    ColumnDescends(base.x + base.w, base.y + Margin, NonEmpty(texts), m);
    assert s == Column(base.x + base.w, base.y + Margin, NonEmpty(texts), m);
  }

  /** An empty text is skipped without moving the next badge down. */
  lemma StackSkipsEmpty(base: Rect, before: seq<string>, after: seq<string>, m: Metrics)
    ensures Stack(base, before + [""] + after, m) == Stack(base, before + after, m)
  {
    NonEmptyAppend(before + [""], after);
    NonEmptyAppend(before, [""]);
    NonEmptyAppend(before, after);
    assert [""][1..] == [];
    assert NonEmpty([""]) == [];
    assert NonEmpty(before + [""]) == NonEmpty(before);
  }

  /** `draw_top_right_stack`: the loop that advances `y` past each drawn badge. */
  method DrawTopRightStack(base: Rect, texts: seq<string>, m: Metrics) returns (badges: seq<Badge>)
    ensures badges == Stack(base, texts, m)
  {
    var right := base.x + base.w;
    var y := base.y + Margin;
    badges := [];
    var i := 0;
    assert texts[0..] == texts;
    while i < |texts|
      invariant 0 <= i <= |texts|
      invariant badges + Column(right, y, NonEmpty(texts[i..]), m) == Stack(base, texts, m)
    {
      var t := texts[i];
      StackStep(right, y, texts, i, m);
      if t != "" {
        var bgW, bgH := m.advance(t) + 2 * Pad, m.height + 2 * Pad;
        var bgX := right - Margin - bgW;
        var b := Badge(Rect(bgX, y, bgW, bgH), Point(bgX + Pad, y + Pad + m.ascent), t);
        assert b == BadgeAt(right - Margin - (m.advance(t) + 2 * Pad), y, t, m);
        ghost var rest := Column(right, y + bgH + Gap, NonEmpty(texts[i + 1..]), m);
        assert badges + [b] + rest == badges + ([b] + rest);
        badges := badges + [b];
        y := y + bgH + Gap;
      }
      i := i + 1;
    }
    assert texts[i..] == [];
  }

  /**
   * The overlays `display_image` paints on a preview of size w x h: the file
   * name at the bottom-left when asked for, then every given label stacked at
   * the top-right. Neither text is checked for emptiness here.
   */
  function PreviewLayout(w: int, h: int, showFilename: bool, filename: string, texts: seq<string>, m: Metrics): (r: seq<Badge>)
    ensures |r| == |texts| + (if showFilename then 1 else 0)
  {
    (if showFilename then [BottomLeftAt(Rect(0, 0, w, h), filename, m)] else []) + Column(w, Margin, texts, m)
  }

  /** The painting loop of `display_image`. */
  method PreviewOverlay(w: int, h: int, showFilename: bool, filename: string, texts: seq<string>, m: Metrics)
    returns (badges: seq<Badge>)
    ensures badges == PreviewLayout(w, h, showFilename, filename, texts, m)
  {
    badges := [];
    if showFilename {
      var tw, th := m.advance(filename), m.height;
      var bgW, bgH := tw + 2 * Pad, th + 2 * Pad;
      var bgX := Margin;
      var bgY := h - Margin - bgH;
      badges := [Badge(Rect(bgX, bgY, bgW, bgH), Point(bgX + Pad, bgY + Pad + m.ascent), filename)];
      assert badges == [BottomLeftAt(Rect(0, 0, w, h), filename, m)];
    }
    ghost var head := badges;
    var y := Margin;
    var i := 0;
    assert texts[0..] == texts;
    while i < |texts|
      invariant 0 <= i <= |texts|
      invariant badges + Column(w, y, texts[i..], m) == head + Column(w, Margin, texts, m)
    {
      var t := texts[i];
      ColumnStep(w, y, texts, i, m);
      var bgW, bgH := m.advance(t) + 2 * Pad, m.height + 2 * Pad;
      var bgX := w - Margin - bgW;
      var b := Badge(Rect(bgX, y, bgW, bgH), Point(bgX + Pad, y + Pad + m.ascent), t);
      assert b == BadgeAt(w - Margin - (m.advance(t) + 2 * Pad), y, t, m);
      ghost var rest := Column(w, y + bgH + Gap, texts[i + 1..], m);
      assert badges + [b] + rest == badges + ([b] + rest);
      badges := badges + [b];
      y := y + bgH + Gap;
      i := i + 1;
    }
  }

  /**
   * For a non-empty file name and non-empty labels, the preview shows exactly
   * the badges the export paints on a region (0, 0, w, h).
   */
  lemma PreviewAgreesWithExport(w: int, h: int, showFilename: bool, filename: string, texts: seq<string>, m: Metrics)
    requires filename != ""
    requires forall k :: 0 <= k < |texts| ==> texts[k] != ""
    ensures PreviewLayout(w, h, showFilename, filename, texts, m)
         == (if showFilename then Drawn(BottomLeft(Rect(0, 0, w, h), filename, m)) else [])
            + Stack(Rect(0, 0, w, h), texts, m)
  {
    NonEmptyOfNonEmpty(texts);
  }
}
