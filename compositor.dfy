/** Burning the caption into the exported image: font size from the image
    width, the greedy wrap at 90% of the width, and one stroke and one fill per
    line, centred, stacked from y = 50 down by 1.2 font sizes per line. Only
    the text drawing calls are modelled; the image itself, the font face and
    colours, and the PNG encoding are not. */
module Compositor {
  import opened Text
  import opened WordWrap

  /** One text call on the canvas context: `strokeText` or `fillText`. */
  datatype DrawOp =
    | StrokeText(text: string, x: real, y: real)
    | FillText(text: string, x: real, y: real)

  /** `Math.max(24, width / 20)`: a 24-pixel floor, otherwise a twentieth of
      the image width. */
  function FontSize(width: nat): (size: real)
    ensures size >= 24.0 && size >= width as real / 20.0
    ensures size == 24.0 || size == width as real / 20.0
  {
    if width as real / 20.0 > 24.0 then width as real / 20.0 else 24.0
  }

  /** The wrap limit `img.width * 0.9`: never negative, never beyond the
      width, and strictly inside it for a non-empty image. */
  function WrapLimit(width: nat): (limit: real)
    ensures 0.0 <= limit <= width as real
    ensures width > 0 ==> limit < width as real
  {
    width as real * 0.9
  }

  /** Baseline of line `index`: `50 + index * (fontSize * 1.2)`. The first
      line sits at 50 and no line above it. */
  function LineY(index: nat, fontSize: real): (y: real)
    ensures index == 0 ==> y == 50.0
    ensures fontSize >= 0.0 ==> y >= 50.0
  {
    50.0 + index as real * (fontSize * 1.2)
  }

  /** What is drawn for a line: upper-cased on the plain page, as is on the
      React page. */
  function Shown(line: string, upperCase: bool): string
  {
    if upperCase then ToUpper(line) else line
  }

  /** `ops` draws `lines` in order: for line i, first its outline and then its
      fill, both with the same text, at the same centre x and baseline y. */
  ghost predicate Depicts(ops: seq<DrawOp>, lines: seq<string>, x: real, fontSize: real, upperCase: bool)
  {
    |ops| == 2 * |lines| &&
    forall i :: 0 <= i < |lines| ==>
      ops[2 * i] == StrokeText(Shown(lines[i], upperCase), x, LineY(i, fontSize)) &&
      ops[2 * i + 1] == FillText(Shown(lines[i], upperCase), x, LineY(i, fontSize))
  }

  /** The texts of the outlines drawn, in drawing order. */
  function StrokedTexts(ops: seq<DrawOp>): (texts: seq<string>)
    ensures |texts| == |ops| / 2
  {
    seq(|ops| / 2, i requires 0 <= i < |ops| / 2 => ops[2 * i].text)
  }

  /** Successive lines sit strictly lower, at least 28.8 pixels apart (1.2
      times the 24-pixel floor). */
  lemma {:induction false} LineYIncreasing(width: nat, i: nat, j: nat)
    requires i < j
    ensures LineY(j, FontSize(width)) - LineY(i, FontSize(width)) >= (j - i) as real * 28.8
    ensures LineY(i, FontSize(width)) < LineY(j, FontSize(width))
  {
    var f := FontSize(width) * 1.2;
    assert f >= 28.8;
    var d := (j - i) as real;
    assert LineY(j, FontSize(width)) - LineY(i, FontSize(width)) == d * f;
    assert d * f >= d * 28.8 by {
      assert d * f - d * 28.8 == d * (f - 28.8);
      assert d >= 1.0;
    }
  }

  /** The `lines.forEach` drawing loop. */
  method DrawLines(lines: seq<string>, x: real, fontSize: real, upperCase: bool) returns (ops: seq<DrawOp>)
    ensures Depicts(ops, lines, x, fontSize, upperCase)
  {
    var lineHeight := fontSize * 1.2;
    var startY := 50.0;
    ops := [];
    for index := 0 to |lines|
      invariant Depicts(ops, lines[..index], x, fontSize, upperCase)
    {
      var y := startY + index as real * lineHeight;
      var text := if upperCase then ToUpper(lines[index]) else lines[index];
      ops := ops + [StrokeText(text, x, y), FillText(text, x, y)];
    }
    assert lines[..|lines|] == lines;
  }

  /** The caption part of the download handler for an image `width` pixels
      wide; `measure` is the canvas measurement in the font that was set. */
  method RenderCaption(caption: string, width: nat, measure: string -> real, upperCase: bool)
    returns (ops: seq<DrawOp>)
    ensures Depicts(ops, Wrap(caption, measure, WrapLimit(width)), width as real / 2.0, FontSize(width), upperCase)
  {
    var fontSize := if 24.0 < width as real / 20.0 then width as real / 20.0 else 24.0;
    var lines := WrapLines(caption, measure, width as real * 0.9);
    ops := DrawLines(lines, width as real / 2.0, fontSize, upperCase);
  }

  /** Read back in order and joined with spaces, the drawn lines are the
      caption, upper-cased where the page upper-cases. */
  lemma DrawnCaption(caption: string, measure: string -> real, limit: real,
                     x: real, fontSize: real, upperCase: bool, ops: seq<DrawOp>)
    requires Depicts(ops, Wrap(caption, measure, limit), x, fontSize, upperCase)
    ensures Join(StrokedTexts(ops), ' ') == Shown(caption, upperCase)
  {
    var lines := Wrap(caption, measure, limit);
    WrapJoin(caption, measure, limit);
    if upperCase {
      assert StrokedTexts(ops) == UpperAll(lines);
      UpperJoin(lines);
    } else {
      assert StrokedTexts(ops) == lines;
    }
  }

  /** The empty caption is still drawn: one empty outline and one empty fill at
      y = 50. */
  lemma EmptyCaptionDrawn(width: nat, measure: string -> real, upperCase: bool, ops: seq<DrawOp>)
    requires Depicts(ops, Wrap("", measure, WrapLimit(width)), width as real / 2.0, FontSize(width), upperCase)
    ensures ops == [StrokeText("", width as real / 2.0, 50.0), FillText("", width as real / 2.0, 50.0)]
  {
    OneWordCaption("", measure, WrapLimit(width));
    assert Shown("", upperCase) == "";
  }
}
