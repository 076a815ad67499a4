/** Layout geometry of `render_lyric_frame` (lyric.py): the working canvas width,
    the wrapping width, the line height, the vertical start of the text block and
    the horizontal position of each line.

    Python's `//` floors; Dafny's `/` with a positive divisor floors as well, so
    the divisions by 2 below are the source's, negative numerators included.
 */
module Geometry {

  /** The canvas width every frame is resized to. */
  const CanvasWidth: int := 1920

  /** The point size the font is loaded at. */
  const FontSize: int := 100

  /** The gap added below each line. */
  const LineSpacing: int := 10

  /** The vertical distance between consecutive lines. */
  const LineHeight: int := FontSize + LineSpacing

  /** `int(canvas_width * 0.9)`: the width a wrapped line may take, 90 percent of
      the canvas rounded down. */
  function WrapWidth(canvasWidth: nat): (w: nat)
    ensures 10 * w <= 9 * canvasWidth < 10 * (w + 1)
  {
    canvasWidth * 9 / 10
  }

  /** `(canvas_height - total_text_height) // 2`: the top of a block of
      `lineCount` lines, centred within one pixel. Nothing stops it from going
      negative when the block is taller than the canvas. */
  function StartY(canvasHeight: int, lineCount: nat): (y: int)
    ensures 0 <= canvasHeight - lineCount * LineHeight - 2 * y <= 1
    ensures lineCount * LineHeight <= canvasHeight ==> 0 <= y && y + lineCount * LineHeight <= canvasHeight
    ensures lineCount * LineHeight > canvasHeight ==> y < 0
  {
    (canvasHeight - lineCount * LineHeight) / 2
  }

  /** `(canvas_width - text_width) // 2`: the left edge of a line of the given
      width, centred on the canvas within one pixel. */
  function CenterX(lineWidth: int): (x: int)
    ensures 0 <= CanvasWidth - lineWidth - 2 * x <= 1
    ensures lineWidth <= CanvasWidth ==> 0 <= x && x + lineWidth <= CanvasWidth
  {
    (CanvasWidth - lineWidth) / 2
  }

  /** Where one line of text is drawn. */
  datatype Placement = Placement(text: string, x: int, y: int)

  /** Line `i` of a block whose top is `top`, centred on its measured width. */
  function PlaceLine(measure: string -> int, top: int, line: string, i: int): Placement {
    Placement(line, CenterX(measure(line)), top + i * LineHeight)
  }

  /** The drawing loop of `render_lyric_frame`: every line, in order, centred on
      its own measured width, the block centred vertically, consecutive lines one
      line height apart. */
  function Layout(measure: string -> int, canvasHeight: int, lines: seq<string>): (ps: seq<Placement>)
    ensures |ps| == |lines|
    ensures forall i :: 0 <= i < |ps| ==> ps[i].text == lines[i]
    ensures forall i :: 0 <= i < |ps| ==> 0 <= CanvasWidth - measure(lines[i]) - 2 * ps[i].x <= 1
    ensures |ps| > 0 ==> 0 <= canvasHeight - |lines| * LineHeight - 2 * ps[0].y <= 1
    ensures forall i :: 0 <= i < |ps| - 1 ==> ps[i + 1].y == ps[i].y + LineHeight
  {
    var top := StartY(canvasHeight, |lines|);
    seq(|lines|, i requires 0 <= i < |lines| => PlaceLine(measure, top, lines[i], i))
  }
}
