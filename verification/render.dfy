/** The control flow of `render_lyric_frame` (lyric.py).

    The file system, the image decoder, the font loader and the image writer are
    not modelled; what they answer is an abstract `Resources` value. The checks
    run in the source's order: background exists, font exists, background
    decodes, font loads. The first failing check ends the render before anything
    is drawn or saved. Otherwise the background is resized to the fixed canvas
    width (its height kept as it was), the lyric is wrapped and laid out, the text
    layer is composited over the background, and the frame is saved; a failing
    save is caught and does not propagate.
 */
module Render {
  import opened Wrap
  import opened Geometry

  datatype Option<T> = None | Some(value: T)

  /** Pixel dimensions of an image. */
  datatype Size = Size(width: nat, height: nat)

  /** What the environment answers to the render's requests. */
  datatype Resources = Resources(
    backgroundExists: bool,  // `os.path.exists(background_path)`
    fontExists: bool,        // `os.path.exists(font_path)`
    background: Option<Size>, // the decoded background's size, None if decoding raises
    fontLoads: bool,         // `ImageFont.truetype(font_path, 100)` does not raise
    saveSucceeds: bool       // `combined.save(output_image)` does not raise
  )

  /** The reasons a render stops early, one per check. */
  datatype Failure = BackgroundMissing | FontMissing | BackgroundUndecodable | FontUnloadable

  /** A composited frame: its size and where each line of text was drawn. */
  datatype Frame = Frame(size: Size, placed: seq<Placement>)

  /** How a render ends: stopped by a failed check with nothing drawn, or with a
      composited frame that was or was not written out. */
  datatype Outcome = Aborted(failure: Failure) | Composited(frame: Frame, saved: bool)

  /** The checks of the render, in the order the source makes them. */
  function Checks(res: Resources): (checks: seq<(bool, Failure)>)
    ensures (forall i :: 0 <= i < |checks| ==> checks[i].0)
            <==> res.backgroundExists && res.fontExists && res.background.Some? && res.fontLoads
    ensures forall i, j :: 0 <= i < j < |checks| ==> checks[i].1 != checks[j].1
  {
    var checks := [ (res.backgroundExists, BackgroundMissing),
                    (res.fontExists, FontMissing),
                    (res.background.Some?, BackgroundUndecodable),
                    (res.fontLoads, FontUnloadable) ];
    assert checks[0].0 && checks[1].0 && checks[2].0 && checks[3].0
           <==> res.backgroundExists && res.fontExists && res.background.Some? && res.fontLoads;
    checks
  }

  /** The failure of the first check that does not pass, if any. */
  function FirstFailure(checks: seq<(bool, Failure)>): (r: Option<Failure>)
    ensures r.None? <==> forall i :: 0 <= i < |checks| ==> checks[i].0
    ensures r.Some? ==> exists i :: 0 <= i < |checks| && !checks[i].0 && checks[i].1 == r.value
                                 && forall j :: 0 <= j < i ==> checks[j].0
  {
    if |checks| == 0 then None
    else if !checks[0].0 then Some(checks[0].1)
    else
      var r := FirstFailure(checks[1..]);
      assert forall i :: 1 <= i < |checks| ==> checks[i] == checks[1..][i - 1];
      r
  }

  /** `render_lyric_frame(lyric, font_path, background_path, output_image)`, with
      `measure` the bounding-box width of text in the loaded font. */
  function RenderLyricFrame(lyric: string, res: Resources, measure: string -> int): (r: Outcome)
    ensures !res.backgroundExists ==> r == Aborted(BackgroundMissing)
    ensures res.backgroundExists && !res.fontExists ==> r == Aborted(FontMissing)
    ensures res.backgroundExists && res.fontExists && res.background.None? ==> r == Aborted(BackgroundUndecodable)
    ensures res.backgroundExists && res.fontExists && res.background.Some? && !res.fontLoads
            ==> r == Aborted(FontUnloadable)
    ensures r.Composited? <==> res.backgroundExists && res.fontExists && res.background.Some? && res.fontLoads
    ensures r.Composited? ==> r.frame.size == Size(CanvasWidth, res.background.value.height)
    ensures r.Composited? ==> (r.saved <==> res.saveSucceeds)
    ensures r.Composited? ==> |r.frame.placed| == |WrapText(measure, lyric, 1728)|
    ensures r.Composited? ==> forall i :: 0 <= i < |r.frame.placed| ==>
              r.frame.placed[i].text == WrapText(measure, lyric, 1728)[i]
  {
    if !res.backgroundExists then Aborted(BackgroundMissing)
    else if !res.fontExists then Aborted(FontMissing)
    else if res.background.None? then Aborted(BackgroundUndecodable)
    else
      var canvas := Size(CanvasWidth, res.background.value.height);
      if !res.fontLoads then Aborted(FontUnloadable)
      else
        var lines := WrapText(measure, lyric, WrapWidth(canvas.width));
        Composited(Frame(canvas, Layout(measure, canvas.height, lines)), res.saveSucceeds)
  }

  /** The render stops exactly at the first failing check, in source order. */
  lemma RenderStopsAtFirstFailure(lyric: string, res: Resources, measure: string -> int)
    ensures RenderLyricFrame(lyric, res, measure).Aborted?
            <==> FirstFailure(Checks(res)).Some?
    ensures RenderLyricFrame(lyric, res, measure).Aborted?
            ==> RenderLyricFrame(lyric, res, measure).failure == FirstFailure(Checks(res)).value
  {
    var c := Checks(res);
    assert c[1..] == [c[1], c[2], c[3]];
    assert c[1..][1..] == [c[2], c[3]];
    assert c[1..][1..][1..] == [c[3]];
    assert c[1..][1..][1..][1..] == [];
  }

  /** A composited frame shows the wrapped lyric, each line centred within one
      pixel, the block centred vertically within one pixel, lines one line height
      apart, and every line of two or more words within the wrapping width. */
  lemma RenderedFrameLayout(lyric: string, res: Resources, measure: string -> int)
    requires RenderLyricFrame(lyric, res, measure).Composited?
    ensures var f := RenderLyricFrame(lyric, res, measure).frame;
      && (forall i :: 0 <= i < |f.placed| ==> 0 <= f.size.width - measure(f.placed[i].text) - 2 * f.placed[i].x <= 1)
      && (forall i :: 0 <= i < |f.placed| - 1 ==> f.placed[i + 1].y == f.placed[i].y + LineHeight)
      && (|f.placed| > 0 ==> 0 <= f.size.height - |f.placed| * LineHeight - 2 * f.placed[0].y <= 1)
      && (forall i :: 0 <= i < |f.placed| && ' ' in f.placed[i].text ==> measure(f.placed[i].text) <= 1728)
  {
    WrapWidthBound(measure, lyric, 1728);
  }
}
