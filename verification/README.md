# Lyric frame layout, modelled in Dafny

This project models the text-layout core of `lyric.py`, the part of the lyric-video
tool that turns one lyric into one video frame. It has three parts.

- `wrap_text` is a greedy line filler. The lyric is split on single spaces. Each
  token is tried on the current line, and a new line is opened when the measured
  candidate is wider than the wrapping width.
- The geometry of `render_lyric_frame` works on a 1920-pixel-wide canvas that keeps
  the background's height. Lines wrap at 1728 pixels and are 110 pixels apart. The
  text block is centred vertically and each line horizontally, both with floor
  division.
- The control flow of `render_lyric_frame` makes four checks in a fixed order:
  background exists, font exists, background decodes, font loads. Any failure ends
  the render before anything is drawn. After compositing, a failing save is caught.

Text measurement (the width of `draw.textbbox`) is a parameter `measure: string -> int`
that is left uninterpreted, so every property holds for every font. The file system,
decoder, font loader and image writer are an abstract `Resources` value.

Files:
- `tokens.dfy` (module `Tokens`): Python's `str.split(' ')` and `' '.join`, and the
  proof that they are inverse to each other.
- `wrap.dfy` (module `Wrap`): the wrapper as a fold over its loop state, the loop as
  written, the loop invariants, and the properties of the wrapped lines.
- `geometry.dfy` (module `Geometry`): constants, vertical start, horizontal centring,
  and the layout of all lines.
- `render.dfy` (module `Render`): the order of the checks and the outcome of a render.

Behaviours of `lyric.py` that the model keeps as written:
- Tokens are split on single spaces, not on general whitespace. Runs of spaces
  therefore produce empty tokens.
- The empty lyric gives no line at all, because the final line is appended only when
  it is not empty.
- A save failure is caught inside the render and not reported to the caller. The
  model records it as `saved == false` on a composited frame.
- The font size (100) and the line spacing (10) are constants, not parameters.
- Every failure just returns. Only the order of the checks is observable, and the
  model's `Failure` names which check stopped the render.

## Model

| member | source | states |
|---|---|---|
| Tokens.Split | lyric.py:10 | `text.split(' ')` always yields at least one token, even for the empty text |
| Tokens.SplitAllTokens | lyric.py:10 | no token of a split contains a space |
| Tokens.JoinSplit | lyric.py:10 | joining the tokens of any text with single spaces gives the text back |
| Tokens.SplitJoin | lyric.py:10 | splitting the join of a non-empty list of space-free tokens gives that list back, so split and join are a bijection |
| Tokens.SplitSpace | lyric.py:15 | the tokens of a candidate line `current + ' ' + word` are the current line's tokens followed by the word's tokens |
| Wrap.WrapText | lyric.py:4-37 | wrapping the empty text gives no line, because `''.split(' ')` is `['']` and the final empty line is dropped |
| Wrap.StepTokens | lyric.py:15-28 | one loop iteration adds exactly the tried word to the drafted tokens, whether the word joins the current line or opens a new one |
| Wrap.StepFits | lyric.py:15-28 | one loop iteration keeps every drafted line that holds a space within `max_width`: a joined line is the accepted candidate, a new line is a single word |
| Wrap.StepGreedy | lyric.py:15-28 | one loop iteration keeps the drafted lines greedy: a closed line is closed only because the candidate with the next word was too wide |
| Wrap.StepPrefixes | lyric.py:15-28 | one loop iteration keeps every multi-token prefix of every drafted line within `max_width` |
| Wrap.Finish | lyric.py:32-33 | after the loop, the current line is kept exactly when it is not empty; an empty current line is the only thing dropped |
| Wrap.WrapTextLoop | lyric.py:9-37 | the loop as written, with mutable `lines` and `current_line`, gives the same lines as the functional model |
| Wrap.RunTokens | lyric.py:14-28 | across the loop, the drafted lines (closed lines plus the current one) carry exactly the tokens consumed so far, in order |
| Wrap.RunFits | lyric.py:15-23 | across the loop, every drafted line that holds a space measures within `max_width` |
| Wrap.RunPrefixes | lyric.py:15-28 | across the loop, every prefix of two or more tokens of every drafted line measures within `max_width` |
| Wrap.RunGreedy | lyric.py:22-28 | across the loop, no drafted line could take the first token of the drafted line after it |
| Wrap.WrapKeepsTokens | lyric.py:10-33 | for any text, the lines' tokens are the text's tokens in order, with nothing dropped, duplicated, reordered or split, except that one trailing empty token may be dropped |
| Wrap.WrapDropsSpaceOnlyWhenRejected | lyric.py:15-33 | when the lines join to the text minus its trailing space, the last line plus a space measured wider than `max_width`: the empty word after that space opened a new, empty line, which the final test left out |
| Wrap.WrapKeepsSpaceOnLastLine | lyric.py:15-33 | when the text ends in a space and the lines join to the whole text, the last line ends in that space: the empty word after it was joined to the line |
| Wrap.WrapKeepsText | lyric.py:10-33 | for any text, joining the lines with single spaces gives the text, or the text minus one trailing space |
| Wrap.WrapRoundTrip | lyric.py:10-33 | when no token is empty (no leading, trailing or doubled space), joining the lines with single spaces gives the text exactly |
| Wrap.WrapWidthBound | lyric.py:15-28 | every line with a space measures within `max_width`; every line without a space is a single token of the text, so only such a line can overflow |
| Wrap.WrapFitsWhenTokensFit | lyric.py:15-28 | when every token fits on its own, every line fits |
| Wrap.WrapIsGreedy | lyric.py:22-28 | for each pair of consecutive lines, the first line plus a space plus the next line's first token measures wider than `max_width` |
| Wrap.WrapPrefixesFit | lyric.py:15-28 | every join the wrapper made was an accepted candidate: for every line, each prefix of two or more of its tokens, joined with single spaces, measures within `max_width` |
| Wrap.WrapLineCount | lyric.py:10-33 | there is no line exactly when the text is empty, and there are never more lines than tokens |
| Geometry.WrapWidth | lyric.py:83 | the wrapping width is 90 percent of the canvas width, rounded down |
| Geometry.StartY | lyric.py:90-92 | the block top leaves 0 or 1 pixel more below than above; if the block fits, it lies inside the canvas; if it is taller than the canvas, the top is negative, with no clipping |
| Geometry.CenterX | lyric.py:100-102 | a line's left edge leaves 0 or 1 pixel more on the right than on the left, and a line no wider than the canvas lies inside it |
| Geometry.Layout | lyric.py:99-105 | one placement per line, in order; each line centred on its own measured width; the block centred vertically; consecutive lines exactly one line height (110) apart |
| Render.Checks | lyric.py:44-75 | the four checks, each with its own failure, pass together exactly when the background and font exist, the background decodes and the font loads |
| Render.RenderLyricFrame | lyric.py:39-117 | a missing background is reported first, then a missing font, then an undecodable background, then a font that fails to load. A frame is composited exactly when all four checks pass. The frame is 1920 wide with the background's own height and shows the lines wrapped at 1728. A save failure only clears `saved` |
| Render.RenderStopsAtFirstFailure | lyric.py:44-75 | the render aborts exactly when some check fails, and then with the first failing check in source order |
| Render.RenderedFrameLayout | lyric.py:61-105 | in a composited frame, every line is centred within 1 px of the 1920-px canvas, the block is centred vertically within 1 px, lines are 110 px apart, and every multi-word line fits 1728 |

## Left out

- Opacity: the fill alpha `int(255 * opacity)` is float arithmetic and is not modelled. The frame records no colour.
- Pixel work is left out: decoding, `resize`, glyph drawing, `alpha_composite` and `save`. A `Frame` holds only its size and where each line is placed.
- Text measurement is an uninterpreted `measure` function. The bounding box of PIL's font rasteriser is not part of this model.
- The file-system checks, the decoder, the font loader and the writer are the boolean and optional fields of `Resources`. The paths and the exception text of each failure are not kept.
- All `print` tracing, and the module-level usage example that renders one frame when the module is imported.
- `main.py` (assembling frames into a video with moviepy) is not part of this model. It has no layout logic of its own.
- Geometry.WrapWidth: computes `canvas_width * 0.9` exactly as 9/10 and rounds down, not in floating point. For 1920, the only width the code uses, both give 1728.
