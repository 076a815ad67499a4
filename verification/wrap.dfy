/** The greedy line filler `wrap_text` (lyric.py).

    The text is split on single spaces; the first token opens the current line,
    and each further token is tried as `current + " " + token`. When the measured
    width of that candidate is within `maxWidth` the token joins the line;
    otherwise the current line is closed and the token opens a new one. The last
    line is kept only when it is not empty.

    Measurement is the font's bounding-box width (`draw.textbbox`); here it is an
    arbitrary function `measure`, and every property below holds for all of them.
 */
module Wrap {
  import opened Tokens

  /** The loop state of `wrap_text`: the closed lines and the line being filled. */
  datatype WrapState = WrapState(lines: seq<string>, current: string) {
    /** The lines the state stands for if the text ended here, before the final
        emptiness test: the closed lines followed by the current one. */
    function Drafted(): seq<string> {
      lines + [current]
    }
  }

  /** One iteration of the loop: try `word` on the current line. */
  function Step(measure: string -> int, maxWidth: int, s: WrapState, word: string): WrapState {
    var candidate := s.current + " " + word;
    if measure(candidate) <= maxWidth then WrapState(s.lines, candidate)
    else WrapState(s.lines + [s.current], word)
  }

  /** The loop over the remaining words, left to right. */
  function Run(measure: string -> int, maxWidth: int, s: WrapState, words: seq<string>): WrapState
    decreases |words|
  {
    if |words| == 0 then s
    else Run(measure, maxWidth, Step(measure, maxWidth, s, words[0]), words[1..])
  }

  /** After the loop: the current line is appended only when it is not empty. */
  function Finish(s: WrapState): (lines: seq<string>)
    ensures lines == s.Drafted() <==> s.current != ""
    ensures s.current == "" ==> lines + [""] == s.Drafted()
  {
    if s.current != "" then s.lines + [s.current] else s.lines
  }

  /** The state before the loop: no closed line, the first word on the current line. */
  function Start(words: seq<string>): WrapState
    requires |words| >= 1
  {
    WrapState([], words[0])
  }

  /** `wrap_text(draw, text, font, max_width)`. */
  function WrapText(measure: string -> int, text: string, maxWidth: int): (lines: seq<string>)
    ensures text == "" ==> lines == []
  {
    var words := Split(text);
    Finish(Run(measure, maxWidth, Start(words), words[1..]))
  }

  /** The loop of `wrap_text` as written, with its two mutable variables. */
  method WrapTextLoop(measure: string -> int, text: string, maxWidth: int) returns (lines: seq<string>)
    ensures lines == WrapText(measure, text, maxWidth)
  {
    var words := Split(text);
    lines := [];
    var current := words[0];
    var i := 1;
    while i < |words|
      invariant 1 <= i <= |words|
      invariant Run(measure, maxWidth, WrapState(lines, current), words[i..])
             == Run(measure, maxWidth, Start(words), words[1..])
    {
      assert words[i..][1..] == words[i + 1..];
      var candidate := current + " " + words[i];
      if measure(candidate) <= maxWidth {
        current := candidate;
      } else {
        lines := lines + [current];
        current := words[i];
      }
      i := i + 1;
    }
    if current != "" {
      lines := lines + [current];
    }
  }

  // ---------------------------------------------------------------------------
  // Invariants of the loop state

  /** Every line holding a space (two or more tokens) was built by an accepted
      append, so its measured width is within the bound. */
  predicate SpacedLinesFit(measure: string -> int, maxWidth: int, lines: seq<string>) {
    forall i :: 0 <= i < |lines| && ' ' in lines[i] ==> measure(lines[i]) <= maxWidth
  }

  /** No line could have taken the first token of the line after it. */
  predicate Greedy(measure: string -> int, maxWidth: int, lines: seq<string>) {
    forall i :: 0 <= i < |lines| - 1 ==> measure(lines[i] + " " + FirstToken(lines[i + 1])) > maxWidth
  }

  /** Every line's prefixes of two or more tokens measure within the bound: each
      of them was a candidate the loop accepted. */
  predicate PrefixesFit(measure: string -> int, maxWidth: int, line: string) {
    forall j :: 2 <= j <= |Split(line)| ==> measure(Join(Split(line)[..j])) <= maxWidth
  }

  predicate AllPrefixesFit(measure: string -> int, maxWidth: int, lines: seq<string>) {
    forall i :: 0 <= i < |lines| ==> PrefixesFit(measure, maxWidth, lines[i])
  }

  lemma StepTokens(measure: string -> int, maxWidth: int, s: WrapState, word: string)
    requires IsToken(word)
    ensures TokensOf(Step(measure, maxWidth, s, word).Drafted()) == TokensOf(s.Drafted()) + [word]
  {
    var s' := Step(measure, maxWidth, s, word);
    SplitToken(word);
    assert s'.Drafted()[..|s'.Drafted()| - 1] == s'.lines;
    if measure(s.current + " " + word) <= maxWidth {
      SplitSpace(s.current, word);
      assert s.Drafted()[..|s.Drafted()| - 1] == s.lines;
    } else {
      assert s'.lines == s.Drafted();
    }
  }

  lemma StepFits(measure: string -> int, maxWidth: int, s: WrapState, word: string)
    requires IsToken(word)
    requires SpacedLinesFit(measure, maxWidth, s.Drafted())
    ensures SpacedLinesFit(measure, maxWidth, Step(measure, maxWidth, s, word).Drafted())
  {
    var d := s.Drafted();
    var d' := Step(measure, maxWidth, s, word).Drafted();
    forall i | 0 <= i < |d'| && ' ' in d'[i]
      ensures measure(d'[i]) <= maxWidth
    {
      if i < |s.lines| {
        assert d'[i] == d[i];
      }
    }
  }

  lemma StepGreedy(measure: string -> int, maxWidth: int, s: WrapState, word: string)
    requires IsToken(word)
    requires Greedy(measure, maxWidth, s.Drafted())
    ensures Greedy(measure, maxWidth, Step(measure, maxWidth, s, word).Drafted())
  {
    var d := s.Drafted();
    var candidate := s.current + " " + word;
    var d' := Step(measure, maxWidth, s, word).Drafted();
    if measure(candidate) <= maxWidth {
      SplitSpace(s.current, word);
      assert FirstToken(candidate) == FirstToken(s.current);
      forall i | 0 <= i < |d'| - 1
        ensures measure(d'[i] + " " + FirstToken(d'[i + 1])) > maxWidth
      {
        assert d'[i] == d[i];
        if i + 1 < |s.lines| {
          assert d'[i + 1] == d[i + 1];
        } else {
          assert d'[i + 1] == candidate && d[i + 1] == s.current;
        }
      }
    } else {
      SplitToken(word);
      assert FirstToken(word) == word;
      assert d' == d + [word];
      forall i | 0 <= i < |d'| - 1
        ensures measure(d'[i] + " " + FirstToken(d'[i + 1])) > maxWidth
      {
        if i < |d| - 1 {
          assert d'[i] == d[i] && d'[i + 1] == d[i + 1];
        }
      }
    }
  }

  /** An accepted candidate keeps every prefix of the current line within the
      bound: its new prefix is the candidate itself. */
  lemma AcceptKeepsPrefixes(measure: string -> int, maxWidth: int, current: string, word: string)
    requires IsToken(word)
    requires PrefixesFit(measure, maxWidth, current)
    requires measure(current + " " + word) <= maxWidth
    ensures PrefixesFit(measure, maxWidth, current + " " + word)
  {
    var candidate := current + " " + word;
    var ts := Split(current);
    SplitSpace(current, word);
    SplitToken(word);
    assert Split(candidate) == ts + [word];
    forall j | 2 <= j <= |Split(candidate)|
      ensures measure(Join(Split(candidate)[..j])) <= maxWidth
    {
      if j <= |ts| {
        assert Split(candidate)[..j] == ts[..j];
      } else {
        assert Split(candidate)[..j] == Split(candidate);
        JoinSplit(candidate);
      }
    }
  }

  lemma StepPrefixes(measure: string -> int, maxWidth: int, s: WrapState, word: string)
    requires IsToken(word)
    requires AllPrefixesFit(measure, maxWidth, s.Drafted())
    ensures AllPrefixesFit(measure, maxWidth, Step(measure, maxWidth, s, word).Drafted())
  {
    var d := s.Drafted();
    var d' := Step(measure, maxWidth, s, word).Drafted();
    assert PrefixesFit(measure, maxWidth, d[|s.lines|]);
    if measure(s.current + " " + word) <= maxWidth {
      AcceptKeepsPrefixes(measure, maxWidth, s.current, word);
    } else {
      SplitToken(word);
      assert d' == d + [word];
    }
    forall i | 0 <= i < |d'| ensures PrefixesFit(measure, maxWidth, d'[i]) {
      if i < |s.lines| {
        assert d'[i] == d[i];
      }
    }
  }

  /** The remaining words are all tokens. */
  lemma TailTokens(words: seq<string>)
    requires |words| > 0 && AllTokens(words)
    ensures IsToken(words[0]) && AllTokens(words[1..])
  {
    forall k | 0 <= k < |words[1..]| ensures IsToken(words[1..][k]) {
      assert words[1..][k] == words[k + 1];
    }
  }

  /** The loop keeps the consumed tokens: the tokens drafted after the loop are
      the tokens drafted before it followed by the words it consumed. */
  lemma {:induction false} RunTokens(measure: string -> int, maxWidth: int, s: WrapState, words: seq<string>)
    requires AllTokens(words)
    ensures TokensOf(Run(measure, maxWidth, s, words).Drafted()) == TokensOf(s.Drafted()) + words
    decreases |words|
  {
    if |words| > 0 {
      var s' := Step(measure, maxWidth, s, words[0]);
      TailTokens(words);
      StepTokens(measure, maxWidth, s, words[0]);
      RunTokens(measure, maxWidth, s', words[1..]);
      var r := Run(measure, maxWidth, s, words);
      var before := TokensOf(s.Drafted());
      assert r == Run(measure, maxWidth, s', words[1..]);
      assert TokensOf(r.Drafted()) == (before + [words[0]]) + words[1..];
      assert (before + [words[0]]) + words[1..] == before + words;
    }
  }

  /** The loop keeps every line that holds a space within the width bound. */
  lemma {:induction false} RunFits(measure: string -> int, maxWidth: int, s: WrapState, words: seq<string>)
    requires AllTokens(words)
    requires SpacedLinesFit(measure, maxWidth, s.Drafted())
    ensures SpacedLinesFit(measure, maxWidth, Run(measure, maxWidth, s, words).Drafted())
    decreases |words|
  {
    if |words| > 0 {
      TailTokens(words);
      StepFits(measure, maxWidth, s, words[0]);
      RunFits(measure, maxWidth, Step(measure, maxWidth, s, words[0]), words[1..]);
    }
  }

  /** The loop keeps the lines greedy. */
  lemma {:induction false} RunGreedy(measure: string -> int, maxWidth: int, s: WrapState, words: seq<string>)
    requires AllTokens(words)
    requires Greedy(measure, maxWidth, s.Drafted())
    ensures Greedy(measure, maxWidth, Run(measure, maxWidth, s, words).Drafted())
    decreases |words|
  {
    if |words| > 0 {
      TailTokens(words);
      StepGreedy(measure, maxWidth, s, words[0]);
      RunGreedy(measure, maxWidth, Step(measure, maxWidth, s, words[0]), words[1..]);
    }
  }

  /** The loop keeps every accepted prefix within the bound. */
  lemma {:induction false} RunPrefixes(measure: string -> int, maxWidth: int, s: WrapState, words: seq<string>)
    requires AllTokens(words)
    requires AllPrefixesFit(measure, maxWidth, s.Drafted())
    ensures AllPrefixesFit(measure, maxWidth, Run(measure, maxWidth, s, words).Drafted())
    decreases |words|
  {
    if |words| > 0 {
      TailTokens(words);
      StepPrefixes(measure, maxWidth, s, words[0]);
      RunPrefixes(measure, maxWidth, Step(measure, maxWidth, s, words[0]), words[1..]);
    }
  }

  /** Before the loop, the one drafted line is the first token. */
  lemma StartTokens(words: seq<string>)
    requires |words| >= 1 && IsToken(words[0])
    ensures TokensOf(Start(words).Drafted()) == [words[0]]
  {
    var d := Start(words).Drafted();
    assert d == [words[0]];
    SplitToken(words[0]);
    assert d[..0] == [];
  }

  /** Before the loop, the one drafted line holds no space. */
  lemma StartFits(measure: string -> int, maxWidth: int, words: seq<string>)
    requires |words| >= 1 && IsToken(words[0])
    ensures SpacedLinesFit(measure, maxWidth, Start(words).Drafted())
  {
    assert Start(words).Drafted() == [words[0]];
  }

  /** Before the loop, there is no pair of lines. */
  lemma StartGreedy(measure: string -> int, maxWidth: int, words: seq<string>)
    requires |words| >= 1
    ensures Greedy(measure, maxWidth, Start(words).Drafted())
  {
    assert |Start(words).Drafted()| == 1;
  }

  /** The state at the end of the loop of `wrap_text`, with its invariants. */
  lemma FinalState(measure: string -> int, text: string, maxWidth: int)
    ensures TokensOf(Run(measure, maxWidth, Start(Split(text)), Split(text)[1..]).Drafted()) == Split(text)
    ensures SpacedLinesFit(measure, maxWidth, Run(measure, maxWidth, Start(Split(text)), Split(text)[1..]).Drafted())
    ensures Greedy(measure, maxWidth, Run(measure, maxWidth, Start(Split(text)), Split(text)[1..]).Drafted())
  {
    var words := Split(text);
    var s0 := Start(words);
    SplitAllTokens(text);
    TailTokens(words);
    StartTokens(words);
    StartFits(measure, maxWidth, words);
    StartGreedy(measure, maxWidth, words);
    RunTokens(measure, maxWidth, s0, words[1..]);
    RunFits(measure, maxWidth, s0, words[1..]);
    RunGreedy(measure, maxWidth, s0, words[1..]);
    assert words == [words[0]] + words[1..];
  }

  // ---------------------------------------------------------------------------
  // Properties of wrap_text

  /** No token is lost, duplicated, reordered or split: the tokens of the lines
      `lines` that `wrap_text` returns are the tokens of the text, except that a
      trailing empty token may be dropped together with an empty last line. */
  lemma WrapKeepsTokens(measure: string -> int, text: string, maxWidth: int, lines: seq<string>)
    requires lines == WrapText(measure, text, maxWidth)
    ensures TokensOf(lines) == Split(text) || TokensOf(lines) + [""] == Split(text)
  {
    var words := Split(text);
    var s := Run(measure, maxWidth, Start(words), words[1..]);
    FinalState(measure, text, maxWidth);
    if s.current == "" {
      assert s.Drafted()[..|s.Drafted()| - 1] == s.lines;
      assert Split("") == [""];
    }
  }

  /** A trailing space is dropped only when it could not join the last line:
      that line plus a space was too wide, so the empty word after the space
      opened a new, empty line that the final test left out. */
  lemma WrapDropsSpaceOnlyWhenRejected(measure: string -> int, text: string, maxWidth: int, lines: seq<string>)
    requires lines == WrapText(measure, text, maxWidth)
    ensures lines != [] && Join(lines) + " " == text ==> measure(lines[|lines| - 1] + " ") > maxWidth
  {
    var words := Split(text);
    FinalState(measure, text, maxWidth);
    DroppedSpaceWasRejected(measure, maxWidth, text, Run(measure, maxWidth, Start(words), words[1..]), lines);
  }

  /** `WrapDropsSpaceOnlyWhenRejected` for a final loop state with its invariants. */
  lemma DroppedSpaceWasRejected(measure: string -> int, maxWidth: int, text: string, s: WrapState, lines: seq<string>)
    requires lines == Finish(s)
    requires TokensOf(s.Drafted()) == Split(text)
    requires Greedy(measure, maxWidth, s.Drafted())
    ensures lines != [] && Join(lines) + " " == text ==> measure(lines[|lines| - 1] + " ") > maxWidth
  {
    var d := s.Drafted();
    JoinSplit(text);
    if s.current == "" {
      if lines != [] {
        assert Split("") == [""];
        assert FirstToken(d[|d| - 1]) == "";
        assert d[|d| - 2] == lines[|lines| - 1];
        assert lines[|lines| - 1] + " " + "" == lines[|lines| - 1] + " ";
      }
    } else {
      JoinTokensOf(lines);
      assert |Join(lines) + " "| != |text|;
    }
  }

  /** A trailing space that is kept ends the last line: the empty word after it
      was joined to that line. */
  lemma WrapKeepsSpaceOnLastLine(measure: string -> int, text: string, maxWidth: int, lines: seq<string>)
    requires lines == WrapText(measure, text, maxWidth)
    ensures Join(lines) == text && |text| > 0 && text[|text| - 1] == ' ' ==>
              lines != [] && |lines[|lines| - 1]| > 0 && lines[|lines| - 1][|lines[|lines| - 1]| - 1] == ' '
  {
    var words := Split(text);
    FinalState(measure, text, maxWidth);
    KeptSpaceOnLastLine(text, Run(measure, maxWidth, Start(words), words[1..]), lines);
  }

  /** `WrapKeepsSpaceOnLastLine` for a final loop state with its invariants. */
  lemma KeptSpaceOnLastLine(text: string, s: WrapState, lines: seq<string>)
    requires lines == Finish(s)
    requires TokensOf(s.Drafted()) == Split(text)
    ensures Join(lines) == text && |text| > 0 && text[|text| - 1] == ' ' ==>
              lines != [] && |lines[|lines| - 1]| > 0 && lines[|lines| - 1][|lines[|lines| - 1]| - 1] == ' '
  {
    if s.current == "" {
      DroppedEmptyLosesSpace(text, s, lines);
    } else if |text| > 0 && text[|text| - 1] == ' ' {
      TrailingSpaceSplit(text);
      LastTokenOfLast(s.Drafted());
      EmptyLastTokenEndsInSpace(s.current);
    }
  }

  /** When the final current line is empty, joining the kept lines gives the text
      minus its last space, so never a non-empty text itself. */
  lemma DroppedEmptyLosesSpace(text: string, s: WrapState, lines: seq<string>)
    requires s.current == "" && lines == Finish(s)
    requires TokensOf(s.Drafted()) == Split(text)
    ensures Join(lines) == text ==> text == ""
  {
    var d := s.Drafted();
    JoinSplit(text);
    assert d[..|d| - 1] == s.lines;
    assert Split("") == [""];
    assert TokensOf(d) == TokensOf(lines) + [""];
    if lines != [] {
      JoinTokensOf(lines);
      JoinAppend(TokensOf(lines), [""]);
      assert Join(lines) + " " == text;
    }
  }

  /** The last token of some lines is the last token of the last line. */
  lemma LastTokenOfLast(d: seq<string>)
    requires |d| > 0
    ensures var ts, ls := TokensOf(d), Split(d[|d| - 1]);
      ts[|ts| - 1] == ls[|ls| - 1]
  {
    var ls := Split(d[|d| - 1]);
    assert TokensOf(d) == TokensOf(d[..|d| - 1]) + ls;
  }

  /** A non-empty line whose last token is empty ends in a space. */
  lemma EmptyLastTokenEndsInSpace(line: string)
    requires line != ""
    ensures Split(line)[|Split(line)| - 1] == "" ==> line[|line| - 1] == ' '
  {
    var ts := Split(line);
    JoinSplit(line);
    if |ts| > 1 && ts[|ts| - 1] == "" {
      assert ts == ts[..|ts| - 1] + [""];
      JoinAppend(ts[..|ts| - 1], [""]);
    }
  }

  /** A text ending in a space splits into the tokens before it and one empty token. */
  lemma TrailingSpaceSplit(text: string)
    requires |text| > 0 && text[|text| - 1] == ' '
    ensures Split(text) == Split(text[..|text| - 1]) + [""]
  {
    assert text == text[..|text| - 1] + " " + "";
    SplitSpace(text[..|text| - 1], "");
  }

  /** Joining the lines with single spaces gives the text back, except that a
      trailing space may be lost together with an empty last line. */
  lemma WrapKeepsText(measure: string -> int, text: string, maxWidth: int)
    ensures var lines := WrapText(measure, text, maxWidth);
      Join(lines) == text || Join(lines) + " " == text
  {
    var lines := WrapText(measure, text, maxWidth);
    WrapKeepsTokens(measure, text, maxWidth, lines);
    JoinKeptTokens(text, lines);
  }

  /** Lines that carry the tokens of a text, possibly without a trailing empty
      one, join to the text, possibly without its trailing space. */
  lemma JoinKeptTokens(text: string, lines: seq<string>)
    requires TokensOf(lines) == Split(text) || TokensOf(lines) + [""] == Split(text)
    ensures Join(lines) == text || Join(lines) + " " == text
  {
    JoinSplit(text);
    JoinTokensOf(lines);
    if TokensOf(lines) != Split(text) {
      if |TokensOf(lines)| > 0 {
        JoinAppend(TokensOf(lines), [""]);
      } else {
        assert Split(text) == [""];
      }
    }
  }

  /** When the text has no empty token, joining the lines with single spaces gives
      the text back exactly. */
  lemma WrapRoundTrip(measure: string -> int, text: string, maxWidth: int)
    requires NoEmptyTokens(text)
    ensures Join(WrapText(measure, text, maxWidth)) == text
  {
    var lines := WrapText(measure, text, maxWidth);
    WrapKeepsTokens(measure, text, maxWidth, lines);
    var words := Split(text);
    assert words[|words| - 1] != "";
    assert TokensOf(lines) + [""] != words by {
      assert (TokensOf(lines) + [""])[|words| - 1] == "" || |TokensOf(lines) + [""]| != |words|;
    }
    JoinSplit(text);
    JoinTokensOf(lines);
  }

  /** Only a single token may exceed the width bound: every line holding a space
      fits, and every line without one is a token of the text. */
  lemma WrapWidthBound(measure: string -> int, text: string, maxWidth: int)
    ensures var lines := WrapText(measure, text, maxWidth);
      forall i :: 0 <= i < |lines| && ' ' in lines[i] ==> measure(lines[i]) <= maxWidth
    ensures var lines := WrapText(measure, text, maxWidth);
      forall i :: 0 <= i < |lines| && ' ' !in lines[i] ==> lines[i] in Split(text)
  {
    var words := Split(text);
    var s := Run(measure, maxWidth, Start(words), words[1..]);
    var lines := WrapText(measure, text, maxWidth);
    FinalState(measure, text, maxWidth);
    assert forall i :: 0 <= i < |lines| ==> lines[i] == s.Drafted()[i];
    forall i | 0 <= i < |lines| && ' ' !in lines[i]
      ensures lines[i] in words
    {
      TokenLineInTokensOf(s.Drafted(), i);
    }
  }

  /** When every token fits on its own, every line fits. */
  lemma WrapFitsWhenTokensFit(measure: string -> int, text: string, maxWidth: int)
    requires forall k :: 0 <= k < |Split(text)| ==> measure(Split(text)[k]) <= maxWidth
    ensures var lines := WrapText(measure, text, maxWidth);
      forall i :: 0 <= i < |lines| ==> measure(lines[i]) <= maxWidth
  {
    WrapWidthBound(measure, text, maxWidth);
  }

  /** Greedy maximality: no line could have taken the first token of the next. */
  lemma WrapIsGreedy(measure: string -> int, text: string, maxWidth: int)
    ensures var lines := WrapText(measure, text, maxWidth);
      forall i :: 0 <= i < |lines| - 1 ==> measure(lines[i] + " " + FirstToken(lines[i + 1])) > maxWidth
  {
    var words := Split(text);
    var s := Run(measure, maxWidth, Start(words), words[1..]);
    var lines := WrapText(measure, text, maxWidth);
    FinalState(measure, text, maxWidth);
    assert forall i :: 0 <= i < |lines| ==> lines[i] == s.Drafted()[i];
  }

  /** Every join the loop made was an accepted candidate: for every line, each of
      its prefixes of two or more tokens measures within the bound. */
  lemma WrapPrefixesFit(measure: string -> int, text: string, maxWidth: int)
    ensures var lines := WrapText(measure, text, maxWidth);
      forall i, j :: 0 <= i < |lines| && 2 <= j <= |Split(lines[i])| ==>
        measure(Join(Split(lines[i])[..j])) <= maxWidth
  {
    var words := Split(text);
    var s0 := Start(words);
    var s := Run(measure, maxWidth, s0, words[1..]);
    var lines := WrapText(measure, text, maxWidth);
    SplitAllTokens(text);
    TailTokens(words);
    SplitToken(words[0]);
    assert s0.Drafted() == [words[0]];
    assert AllPrefixesFit(measure, maxWidth, s0.Drafted());
    RunPrefixes(measure, maxWidth, s0, words[1..]);
    forall i | 0 <= i < |lines| ensures PrefixesFit(measure, maxWidth, lines[i]) {
      assert lines[i] == s.Drafted()[i];
    }
  }

  /** The empty text gives no line; any other text gives at least one line and
      never more lines than tokens. */
  lemma WrapLineCount(measure: string -> int, text: string, maxWidth: int)
    ensures var lines := WrapText(measure, text, maxWidth);
      lines == [] <==> text == ""
    ensures |WrapText(measure, text, maxWidth)| <= |Split(text)|
  {
    var lines := WrapText(measure, text, maxWidth);
    WrapKeepsTokens(measure, text, maxWidth, lines);
    if lines == [] {
      assert TokensOf(lines) == [];
      JoinSplit(text);
    }
  }
}
