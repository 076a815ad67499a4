/** Splitting a text on single spaces and joining tokens back with single spaces.

    The wrapper splits its input with Python's `str.split(' ')`: every space is a
    separator, so leading, trailing and doubled spaces produce empty tokens, and
    the empty text splits into one empty token. `Split` and `Join` below are that
    operation and its inverse (`' '.join`); together they are a bijection between
    texts and non-empty sequences of space-free tokens.
 */
module Tokens {

  /** A token is a piece of text that holds no space (it may be empty). */
  predicate IsToken(t: string) {
    ' ' !in t
  }

  predicate AllTokens(ts: seq<string>) {
    forall i :: 0 <= i < |ts| ==> IsToken(ts[i])
  }

  /** True when no token of `text` is empty: no leading, trailing or doubled space,
      and `text` itself is not empty. */
  predicate NoEmptyTokens(text: string) {
    forall i :: 0 <= i < |Split(text)| ==> Split(text)[i] != ""
  }

  /** Python's `s.split(' ')`. */
  function Split(s: string): (ts: seq<string>)
    ensures |ts| >= 1
    decreases |s|
  {
    if |s| == 0 then [""] else Prepend(s[0], Split(s[1..]))
  }

  /** The split of `[c] + t`, given the split `ts` of `t`: a space opens a new,
      empty first token; any other character extends the first token. */
  function Prepend(c: char, ts: seq<string>): (r: seq<string>)
    requires |ts| >= 1
    ensures |r| >= 1
  {
    if c == ' ' then [""] + ts else [[c] + ts[0]] + ts[1..]
  }

  /** Python's `' '.join(ts)`. */
  function Join(ts: seq<string>): string {
    if |ts| == 0 then ""
    else if |ts| == 1 then ts[0]
    else ts[0] + " " + Join(ts[1..])
  }

  /** The first token of a line: what the line starts with up to its first space. */
  function FirstToken(line: string): string {
    Split(line)[0]
  }

  /** The tokens of a sequence of lines, in order. */
  function TokensOf(lines: seq<string>): (ts: seq<string>)
    ensures |ts| >= |lines|
  {
    if |lines| == 0 then []
    else TokensOf(lines[..|lines| - 1]) + Split(lines[|lines| - 1])
  }

  /** No token of a split holds a space. */
  lemma {:induction false} SplitAllTokens(s: string)
    ensures AllTokens(Split(s))
    decreases |s|
  {
    if |s| > 0 {
      SplitAllTokens(s[1..]);
      var rest := Split(s[1..]);
      if s[0] != ' ' {
        var head := [s[0]] + rest[0];
        assert IsToken(rest[0]);
        assert IsToken(head) by {
          forall k | 0 <= k < |head| ensures head[k] != ' ' {
            if k > 0 {
              assert head[k] == rest[0][k - 1];
            }
          }
        }
        assert Split(s) == [head] + rest[1..];
        forall k | 0 <= k < |Split(s)| ensures IsToken(Split(s)[k]) {
          if k > 0 {
            assert Split(s)[k] == rest[k];
          }
        }
      } else {
        assert Split(s) == [""] + rest;
        forall k | 0 <= k < |Split(s)| ensures IsToken(Split(s)[k]) {
          if k > 0 {
            assert Split(s)[k] == rest[k - 1];
          }
        }
      }
    }
  }

  /** Joining the split of a text gives the text back. */
  lemma {:induction false} JoinSplit(s: string)
    ensures Join(Split(s)) == s
    decreases |s|
  {
    if |s| > 0 {
      var rest := Split(s[1..]);
      JoinSplit(s[1..]);
      if s[0] == ' ' {
        var ts := [""] + rest;
        assert Split(s) == ts;
        assert ts[1..] == rest;
        assert Join(ts) == "" + " " + Join(rest);
        assert s == " " + s[1..];
      } else {
        var head := [s[0]] + rest[0];
        var ts := [head] + rest[1..];
        assert Split(s) == ts;
        assert s == [s[0]] + s[1..];
        if |rest| == 1 {
          assert ts == [head];
          assert Join(rest) == rest[0];
        } else {
          assert ts[1..] == rest[1..];
          assert Join(ts) == head + " " + Join(rest[1..]);
          assert Join(rest) == rest[0] + " " + Join(rest[1..]);
        }
      }
    }
  }

  /** A single token splits into itself. */
  lemma {:induction false} SplitToken(t: string)
    requires IsToken(t)
    ensures Split(t) == [t]
    decreases |t|
  {
    if |t| > 0 {
      assert t[0] in t;
      assert IsToken(t[1..]) by {
        forall k | 0 <= k < |t[1..]| ensures t[1..][k] != ' ' {
          assert t[1..][k] == t[k + 1];
        }
      }
      SplitToken(t[1..]);
      assert t == [t[0]] + t[1..];
    }
  }

  /** Splitting a text that starts with `c` takes one `Prepend` step. */
  lemma SplitCons(c: char, t: string)
    ensures Split([c] + t) == Prepend(c, Split(t))
  {
    assert ([c] + t)[0] == c;
    assert ([c] + t)[1..] == t;
  }

  /** `Prepend` only touches the first token, so it commutes with appending
      further tokens. */
  lemma PrependAppend(c: char, ts: seq<string>, more: seq<string>)
    requires |ts| >= 1
    ensures Prepend(c, ts + more) == Prepend(c, ts) + more
  {
    if c != ' ' {
      assert (ts + more)[0] == ts[0];
      assert (ts + more)[1..] == ts[1..] + more;
    }
  }

  /** Splitting distributes over a joining space. */
  lemma {:induction false} SplitSpace(a: string, b: string)
    ensures Split(a + " " + b) == Split(a) + Split(b)
    decreases |a|
  {
    if |a| == 0 {
      assert a + " " + b == [' '] + b;
      SplitCons(' ', b);
    } else {
      var c, tail := a[0], a[1..];
      assert a == [c] + tail;
      assert a + " " + b == [c] + (tail + " " + b);
      SplitSpace(tail, b);
      SplitCons(c, tail + " " + b);
      SplitCons(c, tail);
      PrependAppend(c, Split(tail), Split(b));
    }
  }

  /** Joining non-empty runs of tokens is associative around the joining space. */
  lemma {:induction false} JoinAppend(xs: seq<string>, ys: seq<string>)
    requires |xs| > 0 && |ys| > 0
    ensures Join(xs + ys) == Join(xs) + " " + Join(ys)
    decreases |xs|
  {
    if |xs| > 1 {
      assert (xs + ys)[1..] == xs[1..] + ys;
      JoinAppend(xs[1..], ys);
    } else {
      assert (xs + ys)[1..] == ys;
    }
  }

  /** Splitting the join of a non-empty sequence of tokens gives the tokens back. */
  lemma {:induction false} SplitJoin(ts: seq<string>)
    requires |ts| >= 1 && AllTokens(ts)
    ensures Split(Join(ts)) == ts
    decreases |ts|
  {
    SplitToken(ts[0]);
    if |ts| > 1 {
      SplitJoin(ts[1..]);
      SplitSpace(ts[0], Join(ts[1..]));
      assert ts == [ts[0]] + ts[1..];
    }
  }

  /** Joining the tokens of some lines gives the same text as joining the lines. */
  lemma {:induction false} JoinTokensOf(lines: seq<string>)
    ensures Join(TokensOf(lines)) == Join(lines)
    decreases |lines|
  {
    if |lines| > 0 {
      var init := lines[..|lines| - 1];
      var last := lines[|lines| - 1];
      assert lines == init + [last];
      JoinSplit(last);
      if |init| > 0 {
        JoinTokensOf(init);
        JoinAppend(TokensOf(init), Split(last));
        JoinAppend(init, [last]);
      } else {
        assert TokensOf(lines) == Split(last);
      }
    }
  }

  /** A line that is a single token is one of the tokens of the lines. */
  lemma {:induction false} TokenLineInTokensOf(lines: seq<string>, i: int)
    requires 0 <= i < |lines| && IsToken(lines[i])
    ensures lines[i] in TokensOf(lines)
    decreases |lines|
  {
    var init := lines[..|lines| - 1];
    if i == |lines| - 1 {
      SplitToken(lines[i]);
    } else {
      assert lines[i] == init[i];
      TokenLineInTokensOf(init, i);
    }
  }
}
