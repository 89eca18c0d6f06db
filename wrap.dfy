/** Greedy caption word-wrap, as the download handlers of both pages do it: the
    caption is split on single spaces, the first word opens the current line,
    each later word is tried on the current line behind one space, and when the
    tried line measures wider than the limit the current line is committed and
    the word opens a new one. At the end the current line is committed.

    `measure` stands for the canvas's text measurement in the active font; it is
    left uninterpreted, except where a lemma asks for it to grow when text is
    added (`Monotone`). */
module WordWrap {
  import opened Text

  /** The words of a caption: `caption.split(' ')`. */
  function Words(caption: string): seq<string>
  {
    Split(caption, ' ')
  }

  /** The first space-separated word of a line. */
  function FirstWord(line: string): string
  {
    Split(line, ' ')[0]
  }

  /** Number of space-separated words on a line. */
  function WordCount(line: string): nat
  {
    |Split(line, ' ')|
  }

  /** The wrap loop from its current state onwards: `lines` committed so far,
      the `current` line, and the words not yet placed. */
  function Fill(lines: seq<string>, current: string, rest: seq<string>,
                measure: string -> real, limit: real): (r: seq<string>)
    ensures |lines| < |r| <= |lines| + 1 + |rest|
    ensures r[..|lines|] == lines
    decreases |rest|
  {
    if rest == [] then lines + [current]
    else
      var test := current + " " + rest[0];
      if measure(test) > limit then Fill(lines + [current], rest[0], rest[1..], measure, limit)
      else Fill(lines, test, rest[1..], measure, limit)
  }

  /** The lines the download handler draws for `caption`, wrapped at `limit`. */
  function Wrap(caption: string, measure: string -> real, limit: real): (lines: seq<string>)
    ensures 1 <= |lines| <= |Words(caption)|
  {
    var words := Words(caption);
    Fill([], words[0], words[1..], measure, limit)
  }

  /** Every line holding two or more words measures at most the limit. */
  ghost predicate Fits(lines: seq<string>, measure: string -> real, limit: real)
  {
    forall i :: 0 <= i < |lines| && WordCount(lines[i]) >= 2 ==> measure(lines[i]) <= limit
  }

  /** No line could have taken the first word of the next one: every line but
      the last, extended by that word, measures wider than the limit. */
  ghost predicate Maximal(lines: seq<string>, measure: string -> real, limit: real)
  {
    forall i :: 0 < i < |lines| ==> measure(lines[i - 1] + " " + FirstWord(lines[i])) > limit
  }

  /** Measurement grows when text is added on either side of a space. */
  ghost predicate Monotone(measure: string -> real)
  {
    forall a: string, b: string ::
      measure(a + " " + b) >= measure(a) && measure(a + " " + b) >= measure(b)
  }

  predicate NoSpaces(words: seq<string>)
  {
    forall i :: 0 <= i < |words| ==> ' ' !in words[i]
  }

  lemma {:induction false} FillJoin(lines: seq<string>, current: string, rest: seq<string>,
                                    measure: string -> real, limit: real)
    ensures Join(Fill(lines, current, rest, measure, limit), ' ') == Join(lines + [current] + rest, ' ')
    decreases |rest|
  {
    if rest == [] {
      assert lines + [current] + rest == lines + [current];
    } else {
      var test := current + " " + rest[0];
      if measure(test) > limit {
        FillJoin(lines + [current], rest[0], rest[1..], measure, limit);
        assert lines + [current] + [rest[0]] + rest[1..] == lines + [current] + rest;
      } else {
        FillJoin(lines, test, rest[1..], measure, limit);
        JoinMerge(lines, current, rest[0], rest[1..], ' ');
        assert lines + [current, rest[0]] + rest[1..] == lines + [current] + rest;
      }
    }
  }

  /** Joining the wrapped lines with single spaces gives back the caption. */
  lemma WrapJoin(caption: string, measure: string -> real, limit: real)
    ensures Join(Wrap(caption, measure, limit), ' ') == caption
  {
    var words := Words(caption);
    FillJoin([], words[0], words[1..], measure, limit);
    assert [] + [words[0]] + words[1..] == words;
    SplitJoin(caption, ' ');
  }

  /** The words of the lines are the words of the caption, in order: no word
      is ever split, dropped or moved. */
  lemma WrapWords(caption: string, measure: string -> real, limit: real)
    ensures SplitAll(Wrap(caption, measure, limit), ' ') == Words(caption)
  {
    WrapJoin(caption, measure, limit);
    SplitOfJoin(Wrap(caption, measure, limit), ' ');
  }

  lemma {:induction false} FillFits(lines: seq<string>, current: string, rest: seq<string>,
                                    measure: string -> real, limit: real)
    requires Fits(lines, measure, limit)
    requires WordCount(current) >= 2 ==> measure(current) <= limit
    requires NoSpaces(rest)
    ensures Fits(Fill(lines, current, rest, measure, limit), measure, limit)
    decreases |rest|
  {
    if rest != [] {
      var test := current + " " + rest[0];
      if measure(test) > limit {
        SplitNoSep(rest[0], ' ');
        FillFits(lines + [current], rest[0], rest[1..], measure, limit);
      } else {
        FillFits(lines, test, rest[1..], measure, limit);
      }
    }
  }

  /** Every wrapped line of two or more words measures at most the limit. */
  lemma WrapFits(caption: string, measure: string -> real, limit: real)
    ensures Fits(Wrap(caption, measure, limit), measure, limit)
  {
    var words := Words(caption);
    SplitNoSep(words[0], ' ');
    FillFits([], words[0], words[1..], measure, limit);
  }

  lemma {:induction false} FillMaximal(lines: seq<string>, current: string, rest: seq<string>,
                                       measure: string -> real, limit: real)
    requires Maximal(lines, measure, limit)
    requires lines != [] ==> measure(lines[|lines| - 1] + " " + FirstWord(current)) > limit
    requires NoSpaces(rest)
    ensures Maximal(Fill(lines, current, rest, measure, limit), measure, limit)
    decreases |rest|
  {
    if rest != [] {
      var test := current + " " + rest[0];
      if measure(test) > limit {
        SplitNoSep(rest[0], ' ');
        FillMaximal(lines + [current], rest[0], rest[1..], measure, limit);
      } else {
        SplitAppend(current, rest[0], ' ');
        assert FirstWord(test) == FirstWord(current);
        FillMaximal(lines, test, rest[1..], measure, limit);
      }
    }
  }

  /** Greedy maximality: each line but the last, extended by the first word of
      the line after it, measures wider than the limit. */
  lemma WrapMaximal(caption: string, measure: string -> real, limit: real)
    ensures Maximal(Wrap(caption, measure, limit), measure, limit)
  {
    var words := Words(caption);
    FillMaximal([], words[0], words[1..], measure, limit);
  }

  /** A caption without spaces is drawn as one line, itself; in particular the
      empty caption gives exactly one empty line. */
  lemma OneWordCaption(caption: string, measure: string -> real, limit: real)
    requires ' ' !in caption
    ensures Wrap(caption, measure, limit) == [caption]
  {
    SplitNoSep(caption, ' ');
  }

  lemma {:induction false} MeasureJoin(ws: seq<string>, k: nat, measure: string -> real)
    requires Monotone(measure)
    requires k < |ws|
    ensures measure(Join(ws, ' ')) >= measure(ws[k])
    decreases |ws|
  {
    if |ws| > 1 {
      assert Join(ws, ' ') == ws[0] + " " + Join(ws[1..], ' ');
      if k > 0 {
        MeasureJoin(ws[1..], k - 1, measure);
      }
    }
  }

  /** A word wider than the limit is never split and never shares a line: it
      is one of the lines, and every line holding it is that word alone. */
  lemma OversizeWordAlone(caption: string, measure: string -> real, limit: real, w: string)
    requires Monotone(measure)
    requires w in Words(caption)
    requires measure(w) > limit
    ensures w in Wrap(caption, measure, limit)
    ensures forall line :: line in Wrap(caption, measure, limit) && w in Split(line, ' ') ==> line == w
  {
    var lines := Wrap(caption, measure, limit);
    WrapWords(caption, measure, limit);
    WrapFits(caption, measure, limit);
    forall line | line in lines && w in Split(line, ' ')
      ensures line == w
    {
      var i :| 0 <= i < |lines| && lines[i] == line;
      var k :| 0 <= k < |Split(line, ' ')| && Split(line, ' ')[k] == w;
      SplitJoin(line, ' ');
      MeasureJoin(Split(line, ' '), k, measure);
      SplitCount(line, ' ');
      SplitNoSep(line, ' ');
    }
    InSplitAll(lines, ' ', w);
  }

  lemma {:induction false} FillWhole(current: string, rest: seq<string>,
                                     measure: string -> real, limit: real)
    requires Monotone(measure)
    requires measure(Join([current] + rest, ' ')) <= limit
    ensures Fill([], current, rest, measure, limit) == [Join([current] + rest, ' ')]
    decreases |rest|
  {
    if rest == [] {
      assert [current] + rest == [current];
    } else {
      var test := current + " " + rest[0];
      var after := [test] + rest[1..];
      JoinMerge([], current, rest[0], rest[1..], ' ');
      assert [] + [current, rest[0]] + rest[1..] == [current] + rest;
      assert [] + [test] + rest[1..] == after;
      if rest[1..] != [] {
        JoinCons(test, rest[1..], ' ');
      } else {
        assert after == [test];
      }
      assert measure(test) <= limit;
      FillWhole(test, rest[1..], measure, limit);
    }
  }

  /** A caption that measures within the limit as a whole is drawn on one line. */
  lemma WholeCaptionFits(caption: string, measure: string -> real, limit: real)
    requires Monotone(measure)
    requires measure(caption) <= limit
    ensures Wrap(caption, measure, limit) == [caption]
  {
    var words := Words(caption);
    SplitJoin(caption, ' ');
    assert [words[0]] + words[1..] == words;
    FillWhole(words[0], words[1..], measure, limit);
  }

  lemma {:induction false} FillAllBreak(lines: seq<string>, current: string, rest: seq<string>,
                                        measure: string -> real, limit: real)
    requires rest != [] ==> measure(current + " " + rest[0]) > limit
    requires forall i :: 0 < i < |rest| ==> measure(rest[i - 1] + " " + rest[i]) > limit
    ensures Fill(lines, current, rest, measure, limit) == lines + [current] + rest
    decreases |rest|
  {
    if rest != [] {
      FillAllBreak(lines + [current], rest[0], rest[1..], measure, limit);
      assert lines + [current] + [rest[0]] + rest[1..] == lines + [current] + rest;
    }
  }

  /** When no two neighbouring words fit together, every word gets its own line. */
  lemma OneWordPerLine(caption: string, measure: string -> real, limit: real)
    requires forall i :: 0 < i < |Words(caption)| ==>
      measure(Words(caption)[i - 1] + " " + Words(caption)[i]) > limit
    ensures Wrap(caption, measure, limit) == Words(caption)
  {
    var words := Words(caption);
    FillAllBreak([], words[0], words[1..], measure, limit);
    assert [] + [words[0]] + words[1..] == words;
  }

  /** The wrap loop of the download handler: a `for` loop over the words from
      the second on, pushing committed lines. */
  method WrapLines(caption: string, measure: string -> real, limit: real) returns (lines: seq<string>)
    ensures lines == Wrap(caption, measure, limit)
    ensures 1 <= |lines| <= |Words(caption)|
    ensures Join(lines, ' ') == caption
    ensures Fits(lines, measure, limit) && Maximal(lines, measure, limit)
  {
    var words := Split(caption, ' ');
    lines := [];
    var current := words[0];
    for i := 1 to |words|
      invariant Fill(lines, current, words[i..], measure, limit) == Wrap(caption, measure, limit)
    {
      var test := current + " " + words[i];
      assert words[i..][1..] == words[i + 1..];
      if measure(test) > limit {
        lines := lines + [current];
        current := words[i];
      } else {
        current := test;
      }
    }
    lines := lines + [current];
    WrapJoin(caption, measure, limit);
    WrapFits(caption, measure, limit);
    WrapMaximal(caption, measure, limit);
  }
}
