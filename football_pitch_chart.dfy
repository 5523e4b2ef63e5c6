/**
 * `football_pitch_chart.py`: `_wrap_text`, which breaks a position name into
 * lines for its marker label.  The words of the text are laid out greedily:
 * a word that would make the current line longer than `max_width` closes
 * that line (even when it is still empty) and starts the next one.
 */
module FootballPitchChart {
  import opened Text
  import opened Sorting

  /** The default `max_width` of `_wrap_text`. */
  const DefaultMaxWidth := 15

  /** `" ".join(line)`. */
  function JoinSpace(line: seq<string>): string
  {
    JoinWith(line, ' ')
  }

  /** `sum(map(len, line))`. */
  function SumLens(line: seq<string>): nat
    decreases |line|
  {
    if line == [] then 0 else |line[0]| + SumLens(line[1..])
  }

  /** Every element is a word, as `str.split()` yields them. */
  predicate AllWords(ws: seq<string>)
  {
    forall i :: 0 <= i < |ws| ==> IsWord(ws[i])
  }

  /**
   * The lines of the greedy layout, each as its list of words, when the
   * words `words` are still to come and `current` is the line being filled.
   */
  function Pack(words: seq<string>, current: seq<string>, maxWidth: int): seq<seq<string>>
    decreases |words|
  {
    if words == [] then (if current == [] then [] else [current])
    else if |JoinSpace(current + [words[0]])| > maxWidth then [current] + Pack(words[1..], [words[0]], maxWidth)
    else Pack(words[1..], current + [words[0]], maxWidth)
  }

  /** The lines of the layout of `words`. */
  function Wrap(words: seq<string>, maxWidth: int): seq<seq<string>>
  {
    Pack(words, [], maxWidth)
  }

  /** The text `_wrap_text(text, max_width)` returns: the lines joined by `\n`. */
  function Wrapped(text: string, maxWidth: int): string
  {
    JoinWith(MapSeq(Wrap(Words(text), maxWidth), JoinSpace), '\n')
  }

  /**
   * `_wrap_text(text, max_width)`.  `current_len` is computed as the source
   * does, from the lengths of the words of the current line; it is the
   * length the line would have with the word added.
   */
  method WrapText(text: string, maxWidth: int) returns (wrapped: string)
    ensures wrapped == Wrapped(text, maxWidth)
    ensures Words(wrapped) == Words(text)
  {
    var words := Words(text);
    var lines: seq<string> := [];
    var currentLine: seq<string> := [];
    ghost var groups: seq<seq<string>> := [];
    var i := 0;
    while i < |words|
      invariant 0 <= i <= |words|
      invariant lines == MapSeq(groups, JoinSpace)
      invariant groups + Pack(words[i..], currentLine, maxWidth) == Wrap(words, maxWidth)
    {
      var word := words[i];
      var currentLen := SumLens(currentLine) + |currentLine| + |word|;
      CurrentLength(currentLine, word);
      assert words[i..][1..] == words[i + 1..];
      if currentLen > maxWidth {
        MapSeqAppend(groups, [currentLine], JoinSpace);
        lines := lines + [JoinSpace(currentLine)];
        groups := groups + [currentLine];
        currentLine := [word];
      } else {
        currentLine := currentLine + [word];
      }
      i := i + 1;
    }
    assert words[i..] == [];
    if currentLine != [] {
      MapSeqAppend(groups, [currentLine], JoinSpace);
      lines := lines + [JoinSpace(currentLine)];
      groups := groups + [currentLine];
    } else {
      assert groups + [] == groups;
    }
    assert groups == Wrap(words, maxWidth);
    assert lines == MapSeq(Wrap(Words(text), maxWidth), JoinSpace);
    wrapped := JoinWith(lines, '\n');
    WrapKeepsWords(text, maxWidth);
  }

  // ---------------------------------------------------------------------------
  // Lengths
  // ---------------------------------------------------------------------------

  lemma {:induction false} SumLensAppend(a: seq<string>, b: seq<string>)
    ensures SumLens(a + b) == SumLens(a) + SumLens(b)
    decreases |a|
  {
    if a == [] {
      assert a + b == b;
    } else {
      assert (a + b)[1..] == a[1..] + b;
      SumLensAppend(a[1..], b);
    }
  }

  /** A non-empty line is as long as its words plus one blank between each two. */
  lemma {:induction false} JoinSpaceLength(line: seq<string>)
    requires line != []
    ensures |JoinSpace(line)| + 1 == SumLens(line) + |line|
    decreases |line|
  {
    if |line| > 1 {
      JoinSpaceLength(line[1..]);
    } else {
      assert line[1..] == [];
    }
  }

  /** `current_len` is the length of the current line with the word appended. */
  lemma CurrentLength(current: seq<string>, word: string)
    ensures SumLens(current) + |current| + |word| == |JoinSpace(current + [word])|
  {
    JoinSpaceLength(current + [word]);
    SumLensAppend(current, [word]);
    assert [word][1..] == [];
  }

  /** Appending words to a non-empty line does not make it shorter. */
  lemma JoinSpacePrefix(a: seq<string>, b: seq<string>)
    requires a != []
    ensures |JoinSpace(a)| <= |JoinSpace(a + b)|
  {
    JoinSpaceLength(a);
    JoinSpaceLength(a + b);
    SumLensAppend(a, b);
  }

  // ---------------------------------------------------------------------------
  // The layout
  // ---------------------------------------------------------------------------

  /** The lines hold the current line's words and then the remaining words, in order. */
  lemma {:induction false} PackConcat(words: seq<string>, current: seq<string>, maxWidth: int)
    ensures Concat(Pack(words, current, maxWidth)) == current + words
    decreases |words|
  {
    if words == [] {
      if current != [] {
        assert [current][1..] == [];
      }
    } else {
      var w := words[0];
      if |JoinSpace(current + [w])| > maxWidth {
        PackConcat(words[1..], [w], maxWidth);
        var rest := Pack(words[1..], [w], maxWidth);
        assert ([current] + rest)[1..] == rest;
        assert [w] + words[1..] == words;
      } else {
        PackConcat(words[1..], current + [w], maxWidth);
        assert current + [w] + words[1..] == current + words;
      }
    }
  }

  /** Every line is made of the words. */
  lemma {:induction false} PackWords(words: seq<string>, current: seq<string>, maxWidth: int)
    requires AllWords(words) && AllWords(current)
    ensures forall k :: 0 <= k < |Pack(words, current, maxWidth)| ==> AllWords(Pack(words, current, maxWidth)[k])
    decreases |words|
  {
    if words != [] {
      var w := words[0];
      assert AllWords(words[1..]);
      if |JoinSpace(current + [w])| > maxWidth {
        PackWords(words[1..], [w], maxWidth);
      } else {
        assert AllWords(current + [w]);
        PackWords(words[1..], current + [w], maxWidth);
      }
    }
  }

  /** A started line is always emitted. */
  lemma {:induction false} PackNonEmpty(words: seq<string>, current: seq<string>, maxWidth: int)
    requires current != []
    ensures Pack(words, current, maxWidth) != []
    decreases |words|
  {
    if words != [] && |JoinSpace(current + [words[0]])| <= maxWidth {
      PackNonEmpty(words[1..], current + [words[0]], maxWidth);
    }
  }

  /** A line of two or more words fits in `maxWidth`; only a line of at most one word can be longer. */
  lemma {:induction false} PackShortOrSingle(words: seq<string>, current: seq<string>, maxWidth: int)
    requires |current| <= 1 || |JoinSpace(current)| <= maxWidth
    ensures forall k :: 0 <= k < |Pack(words, current, maxWidth)| ==>
      |Pack(words, current, maxWidth)[k]| <= 1 || |JoinSpace(Pack(words, current, maxWidth)[k])| <= maxWidth
    decreases |words|
  {
    if words != [] {
      var w := words[0];
      if |JoinSpace(current + [w])| > maxWidth {
        PackShortOrSingle(words[1..], [w], maxWidth);
      } else {
        PackShortOrSingle(words[1..], current + [w], maxWidth);
      }
    }
  }

  /** When no word is longer than `maxWidth`, every line fits. */
  lemma {:induction false} PackAllFit(words: seq<string>, current: seq<string>, maxWidth: int)
    requires forall i :: 0 <= i < |words| ==> |words[i]| <= maxWidth
    requires |JoinSpace(current)| <= maxWidth
    ensures forall k :: 0 <= k < |Pack(words, current, maxWidth)| ==> |JoinSpace(Pack(words, current, maxWidth)[k])| <= maxWidth
    decreases |words|
  {
    if words != [] {
      var w := words[0];
      if |JoinSpace(current + [w])| > maxWidth {
        assert JoinSpace([w]) == w;
        PackAllFit(words[1..], [w], maxWidth);
      } else {
        PackAllFit(words[1..], current + [w], maxWidth);
      }
    }
  }

  /** When the whole rest fits on the current line, it all goes there. */
  lemma {:induction false} PackFits(words: seq<string>, current: seq<string>, maxWidth: int)
    requires current + words != [] && |JoinSpace(current + words)| <= maxWidth
    ensures Pack(words, current, maxWidth) == [current + words]
    decreases |words|
  {
    if words == [] {
      assert current + words == current;
    } else {
      var w := words[0];
      assert current + [w] + words[1..] == current + words;
      JoinSpacePrefix(current + [w], words[1..]);
      PackFits(words[1..], current + [w], maxWidth);
    }
  }

  /** Words without whitespace joined by blanks hold no line break. */
  lemma {:induction false} NoNewline(line: seq<string>)
    requires AllWords(line)
    ensures '\n' !in JoinSpace(line)
    decreases |line|
  {
    if |line| > 1 {
      assert AllWords(line[1..]);
      NoNewline(line[1..]);
      assert IsWord(line[0]);
      assert JoinSpace(line) == line[0] + [' '] + JoinSpace(line[1..]);
    } else if |line| == 1 {
      assert IsWord(line[0]);
    }
  }

  // ---------------------------------------------------------------------------
  // What `_wrap_text` promises
  // ---------------------------------------------------------------------------

  /** Splitting the wrapped text on whitespace gives back exactly `text.split()`. */
  lemma WrapKeepsWords(text: string, maxWidth: int)
    ensures Words(Wrapped(text, maxWidth)) == Words(text)
  {
    var words := Words(text);
    var groups := Wrap(words, maxWidth);
    var lines := MapSeq(groups, JoinSpace);
    WordsOfJoinWith(lines, '\n');
    PackWords(words, [], maxWidth);
    var each := seq(|lines|, i requires 0 <= i < |lines| => Words(lines[i]));
    forall k | 0 <= k < |lines|
      ensures each[k] == groups[k]
    {
      WordsOfJoin(groups[k]);
    }
    assert each == groups;
    PackConcat(words, [], maxWidth);
    assert [] + words == words;
  }

  /** Text with at least one word: the lines of the output are the lines of the layout. */
  lemma WrapLines(text: string, maxWidth: int)
    requires Words(text) != []
    ensures SplitOn(Wrapped(text, maxWidth), '\n') == MapSeq(Wrap(Words(text), maxWidth), JoinSpace)
  {
    var words := Words(text);
    var groups := Wrap(words, maxWidth);
    var lines := MapSeq(groups, JoinSpace);
    WrapNonEmpty(words, maxWidth);
    PackWords(words, [], maxWidth);
    forall k | 0 <= k < |lines|
      ensures '\n' !in lines[k]
    {
      NoNewline(groups[k]);
    }
    SplitJoin(lines, '\n');
  }

  /** Some word means some line. */
  lemma WrapNonEmpty(words: seq<string>, maxWidth: int)
    requires words != []
    ensures Wrap(words, maxWidth) != []
  {
    PackNonEmpty(words[1..], [words[0]], maxWidth);
    assert [] + [words[0]] == [words[0]];
  }

  /** Every output line made of two or more words is at most `maxWidth` long. */
  lemma WrapLinesShort(text: string, maxWidth: int)
    ensures var lines := SplitOn(Wrapped(text, maxWidth), '\n');
      forall k :: 0 <= k < |lines| && |Words(lines[k])| >= 2 ==> |lines[k]| <= maxWidth
  {
    var words := Words(text);
    if words == [] {
      assert Wrapped(text, maxWidth) == [];
      assert SplitOn([], '\n') == [[]];
    } else {
      var groups := Wrap(words, maxWidth);
      WrapLines(text, maxWidth);
      PackWords(words, [], maxWidth);
      PackShortOrSingle(words, [], maxWidth);
      forall k | 0 <= k < |groups|
        ensures Words(JoinSpace(groups[k])) == groups[k]
      {
        WordsOfJoin(groups[k]);
      }
    }
  }

  /** When no word is longer than `maxWidth`, no output line is (the wrapping test case). */
  lemma WrapAllLinesFit(text: string, maxWidth: int)
    requires maxWidth >= 0
    requires forall i :: 0 <= i < |Words(text)| ==> |Words(text)[i]| <= maxWidth
    ensures var lines := SplitOn(Wrapped(text, maxWidth), '\n');
      forall k :: 0 <= k < |lines| ==> |lines[k]| <= maxWidth
  {
    var words := Words(text);
    if words == [] {
      assert Wrapped(text, maxWidth) == [];
      assert SplitOn([], '\n') == [[]];
    } else {
      WrapLines(text, maxWidth);
      PackAllFit(words, [], maxWidth);
    }
  }

  /** Words that fit on one line, joined by single blanks, come back as that one line, without `\n`. */
  lemma WrapOneLine(text: string, maxWidth: int)
    requires Words(text) != [] && |JoinSpace(Words(text))| <= maxWidth
    ensures Wrapped(text, maxWidth) == JoinSpace(Words(text))
    ensures '\n' !in Wrapped(text, maxWidth)
  {
    var words := Words(text);
    assert [] + words == words;
    PackFits(words, [], maxWidth);
    assert MapSeq([words], JoinSpace) == [JoinSpace(words)];
    NoNewline(words);
  }

  /** Two or more words that do not fit on one line are broken: the output holds a `\n`. */
  lemma WrapBreaks(text: string, maxWidth: int)
    requires |Words(text)| >= 2 && |JoinSpace(Words(text))| > maxWidth
    ensures '\n' in Wrapped(text, maxWidth)
  {
    var words := Words(text);
    var groups := Wrap(words, maxWidth);
    WrapNonEmpty(words, maxWidth);
    PackConcat(words, [], maxWidth);
    PackShortOrSingle(words, [], maxWidth);
    ConcatOne(groups);
    assert [] + words == words;
    assert groups == Pack(words, [], maxWidth);
    assert |groups| >= 2;
    var lines := MapSeq(groups, JoinSpace);
    assert Wrapped(text, maxWidth) == lines[0] + ['\n'] + JoinWith(lines[1..], '\n');
  }

  lemma ConcatOne<T>(xss: seq<seq<T>>)
    ensures |xss| == 1 ==> Concat(xss) == xss[0]
  {
    if |xss| == 1 {
      assert xss[1..] == [];
      assert xss[0] + [] == xss[0];
    }
  }

  /** Empty or blank text gives `""`, and only such text does. */
  lemma WrapBlank(text: string, maxWidth: int)
    ensures Wrapped(text, maxWidth) == [] <==> forall i :: 0 <= i < |text| ==> IsSpace(text[i])
  {
    WordsBlank(text);
    WrapKeepsWords(text, maxWidth);
    if Words(text) == [] {
      assert Wrapped(text, maxWidth) == [];
    } else {
      assert Wrapped(text, maxWidth) != [] by {
        WordsBlank(Wrapped(text, maxWidth));
      }
    }
  }

  /** A first word longer than `maxWidth` is preceded by an empty first line. */
  lemma WrapLongFirstWord(text: string, maxWidth: int)
    requires Words(text) != [] && |Words(text)[0]| > maxWidth
    ensures |Wrapped(text, maxWidth)| > 0 && Wrapped(text, maxWidth)[0] == '\n'
  {
    var words := Words(text);
    var w := words[0];
    assert [] + [w] == [w];
    assert JoinSpace([w]) == w;
    PackNonEmpty(words[1..], [w], maxWidth);
    var groups := Wrap(words, maxWidth);
    assert groups == [[]] + Pack(words[1..], [w], maxWidth);
    var lines := MapSeq(groups, JoinSpace);
    assert lines[0] == [];
    assert Wrapped(text, maxWidth) == lines[0] + ['\n'] + JoinWith(lines[1..], '\n');
  }

  /**
   * The marker label `_wrap_text(position)` that `_draw_markers_and_text`
   * writes for each position: the default width of 15, the position's words
   * kept, and no line wider than 15 when no word of the position is.
   */
  method PositionLabel(position: string) returns (caption: string)
    ensures caption == Wrapped(position, DefaultMaxWidth)
    ensures Words(caption) == Words(position)
    ensures (forall i :: 0 <= i < |Words(position)| ==> |Words(position)[i]| <= DefaultMaxWidth) ==>
      (var lines := SplitOn(caption, '\n');
       forall k :: 0 <= k < |lines| ==> |lines[k]| <= DefaultMaxWidth)
  {
    caption := WrapText(position, DefaultMaxWidth);
    if forall i :: 0 <= i < |Words(position)| ==> |Words(position)[i]| <= DefaultMaxWidth {
      WrapAllLinesFit(position, DefaultMaxWidth);
    }
  }

  /** `_wrap_text("Short", max_width=50)` is `"Short"`. */
  method ShortExample() returns (wrapped: string)
    ensures wrapped == "Short"
  {
    wrapped := WrapText("Short", 50);
    ShortUnchanged("Short");
  }

  lemma ShortUnchanged(text: string)
    requires text == "Short"
    ensures Wrapped(text, 50) == text
  {
    assert IsWord(text);
    WordsOfWord(text);
    assert JoinSpace([text]) == text;
    WrapOneLine(text, 50);
  }
}
