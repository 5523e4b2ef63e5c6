/**
 * The parts of Python's `str` the pipeline leans on: whitespace, `strip()`,
 * `split(sep)`, `split()`, `sep.join(...)`, `int(...)` and `str(n)`, each
 * over `seq<char>` and each with the law that makes it usable: splitting
 * undoes joining, `int` undoes `str`, `split()` sees through any
 * whitespace separator.
 */
module Text {
  import opened Wrappers

  /** The ASCII characters that `str.split()` and `str.strip()` treat as whitespace. */
  predicate IsSpace(c: char)
  {
    c == ' ' || c == '\t' || c == '\n' || c == '\r' || c == '\U{B}' || c == '\U{C}' || ('\U{1C}' <= c <= '\U{1F}')
  }

  predicate IsDigit(c: char)
  {
    '0' <= c <= '9'
  }

  // ---------------------------------------------------------------------------
  // strip()
  // ---------------------------------------------------------------------------

  /** How many whitespace characters `s` starts with. */
  function LeadingSpaces(s: string): (n: nat)
    ensures n <= |s|
    ensures forall i :: 0 <= i < n ==> IsSpace(s[i])
    ensures n == |s| || !IsSpace(s[n])
    decreases |s|
  {
    if s != [] && IsSpace(s[0]) then
      var n := LeadingSpaces(s[1..]);
      assert forall i :: 1 <= i < n + 1 ==> s[i] == s[1..][i - 1];
      n + 1
    else 0
  }

  /** `s.lstrip()`. */
  function StripLeft(s: string): (r: string)
    ensures |r| <= |s| && r == s[|s| - |r|..]
    ensures r == [] || !IsSpace(r[0])
    ensures forall i :: 0 <= i < |s| - |r| ==> IsSpace(s[i])
  {
    s[LeadingSpaces(s)..]
  }

  /** `s.rstrip()`. */
  function StripRight(s: string): (r: string)
    ensures |r| <= |s| && r == s[..|r|]
    ensures r == [] || !IsSpace(r[|r| - 1])
    ensures forall i :: |r| <= i < |s| ==> IsSpace(s[i])
    decreases |s|
  {
    if s != [] && IsSpace(s[|s| - 1]) then StripRight(s[..|s| - 1]) else s
  }

  /** `s.strip()`: no whitespace at either end, and empty exactly when `s` is all whitespace. */
  function Strip(s: string): (r: string)
    ensures |r| <= |s|
    ensures r == [] || (!IsSpace(r[0]) && !IsSpace(r[|r| - 1]))
    ensures r == [] <==> forall i :: 0 <= i < |s| ==> IsSpace(s[i])
  {
    StripEmpty(s);
    StripRight(StripLeft(s))
  }

  lemma StripEmpty(s: string)
    ensures StripRight(StripLeft(s)) == [] <==> forall k :: 0 <= k < |s| ==> IsSpace(s[k])
  {
    var l := StripLeft(s);
    var i := |s| - |l|;
    assert l == s[i..];
    if l != [] {
      assert s[i] == l[0];
    }
  }

  /** Whitespace in front does not change `strip()`. */
  lemma StripSpaceFront(c: char, t: string)
    requires IsSpace(c)
    ensures Strip([c] + t) == Strip(t)
  {
    StripLeftSpaceFront(c, t);
  }

  lemma StripLeftSpaceFront(c: char, t: string)
    requires IsSpace(c)
    ensures StripLeft([c] + t) == StripLeft(t)
  {
    var s := [c] + t;
    assert s[1..] == t;
    assert LeadingSpaces(s) == LeadingSpaces(t) + 1;
    assert s[LeadingSpaces(t) + 1..] == t[LeadingSpaces(t)..];
  }

  /** Text with no whitespace at either end is its own `strip()`. */
  lemma StripNoOp(s: string)
    requires s == [] || (!IsSpace(s[0]) && !IsSpace(s[|s| - 1]))
    ensures Strip(s) == s
  {
  }

  // ---------------------------------------------------------------------------
  // sep.join(...) and split(sep)
  // ---------------------------------------------------------------------------

  /** `sep.join(pieces)` for a one-character separator. */
  function JoinWith(pieces: seq<string>, sep: char): string
    decreases |pieces|
  {
    if pieces == [] then []
    else if |pieces| == 1 then pieces[0]
    else pieces[0] + [sep] + JoinWith(pieces[1..], sep)
  }

  /** `s.split(sep)`: at least one piece, none containing `sep`, and joining them back gives `s`. */
  function SplitOn(s: string, sep: char): (pieces: seq<string>)
    ensures |pieces| >= 1
    ensures forall i :: 0 <= i < |pieces| ==> sep !in pieces[i]
    ensures JoinWith(pieces, sep) == s
    decreases |s|
  {
    if s == [] then [[]]
    else
      var rest := SplitOn(s[1..], sep);
      if s[0] == sep then
        assert JoinWith([[]] + rest, sep) == [sep] + JoinWith(rest, sep) by {
          assert ([[]] + rest)[1..] == rest;
        }
        [[]] + rest
      else
        var pieces := [[s[0]] + rest[0]] + rest[1..];
        assert pieces[1..] == rest[1..];
        assert forall i :: 1 <= i < |pieces| ==> pieces[i] == rest[i];
        pieces
  }

  /** Splitting undoes joining, for pieces that do not contain the separator. */
  lemma {:induction false} SplitJoin(pieces: seq<string>, sep: char)
    requires |pieces| >= 1
    requires forall i :: 0 <= i < |pieces| ==> sep !in pieces[i]
    ensures SplitOn(JoinWith(pieces, sep), sep) == pieces
    decreases |pieces|, |pieces[0]|
  {
    var p := pieces[0];
    if |pieces| == 1 {
      SplitFree(p, sep);
    } else if p == [] {
      var s := JoinWith(pieces, sep);
      assert s == [sep] + JoinWith(pieces[1..], sep);
      assert s[1..] == JoinWith(pieces[1..], sep);
      SplitJoin(pieces[1..], sep);
      assert pieces == [[]] + pieces[1..];
    } else {
      var s := JoinWith(pieces, sep);
      var shorter := [p[1..]] + pieces[1..];
      assert shorter[1..] == pieces[1..];
      assert JoinWith(shorter, sep) == p[1..] + [sep] + JoinWith(pieces[1..], sep);
      assert s[1..] == JoinWith(shorter, sep);
      assert forall i :: 0 <= i < |shorter| ==> sep !in shorter[i] by {
        forall i | 0 <= i < |shorter| ensures sep !in shorter[i] {
          if i == 0 {
            assert forall k :: 0 <= k < |p[1..]| ==> p[1..][k] == p[k + 1];
          } else {
            assert shorter[i] == pieces[i];
          }
        }
      }
      SplitJoin(shorter, sep);
      assert s[0] == p[0] && p[0] != sep;
      assert [p[0]] + p[1..] == p;
    }
  }

  /** Text without the separator splits into itself. */
  lemma {:induction false} SplitFree(s: string, sep: char)
    requires sep !in s
    ensures SplitOn(s, sep) == [s]
    decreases |s|
  {
    if s != [] {
      assert sep !in s[1..] by {
        assert forall k :: 0 <= k < |s[1..]| ==> s[1..][k] == s[k + 1];
      }
      SplitFree(s[1..], sep);
      assert [s[0]] + s[1..] == s;
    }
  }

  /** The first piece of `s.split(sep)` is the text before the first `sep`, or all of `s`. */
  lemma SplitFirst(s: string, sep: char)
    ensures var p := SplitOn(s, sep)[0];
      |p| <= |s| && s[..|p|] == p && (|p| == |s| || s[|p|] == sep)
  {
    var pieces := SplitOn(s, sep);
    if |pieces| > 1 {
      assert JoinWith(pieces, sep) == pieces[0] + [sep] + JoinWith(pieces[1..], sep);
    }
  }

  // ---------------------------------------------------------------------------
  // split()
  // ---------------------------------------------------------------------------

  /** A word: non-empty text without whitespace, what `str.split()` yields. */
  predicate IsWord(w: string)
  {
    |w| > 0 && forall i :: 0 <= i < |w| ==> !IsSpace(w[i])
  }

  /** The length of the leading run of non-whitespace. */
  function Run(s: string): (n: nat)
    ensures n <= |s|
    ensures forall i :: 0 <= i < n ==> !IsSpace(s[i])
    ensures n == |s| || IsSpace(s[n])
    decreases |s|
  {
    if s == [] || IsSpace(s[0]) then 0 else 1 + Run(s[1..])
  }

  /** `s.split()`: the maximal runs of non-whitespace, in order. */
  function Words(s: string): (ws: seq<string>)
    ensures forall i :: 0 <= i < |ws| ==> IsWord(ws[i])
    decreases |s|
  {
    if s == [] then []
    else if IsSpace(s[0]) then Words(s[1..])
    else [s[..Run(s)]] + Words(s[Run(s)..])
  }

  /** A whitespace character followed by more text does not stop a run that began earlier. */
  lemma {:induction false} RunBeforeSpace(a: string, c: char, b: string)
    requires IsSpace(c)
    ensures Run(a + [c] + b) == Run(a)
    decreases |a|
  {
    if a != [] && !IsSpace(a[0]) {
      assert (a + [c] + b)[1..] == a[1..] + [c] + b;
      RunBeforeSpace(a[1..], c, b);
    }
  }

  /** `split()` treats any whitespace character as a word boundary. */
  lemma {:induction false} WordsAppend(a: string, c: char, b: string)
    requires IsSpace(c)
    ensures Words(a + [c] + b) == Words(a) + Words(b)
    decreases |a|
  {
    var t := a + [c] + b;
    if a == [] {
      assert t[1..] == b;
    } else if IsSpace(a[0]) {
      assert t[1..] == a[1..] + [c] + b;
      WordsAppend(a[1..], c, b);
    } else {
      RunBeforeSpace(a, c, b);
      var n := Run(a);
      assert t[..n] == a[..n];
      assert t[n..] == a[n..] + [c] + b;
      WordsAppend(a[n..], c, b);
    }
  }

  /** A word splits into itself. */
  lemma WordsOfWord(w: string)
    requires IsWord(w)
    ensures Words(w) == [w]
  {
    assert Run(w) == |w| by { RunOfWord(w); }
    assert w[..|w|] == w && w[|w|..] == [];
  }

  lemma {:induction false} RunOfWord(w: string)
    requires forall i :: 0 <= i < |w| ==> !IsSpace(w[i])
    ensures Run(w) == |w|
    decreases |w|
  {
    if w != [] {
      assert forall i :: 0 <= i < |w[1..]| ==> w[1..][i] == w[i + 1];
      RunOfWord(w[1..]);
    }
  }

  /** `s.split()` is empty exactly when `s` is blank. */
  lemma {:induction false} WordsBlank(s: string)
    ensures Words(s) == [] <==> forall i :: 0 <= i < |s| ==> IsSpace(s[i])
    decreases |s|
  {
    if s != [] {
      WordsBlank(s[1..]);
      assert forall i :: 1 <= i < |s| ==> s[i] == s[1..][i - 1];
    }
  }

  /** Words joined by single spaces split back into the same words. */
  lemma {:induction false} WordsOfJoin(ws: seq<string>)
    requires forall i :: 0 <= i < |ws| ==> IsWord(ws[i])
    ensures Words(JoinWith(ws, ' ')) == ws
    decreases |ws|
  {
    if |ws| == 1 {
      WordsOfWord(ws[0]);
    } else if |ws| > 1 {
      WordsAppend(ws[0], ' ', JoinWith(ws[1..], ' '));
      WordsOfWord(ws[0]);
      WordsOfJoin(ws[1..]);
    }
  }

  /** All the elements of the pieces, in order. */
  function Concat<T>(xss: seq<seq<T>>): seq<T>
    decreases |xss|
  {
    if xss == [] then [] else xss[0] + Concat(xss[1..])
  }

  /** `split()` of pieces joined by a whitespace character is the words of each piece, in order. */
  lemma {:induction false} WordsOfJoinWith(pieces: seq<string>, c: char)
    requires IsSpace(c)
    ensures Words(JoinWith(pieces, c)) == Concat(seq(|pieces|, i requires 0 <= i < |pieces| => Words(pieces[i])))
    decreases |pieces|
  {
    var each := seq(|pieces|, i requires 0 <= i < |pieces| => Words(pieces[i]));
    if |pieces| == 1 {
      assert Concat(each) == each[0] + Concat(each[1..]);
      assert each[1..] == [];
    } else if |pieces| > 1 {
      WordsAppend(pieces[0], c, JoinWith(pieces[1..], c));
      WordsOfJoinWith(pieces[1..], c);
      assert each[1..] == seq(|pieces[1..]|, i requires 0 <= i < |pieces[1..]| => Words(pieces[1..][i]));
    }
  }

  // ---------------------------------------------------------------------------
  // int(...) and str(n)
  // ---------------------------------------------------------------------------

  function DigitValue(c: char): nat
    requires IsDigit(c)
  {
    c as int - '0' as int
  }

  function DigitChar(d: nat): (c: char)
    requires d < 10
    ensures IsDigit(c) && DigitValue(c) == d
  {
    ('0' as int + d) as char
  }

  predicate AllDigits(s: string)
  {
    forall i :: 0 <= i < |s| ==> IsDigit(s[i])
  }

  /** The value of a string of decimal digits, most significant first. */
  function DigitsValue(s: string): nat
    requires AllDigits(s)
  {
    if s == [] then 0 else 10 * DigitsValue(s[..|s| - 1]) + DigitValue(s[|s| - 1])
  }

  /** `int(t)` for `t` already free of surrounding whitespace: optional sign, then at least one digit. */
  function ParseSigned(t: string): Option<int>
  {
    if t == [] then None
    else if (t[0] == '-' || t[0] == '+') && |t| > 1 && AllDigits(t[1..]) then
      var v: int := DigitsValue(t[1..]);
      Some(if t[0] == '-' then -v else v)
    else if AllDigits(t) then Some(DigitsValue(t))
    else None
  }

  /** `int(s)`: surrounding whitespace is ignored; `None` stands for the `ValueError`. */
  function ParseInt(s: string): (r: Option<int>)
    ensures r.Some? ==> Strip(s) != []
    ensures (forall i :: 0 <= i < |s| ==> IsSpace(s[i])) ==> r == None
  {
    ParseSigned(Strip(s))
  }

  /** `str(n)` for `n >= 0`. */
  function NatToString(n: nat): (s: string)
    ensures |s| > 0 && AllDigits(s)
    ensures DigitsValue(s) == n
  {
    if n < 10 then
      var s := [DigitChar(n)];
      assert s[..0] == [];
      s
    else
      var s := NatToString(n / 10) + [DigitChar(n % 10)];
      assert s[..|s| - 1] == NatToString(n / 10);
      s
  }

  /** `str(n)`: decimal digits, with a leading `-` for negative numbers. */
  function IntToString(n: int): (s: string)
    ensures |s| > 0 && IsDigit(s[|s| - 1])
    ensures forall i :: 0 <= i < |s| ==> IsDigit(s[i]) || (i == 0 && s[i] == '-')
  {
    if n < 0 then "-" + NatToString(-n) else NatToString(n)
  }

  /** `int(str(n)) == n`. */
  lemma ParseIntToString(n: int)
    ensures ParseInt(IntToString(n)) == Some(n)
  {
    if n < 0 {
      ParseIntNegative(n);
    } else {
      ParseIntNatural(n);
    }
  }

  lemma ParseIntNatural(n: int)
    requires n >= 0
    ensures ParseInt(IntToString(n)) == Some(n)
  {
    var d := NatToString(n);
    assert IntToString(n) == d;
    assert IsDigit(d[0]) && IsDigit(d[|d| - 1]);
    StripNoOp(d);
    ParseSignedDigits(d);
  }

  lemma ParseIntNegative(n: int)
    requires n < 0
    ensures ParseInt(IntToString(n)) == Some(n)
  {
    var d := NatToString(-n);
    var t := "-" + d;
    assert IntToString(n) == t;
    assert t[|t| - 1] == d[|d| - 1] && IsDigit(d[|d| - 1]);
    StripNoOp(t);
    ParseSignedNegative(d);
  }

  lemma ParseSignedDigits(d: string)
    requires d != [] && AllDigits(d)
    ensures ParseSigned(d) == Some(DigitsValue(d))
  {
    assert IsDigit(d[0]);
  }

  lemma ParseSignedNegative(d: string)
    requires d != [] && AllDigits(d)
    ensures ParseSigned("-" + d) == Some(-(DigitsValue(d) as int))
  {
    var t := "-" + d;
    assert t[0] == '-' && t[1..] == d;
  }

  /** Different numbers print differently. */
  lemma IntToStringInjective(a: int, b: int)
    requires IntToString(a) == IntToString(b)
    ensures a == b
  {
    ParseIntToString(a);
    ParseIntToString(b);
  }

  /** A printed number holds no whitespace and no separator the pipeline splits on. */
  lemma IntToStringPlain(n: int)
    ensures var s := IntToString(n);
      ',' !in s && '/' !in s && forall i :: 0 <= i < |s| ==> !IsSpace(s[i])
  {
  }
}
