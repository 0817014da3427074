/** The cluster log as the reader sees it: a sequence of lines, each either a frame header
    such as "Frame 1 (1335967757.2905033 s, 0.1 s)", a cluster such as "[19, 0, 55]", or a
    separator; plus the token scanning the reader applies to one line. */
module LogLines {
  import opened Wrappers
  import opened Text
  import opened Numerals
  import Pixels

  /** The end of the line that starts at `from`: the next '\n', or the end of the content. */
  function LineEnd(s: string, from: nat): (e: nat)
    requires from <= |s|
    ensures from <= e <= |s|
    ensures e < |s| ==> s[e] == '\n'
    ensures forall j :: from <= j < e ==> s[j] != '\n'
  {
    StopIndex(s, from, '\n')
  }

  /** Where `getline` leaves the stream after reading the line at `from`: past the '\n'
      when there is one, at the end otherwise. */
  function NextStart(s: string, from: nat): (next: nat)
    requires from < |s|
    ensures from < next <= |s|
  {
    var e := LineEnd(s, from);
    if e < |s| then e + 1 else |s|
  }

  /** The lines `getline` reads one after another from position `from`. */
  function LinesFrom(s: string, from: nat): seq<string>
    requires from <= |s|
    decreases |s| - from
  {
    if from == |s| then [] else [s[from..LineEnd(s, from)]] + LinesFrom(s, NextStart(s, from))
  }

  /** The lines of the whole log. */
  function Lines(s: string): seq<string>
  {
    LinesFrom(s, 0)
  }

  /** The log does not end with a newline, so its last line reaches the end of the file. */
  predicate Unterminated(s: string)
  {
    |s| > 0 && s[|s| - 1] != '\n'
  }

  /** The number of newlines in `s` from index `from` on. */
  function NewlinesFrom(s: string, from: nat): nat
    requires from <= |s|
    decreases |s| - from
  {
    if from == |s| then 0 else (if s[from] == '\n' then 1 else 0) + NewlinesFrom(s, from + 1)
  }

  /** The newlines from `from` on are the ones `multiset` counts in `s[from..]`. */
  lemma {:induction false} NewlinesFromCount(s: string, from: nat)
    requires from <= |s|
    ensures NewlinesFrom(s, from) == multiset(s[from..])['\n']
    decreases |s| - from
  {
    if from < |s| {
      NewlinesFromCount(s, from + 1);
      assert s[from..] == [s[from]] + s[from + 1..];
    }
  }

  /** The newlines up to the end of the line at `from` are none but the one that ends it. */
  lemma {:induction false} NewlinesInLine(s: string, from: nat, e: nat)
    requires from <= e <= |s| && forall j :: from <= j < e ==> s[j] != '\n'
    ensures NewlinesFrom(s, from) == NewlinesFrom(s, e)
    decreases e - from
  {
    if from < e {
      NewlinesInLine(s, from + 1, e);
    }
  }

  /** The count of lines the reader reports: one per '\n', plus one for a last line without
      a newline. */
  lemma {:induction false} LineCountFrom(s: string, from: nat)
    requires from <= |s|
    ensures |LinesFrom(s, from)| == NewlinesFrom(s, from) + (if from < |s| && Unterminated(s) then 1 else 0)
    decreases |s| - from
  {
    if from < |s| {
      var e := LineEnd(s, from);
      NewlinesInLine(s, from, e);
      if e < |s| {
        assert NextStart(s, from) == e + 1;
        LineCountFrom(s, e + 1);
        assert e + 1 == |s| ==> !Unterminated(s);
      } else {
        assert NextStart(s, from) == |s|;
      }
    }
  }

  lemma LineCount(s: string)
    ensures |Lines(s)| == multiset(s)['\n'] + (if Unterminated(s) then 1 else 0)
  {
    LineCountFrom(s, 0);
    NewlinesFromCount(s, 0);
    assert s[0..] == s;
  }

  /** A read line hits the end of the file exactly when it is the last line and the log has no
      final newline: this is when `getline` sets the end-of-file flag. */
  lemma LastLineHitsEnd(s: string, from: nat)
    requires from < |s|
    ensures LineEnd(s, from) == |s| <==> |LinesFrom(s, from)| == 1 && Unterminated(s)
  {
    var e := LineEnd(s, from);
    if e < |s| {
      var next := NextStart(s, from);
      if next < |s| {
        assert LinesFrom(s, next) != [];
      } else {
        assert s[|s| - 1] == '\n';
      }
    }
  }

  /** The characters from `pos` up to the next space: what `extractSubstring` returns. */
  function Token(line: string, pos: nat): (t: string)
    ensures pos < |line| ==> t == line[pos..StopIndex(line, pos, ' ')]
    ensures pos >= |line| ==> t == ""
  {
    if pos < |line| then line[pos..StopIndex(line, pos, ' ')] else ""
  }

  /** A line holding '(' is taken for a frame header. */
  predicate IsMetadataLine(line: string)
  {
    '(' in line
  }

  /** A line holding '[' is taken for a cluster. */
  predicate IsClusterLine(line: string)
  {
    '[' in line
  }

  /** The two time tokens of a header line: the capture time and the running time. */
  datatype HeaderFields = HeaderFields(time: string, runningTime: string)

  /** The tokens `parseMetadataString` hands to `atof`: the one after the first '(' and the
      one that starts four characters after that token ends (past " s, "). */
  function HeaderTokens(line: string): (h: Option<HeaderFields>)
    ensures h.Some? <==> IsMetadataLine(line)
  {
    var open := StopIndex(line, 0, '(');
    if open == |line| then None
    else
      var p := open + 1;
      var e := StopIndex(line, p, ' ');
      Some(HeaderFields(Token(line, p), Token(line, e + 4)))
  }

  /** The three tokens `parseClusterString` hands to `atoi`: the one just after the first
      '[', then the one two characters past the end of the previous token, twice (the skip of
      ", " made after each token). */
  function ClusterTokens(line: string): (r: Option<(string, string, string)>)
    ensures r.Some? <==> IsClusterLine(line)
  {
    var open := StopIndex(line, 0, '[');
    if open == |line| then None else Some(TokensFrom(line, open + 1))
  }

  function TokensFrom(line: string, pos: nat): (string, string, string)
  {
    var p1 := StopIndex(line, pos, ' ') + 2;
    var p2 := StopIndex(line, p1, ' ') + 2;
    (Token(line, pos), Token(line, p1), Token(line, p2))
  }

  /** The pixel `parseClusterString` builds from a cluster line: `atoi` of each token. */
  function ClusterPixel(line: string): (p: Option<Pixels.Pixel>)
    ensures p.Some? <==> IsClusterLine(line)
  {
    match ClusterTokens(line)
    case None => None
    case Some(t) => Some(Pixels.Pixel(Atoi(t.0), Atoi(t.1), Atoi(t.2)))
  }

  /** The header line of the log's own format yields its two time tokens. */
  lemma HeaderOfFormat(prefix: string, time: string, runningTime: string)
    requires '(' !in prefix && ' ' !in time && ' ' !in runningTime
    ensures HeaderTokens(prefix + "(" + time + " s, " + runningTime + " s)")
         == Some(HeaderFields(time, runningTime))
  {
    var line := prefix + "(" + time + " s, " + runningTime + " s)";
    HeaderLayout(prefix, time, runningTime);
    OpenAt(line, prefix, '(', time + " s, " + runningTime + " s)");
    SplitAt(line, prefix + "(", time, " s, " + runningTime + " s)");
    SplitAt(line, prefix + "(" + time + " s, ", runningTime, " s)");
    var open := |prefix|;
    var e := open + 1 + |time|;
    assert |prefix + "(" + time + " s, "| == e + 4;
    HeaderTokensAt(line, open, e);
  }

  /** The layout of a header line split at its '(' and at each time token. */
  lemma HeaderLayout(prefix: string, time: string, runningTime: string)
    ensures prefix + "(" + time + " s, " + runningTime + " s)"
         == prefix + ['('] + (time + " s, " + runningTime + " s)")
         == (prefix + "(") + time + (" s, " + runningTime + " s)")
         == (prefix + "(" + time + " s, ") + runningTime + " s)"
  {
  }

  /** The example header line of the log format, written as the pieces of that format. */
  lemma HeaderExample(line: string)
    requires line == "Frame 1 " + "(" + "1335967757.2905033" + " s, " + "0.1" + " s)"
    ensures HeaderTokens(line) == Some(HeaderFields("1335967757.2905033", "0.1"))
  {
    var time := "1335967757.2905033";
    assert forall j :: 0 <= j < |time| ==> time[j] != ' ';
    HeaderOfFormat("Frame 1 ", time, "0.1");
  }

  /** A token ends at the first space, or at the end of the line. */
  lemma TokenOf(a: string, t: string, b: string)
    requires ' ' !in t && (b == [] || b[0] == ' ')
    ensures StopIndex(a + t + b, |a|, ' ') == |a| + |t|
    ensures Token(a + t + b, |a|) == t
  {
    var line := a + t + b;
    assert forall j :: |a| <= j < |a| + |t| ==> line[j] == t[j - |a|];
    assert |a| + |t| < |line| ==> line[|a| + |t|] == b[0];
    assert StopIndex(line, |a|, ' ') == |a| + |t|;
    assert line[|a|..|a| + |t|] == t;
  }

  /** `atoi` of a field token: the digits, then a ',' or ']' that stops the digit run. */
  lemma AtoiOfField(ds: string, close: string)
    requires AllDigits(ds) && (close == "," || close == "]")
    ensures Atoi(ds + close) == DigitsValue(ds)
  {
    AtoiOfDigits(ds, close);
  }

  /** The tokens `parseClusterString` reads in a line `prefix[X, Y, C]`: all of `X`, and
      `Y` and `C` from their second character on, each with the character after it. */
  lemma ClusterFields(line: string, prefix: string, X: string, Y: string, C: string)
    requires '[' !in prefix && ' ' !in X && ' ' !in Y && ' ' !in C && |Y| > 0 && |C| > 0
    requires line == prefix + "[" + X + ", " + Y + ", " + C + "]"
    ensures ClusterTokens(line) == Some((X + ",", Y[1..] + ",", C[1..] + "]"))
  {
    var a0, t0 := prefix + "[", X + ",";
    var a1, t1 := a0 + t0 + " " + [Y[0]], Y[1..] + ",";
    var a2, t2 := a1 + t1 + " " + [C[0]], C[1..] + "]";
    NoSpaceField(X, 0, ",");
    assert X[0..] == X;
    NoSpaceField(Y, 1, ",");
    NoSpaceField(C, 1, "]");
    ClusterLayout0(prefix, X, Y, C);
    ClusterLayout1(prefix, X, Y, C);
    ClusterLayout2(prefix, X, Y, C);
    OpenAt(line, prefix, '[', X + ", " + Y + ", " + C + "]");
    SplitAt(line, a0, t0, " " + Y + ", " + C + "]");
    SplitAt(line, a1, t1, " " + C + "]");
    SplitAt(line, a2, t2, []);
    var open := |prefix|;
    assert |a0| == open + 1 && |a0| + |t0| + 2 == |a1| && |a1| + |t1| + 2 == |a2|;
    ClusterTokensAt(line, open, |a1|, |a2|);
    assert Token(line, open + 1) == t0 && Token(line, |a1|) == t1 && Token(line, |a2|) == t2;
  }

  /** The layout of a cluster line split at its '['. */
  lemma ClusterLayout0(prefix: string, X: string, Y: string, C: string)
    ensures prefix + "[" + X + ", " + Y + ", " + C + "]"
         == prefix + ['['] + (X + ", " + Y + ", " + C + "]")
         == (prefix + "[") + (X + ",") + (" " + Y + ", " + C + "]")
  {
  }

  /** The layout of a cluster line split at its second token. */
  lemma ClusterLayout1(prefix: string, X: string, Y: string, C: string)
    requires |Y| > 0
    ensures prefix + "[" + X + ", " + Y + ", " + C + "]"
         == (prefix + "[" + (X + ",") + " " + [Y[0]]) + (Y[1..] + ",") + (" " + C + "]")
  {
  }

  /** The layout of a cluster line split at its third token. */
  lemma ClusterLayout2(prefix: string, X: string, Y: string, C: string)
    requires |Y| > 0 && |C| > 0
    ensures prefix + "[" + X + ", " + Y + ", " + C + "]"
         == (prefix + "[" + (X + ",") + " " + [Y[0]] + (Y[1..] + ",") + " " + [C[0]]) + (C[1..] + "]") + []
  {
  }

  /** A field's characters from index `k` on, followed by a closing character, hold no
      space when the field holds none. */
  lemma NoSpaceField(F: string, k: nat, close: string)
    requires ' ' !in F && k <= |F| && close != [] && close[0] != ' ' && |close| == 1
    ensures ' ' !in F[k..] + close
  {
    var t := F[k..] + close;
    assert forall j :: 0 <= j < |t| ==> t[j] != ' ' by {
      forall j | 0 <= j < |t|
        ensures t[j] != ' '
      {
        if j < |F| - k {
          assert t[j] == F[k + j];
        }
      }
    }
  }

  /** `line` is `a + t + b`, with `t` free of spaces and `b` empty or starting with one. */
  lemma SplitAt(line: string, a: string, t: string, b: string)
    requires line == a + t + b && ' ' !in t && (b == [] || b[0] == ' ')
    ensures StopIndex(line, |a|, ' ') == |a| + |t| && Token(line, |a|) == t
  {
    TokenOf(a, t, b);
  }

  /** The first `ch` of `prefix + [ch] + rest` is just after `prefix`. */
  lemma OpenAt(line: string, prefix: string, ch: char, rest: string)
    requires ch !in prefix && line == prefix + [ch] + rest
    ensures StopIndex(line, 0, ch) == |prefix|
  {
    assert forall j :: 0 <= j < |prefix| ==> line[j] == prefix[j];
    assert line[|prefix|] == ch;
  }

  /** What a cluster line of the log's own format yields. Because `extractSubstring` always
      stops at a space, the scan lands one character past the start of the second and third
      numbers, so `y` and `c` lose their leading digit (a one-digit value reads as 0); `x`
      is read whole. */
  lemma ClusterOfFormat(line: string, prefix: string, x: nat, y: nat, c: nat)
    requires '[' !in prefix
    requires line == prefix + "[" + NaturalText(x) + ", " + NaturalText(y) + ", " + NaturalText(c) + "]"
    ensures ClusterPixel(line) == Some(Pixels.Pixel(x, y % Pow10(|NaturalText(y)| - 1), c % Pow10(|NaturalText(c)| - 1)))
  {
    var X, Y, C := NaturalText(x), NaturalText(y), NaturalText(c);
    DigitsHaveNoSpace(X);
    DigitsHaveNoSpace(Y);
    DigitsHaveNoSpace(C);
    ClusterFields(line, prefix, X, Y, C);
    PixelOfTokens(line, X + ",", Y[1..] + ",", C[1..] + "]");
    WholeField(x, ",");
    TrailingField(y, ",");
    TrailingField(c, "]");
  }

  /** `atoi` of a number's text followed by its closing character reads the number. */
  lemma WholeField(n: nat, close: string)
    requires close == "," || close == "]"
    ensures Atoi(NaturalText(n) + close) == n
  {
    NaturalTextValue(n);
    AtoiOfField(NaturalText(n), close);
  }

  /** `atoi` of a number's text without its first digit reads the number's lower digits. */
  lemma TrailingField(n: nat, close: string)
    requires close == "," || close == "]"
    ensures Atoi(NaturalText(n)[1..] + close) == n % Pow10(|NaturalText(n)| - 1)
  {
    var ds := NaturalText(n);
    NaturalTextValue(n);
    DropLeadingDigit(ds);
    AtoiOfField(ds[1..], close);
  }

  /** The tokens of a header line, given where its '(' and the first space after it are. */
  lemma HeaderTokensAt(line: string, open: nat, e: nat)
    requires open < |line| && open == StopIndex(line, 0, '(')
    requires StopIndex(line, open + 1, ' ') == e
    ensures HeaderTokens(line) == Some(HeaderFields(Token(line, open + 1), Token(line, e + 4)))
  {
  }

  /** The tokens of a cluster line, given where its '[' is and where each token starts:
      two characters past the space that ends the one before. */
  lemma ClusterTokensAt(line: string, open: nat, p1: nat, p2: nat)
    requires open < |line| && open == StopIndex(line, 0, '[')
    requires StopIndex(line, open + 1, ' ') + 2 == p1 && StopIndex(line, p1, ' ') + 2 == p2
    ensures ClusterTokens(line) == Some((Token(line, open + 1), Token(line, p1), Token(line, p2)))
  {
    TokensFromAt(line, open + 1, p1, p2);
  }

  lemma TokensFromAt(line: string, pos: nat, p1: nat, p2: nat)
    requires StopIndex(line, pos, ' ') + 2 == p1 && StopIndex(line, p1, ' ') + 2 == p2
    ensures TokensFrom(line, pos) == (Token(line, pos), Token(line, p1), Token(line, p2))
  {
  }

  lemma PixelOfTokens(line: string, t0: string, t1: string, t2: string)
    requires ClusterTokens(line) == Some((t0, t1, t2))
    ensures ClusterPixel(line) == Some(Pixels.Pixel(Atoi(t0), Atoi(t1), Atoi(t2)))
  {
  }

  /** The pixel of a cluster line, given where its '[' is and the tokens that start one
      character after it and two characters past the end of the token before. */
  lemma ClusterPixelAt(line: string, open: nat, p1: nat, p2: nat, t0: string, t1: string, t2: string)
    requires open < |line| && open == StopIndex(line, 0, '[')
    requires StopIndex(line, open + 1, ' ') + 2 == p1 && StopIndex(line, p1, ' ') + 2 == p2
    requires t0 == Token(line, open + 1) && t1 == Token(line, p1) && t2 == Token(line, p2)
    ensures ClusterPixel(line) == Some(Pixels.Pixel(Atoi(t0), Atoi(t1), Atoi(t2)))
  {
    ClusterTokensAt(line, open, p1, p2);
  }

  lemma DigitsHaveNoSpace(ds: string)
    requires AllDigits(ds)
    ensures ' ' !in ds
  {
    assert forall j :: 0 <= j < |ds| ==> ds[j] != ' ';
  }

  /** The cluster line of the log format's own description reads as (19, 0, 5), not as the
      (19, 0, 55) it stands for. */
  lemma ClusterExample(line: string)
    requires line == "[19, 0, 55]"
    ensures ClusterPixel(line) == Some(Pixels.Pixel(19, 0, 5))
  {
    ExampleText(line, 19, 0, 55, "19", "0", "55");
    ClusterOfFormat(line, "", 19, 0, 55);
    assert Pow10(1) == 10;
  }

  /** A cluster with one-digit y and c reads both as 0. */
  lemma SingleDigitsExample(line: string)
    requires line == "[3, 4, 2]"
    ensures ClusterPixel(line) == Some(Pixels.Pixel(3, 0, 0))
  {
    ExampleText(line, 3, 4, 2, "3", "4", "2");
    ClusterOfFormat(line, "", 3, 4, 2);
    OneDigitDropped(4);
    OneDigitDropped(2);
  }

  /** A one-digit number loses its only digit. */
  lemma OneDigitDropped(n: nat)
    requires n < 10
    ensures n % Pow10(|NaturalText(n)| - 1) == 0
  {
    assert |NaturalText(n)| == 1;
  }

  lemma ExampleText(line: string, x: nat, y: nat, c: nat, X: string, Y: string, C: string)
    requires NaturalText(x) == X && NaturalText(y) == Y && NaturalText(c) == C
    requires line == "[" + X + ", " + Y + ", " + C + "]"
    ensures line == "" + "[" + NaturalText(x) + ", " + NaturalText(y) + ", " + NaturalText(c) + "]"
  {
  }
}
