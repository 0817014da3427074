/** The pixel value type: a sensor position (x, y) with its count c, as `Pixel<int>`. */
module Pixels {
  import opened Wrappers
  import opened Text
  import opened Numerals

  /** One activated pixel. The three-argument constructor stores x, y and c as given and the
      accessors `x()`, `y()` and `c()` return them: these are the datatype's constructor and
      destructors. Pixels are held by value everywhere in the reader and in frames. */
  datatype Pixel = Pixel(x: int, y: int, c: int)

  /** The default-constructed pixel. */
  const Origin := Pixel(0, 0, 0)

  /** `xy()`: the linear index of the pixel, 256 * y + x. */
  function Xy(p: Pixel): int
  {
    256 * p.y + p.x
  }

  /** On a 256-column sensor the linear index gives back both coordinates. */
  lemma XyDecodes(p: Pixel)
    requires 0 <= p.x < 256
    ensures Xy(p) % 256 == p.x && Xy(p) / 256 == p.y
  {
    ModOfDecomposition(Xy(p), 256, p.y, p.x);
    assert Xy(p) == p.y * 256 + p.x;
  }

  /** On a 256-column sensor distinct positions have distinct linear indices. */
  lemma XyInjective(p: Pixel, q: Pixel)
    requires 0 <= p.x < 256 && 0 <= q.x < 256
    requires Xy(p) == Xy(q)
    ensures p.x == q.x && p.y == q.y
  {
    XyDecodes(p);
    XyDecodes(q);
  }

  /** `operator==`: field-by-field comparison, which is exactly equality of pixel values. */
  predicate Equals(p: Pixel, q: Pixel)
    ensures Equals(p, q) <==> p == q
  {
    q.x == p.x && q.y == p.y && q.c == p.c
  }

  /** `operator!=`, as its comment describes it: the negation of `operator==`. */
  predicate NotEquals(p: Pixel, q: Pixel)
    ensures NotEquals(p, q) <==> p != q
  {
    !Equals(p, q)
  }

  /** `swap`: exchanges the three fields of two pixels; the result is the pair
      (new first, new second). */
  function Swap(first: Pixel, second: Pixel): (r: (Pixel, Pixel))
    ensures r.0 == second && r.1 == first
  {
    (Pixel(second.x, second.y, second.c), Pixel(first.x, first.y, first.c))
  }

  /** `operator=` by copy-and-swap: the target swaps fields with a copy of the source
      (the copy is then discarded), so the target ends equal to the source. */
  function Assign(target: Pixel, source: Pixel): (r: Pixel)
    ensures Equals(r, source)
  {
    Swap(target, source).0
  }

  /** `operator<<`: four labelled lines, each value in decimal. */
  function Render(p: Pixel): string
  {
    LabelledLine("x = ", p.x, LabelledLine("y = ", p.y, LabelledLine("c = ", p.c,
      LabelledLine("xy = ", Xy(p), ""))))
  }

  /** One line `tag` + value + newline, followed by `rest`. */
  function LabelledLine(tag: string, n: int, rest: string): string
  {
    tag + Decimal(n) + "\n" + rest
  }

  predicate HasLabel(line: string, tag: string)
  {
    |tag| <= |line| && line[..|tag|] == tag
  }

  /** Reads the text written by `Render` back into a pixel; `None` for any other text. */
  function ReadRendering(text: string): Option<Pixel>
  {
    var lines := Split(text, "\n");
    if |lines| == 5 && lines[4] == "" && HasLabel(lines[0], "x = ") && HasLabel(lines[1], "y = ")
       && HasLabel(lines[2], "c = ") && HasLabel(lines[3], "xy = ")
    then
      var p := Pixel(Atoi(lines[0][4..]), Atoi(lines[1][4..]), Atoi(lines[2][4..]));
      if Atoi(lines[3][5..]) == Xy(p) then Some(p) else None
    else
      None
  }

  /** A labelled decimal line is cut off at its own newline. */
  lemma SplitLabelledLine(tag: string, n: int, rest: string)
    requires forall i :: 0 <= i < |tag| ==> tag[i] != '\n'
    ensures Split(LabelledLine(tag, n, rest), "\n") == [tag + Decimal(n)] + Split(rest, "\n")
  {
    var a := tag + Decimal(n);
    var s := a + "\n" + rest;
    forall i | 0 <= i < |a|
      ensures s[i] != '\n'
    {
      assert s[i] == a[i];
      if i >= |tag| {
        assert a[i] == Decimal(n)[i - |tag|];
      }
    }
    NoOccurrenceWithoutFirstChar(s, "\n", |a|);
    SplitAfter(a, "\n", rest);
  }

  /** The four lines `operator<<` writes for a pixel, before the final newline's empty rest. */
  function RenderedLines(p: Pixel): seq<string>
  {
    ["x = " + Decimal(p.x)] + (["y = " + Decimal(p.y)] + (["c = " + Decimal(p.c)]
      + (["xy = " + Decimal(Xy(p))] + [""])))
  }

  lemma SplitRender(p: Pixel)
    ensures Split(Render(p), "\n") == RenderedLines(p)
  {
    SplitFourLines("x = ", p.x, "y = ", p.y, "c = ", p.c, "xy = ", Xy(p));
  }

  /** Four labelled lines split into their four texts and the empty rest. */
  lemma SplitFourLines(t0: string, n0: int, t1: string, n1: int, t2: string, n2: int, t3: string, n3: int)
    requires forall i :: 0 <= i < |t0| ==> t0[i] != '\n'
    requires forall i :: 0 <= i < |t1| ==> t1[i] != '\n'
    requires forall i :: 0 <= i < |t2| ==> t2[i] != '\n'
    requires forall i :: 0 <= i < |t3| ==> t3[i] != '\n'
    ensures Split(LabelledLine(t0, n0, LabelledLine(t1, n1, LabelledLine(t2, n2, LabelledLine(t3, n3, "")))), "\n")
         == [t0 + Decimal(n0)] + ([t1 + Decimal(n1)] + ([t2 + Decimal(n2)] + ([t3 + Decimal(n3)] + [""])))
  {
    var r3 := LabelledLine(t3, n3, "");
    var r2 := LabelledLine(t2, n2, r3);
    var r1 := LabelledLine(t1, n1, r2);
    SplitWhole("", "\n");
    SplitLabelledLine(t3, n3, "");
    SplitLabelledLine(t2, n2, r3);
    SplitLabelledLine(t1, n1, r2);
    SplitLabelledLine(t0, n0, r1);
  }

  /** What `operator<<` writes for a pixel determines the pixel. */
  lemma RenderRoundTrip(p: Pixel)
    ensures ReadRendering(Render(p)) == Some(p)
  {
    SplitRender(p);
    var lines := RenderedLines(p);
    assert |lines| == 5 && lines[4] == "";
    assert lines[0] == "x = " + Decimal(p.x) && lines[1] == "y = " + Decimal(p.y);
    assert lines[2] == "c = " + Decimal(p.c) && lines[3] == "xy = " + Decimal(Xy(p));
    ReadLabelled("x = ", p.x);
    ReadLabelled("y = ", p.y);
    ReadLabelled("c = ", p.c);
    ReadLabelled("xy = ", Xy(p));
  }

  /** A labelled line carries its label and, after it, the value's decimal text. */
  lemma ReadLabelled(tag: string, n: int)
    ensures HasLabel(tag + Decimal(n), tag) && Atoi((tag + Decimal(n))[|tag|..]) == n
  {
    var l := tag + Decimal(n);
    assert l[..|tag|] == tag;
    assert l[|tag|..] == Decimal(n);
    AtoiDecimal(n);
  }
}
