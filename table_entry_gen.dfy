/** The wiki table row written for a cluster log: `TableEntryGen` and its `generateEntry`. */
module TableEntries {
  import opened Wrappers
  import opened Text
  import opened Numerals

  /** `unsigned int`: the width of the three counts. */
  type Uint32 = n: nat | n < 0x1_0000_0000

  /** What the constructor stores: the five arguments, unchanged and unchecked. Nothing
      changes them afterwards, so the object is a value. */
  datatype TableEntryGen = TableEntryGen(
    detectorName: string,
    size: Uint32,
    numberOfLines: Uint32,
    numberOfFrames: Uint32,
    settings: string)

  /** The start of a row in the wiki's table markup. */
  const RowStart := "|-\n| "

  /** The markup between two cells of a row. */
  const Separator := " || "

  /** `generateEntry`: the row start, the five fields in order with the cell separator
      between them (counts in decimal), and the newline of `std::endl`. */
  function GenerateEntry(g: TableEntryGen): string
  {
    RowStart + g.detectorName + Separator + NaturalText(g.size) + Separator
      + NaturalText(g.numberOfLines) + Separator + NaturalText(g.numberOfFrames) + Separator
      + g.settings + "\n"
  }

  /** The cells of a row, in the order `generateEntry` writes them. */
  function Cells(g: TableEntryGen): seq<string>
  {
    [g.detectorName, NaturalText(g.size), NaturalText(g.numberOfLines), NaturalText(g.numberOfFrames), g.settings]
  }

  /** A count cell: decimal digits without padding, within `unsigned int`. */
  function ParseCount(s: string): (n: Option<Uint32>)
  {
    if s != [] && AllDigits(s) && (s[0] == '0' ==> |s| == 1) && DigitsValue(s) < 0x1_0000_0000
    then Some(DigitsValue(s))
    else None
  }

  /** Reads a row back: the row start, the cells between separators, the final newline. */
  function ParseEntry(text: string): (g: Option<TableEntryGen>)
  {
    if |text| < 6 || text[..5] != RowStart || text[|text| - 1] != '\n' then None
    else
      var cells := Split(text[5..|text| - 1], Separator);
      if |cells| != 5 then None
      else
        match (ParseCount(cells[1]), ParseCount(cells[2]), ParseCount(cells[3]))
        case (Some(size), Some(lines), Some(frames)) =>
          Some(TableEntryGen(cells[0], size, lines, frames, cells[4]))
        case _ => None
  }

  /** The name and the settings can be told apart from the separators around them: no
      separator starts inside the name (even one that runs on into the separator after it),
      and none starts inside the settings. */
  predicate Separable(g: TableEntryGen)
  {
    (forall i :: 0 <= i < |g.detectorName| ==> !OccursAt(g.detectorName + Separator, Separator, i))
    && (forall i :: 0 <= i < |g.settings| ==> !OccursAt(g.settings, Separator, i))
  }

  /** The row is the row start, the cells joined by the separator, and one newline. */
  lemma EntryShape(g: TableEntryGen)
    ensures GenerateEntry(g) == RowStart + Join(Cells(g), Separator) + "\n"
    ensures GenerateEntry(g)[..5] == RowStart && GenerateEntry(g)[|GenerateEntry(g)| - 1] == '\n'
    ensures |GenerateEntry(g)| >= 6 && GenerateEntry(g)[5..|GenerateEntry(g)| - 1] == Join(Cells(g), Separator)
  {
    var c := Cells(g);
    JoinFive(c, Separator);
    RowLayout(RowStart, c[0], c[1], c[2], c[3], c[4], Separator);
    var body := Join(c, Separator);
    Framed(RowStart, body);
  }

  /** A separable row reads back as the object that wrote it. */
  lemma ParseGenerate(g: TableEntryGen)
    requires Separable(g)
    ensures ParseEntry(GenerateEntry(g)) == Some(g)
  {
    EntryShape(g);
    var c := Cells(g);
    assert Split(Join(c, Separator), Separator) == c by {
      JoinFive(c, Separator);
      SplitCells(g.detectorName, c[1], c[2], c[3], g.settings);
    }
    CountCell(g.size);
    CountCell(g.numberOfLines);
    CountCell(g.numberOfFrames);
  }

  /** Any text that reads as a row is the row its object writes. */
  lemma GenerateParse(text: string, g: TableEntryGen)
    requires ParseEntry(text) == Some(g)
    ensures GenerateEntry(g) == text
  {
    var body := text[5..|text| - 1];
    ParsedCells(text, g);
    JoinSplit(body, Separator);
    EntryShape(g);
    Unframe(text);
  }

  /** The cells of a text that reads as a row are the cells of the object read. */
  lemma ParsedCells(text: string, g: TableEntryGen)
    requires ParseEntry(text) == Some(g)
    ensures |text| >= 6 && text[..5] == RowStart && text[|text| - 1] == '\n'
    ensures Split(text[5..|text| - 1], Separator) == Cells(g)
  {
    var cells := Split(text[5..|text| - 1], Separator);
    assert |cells| == 5;
    CountText(cells[1], g.size);
    CountText(cells[2], g.numberOfLines);
    CountText(cells[3], g.numberOfFrames);
    assert cells[0] == g.detectorName && cells[4] == g.settings;
  }

  /** A count cell that reads as `n` is the decimal text of `n`. */
  lemma CountText(s: string, n: Uint32)
    requires ParseCount(s) == Some(n)
    ensures NaturalText(n) == s
  {
    NaturalTextOfDigits(s);
  }

  /** A text of at least six characters is its first five, the rest, and its last one. */
  lemma Unframe(text: string)
    requires |text| >= 6 && text[|text| - 1] == '\n'
    ensures text == text[..5] + text[5..|text| - 1] + "\n"
  {
  }

  /** Two separable objects that write the same row are the same object. */
  lemma GenerateInjective(g: TableEntryGen, h: TableEntryGen)
    requires Separable(g) && Separable(h) && GenerateEntry(g) == GenerateEntry(h)
    ensures g == h
  {
    ParseGenerate(g);
    ParseGenerate(h);
  }

  /** A name that ends in " ||" is not separable: its row splits one cell early, so it does
      not read back as the object that wrote it. */
  lemma NameEndingInBarsMisreads()
    ensures var g := TableEntryGen("a ||", 1, 2, 3, "s");
      ParseEntry(GenerateEntry(g)) != Some(g)
  {
    var g := TableEntryGen("a ||", 1, 2, 3, "s");
    EntryShape(g);
    var c := Cells(g);
    JoinFive(c, Separator);
    var rest := c[1] + Separator + (c[2] + Separator + (c[3] + Separator + c[4]));
    var body := Join(c, Separator);
    assert body == "a ||" + Separator + rest;
    assert body[0] == 'a' && body[1..5] == Separator;
    assert !OccursAt(body, Separator, 0) && OccursAt(body, Separator, 1);
    assert FindFrom(body, Separator, 0) == 1;
    assert Split(body, Separator)[0] == "a";
  }

  /** A count's cell reads back as the count. */
  lemma CountCell(n: Uint32)
    ensures ParseCount(NaturalText(n)) == Some(n)
  {
    NaturalTextValue(n);
  }

  /** Five cells joined: each cell followed by the separator and the rest. */
  lemma JoinFive(c: seq<string>, sep: string)
    requires |c| == 5
    ensures Join(c, sep) == c[0] + sep + (c[1] + sep + (c[2] + sep + (c[3] + sep + c[4])))
  {
    var c1, c2, c3, c4 := c[1..], c[2..], c[3..], c[4..];
    assert c1[1..] == c2 && c2[1..] == c3 && c3[1..] == c4;
    assert c1[0] == c[1] && c2[0] == c[2] && c3[0] == c[3] && c4 == [c[4]];
    assert Join(c3, sep) == c[3] + sep + c[4];
    assert Join(c2, sep) == c[2] + sep + Join(c3, sep);
    assert Join(c1, sep) == c[1] + sep + Join(c2, sep);
    assert Join(c, sep) == c[0] + sep + Join(c1, sep);
  }

  /** Regrouping a row written left to right around its joined cells. */
  lemma RowLayout(p: string, a: string, b: string, c: string, d: string, e: string, sep: string)
    ensures p + a + sep + b + sep + c + sep + d + sep + e + "\n"
         == p + (a + sep + (b + sep + (c + sep + (d + sep + e)))) + "\n"
  {
  }

  /** The text between a prefix and a final newline. */
  lemma Framed(p: string, body: string)
    requires |p| == 5
    ensures (p + body + "\n")[..5] == p && (p + body + "\n")[|p + body + "\n"| - 1] == '\n'
    ensures (p + body + "\n")[5..|p + body + "\n"| - 1] == body
  {
  }

  /** Splitting the joined cells of a separable object gives the cells back. */
  lemma SplitCells(name: string, s: string, l: string, f: string, settings: string)
    requires forall i :: 0 <= i < |name| ==> !OccursAt(name + Separator, Separator, i)
    requires forall i :: 0 <= i < |settings| ==> !OccursAt(settings, Separator, i)
    requires AllDigits(s) && AllDigits(l) && AllDigits(f)
    ensures Split(name + Separator + (s + Separator + (l + Separator + (f + Separator + settings))), Separator)
         == [name, s, l, f, settings]
  {
    var r3 := f + Separator + settings;
    var r2 := l + Separator + r3;
    var r1 := s + Separator + r2;
    SplitWhole(settings, Separator);
    DigitCell(f, settings);
    DigitCell(l, r3);
    DigitCell(s, r2);
    forall i | 0 <= i < |name|
      ensures !OccursAt(name + Separator + r1, Separator, i)
    {
      OccursWithinPrefix(name + Separator, r1, Separator, i);
    }
    SplitAfter(name, Separator, r1);
    FiveCells(name, s, l, f, settings);
  }

  lemma FiveCells(a: string, b: string, c: string, d: string, e: string)
    ensures [a] + ([b] + ([c] + ([d] + [e]))) == [a, b, c, d, e]
  {
  }

  /** A cell of digits ends at the separator after it. */
  lemma DigitCell(ds: string, rest: string)
    requires AllDigits(ds)
    ensures Split(ds + Separator + rest, Separator) == [ds] + Split(rest, Separator)
  {
    var t := ds + Separator + rest;
    assert forall i :: 0 <= i < |ds| ==> t[i] == ds[i];
    NoOccurrenceWithoutFirstChar(t, Separator, |ds|);
    SplitAfter(ds, Separator, rest);
  }

  /** Whether `sep` starts at `i` depends only on the text up to its end. */
  lemma OccursWithinPrefix(u: string, v: string, sep: string, i: nat)
    requires i + |sep| <= |u|
    ensures OccursAt(u + v, sep, i) == OccursAt(u, sep, i)
  {
    assert (u + v)[i..i + |sep|] == u[i..i + |sep|];
  }
}
