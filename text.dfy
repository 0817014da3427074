/** Character scanning and splitting on a separator, shared by the line reader,
    the number parser and the report formatter. */
module Text {

  /** The first index at or after `from` that holds `stop`, or the end of `s`;
      `from` itself when `from` is already at or past the end. */
  function StopIndex(s: string, from: nat, stop: char): (i: nat)
    decreases |s| - from
    ensures from <= i
    ensures from <= |s| ==> i <= |s|
    ensures from >= |s| ==> i == from
    ensures i < |s| ==> s[i] == stop
    ensures forall j :: from <= j < i ==> j < |s| && s[j] != stop
  {
    if from >= |s| || s[from] == stop then from else StopIndex(s, from + 1, stop)
  }

  /** `sep` occurs in `s` starting at index `i`. */
  predicate OccursAt(s: string, sep: string, i: nat)
  {
    i + |sep| <= |s| && s[i..i + |sep|] == sep
  }

  /** The first occurrence of `sep` in `s` at or after `from`, or `|s|` when there is none. */
  function FindFrom(s: string, sep: string, from: nat): (j: nat)
    requires |sep| > 0 && from <= |s|
    decreases |s| - from
    ensures from <= j <= |s|
    ensures j < |s| ==> OccursAt(s, sep, j)
    ensures forall i :: from <= i < j ==> !OccursAt(s, sep, i)
  {
    if from == |s| then |s|
    else if OccursAt(s, sep, from) then from
    else FindFrom(s, sep, from + 1)
  }

  /** The pieces of `s` between the occurrences of `sep`, scanning left to right. */
  function Split(s: string, sep: string): (parts: seq<string>)
    requires |sep| > 0
    decreases |s|
    ensures |parts| > 0
  {
    var j := FindFrom(s, sep, 0);
    if j == |s| then [s] else [s[..j]] + Split(s[j + |sep|..], sep)
  }

  /** Splitting `a + sep + b` cuts at the end of `a` when `sep` starts nowhere inside `a`. */
  lemma SplitAfter(a: string, sep: string, b: string)
    requires |sep| > 0
    requires forall i :: 0 <= i < |a| ==> !OccursAt(a + sep + b, sep, i)
    ensures Split(a + sep + b, sep) == [a] + Split(b, sep)
  {
    var s := a + sep + b;
    assert s[|a|..|a| + |sep|] == sep;
    assert OccursAt(s, sep, |a|);
    var j := FindFrom(s, sep, 0);
    assert j == |a|;
    assert s[..j] == a;
    assert s[j + |sep|..] == b;
  }

  /** A string in which `sep` never starts is a single piece. */
  lemma SplitWhole(s: string, sep: string)
    requires |sep| > 0
    requires forall i :: 0 <= i < |s| ==> !OccursAt(s, sep, i)
    ensures Split(s, sep) == [s]
  {
  }

  /** `sep` cannot start at any position of `s` whose character is not `sep[0]`. */
  lemma NoOccurrenceWithoutFirstChar(s: string, sep: string, n: nat)
    requires |sep| > 0 && n <= |s|
    requires forall i :: 0 <= i < n ==> s[i] != sep[0]
    ensures forall i :: 0 <= i < n ==> !OccursAt(s, sep, i)
  {
    forall i | 0 <= i < n
      ensures !OccursAt(s, sep, i)
    {
      if i + |sep| <= |s| {
        assert s[i..i + |sep|][0] == s[i];
      }
    }
  }

  /** The pieces put back together with `sep` between consecutive ones. */
  function Join(parts: seq<string>, sep: string): string
    decreases |parts|
  {
    if parts == [] then "" else if |parts| == 1 then parts[0] else parts[0] + sep + Join(parts[1..], sep)
  }

  /** Splitting loses nothing: the pieces joined with the separator give the text back. */
  lemma {:induction false} JoinSplit(s: string, sep: string)
    requires |sep| > 0
    decreases |s|
    ensures Join(Split(s, sep), sep) == s
  {
    var j := FindFrom(s, sep, 0);
    if j < |s| {
      var a, rest := s[..j], s[j + |sep|..];
      var parts := Split(rest, sep);
      JoinSplit(rest, sep);
      assert Split(s, sep) == [a] + parts;
      assert ([a] + parts)[1..] == parts;
      assert s[j..j + |sep|] == sep;
      assert s == a + sep + rest;
    }
  }
}
