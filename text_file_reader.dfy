/** The reader of a cluster log: a stream over the log's text that keeps the stream's
    end-of-file and failure flags, the number of the next line to read and the number of the
    last pixel stored, and that reads the log one frame at a time. */
module ClusterLogReader {
  import opened Wrappers
  import opened Text
  import opened Numerals
  import opened LogLines
  import Pixels
  import opened Frames

  /** Why a read fails: the frame does not start with a header line (reported with that
      line's number), or the stream was used once its end-of-file flag was set (the stream
      then sets its failure flag, and the exception mask turns that into an exception). */
  datatype ReadError = MissingMetadata(line: nat) | StreamFailure

  /** The reader's observable state: the number of the next line to read, the stream's two
      flags, and the number of the last pixel stored in the current frame. */
  datatype ReaderState = ReaderState(lineNumber: nat, eofBit: bool, failBit: bool, pixelNumber: nat)

  /** What one call of `getFrame` yields, and the state it leaves behind. */
  datatype FrameRead = FrameRead(result: Result<FrameValue, ReadError>, after: ReaderState)

  /** How the lines of a frame are told apart and read: a header line yields its two time
      tokens, a cluster line its pixel; a line a parser rejects is not of its kind. The
      structure of a frame does not depend on the parsers, so it is stated for any format. */
  datatype Format = Format(header: string -> Option<HeaderFields>, cluster: string -> Option<Pixels.Pixel>)

  /** The format of the log: `parseMetadataString` and `parseClusterString`. */
  const LogFormat := Format(HeaderTokens, ClusterPixel)

  /** The number of consecutive cluster lines of `L` starting at index `from`. */
  function ClusterRun(f: Format, L: seq<string>, from: nat): (n: nat)
    requires from <= |L|
    decreases |L| - from
    ensures from + n <= |L|
    ensures forall k :: from <= k < from + n ==> f.cluster(L[k]).Some?
    ensures from + n < |L| ==> f.cluster(L[from + n]).None?
  {
    if from == |L| || f.cluster(L[from]).None? then 0 else 1 + ClusterRun(f, L, from + 1)
  }

  /** The run of clusters after `L[0]` ends at the first index `i` that is not a cluster. */
  lemma ClusterRunEndsAt(f: Format, L: seq<string>, i: nat)
    requires 1 <= i <= |L|
    requires forall k :: 1 <= k < i ==> f.cluster(L[k]).Some?
    requires i == |L| || f.cluster(L[i]).None?
    ensures ClusterRun(f, L, 1) == i - 1
  {
  }

  /** The values `parse` reads from `L[1]`, ..., `L[n]`, stored under the numbers
      1, ..., n: the pixels of a frame whose cluster lines are those lines. */
  function Numbered<V>(L: seq<string>, n: nat, parse: string -> Option<V>): (m: map<nat, V>)
    requires n < |L| && forall k :: 1 <= k <= n ==> parse(L[k]).Some?
    ensures forall k :: k in m <==> 1 <= k <= n
  {
    if n == 0 then map[]
    else
      Numbered(L, n - 1, parse)[n := parse(L[n]).value]
  }

  /** Entry `k` is the value read from line `L[k]`. */
  lemma {:induction false} NumberedAt<V>(L: seq<string>, n: nat, parse: string -> Option<V>, k: nat)
    requires n < |L| && forall j :: 1 <= j <= n ==> parse(L[j]).Some?
    requires 1 <= k <= n
    ensures Some(Numbered(L, n, parse)[k]) == parse(L[k])
  {
    if k < n {
      NumberedAt(L, n - 1, parse, k);
    }
  }

  /** The frame whose header is `L[0]` and whose cluster lines are `L[1]`, ..., `L[n]`. */
  function FrameOf(f: Format, L: seq<string>, n: nat): (frame: FrameValue)
    requires n < |L| && f.header(L[0]).Some? && forall k :: 1 <= k <= n ==> f.cluster(L[k]).Some?
    ensures forall k :: k in frame.pixels <==> 1 <= k <= n
  {
    var header := f.header(L[0]).value;
    FrameValue(Numbered(L, n, f.cluster), Parsed(header.time), Parsed(header.runningTime))
  }

  /** What `getFrame` does, stated on the lines of the log and the reader's state. A frame
      is a header line, then the run of cluster lines after it, then one more line that is
      consumed and dropped. When the clusters run to the end of the log, the end-of-file
      flag is set: if the last line has no newline, `getline` set it while reading that
      line and the next `peek` fails; otherwise `peek` sets it and the frame is returned. */
  function ReadFrame(f: Format, lines: seq<string>, unterminated: bool, s: ReaderState): (r: FrameRead)
    requires 1 <= s.lineNumber <= |lines| + 1
  {
    if s.eofBit || s.failBit then
      FrameRead(Failure(StreamFailure), s.(failBit := true, pixelNumber := 0))
    else
      var L := lines[s.lineNumber - 1..];
      if L == [] then
        FrameRead(Success(EmptyFrame), s.(eofBit := true, pixelNumber := 0))
      else if f.header(L[0]).None? then
        FrameRead(Failure(MissingMetadata(s.lineNumber)), s.(pixelNumber := 0))
      else
        var n := ClusterRun(f, L, 1);
        if 1 + n < |L| then
          FrameRead(Success(FrameOf(f, L, n)), ReaderState(s.lineNumber + n + 2, n + 2 == |L| && unterminated, false, n))
        else if unterminated then
          FrameRead(Failure(StreamFailure), ReaderState(s.lineNumber + n + 1, true, true, n))
        else
          FrameRead(Success(FrameOf(f, L, n)), ReaderState(s.lineNumber + n + 1, true, false, n))
  }

  /** `getFrame` line by line, from state `st` with `frame` read so far: `inFrame` says
      whether the header has been read. Each step peeks (which fails once the end-of-file
      flag is set, and sets it at the end of the text), then reads one line: a header line
      sets the times, a cluster line adds a pixel under the next number, and the first
      other line after the header ends the frame and is consumed. */
  function Scan(f: Format, lines: seq<string>, unterminated: bool, st: ReaderState, inFrame: bool, frame: FrameValue): (r: FrameRead)
    requires 1 <= st.lineNumber <= |lines| + 1
    decreases |lines| + 1 - st.lineNumber
  {
    if st.eofBit || st.failBit then
      FrameRead(Failure(StreamFailure), st.(failBit := true))
    else if st.lineNumber == |lines| + 1 then
      FrameRead(Success(frame), st.(eofBit := true))
    else
      var line := lines[st.lineNumber - 1];
      var next := st.(lineNumber := st.lineNumber + 1, eofBit := st.lineNumber == |lines| && unterminated);
      if !inFrame then
        if f.header(line).None? then
          FrameRead(Failure(MissingMetadata(st.lineNumber)), st)
        else
          var header := f.header(line).value;
          Scan(f, lines, unterminated, next, true, frame.(time := Parsed(header.time), runningTime := Parsed(header.runningTime)))
      else if f.cluster(line).None? then
        FrameRead(Success(frame), next)
      else
        Scan(f, lines, unterminated, next.(pixelNumber := st.pixelNumber + 1),
             true, frame.(pixels := frame.pixels[st.pixelNumber + 1 := f.cluster(line).value]))
  }

  /** Inside a frame, a line that is not a cluster line ends the frame and is consumed. */
  lemma ScanFrameEnds(f: Format, lines: seq<string>, unterminated: bool, st: ReaderState, frame: FrameValue)
    requires 1 <= st.lineNumber <= |lines| && !st.eofBit && !st.failBit
    requires f.cluster(lines[st.lineNumber - 1]).None?
    ensures Scan(f, lines, unterminated, st, true, frame)
         == FrameRead(Success(frame), ReaderState(st.lineNumber + 1, st.lineNumber == |lines| && unterminated, false, st.pixelNumber))
  {
  }

  /** Inside a frame, a cluster line adds its pixel under the next number. */
  lemma ScanPixelAdded(f: Format, lines: seq<string>, unterminated: bool, st: ReaderState, frame: FrameValue)
    requires 1 <= st.lineNumber <= |lines| && !st.eofBit && !st.failBit
    requires f.cluster(lines[st.lineNumber - 1]).Some?
    ensures Scan(f, lines, unterminated, st, true, frame)
         == Scan(f, lines, unterminated, ReaderState(st.lineNumber + 1, st.lineNumber == |lines| && unterminated, false, st.pixelNumber + 1),
                 true, frame.(pixels := frame.pixels[st.pixelNumber + 1 := f.cluster(lines[st.lineNumber - 1]).value]))
  {
  }

  /** Scanning the cluster lines after the header `L[0]`, from the one at index `i`, ends
      as `ReadFrame` states. */
  lemma {:induction false} ScanClusters(f: Format, lines: seq<string>, unterminated: bool, s: ReaderState, i: nat)
    requires 1 <= s.lineNumber <= |lines| + 1 && !s.eofBit && !s.failBit
    requires var L := lines[s.lineNumber - 1..];
      1 <= i <= |L| && f.header(L[0]).Some? && forall k :: 1 <= k < i ==> f.cluster(L[k]).Some?
    ensures Scan(f, lines, unterminated, ReaderState(s.lineNumber + i, s.lineNumber + i == |lines| + 1 && unterminated, false, i - 1), true,
                 FrameOf(f, lines[s.lineNumber - 1..], i - 1))
         == ReadFrame(f, lines, unterminated, s)
    decreases |lines| - i
  {
    var L := lines[s.lineNumber - 1..];
    assert lines[s.lineNumber - 1 + i - 1] == L[i - 1];
    if i < |L| && f.cluster(L[i]).Some? {
      assert lines[s.lineNumber - 1 + i] == L[i];
      ScanClusters(f, lines, unterminated, s, i + 1);
    } else {
      ClusterRunEndsAt(f, L, i);
      if i < |L| {
        assert lines[s.lineNumber - 1 + i] == L[i];
      }
    }
  }

  /** Reading line by line yields what `ReadFrame` states. */
  lemma ScanReadsFrame(f: Format, lines: seq<string>, unterminated: bool, s: ReaderState)
    requires 1 <= s.lineNumber <= |lines| + 1
    ensures Scan(f, lines, unterminated, s.(pixelNumber := 0), false, EmptyFrame) == ReadFrame(f, lines, unterminated, s)
  {
    if !s.eofBit && !s.failBit && s.lineNumber <= |lines| && f.header(lines[s.lineNumber - 1]).Some? {
      ScanClusters(f, lines, unterminated, s, 1);
    }
  }

  /** A read that fails for want of a header names the line that is not one, and leaves
      the reader at the start of that line. */
  lemma MissingMetadataNamesLine(f: Format, lines: seq<string>, unterminated: bool, s: ReaderState, n: nat)
    requires 1 <= s.lineNumber <= |lines| + 1
    requires ReadFrame(f, lines, unterminated, s).result == Failure(MissingMetadata(n))
    ensures n == s.lineNumber && n <= |lines| && f.header(lines[n - 1]).None?
    ensures ReadFrame(f, lines, unterminated, s).after == s.(pixelNumber := 0)
  {
    var L := lines[s.lineNumber - 1..];
    assert L != [] ==> L[0] == lines[s.lineNumber - 1];
  }

  /** The pixels of a frame read are numbered 1, ..., N with no gap, N being the number of
      the last pixel stored. */
  lemma FrameKeysDense(f: Format, lines: seq<string>, unterminated: bool, s: ReaderState, frame: FrameValue)
    requires 1 <= s.lineNumber <= |lines| + 1
    requires ReadFrame(f, lines, unterminated, s).result == Success(frame)
    ensures forall k :: k in frame.pixels <==> 1 <= k <= ReadFrame(f, lines, unterminated, s).after.pixelNumber
  {
  }

  /** Pixel `k` of a frame read is the one its parser reads from the `k`-th line after the
      header. */
  lemma FramePixelFromLine(f: Format, lines: seq<string>, unterminated: bool, s: ReaderState, frame: FrameValue, k: nat)
    requires 1 <= s.lineNumber <= |lines| + 1
    requires ReadFrame(f, lines, unterminated, s).result == Success(frame)
    requires 1 <= k <= ReadFrame(f, lines, unterminated, s).after.pixelNumber
    ensures s.lineNumber + k <= |lines| && Some(frame.pixels[k]) == f.cluster(lines[s.lineNumber - 1 + k])
  {
    var L := lines[s.lineNumber - 1..];
    var n := ClusterRun(f, L, 1);
    assert frame == FrameOf(f, L, n);
    NumberedAt(L, n, f.cluster, k);
    assert L[k] == lines[s.lineNumber - 1 + k];
  }

  /** A read never moves the reader back nor past the end of the log; a frame read either
      consumes lines or finds the end of the log; the end-of-file flag is only set at the
      end of the log. */
  lemma ReadFrameAdvances(f: Format, lines: seq<string>, unterminated: bool, s: ReaderState)
    requires 1 <= s.lineNumber <= |lines| + 1 && (s.eofBit ==> s.lineNumber == |lines| + 1)
    ensures var a := ReadFrame(f, lines, unterminated, s).after;
      s.lineNumber <= a.lineNumber <= |lines| + 1 && (a.eofBit ==> a.lineNumber == |lines| + 1)
    ensures var r := ReadFrame(f, lines, unterminated, s);
      r.result.Success? ==> s.lineNumber < r.after.lineNumber || r.after.eofBit
  {
  }

  class TextFileReader {
    /** The text of the log. */
    const content: string
    /** The lines of the log, as `getline` cuts them. */
    const lines: seq<string>
    /** Whether the last line of the log runs to the end of the text without a newline. */
    const unterminated: bool
    /** The stream position, counted in lines: every position the reader reads from or
        returns to is the start of a line. */
    var position: nat
    var eofBit: bool
    var failBit: bool
    /** The number of the next line to read, counting from 1. */
    var lineNumber: nat
    /** The number of the last pixel stored in the frame being read. */
    var currentPixelNumber: nat
    /** The number of lines of the log, counted when it was opened. */
    var numberOfLines: nat

    /** The line number follows the stream, and the end-of-file flag is only ever set at
        the end of the text. */
    ghost predicate Valid()
      reads this`position, this`lineNumber, this`eofBit, this`numberOfLines
    {
      position <= |lines| && lineNumber == position + 1 &&
      (eofBit ==> position == |lines|) && numberOfLines == |lines|
    }

    ghost function State(): ReaderState
      reads this`lineNumber, this`eofBit, this`failBit, this`currentPixelNumber
    {
      ReaderState(lineNumber, eofBit, failBit, currentPixelNumber)
    }

    /** `open`, once the file checks have passed: the stream stands at the start, and the
        lines have been counted. */
    constructor Open(content: string)
      ensures this.content == content && lines == Lines(content) && unterminated == Unterminated(content)
      ensures Valid() && State() == ReaderState(1, false, false, 1)
    {
      this.content := content;
      lines := Lines(content);
      unterminated := |content| > 0 && content[|content| - 1] != '\n';
      var count := CountLines(content);
      numberOfLines := count;
      position, eofBit, failBit := 0, false, false;
      lineNumber, currentPixelNumber := 1, 1;
    }

    /** The line count `open` takes: `getline` until it fails, one count per line read. */
    static method CountLines(content: string) returns (count: nat)
      ensures count == |Lines(content)|
    {
      count := 0;
      var cursor := 0;
      while cursor < |content|
        invariant cursor <= |content|
        invariant count + |LinesFrom(content, cursor)| == |Lines(content)|
        decreases |content| - cursor
      {
        cursor := NextStart(content, cursor);
        count := count + 1;
      }
    }

    function NumberOfLines(): (n: nat)
      reads this`position, this`lineNumber, this`eofBit, this`numberOfLines
      requires Valid()
      ensures n == |lines|
    {
      numberOfLines
    }

    /** `endOfStream`: `peek` fails on a stream whose end-of-file flag is already set;
        otherwise it sets that flag exactly when the stream stands at the end. */
    method EndOfStream() returns (r: Result<bool, ReadError>)
      requires Valid()
      modifies this`eofBit, this`failBit
      ensures Valid()
      ensures old(eofBit || failBit) ==> r == Failure(StreamFailure) && failBit && eofBit == old(eofBit)
      ensures !old(eofBit || failBit) ==>
                r == Success(position == |lines|) && !failBit && eofBit == (position == |lines|)
    {
      if eofBit || failBit {
        failBit := true;
        return Failure(StreamFailure);
      }
      if position == |lines| {
        eofBit := true;
      }
      return Success(eofBit);
    }

    /** `std::getline` on a good stream that is not at its end: the next line, without its
        newline; the end-of-file flag is set when that line runs to the end of the text.
        The line number is the caller's to advance. */
    method ReadLine() returns (line: string)
      requires !eofBit && !failBit && position < |lines|
      modifies this`position, this`eofBit
      ensures line == lines[old(position)] && position == old(position) + 1
      ensures eofBit == (position == |lines| && unterminated)
    {
      line := lines[position];
      position := position + 1;
      eofBit := position == |lines| && unterminated;
    }

    /** `extractSubstring`: the characters from `currentPosition` up to the next space, and
        the position of that space (or of the end). The delimiter argument is not used: the
        scan always stops at a space. */
    static method ExtractSubstring(input: string, currentPosition: nat, delimiter: char) returns (token: string, position: nat)
      ensures token == Token(input, currentPosition) && position == StopIndex(input, currentPosition, ' ')
    {
      token := "";
      position := currentPosition;
      while position < |input| && input[position] != ' '
        invariant currentPosition <= position
        invariant currentPosition <= |input| ==> position <= |input| && token == input[currentPosition..position]
        invariant currentPosition > |input| ==> position == currentPosition && token == ""
        invariant StopIndex(input, position, ' ') == StopIndex(input, currentPosition, ' ')
        decreases |input| - position
      {
        token := token + [input[position]];
        position := position + 1;
      }
    }

    /** The part of `parseMetadataString` after the '(' at `open` is found: the time token
        right after it, then, four characters past that token's end, the running time. */
    static method ScanHeader(line: string, open: nat) returns (time: string, runningTime: string)
      requires open < |line| && open == StopIndex(line, 0, '(')
      ensures HeaderTokens(line) == Some(HeaderFields(time, runningTime))
    {
      var pos := open + 1;
      time, pos := ExtractSubstring(line, pos, ' ');
      HeaderTokensAt(line, open, pos);
      pos := pos + 4;  // past " s, "
      runningTime, pos := ExtractSubstring(line, pos, ' ');
    }

    /** The part of `parseClusterString` after the '[' at `open` is found: three tokens, the
        second and third starting two characters past the end of the one before, each read
        with `atoi`. */
    static method ScanCluster(line: string, open: nat) returns (pixel: Pixels.Pixel)
      requires open < |line| && open == StopIndex(line, 0, '[')
      ensures ClusterPixel(line) == Some(pixel)
    {
      var pos := open + 1;
      var t0, t1, t2;
      t0, pos := ExtractSubstring(line, pos, ',');
      pos := pos + 2;  // past ", "
      ghost var p1 := pos;
      t1, pos := ExtractSubstring(line, pos, ',');
      pos := pos + 2;  // past ", "
      ghost var p2 := pos;
      t2, pos := ExtractSubstring(line, pos, ',');
      assert t0 == Token(line, open + 1) && t1 == Token(line, p1) && t2 == Token(line, p2);
      ClusterPixelAt(line, open, p1, p2, t0, t1, t2);
      pixel := Pixels.Pixel(Atoi(t0), Atoi(t1), Atoi(t2));
    }

    /** The opening both parsers share: unless `endOfStream` fails or finds the end, saves
        the stream position, reads a line and looks for `mark` in it. A line without `mark`
        is put back by seeking to the saved position, which also clears end-of-file; a line
        with it is returned with the index of its first `mark`. */
    method ReadMarkedLine(mark: char) returns (r: Result<Option<(string, nat)>, ReadError>)
      requires Valid()
      modifies this`position, this`eofBit, this`failBit
      ensures old(eofBit || failBit) ==> r == Failure(StreamFailure) && Valid() && State() == old(State()).(failBit := true)
      ensures !old(eofBit || failBit) && old(position) == |lines| ==>
                r == Success(None) && Valid() && State() == old(State()).(eofBit := true)
      ensures !old(eofBit || failBit) && old(position) < |lines| && mark !in lines[old(position)] ==>
                r == Success(None) && Valid() && State() == old(State())
      ensures !old(eofBit || failBit) && old(position) < |lines| && mark in lines[old(position)] ==>
                r == Success(Some((lines[old(position)], StopIndex(lines[old(position)], 0, mark))))
                && position == old(position) + 1 && eofBit == (position == |lines| && unterminated) && !failBit
      ensures r == Failure(StreamFailure) || r == Success(None) ||
                (!old(eofBit || failBit) && old(position) < |lines| && mark in lines[old(position)])
    {
      var atEnd := EndOfStream();
      if atEnd.Failure? {
        return Failure(atEnd.error);
      }
      if atEnd.value {
        return Success(None);
      }
      var originalPosition := position;
      var line := ReadLine();
      var pos := StopIndex(line, 0, mark);
      if pos == |line| {
        position, eofBit := originalPosition, false;
        return Success(None);
      }
      return Success(Some((line, pos)));
    }

    /** `parseMetadataString`: reads a line; a line without '(' is put back and reported as
        not a header; otherwise the two time tokens are stored in the frame. */
    method ParseMetadataString(frame: Frame) returns (r: Result<bool, ReadError>)
      requires Valid()
      modifies this`position, this`eofBit, this`failBit, this`lineNumber, frame`time, frame`runningTime
      ensures Valid()
      ensures old(eofBit || failBit) ==>
                r == Failure(StreamFailure) && State() == old(State()).(failBit := true) && unchanged(frame)
      ensures !old(eofBit || failBit) && old(position) == |lines| ==>
                r == Success(false) && State() == old(State()).(eofBit := true) && unchanged(frame)
      ensures !old(eofBit || failBit) && old(position) < |lines| && !IsMetadataLine(lines[old(position)]) ==>
                r == Success(false) && State() == old(State()) && unchanged(frame)
      ensures !old(eofBit || failBit) && old(position) < |lines| && IsMetadataLine(lines[old(position)]) ==>
                r == Success(true)
                && State() == old(State()).(lineNumber := old(lineNumber) + 1,
                                            eofBit := old(position) + 1 == |lines| && unterminated)
                && frame.pixels == old(frame.pixels)
                && frame.time == Parsed(HeaderTokens(lines[old(position)]).value.time)
                && frame.runningTime == Parsed(HeaderTokens(lines[old(position)]).value.runningTime)
    {
      var marked := ReadMarkedLine('(');
      if marked.Failure? {
        return Failure(marked.error);
      }
      if marked.value.None? {
        return Success(false);
      }
      var (line, pos) := marked.value.value;
      var time, runningTime := ScanHeader(line, pos);
      frame.SetTime(Parsed(time));
      frame.SetRunningTime(Parsed(runningTime));
      lineNumber := lineNumber + 1;
      return Success(true);
    }

    /** `parseClusterString`: reads a line; a line without '[' is put back and reported as
        not a cluster; otherwise its pixel is stored under the next pixel number. */
    method ParseClusterString(frame: Frame) returns (r: Result<bool, ReadError>)
      requires Valid()
      modifies this`position, this`eofBit, this`failBit, this`lineNumber, this`currentPixelNumber, frame`pixels
      ensures Valid()
      ensures old(eofBit || failBit) ==>
                r == Failure(StreamFailure) && State() == old(State()).(failBit := true) && unchanged(frame)
      ensures !old(eofBit || failBit) && old(position) == |lines| ==>
                r == Success(false) && State() == old(State()).(eofBit := true) && unchanged(frame)
      ensures !old(eofBit || failBit) && old(position) < |lines| && !IsClusterLine(lines[old(position)]) ==>
                r == Success(false) && State() == old(State()) && unchanged(frame)
      ensures !old(eofBit || failBit) && old(position) < |lines| && IsClusterLine(lines[old(position)]) ==>
                r == Success(true)
                && State() == ReaderState(old(lineNumber) + 1, old(position) + 1 == |lines| && unterminated,
                                          false, old(currentPixelNumber) + 1)
                && frame.pixels == old(frame.pixels)[old(currentPixelNumber) + 1 := ClusterPixel(lines[old(position)]).value]
                && frame.time == old(frame.time) && frame.runningTime == old(frame.runningTime)
      ensures r == Success(true) ==> !old(eofBit || failBit) && old(position) < |lines| && IsClusterLine(lines[old(position)])
    {
      ghost var start, pixels := position, frame.pixels;
      var marked := ReadMarkedLine('[');
      if marked.Failure? {
        return Failure(marked.error);
      }
      if marked.value.None? {
        return Success(false);
      }
      var (line, pos) := marked.value.value;
      assert line == lines[start] && IsClusterLine(line);
      var pixel := ScanCluster(line, pos);
      currentPixelNumber := currentPixelNumber + 1;
      frame.SetPixel(currentPixelNumber, pixel);
      lineNumber := lineNumber + 1;
      assert frame.pixels == pixels[old(currentPixelNumber) + 1 := pixel];
      assert position == start + 1 && lineNumber == position + 1;
      return Success(true);
    }

    /** `eatLine`: reads and drops one line, unless the stream is at its end. */
    method EatLine() returns (r: Outcome<ReadError>)
      requires Valid()
      modifies this`position, this`eofBit, this`failBit, this`lineNumber
      ensures Valid()
      ensures old(eofBit || failBit) ==> r == Fail(StreamFailure) && State() == old(State()).(failBit := true)
      ensures !old(eofBit || failBit) && old(position) == |lines| ==>
                r == Pass && State() == old(State()).(eofBit := true)
      ensures !old(eofBit || failBit) && old(position) < |lines| ==>
                r == Pass && State() == old(State()).(lineNumber := old(lineNumber) + 1,
                                                      eofBit := old(position) + 1 == |lines| && unterminated)
    {
      var atEnd := EndOfStream();
      if atEnd.Failure? {
        return Fail(atEnd.error);
      }
      if !atEnd.value {
        var line := ReadLine();
        lineNumber := lineNumber + 1;
      }
      return Pass;
    }

    /** The body of `getFrame`'s loop before the header is read, once `endOfStream` has
        found a line: the line must be a header, whose times are stored in the frame. */
    method StartFrame(frame: Frame, ghost goal: FrameRead) returns (r: Outcome<ReadError>)
      requires Valid() && !eofBit && !failBit && position < |lines|
      requires frame.Value() == EmptyFrame
      requires Scan(LogFormat, lines, unterminated, State(), false, frame.Value()) == goal
      modifies this`position, this`eofBit, this`failBit, this`lineNumber, frame`time, frame`runningTime
      ensures Valid() && (r.Pass? ==> old(position) < position)
      ensures r.Pass? ==> Scan(LogFormat, lines, unterminated, State(), true, frame.Value()) == goal
      ensures r.Fail? ==> goal == FrameRead(Failure(r.error), State())
    {
      var isMetadata := ParseMetadataString(frame);
      if !isMetadata.value {
        return Fail(MissingMetadata(lineNumber));
      }
      return Pass;
    }

    /** The body of `getFrame`'s loop once the header is read and `endOfStream` has found a
        line: a cluster line adds its pixel; any other line is eaten and ends the frame. */
    method ContinueFrame(frame: Frame, ghost goal: FrameRead) returns (ended: bool)
      requires Valid() && !eofBit && !failBit && position < |lines|
      requires Scan(LogFormat, lines, unterminated, State(), true, frame.Value()) == goal
      modifies this`position, this`eofBit, this`failBit, this`lineNumber, this`currentPixelNumber, frame`pixels
      ensures Valid() && old(position) < position
      ensures !ended ==> Scan(LogFormat, lines, unterminated, State(), true, frame.Value()) == goal
      ensures ended ==> goal == FrameRead(Success(frame.Value()), State())
    {
      ghost var st, v, line := State(), frame.Value(), lines[position];
      var isClusterdata := ParseClusterString(frame);
      if !isClusterdata.value {
        ScanFrameEnds(LogFormat, lines, unterminated, st, v);
        var eaten := EatLine();
        assert frame.Value() == v;
        return true;
      }
      assert IsClusterLine(line);
      ghost var pixel := ClusterPixel(line).value;
      assert frame.pixels == old(frame.pixels)[old(currentPixelNumber) + 1 := pixel];
      assert old(frame.pixels) == v.pixels && old(currentPixelNumber) + 1 == st.pixelNumber + 1;
      ScanPixelAdded(LogFormat, lines, unterminated, st, v);
      assert frame.time == v.time && frame.runningTime == v.runningTime;
      assert State() == ReaderState(st.lineNumber + 1, st.lineNumber == |lines| && unterminated, false, st.pixelNumber + 1);
      return false;
    }

    /** `getFrame`: reads the next frame, as `ReadFrame` states for the log's format. */
    method GetFrame() returns (r: Result<Frame, ReadError>)
      requires Valid()
      modifies this`position, this`eofBit, this`failBit, this`lineNumber, this`currentPixelNumber
      ensures Valid()
      ensures State() == ReadFrame(LogFormat, lines, unterminated, old(State())).after
      ensures r.Success? <==> ReadFrame(LogFormat, lines, unterminated, old(State())).result.Success?
      ensures r.Success? ==> fresh(r.value) && r.value.Value() == ReadFrame(LogFormat, lines, unterminated, old(State())).result.value
      ensures r.Failure? ==> r.error == ReadFrame(LogFormat, lines, unterminated, old(State())).result.error
    {
      ghost var goal := ReadFrame(LogFormat, lines, unterminated, State());
      ScanReadsFrame(LogFormat, lines, unterminated, State());
      var frame := new Frame();
      currentPixelNumber := 0;
      var isInFrame := false;
      while true
        invariant Valid() && fresh(frame)
        invariant !isInFrame ==> frame.Value() == EmptyFrame
        invariant Scan(LogFormat, lines, unterminated, State(), isInFrame, frame.Value()) == goal
        decreases |lines| - position
      {
        var atEnd := EndOfStream();
        if atEnd.Failure? {
          return Failure(atEnd.error);
        }
        if atEnd.value {
          break;
        }
        if !isInFrame {
          var started := StartFrame(frame, goal);
          if started.Fail? {
            return Failure(started.error);
          }
          isInFrame := true;
        } else {
          var ended := ContinueFrame(frame, goal);
          if ended {
            break;
          }
        }
      }
      return Success(frame);
    }
  }
}
