# Cluster log reader: a Dafny model

This project models the core of a reader for the cluster logs written by a pixel
detector. A log is a text of frames. Each frame is one header line such as
`Frame 1 (1335967757.2905033 s, 0.1 s)`, then one cluster line per activated pixel
such as `[19, 0, 55]`, then one line that ends the frame. The core has four parts:

- **`TextFileReader`**: a stream over the log. It keeps the stream's end-of-file and
  failure flags, the number of the next line and the number of the last pixel stored.
  `getFrame` reads one frame at a time. The model is the class
  `ClusterLogReader.TextFileReader`. Its methods are proved against `ReadFrame`, a
  function that states, on the lines of the log, what one call yields and the state it
  leaves behind. The stream position is counted in lines.
- **`Frame`**: the pixels of one exposure, keyed by their number, plus two times. The
  model is the class `Frames.Frame`, together with the pixel listing of `operator<<`.
- **`Pixel`**: an (x, y, c) value. The model is the datatype `Pixels.Pixel`. Its
  constructors and the accessors `x()`, `y()`, `c()` are the datatype's constructor and
  destructors.
- **`TableEntryGen`**: the wiki table row written for a log. The model is the datatype
  `TableEntries.TableEntryGen` and the function `GenerateEntry`, with a parser that
  reads a row back.

Behaviour the model keeps as the code has it:

- **Cluster fields lose a digit.** `extractSubstring` ignores its delimiter argument and
  always stops at a space. So the x token keeps its trailing `,`, and the y and c tokens
  start one character after the field's first character. `atoi` reads what is left.
  - `[19, 0, 55]` therefore yields the pixel (19, 0, 5).
  - `[3, 4, 2]` yields (3, 0, 0).
  - The parser's comment (src/TextFileReader.hpp:397) says `[19, 0, 55]` means x = 19,
    y = 0, c = 55; the code reads (19, 0, 5). The model follows the code:
    `LogLines.ClusterOfFormat` states the general rule, and `LogLines.ClusterExample`
    and `LogLines.SingleDigitsExample` state the two lines.
- **End of the log.** `endOfStream` peeks. On a stream whose end-of-file flag is
  already set, the peek sets the failure flag, and the exception mask turns that into an
  exception. The model reports that exception as `Failure(StreamFailure)`.
  - When the last line ends with a newline, the frame that runs to the end of the log is
    returned. The next `getFrame` then fails; it does not return a distinct
    "end of stream" answer.
  - When the last line has no newline, `getline` sets the end-of-file flag while reading
    it. The frame that runs to that end then fails as well.
  - A `getFrame` issued when the stream stands exactly at the end, with the flag still
    clear, returns an empty frame and sets the flag.
- **Header check.** A header line is any line containing `(`. A cluster line is any
  line containing `[`. The first line of a frame that is not a header fails the read,
  with that line's number.
- **Two operators that do not compile as written** are modelled as their documentation
  describes them:
  - `getPixel` compares the key with the map's end iterator (`src/Frame.hpp:99`). The
    model returns the stored pixel for a present key and the default pixel otherwise.
  - `operator!=` negates a comparison of a pointer with an object (`src/Pixel.hpp:104`).
    The model returns the negation of `operator==`.
- **Table rows read back only when cells are separable.** A row reads back as the object
  that wrote it exactly when no ` || ` can be read inside the detector name or the
  settings (`TableEntries.Separable`). A name ending in ` ||` is misread
  (`TableEntries.NameEndingInBarsMisreads`).

## Model

| member | source | states |
|---|---|---|
| ClusterLogReader.TextFileReader.Open | src/TextFileReader.hpp:79-127 | after opening, the stream stands at the first line with both flags clear; the line number and the pixel number are 1; the lines are those `getline` cuts from the text; the line count equals the number of those lines |
| ClusterLogReader.TextFileReader.CountLines | src/TextFileReader.hpp:116-121 | the prescan's count equals the number of lines `getline` reads from the text |
| LogLines.LineCount | src/TextFileReader.hpp:119-121 | the number of lines is the number of newlines, plus one when the text ends without a newline |
| LogLines.LineCountFrom | src/TextFileReader.hpp:119-121 | the same count for the lines from any position on |
| LogLines.LastLineHitsEnd | src/TextFileReader.hpp:119-121 | a line read runs to the end of the text (so `getline` sets end-of-file) exactly when it is the last line and the text has no final newline |
| ClusterLogReader.TextFileReader.NumberOfLines | src/TextFileReader.hpp:262-265 | the count returned is the number of lines of the log |
| ClusterLogReader.TextFileReader.EndOfStream | src/TextFileReader.hpp:163-172 | fails with the failure flag set when a flag was already set; otherwise answers whether the stream stands at the end, and sets the end-of-file flag exactly then |
| ClusterLogReader.TextFileReader.ReadLine | src/TextFileReader.hpp:351-354 | `getline` yields the next line, moves past it, and sets end-of-file when that line runs to the end of the text |
| ClusterLogReader.TextFileReader.ExtractSubstring | src/TextFileReader.hpp:312-331 | the token is the text from the start position up to the first space or the end, and the new position is that stop, whatever the delimiter |
| ClusterLogReader.TextFileReader.ReadMarkedLine | src/TextFileReader.hpp:401-421 | the opening shared by both parsers: fails when a flag was set; reports nothing at the end of the log; puts back a line without the mark, leaving the state as it was; otherwise returns the line and the index of its first mark, one line further on |
| ClusterLogReader.TextFileReader.ScanHeader | src/TextFileReader.hpp:367-379 | the two tokens read after the `(` are the header fields of the line |
| ClusterLogReader.TextFileReader.ScanCluster | src/TextFileReader.hpp:423-446 | the pixel read after the `[` is the line's cluster pixel |
| ClusterLogReader.TextFileReader.ParseMetadataString | src/TextFileReader.hpp:335-388 | on each path: fails when a flag was set; reports no header at the end of the log; puts back a line without `(`; otherwise stores both time tokens, advances the line number and changes no pixel |
| ClusterLogReader.TextFileReader.ParseClusterString | src/TextFileReader.hpp:391-461 | on each path: fails when a flag was set; reports no cluster at the end of the log; puts back a line without `[`; otherwise stores the line's pixel under the next pixel number and advances both counters; true only for a cluster line |
| ClusterLogReader.TextFileReader.EatLine | src/TextFileReader.hpp:294-309 | drops one line and advances the line number unless the stream is at its end; fails when a flag was set |
| ClusterLogReader.TextFileReader.StartFrame | src/TextFileReader.hpp:198-212 | the first line of a frame must be a header, or the read fails with that line's number; a header moves the reader on |
| ClusterLogReader.TextFileReader.ContinueFrame | src/TextFileReader.hpp:213-225 | a cluster line adds its pixel and the loop goes on; any other line is eaten and ends the frame with the frame read so far |
| ClusterLogReader.TextFileReader.GetFrame | src/TextFileReader.hpp:180-235 | the frame or error returned, and the reader's new state, are exactly those `ReadFrame` gives for the log and the old state |
| ClusterLogReader.ScanReadsFrame | src/TextFileReader.hpp:194-228 | running the read loop line by line from any state yields what `ReadFrame` states |
| ClusterLogReader.ScanClusters | src/TextFileReader.hpp:213-226 | scanning the cluster lines after a header, from any of them, ends as `ReadFrame` states |
| ClusterLogReader.ScanFrameEnds | src/TextFileReader.hpp:217-223 | inside a frame, a line that is not a cluster ends the frame and is consumed |
| ClusterLogReader.ScanPixelAdded | src/TextFileReader.hpp:449-455 | inside a frame, a cluster line adds its pixel under the next number and moves on one line |
| ClusterLogReader.ClusterRun | src/TextFileReader.hpp:213-225 | the run of cluster lines after a header: every line in it is a cluster line and the line after it is not |
| ClusterLogReader.Numbered | src/TextFileReader.hpp:449-452 | the pixels of n cluster lines are stored under exactly the keys 1..n |
| ClusterLogReader.NumberedAt | src/TextFileReader.hpp:449-452 | pixel k is the one read from the k-th cluster line |
| ClusterLogReader.FrameOf | src/TextFileReader.hpp:183-228 | a frame read from a header and n cluster lines holds exactly the keys 1..n |
| ClusterLogReader.MissingMetadataNamesLine | src/TextFileReader.hpp:198-209 | a read that fails for want of a header names the line where the read started, that line is not a header, and the reader stays at it |
| ClusterLogReader.FrameKeysDense | src/TextFileReader.hpp:183-228 | the keys of a frame read are exactly 1..N, N being the last pixel number the reader stored |
| ClusterLogReader.FramePixelFromLine | src/TextFileReader.hpp:446-452 | pixel k of a frame read is the one parsed from the k-th line after its header |
| ClusterLogReader.ReadFrameAdvances | src/TextFileReader.hpp:194-228 | a read never moves back or past the end of the log; a successful read consumes lines or reaches the end; end-of-file is only set at the end |
| LogLines.HeaderTokens | src/TextFileReader.hpp:356-379 | a line yields header fields exactly when it contains `(` |
| LogLines.ClusterTokens | src/TextFileReader.hpp:412-446 | a line yields three tokens exactly when it contains `[` |
| LogLines.ClusterPixel | src/TextFileReader.hpp:412-451 | a line yields a pixel exactly when it contains `[` |
| LogLines.HeaderOfFormat | src/TextFileReader.hpp:339-379 | a line of the documented header format yields its time and running-time texts |
| LogLines.HeaderExample | src/TextFileReader.hpp:341 | the documented header example yields "1335967757.2905033" and "0.1" |
| LogLines.ClusterFields | src/TextFileReader.hpp:430-446 | a line of the cluster format yields the tokens "X,", Y without its first character plus ",", and C without its first character plus "]" |
| LogLines.ClusterOfFormat | src/TextFileReader.hpp:423-451 | a cluster line written in decimal yields x, y with its leading digit dropped, and c with its leading digit dropped |
| LogLines.ClusterExample | src/TextFileReader.hpp:397 | the documented cluster example `[19, 0, 55]` yields (19, 0, 5) |
| LogLines.SingleDigitsExample | src/TextFileReader.hpp:437-446 | a line with single-digit fields `[3, 4, 2]` yields (3, 0, 0) |
| LogLines.OneDigitDropped | src/TextFileReader.hpp:437-446 | a one-digit y or c field reads as 0 |
| LogLines.TrailingField | src/TextFileReader.hpp:437-446 | a field read from its second digit on is the value modulo the power of ten below its length |
| LogLines.WholeField | src/TextFileReader.hpp:433-434 | the x field, read with its closing comma, is the value written |
| Numerals.AtoiAgrees | src/TextFileReader.hpp:434 | the character-by-character `atoi` agrees with its reference reading (spaces, sign, digit run) |
| Numerals.AtoiDecimal | src/Pixel.hpp:180-183 | `atoi` of a number's decimal text is the number |
| Numerals.NaturalTextValue | src/TableEntryGen.cpp:31-33 | the decimal text of a count has that count as its value |
| Numerals.NaturalTextOfDigits | src/TableEntryGen.cpp:31-33 | a digit string without leading zeros is the decimal text of its value |
| Pixels.XyDecodes | src/Pixel.hpp:142-146 | with x in 0..255 the linear index gives back x (remainder) and y (quotient) |
| Pixels.XyInjective | src/Pixel.hpp:142-146 | with x in 0..255, distinct positions have distinct linear indices |
| Pixels.Equals | src/Pixel.hpp:84-94 | field-by-field comparison holds exactly when the two pixels are equal |
| Pixels.NotEquals | src/Pixel.hpp:101-109 | holds exactly when the two pixels differ |
| Pixels.Swap | src/Pixel.hpp:161-168 | each pixel ends with the other's fields |
| Pixels.Assign | src/Pixel.hpp:72-77 | after copy-and-swap the target equals the source |
| Pixels.SplitRender | src/Pixel.hpp:176-184 | the rendering is four lines, labelled x, y, c and xy, each with its value in decimal |
| Pixels.RenderRoundTrip | src/Pixel.hpp:176-184 | the rendering of a pixel reads back as that pixel |
| Frames.Frame.constructor | src/Frame.hpp:36-39 | a new frame has no pixels and both times zero |
| Frames.Frame.FromParts | src/Frame.hpp:49-54 | the frame holds the pixels and the times given |
| Frames.Frame.Copy | src/Frame.hpp:61-66 | the copy holds the same pixels and times as the original |
| Frames.Frame.Assign | src/Frame.hpp:81-86 | the target receives the source's contents and the source the target's old contents |
| Frames.Frame.GetPixel | src/Frame.hpp:94-107 | a present key gives its pixel; an absent key gives the default pixel; the frame must hold a pixel |
| Frames.Frame.GetPixels | src/Frame.hpp:113-117 | the map returned has the frame's keys and pixels |
| Frames.Frame.GetTime | src/Frame.hpp:123-127 | returns the capture time |
| Frames.Frame.GetRunningTime | src/Frame.hpp:133-137 | returns the running time |
| Frames.Frame.SetPixel | src/Frame.hpp:146-150 | the pixel is stored at the key and every other key keeps its pixel |
| Frames.Frame.SetTime | src/Frame.hpp:157-161 | the capture time becomes the value given |
| Frames.Frame.SetRunningTime | src/Frame.hpp:168-172 | the running time becomes the value given |
| Frames.Swap | src/Frame.hpp:193-200 | the two frames exchange pixels and both times |
| Frames.SwapTwiceRestores | src/Frame.hpp:193-200 | swapping twice gives each frame its own contents back |
| Frames.Frame.RenderPixels | src/Frame.hpp:217-226 | the listing loop writes one entry per pixel, in ascending key order, as `PixelListing` states |
| Frames.SortedKeys | src/Frame.hpp:217-220 | the keys are enumerated in strictly ascending order, each key exactly once |
| Frames.SortedKeysUnique | src/Frame.hpp:217-220 | any strictly ascending enumeration of the keys is the map's iteration order |
| Frames.ListingStep | src/Frame.hpp:217-226 | the listing starts with the entry of the least key, followed by the listing of the rest |
| Frames.DenseListing | src/Frame.hpp:217-226 | a frame numbered 1..n, as the reader builds one, lists pixel 1, then 2, and so on up to n |
| TableEntries.EntryShape | src/TableEntryGen.cpp:27-37 | the row is the row start, the five cells in order with the cell separator between them, and one newline |
| TableEntries.ParseGenerate | src/TableEntryGen.cpp:27-37 | a separable object's row reads back as that object |
| TableEntries.GenerateParse | src/TableEntryGen.cpp:27-37 | any text that reads as a row is exactly the row of the object read |
| TableEntries.GenerateInjective | src/TableEntryGen.cpp:27-37 | two separable objects that write the same row are equal |
| TableEntries.NameEndingInBarsMisreads | src/TableEntryGen.cpp:30 | a detector name ending in a space and two bars makes the row read back as a different object |
| TableEntries.CountCell | src/TableEntryGen.cpp:31-33 | a count's cell reads back as the count |

The functions that the rows above state properties about model these source lines:
`ClusterLogReader.ReadFrame` models one call of `getFrame` (src/TextFileReader.hpp:180-235);
`ClusterLogReader.Scan` models that call's loop, one line per step (src/TextFileReader.hpp:194-226);
`Pixels.Xy` models `xy` (src/Pixel.hpp:142-146);
`Pixels.Render` models the pixel's `operator<<` (src/Pixel.hpp:176-184);
`Frames.PixelListing` models the pixel loop of the frame's `operator<<` (src/Frame.hpp:217-226);
`TableEntries.GenerateEntry` models `generateEntry` (src/TableEntryGen.cpp:27-37);
`Numerals.Atoi` models the C library's `atoi`, called at src/TextFileReader.hpp:434, 440 and 446.

## Left out

- The file-system checks of `open` are not modelled (src/TextFileReader.hpp:81-95). These are existence, regular file and non-empty, plus the file size, the detector name and the settings taken from the path. The model starts from the log's text, with the checks passed.
- `std::exit` on a bad path, `close`, the destructor and the getters `detectorName`, `settings` and `size` are left out. They only hand back what the file system gave.
- The messages written to `std::cerr` are left out. Exceptions are results: `Failure(MissingMetadata(line))` and `Failure(StreamFailure)`.
- Stream positions from `tellg`/`seekg` are byte offsets in the source and counts of whole lines in the model. Every position the reader saves or restores is the start of a line, and the lines are cut once, when the log is opened.
- Times are not parsed. `atof` turns a token into a `double`; the model keeps the token text (`Frames.Seconds`), so floating-point rounding is not modelled.
- ClusterLogReader.TextFileReader.ParseClusterString: `atoi` is modelled on unbounded integers, so it does not model the undefined behaviour of a value beyond `int`. The `T` of `Pixel<T>` and `Frame<T>` is taken to be `int`.
- ClusterLogReader.TextFileReader.GetFrame: `lineNumber_`, `currentPixelNumber_` and `numberOfLines_` are `unsigned int` in the source and `nat` in the model. Wrap-around after 2^32 lines is not modelled.
- Pixels.Xy: `256 * y_ + x_` can overflow `int`; the model computes it on unbounded integers.
- Pixels.Swap and Pixels.Assign work on values: the in-place exchange through references and the aliasing of `swap(p, p)` are not modelled. Pixels are held by value throughout the reader and frames.
- Frames.Frame.RenderPixels: only the pixel listing of `operator<<` is modelled. The two metadata lines (src/Frame.hpp:214-215) print `double`s, which the model does not interpret.
- The non-copyable copy constructor and assignment of `TextFileReader` and `TableEntryGen` are left out: they have no effect.
- The command-line driver (`src/Main.cpp`) is not part of this model.
- TableEntries.ParseGenerate: the row is proved to read back only for separable objects. A name or settings text containing the cell separator cannot be told apart, and `TableEntries.NameEndingInBarsMisreads` shows one.
