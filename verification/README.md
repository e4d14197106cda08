# THS request processing, modelled in Dafny

THS (Tiny HTTP Server) answers one HTTP/1.0 `GET` per connection. Each
connection goes to a `RequestProcessor`, which does the following:

- reads the request line;
- cuts the path out of a fixed window of that line, trims it and URL-decodes it;
- rejects malformed lines with 400 and unsafe paths with 403;
- redirects directory paths that lack a trailing slash with 301;
- serves an index file, a generated directory listing or a plain file;
- answers 404 when nothing matches;
- finally closes the socket.

The repository holds two versions of this class:

- `src/main/java/de/wpsverlinden/ths/RequestProcessor.java`, the current one;
- `THS/src/de/wpsverlinden/ths/RequestProcessor.java`, an older one.

They differ in observable ways. This project models both, side by side, and
proves what each one does and where the two agree or differ.

The modules:

- `JavaStrings` gives the Java `String` operations the processor relies on:
  `startsWith`, `endsWith`, `contains`, `indexOf`, `trim`, and the decimal
  rendering of integers. Each comes with its defining properties and round
  trips.
- `Wire` is the CR LF framing of a header block, plus a header reader. The
  reader is the partner of the writer: it recovers the header fields and the
  body from what the server sends.
- `Platform` is the abstract world:
  - a filesystem snapshot `map<path, Node>`, with four kinds of node
    (missing, regular file, directory, special);
  - the collaborators the processor calls but this model does not define:
    URL decoding, MIME lookup, `File.getPath`, `DecimalFormat`, host name,
    address, port and date.
- `SizeUnits` is the B/KB/MB/GB scaling of the listing's size column.
- `RequestLine` holds the code that is identical in both versions:
  - the path window `substring(4, length - 9).trim()`, and the decoding step;
  - `validRequestFormat`;
  - the index-file lookup. It tries `path + "index.html"`, then
    `path + "index.htm"`, without the "." prefix the target itself gets.
- `Exchange` is the vocabulary of one request:
  - what was read;
  - the outcome of the decision;
  - the response written;
  - whether an exception left `processRequest`.
- `Pages` holds the text both versions write:
  - the six-field header block;
  - the 301 header;
  - the error page;
  - the frame and rows of the directory index.
- `MainProcessor` is the src/main version. Its behaviour:
  - `try`/`finally` closes the socket on every path.
  - When an index file is found, nothing is written at all.
  - Any existing non-directory, special files included, is sent with 200.
  - A file that cannot be opened still gets its 200 header, then no bytes.
  - A null directory listing throws.
  - Every generated page is announced as `text/html ` (with a trailing space).
- `ThsProcessor` is the THS/src version. Its behaviour:
  - The socket is closed only when `processRequest` returns normally.
  - A found index file is sent.
  - Only regular files are sent; anything else is 404.
  - The file is opened before the header is written, so an unreadable file
    throws and nothing is written.
  - A null listing gives an empty index.
  - The listing and the 404 page are announced as `text/html`, while 400 and
    403 keep the trailing space.
- `Versions` relates the two:
  - both admit, reject and redirect exactly the same requests;
  - they differ on found index files, special files, null listings and the
    kind shown for entries that are neither files nor directories.

`processRequest` is split into two layers:

- `Decide` performs the parse and the two checks.
- `Classify` answers an admitted path from the filesystem.
- `AdmittedClassified` ties them together: an admitted request's outcome is
  the classification of its decoded path, and any other request ends in 400,
  403 or a runtime exception.

`Respond` turns an outcome into the response that is written, `Process` adds
the exceptions, and `Serve` models `run`, including which paths close the
socket.

## Model

| member | source | states |
|---|---|---|
| JavaStrings.Contains | src/main/java/de/wpsverlinden/ths/RequestProcessor.java:225 | `contains` holds exactly when the needle occurs at some index |
| JavaStrings.IndexOf | THS/src/de/wpsverlinden/ths/RequestProcessor.java:231 | `indexOf` is -1 exactly when the needle never occurs; otherwise it is an occurrence with no earlier one |
| JavaStrings.ContainsIsIndexOf | THS/src/de/wpsverlinden/ths/RequestProcessor.java:231 | `contains(t)` holds exactly when `indexOf(t) != -1` |
| JavaStrings.Trim | src/main/java/de/wpsverlinden/ths/RequestProcessor.java:79 | the result has no leading or trailing character `<= ' '`, and is the input with only such characters removed from both ends |
| JavaStrings.TrimPadded | src/main/java/de/wpsverlinden/ths/RequestProcessor.java:79 | trimming blanks + a trimmed string + blanks gives back exactly that string |
| JavaStrings.TrimIdempotent | src/main/java/de/wpsverlinden/ths/RequestProcessor.java:79 | trimming twice is the same as trimming once |
| JavaStrings.Decimal | src/main/java/de/wpsverlinden/ths/RequestProcessor.java:165-167 | the decimal rendering of a number is a non-empty digit string with no leading zero except for 0 itself |
| JavaStrings.DecimalRoundTrip | src/main/java/de/wpsverlinden/ths/RequestProcessor.java:167 | parsing the rendered digits gives back the number |
| Wire.ReadHeader | src/main/java/de/wpsverlinden/ths/RequestProcessor.java:164-173 | a header it accepts is the framing of the lines it returns, each free of CR, followed by the rest |
| Wire.FrameRoundTrip | src/main/java/de/wpsverlinden/ths/RequestProcessor.java:164-173 | reading a framed header of CR-free non-empty lines recovers those lines and the body after the empty line |
| SizeUnits.Scale | src/main/java/de/wpsverlinden/ths/RequestProcessor.java:194-207 | the three conditional divisions reach B up to 1024 bytes, KB up to 1024², MB up to 1024³ and GB beyond, and, on exact reals, the value shown times the unit's size is the length |
| RequestLine.RawPath | src/main/java/de/wpsverlinden/ths/RequestProcessor.java:79 | the window exists exactly for lines of at least 13 characters (shorter ones throw); the result is trimmed, and it is what remains of the characters between `GET ` and the last nine once blanks are removed from both ends |
| RequestLine.ParseRequest | src/main/java/de/wpsverlinden/ths/RequestProcessor.java:79-80 | a request is produced exactly when the window exists and its decoding succeeds; it keeps the line, its raw path is the trimmed window, and its path is the decoding of that raw path |
| RequestLine.ClientLineRoundTrip | src/main/java/de/wpsverlinden/ths/RequestProcessor.java:228-231 | for `GET <path> HTTP/1.x` with a trimmed path, the window recovers the path, and the format test accepts the line exactly when the path is non-empty |
| RequestLine.ValidFormatHasWindow | src/main/java/de/wpsverlinden/ths/RequestProcessor.java:228-231 | every line the format test accepts is long enough to have a path window |
| RequestLine.FirstIndex | src/main/java/de/wpsverlinden/ths/RequestProcessor.java:96-103 | the loop with `break` finds the first candidate that is a regular file, or none when no candidate is |
| RequestLine.FindIndex | THS/src/de/wpsverlinden/ths/RequestProcessor.java:129-140 | `path + "index.html"` wins when it is a regular file, then `path + "index.htm"`, otherwise there is no index |
| Pages.HeaderBlockReadsBack | src/main/java/de/wpsverlinden/ths/RequestProcessor.java:164-173 | a client reads back the six fields in order (status, Content-Type, Content-Length, Connection, Date, Server) and then the body |
| Pages.PageResponseReadsBack | src/main/java/de/wpsverlinden/ths/RequestProcessor.java:119-125 | a generated page is written as its header block, announcing the page's length, followed by exactly the page |
| Pages.ContentLengthReadsBack | src/main/java/de/wpsverlinden/ths/RequestProcessor.java:167 | the third field starts with `Content-Length: ` and its value parses back to the announced length |
| Pages.PageReads | src/main/java/de/wpsverlinden/ths/RequestProcessor.java:164-173 | a client reading a generated page finds six fields, the given status line first and the given Content-Type second, a Content-Length that parses back to the page's length, and then exactly the page |
| Pages.RedirectReadsBack | src/main/java/de/wpsverlinden/ths/RequestProcessor.java:135-142 | the 301 header has exactly two fields, the Location naming the server's own address, the port and the path plus "/", and no body |
| Pages.ErrorPage | src/main/java/de/wpsverlinden/ths/RequestProcessor.java:233-238 | the error page's length in terms of its parts, and its closing `</BODY></HTML>` line |
| Pages.DirRowOneLine | src/main/java/de/wpsverlinden/ths/RequestProcessor.java:210 | a directory row is exactly one line |
| Pages.FileRowOneLine | src/main/java/de/wpsverlinden/ths/RequestProcessor.java:208 | a file row is exactly one line when the name, size and unit hold no line feed |
| Pages.RowsLineCount | src/main/java/de/wpsverlinden/ths/RequestProcessor.java:192-212 | when each row is one line, the rows have one line per entry |
| Pages.RowsAppend | src/main/java/de/wpsverlinden/ths/RequestProcessor.java:192-212 | appending rows in listing order: the rows of a concatenated listing are the concatenated rows |
| Pages.AppendRows | src/main/java/de/wpsverlinden/ths/RequestProcessor.java:192-212 | the loop that appends one row per entry, in listing order, builds exactly the rows of the whole listing |
| Pages.IndexHeadLines | src/main/java/de/wpsverlinden/ths/RequestProcessor.java:187-189 | the part before the rows is two lines (title line, column heads) |
| Pages.IndexFootLines | src/main/java/de/wpsverlinden/ths/RequestProcessor.java:213 | the address line after the rows has no line feed |
| Pages.DirIndexPageLines | src/main/java/de/wpsverlinden/ths/RequestProcessor.java:186-215 | the index page has the two heading lines plus the lines of its rows |
| MainProcessor.ValidRequestDstChars | src/main/java/de/wpsverlinden/ths/RequestProcessor.java:224-226 | a path is accepted exactly when it has no two consecutive dots, no `/.ht`, and its last character is not `~` |
| MainProcessor.Row | src/main/java/de/wpsverlinden/ths/RequestProcessor.java:193-211 | a row starts `[File]` exactly for regular files and `[Dir]` for everything else, and ends with the entry's link and a line feed |
| MainProcessor.Classify | src/main/java/de/wpsverlinden/ths/RequestProcessor.java:88-116 | past the two checks the outcome is never 400 or 403, and never a failure to open a file |
| MainProcessor.Respond | src/main/java/de/wpsverlinden/ths/RequestProcessor.java:119-162 | nothing is written exactly for the throwing outcome and for a found index file |
| MainProcessor.Process | src/main/java/de/wpsverlinden/ths/RequestProcessor.java:78-117 | an exception leaves `processRequest` exactly when the decision throws, and it is never an IOException, apart from a failed write, which `Serve` models |
| MainProcessor.Serve | src/main/java/de/wpsverlinden/ths/RequestProcessor.java:56-76 | the socket is closed on every path; a response is sent exactly when a line was read, the processing completed with something to write and the write did not fail; only runtime exceptions escape |
| MainProcessor.ShortLineThrows | src/main/java/de/wpsverlinden/ths/RequestProcessor.java:79 | a line shorter than 13 characters throws before anything is written |
| MainProcessor.BadRequestFirst | src/main/java/de/wpsverlinden/ths/RequestProcessor.java:84-85 | 400 exactly for parseable lines that fail the format test |
| MainProcessor.ForbiddenWhateverFs | src/main/java/de/wpsverlinden/ths/RequestProcessor.java:86-87 | 403 exactly for well-formed lines whose decoded path fails the destination test, for every filesystem |
| MainProcessor.AdmittedClassified | src/main/java/de/wpsverlinden/ths/RequestProcessor.java:84-90 | a request that is not admitted ends in 400, 403 or an exception; an admitted one is answered by classifying its path |
| MainProcessor.RedirectIff | src/main/java/de/wpsverlinden/ths/RequestProcessor.java:88-89 | 301 to q exactly when the path is q, a directory, without a trailing slash |
| MainProcessor.NotFoundIff | src/main/java/de/wpsverlinden/ths/RequestProcessor.java:90-116 | 404 exactly when the target does not exist |
| MainProcessor.SendFileIff | src/main/java/de/wpsverlinden/ths/RequestProcessor.java:90-112 | a file is sent exactly when the target exists and is not a directory, special files included |
| MainProcessor.IndexFoundIff | src/main/java/de/wpsverlinden/ths/RequestProcessor.java:91-103 | the index outcome exactly for a directory path with a trailing slash whose lookup finds that index file |
| MainProcessor.IndexFoundWritesNothing | src/main/java/de/wpsverlinden/ths/RequestProcessor.java:91-108 | processing completes without writing anything exactly when an index file was found |
| MainProcessor.ListingIff | src/main/java/de/wpsverlinden/ths/RequestProcessor.java:91-108 | the directory is listed with entries es exactly when the path names a directory, ends in `/`, no index file is found, and the listing is es |
| MainProcessor.ClassifyThrowsIff | src/main/java/de/wpsverlinden/ths/RequestProcessor.java:91-108 | classifying throws exactly when the path names a directory, ends in `/`, no index file is found, and the listing is null |
| MainProcessor.BadRequestPage | src/main/java/de/wpsverlinden/ths/RequestProcessor.java:154-173 | the 400 response is written; a client reads status `HTTP/1.0 400 Bad Request`, Content-Type `text/html ` with the trailing space, a length matching the page, and then the 400 error page |
| MainProcessor.ForbiddenPage | src/main/java/de/wpsverlinden/ths/RequestProcessor.java:144-152 | the 403 response is written; a client reads status `HTTP/1.0 403 Forbidden`, Content-Type `text/html `, a length matching the page, and then the 403 error page |
| MainProcessor.NotFoundPage | src/main/java/de/wpsverlinden/ths/RequestProcessor.java:119-125 | the 404 response is written; a client reads status `HTTP/1.0 404 Not Found`, Content-Type `text/html `, a length matching the page, and then the 404 error page |
| MainProcessor.ListingPage | src/main/java/de/wpsverlinden/ths/RequestProcessor.java:127-133 | the listing response is written; a client reads status `HTTP/1.0 200 OK`, Content-Type `text/html `, a length matching the page, and then the directory index of the entries |
| MainProcessor.RedirectResponse | src/main/java/de/wpsverlinden/ths/RequestProcessor.java:135-142 | the 301 response reads back as its status line and Location, with no body |
| MainProcessor.FileResponse | src/main/java/de/wpsverlinden/ths/RequestProcessor.java:217-222 | a file response announces the MIME type and the length and then streams the bytes; an unopenable file leaves the header alone |
| MainProcessor.RowIsOneLine | src/main/java/de/wpsverlinden/ths/RequestProcessor.java:193-211 | each listing row is one line |
| MainProcessor.DirIndexLines | src/main/java/de/wpsverlinden/ths/RequestProcessor.java:186-215 | the generated index has one line per entry plus two |
| ThsProcessor.Row | THS/src/de/wpsverlinden/ths/RequestProcessor.java:204-208 | a row starts `[Dir]` exactly for directories and `[File]` for everything else, and ends with the entry's link and a line feed |
| ThsProcessor.FileOutcome | THS/src/de/wpsverlinden/ths/RequestProcessor.java:161-179 | 404 exactly when the node is not a regular file; otherwise the file is sent or fails to open |
| ThsProcessor.Classify | THS/src/de/wpsverlinden/ths/RequestProcessor.java:115-179 | past the two early returns the outcome is never 400, 403, a runtime exception, or an index file left unanswered |
| ThsProcessor.Respond | THS/src/de/wpsverlinden/ths/RequestProcessor.java:79-179 | nothing is written exactly for the throwing outcomes and for a found index file, an outcome THS never produces (see `CompletedWrites`) |
| ThsProcessor.Process | THS/src/de/wpsverlinden/ths/RequestProcessor.java:71-180 | an IOException leaves exactly when the file fails to open, apart from a failed write, which `Serve` models; a runtime exception leaves exactly when the decision throws |
| ThsProcessor.CompletedWrites | THS/src/de/wpsverlinden/ths/RequestProcessor.java:79-179 | every normal return of `processRequest` has written a response; no request is left unanswered |
| ThsProcessor.Serve | THS/src/de/wpsverlinden/ths/RequestProcessor.java:51-69 | the socket is closed exactly when a line was read, processing completed and no write failed; a response is sent exactly when the write succeeded |
| ThsProcessor.BadRequestFirst | THS/src/de/wpsverlinden/ths/RequestProcessor.java:79-95 | 400 exactly for parseable lines that fail the format test |
| ThsProcessor.ForbiddenWhateverFs | THS/src/de/wpsverlinden/ths/RequestProcessor.java:97-113 | 403 exactly for well-formed lines with an unsafe decoded path, for every filesystem |
| ThsProcessor.AdmittedClassified | THS/src/de/wpsverlinden/ths/RequestProcessor.java:79-115 | a request that is not admitted ends in 400, 403 or an exception; an admitted one is answered by classifying its path |
| ThsProcessor.RedirectIff | THS/src/de/wpsverlinden/ths/RequestProcessor.java:115-126 | 301 to q exactly when the path is q, a directory, without a trailing slash |
| ThsProcessor.SendFileIff | THS/src/de/wpsverlinden/ths/RequestProcessor.java:128-166 | the file f is sent exactly when f is the requested target (not a directory) or the index file found for a directory path ending in `/`, and f is a readable regular file |
| ThsProcessor.OpenFailedIff | THS/src/de/wpsverlinden/ths/RequestProcessor.java:128-166 | opening f fails exactly when f is the requested file in the same sense and is a regular file that cannot be read |
| ThsProcessor.ListingIff | THS/src/de/wpsverlinden/ths/RequestProcessor.java:128-158 | the directory is listed with entries es exactly when the path names a directory, ends in `/`, no index file is found, and es is the listing, or empty when the listing is null |
| ThsProcessor.NotFoundIff | THS/src/de/wpsverlinden/ths/RequestProcessor.java:161-179 | 404 exactly when the target is neither a directory nor a regular file |
| ThsProcessor.SentFilesAreRegular | THS/src/de/wpsverlinden/ths/RequestProcessor.java:161-164 | whatever is sent as a file is a readable regular file |
| ThsProcessor.BadRequestPage | THS/src/de/wpsverlinden/ths/RequestProcessor.java:79-95 | the 400 response is written; a client reads status `HTTP/1.0 400 Bad Request`, Content-Type `text/html ` with the trailing space, a length matching the page, and then the 400 error page |
| ThsProcessor.ForbiddenPage | THS/src/de/wpsverlinden/ths/RequestProcessor.java:97-113 | the 403 response is written; a client reads status `HTTP/1.0 403 Forbidden`, Content-Type `text/html `, a length matching the page, and then the 403 error page |
| ThsProcessor.NotFoundPage | THS/src/de/wpsverlinden/ths/RequestProcessor.java:165-179 | the 404 response is written; a client reads status `HTTP/1.0 404 Not Found`, Content-Type `text/html` without the space, a length matching the page, and then the 404 error page |
| ThsProcessor.ListingPage | THS/src/de/wpsverlinden/ths/RequestProcessor.java:142-158 | the listing response is written; a client reads status `HTTP/1.0 200 OK`, Content-Type `text/html`, a length matching the page, and then the directory index of the entries |
| ThsProcessor.FileResponse | THS/src/de/wpsverlinden/ths/RequestProcessor.java:215-228 | a file response announces the MIME type and the length and then streams the file's bytes |
| ThsProcessor.RedirectResponse | THS/src/de/wpsverlinden/ths/RequestProcessor.java:115-126 | the 301 response reads back as its status line and Location, followed by the empty response string |
| ThsProcessor.RowIsOneLine | THS/src/de/wpsverlinden/ths/RequestProcessor.java:204-208 | each listing row is one line |
| ThsProcessor.DirIndexLines | THS/src/de/wpsverlinden/ths/RequestProcessor.java:182-213 | the generated index has one line per listed entry plus two, and a null listing gives two |
| Versions.DestinationChecksAgree | THS/src/de/wpsverlinden/ths/RequestProcessor.java:230-232 | the `indexOf` check accepts exactly the paths the `contains` check of src/main accepts |
| Versions.AdmittedAgree | THS/src/de/wpsverlinden/ths/RequestProcessor.java:79-113 | both versions admit the same requests |
| Versions.RejectionsAgree | THS/src/de/wpsverlinden/ths/RequestProcessor.java:79-113 | both answer 400 to the same lines and 403 to the same lines, and both throw on lines without a decodable path |
| Versions.RedirectsAgree | THS/src/de/wpsverlinden/ths/RequestProcessor.java:115-126 | both redirect exactly the same requests to the same place |
| Versions.IndexFileDiffers | THS/src/de/wpsverlinden/ths/RequestProcessor.java:128-163 | for a directory path with a readable index file, src/main writes nothing, while THS sends the index file's bytes |
| Versions.SpecialFileDiffers | THS/src/de/wpsverlinden/ths/RequestProcessor.java:161-179 | for a special file, src/main sends it, while THS answers 404 |
| Versions.NullListingDiffers | THS/src/de/wpsverlinden/ths/RequestProcessor.java:186-188 | for a null listing, src/main throws, while THS lists no entries |
| Versions.RowKindsDiffer | THS/src/de/wpsverlinden/ths/RequestProcessor.java:204-208 | the versions label an entry differently exactly when it is neither a regular file nor a directory |

## Left out

- The accept loop, thread handling, server start and shutdown
  (`HttpServer`, `ths`, `Ths`) are not part of this model. Only one
  connection's `run` is modelled.
- The byte copying of `sendRawFile` (the `available`/`read` loop) is not
  modelled. A sent file is represented by its path (`FileBytes`), and only
  whether it can be opened is modelled.
- The number formatting is a parameter of the model. `DecimalFormat("#0.00")`
  is `formatSize`.
- SizeUnits.Scale: the double arithmetic of the size column is modelled on
  exact reals. The source first converts the `long` length to `double`,
  which rounds lengths above 2^53. For those lengths, "the value shown
  times the unit's size is the length" holds only up to that rounding.
  Dividing by 1024 adds no further error. The unit chosen is unaffected,
  because every threshold lies far below 2^53.
- These are opaque parameters: `URLDecoder.decode` (a failure stands for
  its `IllegalArgumentException`), the MIME map, `File.getPath`, `new Date()`,
  and the local host name, address and port.
- Logging and console output are left out: they have no effect on what is
  written to the client.
- Strings are sequences of characters, and `Content-Length` is the page's
  character count. Java's `length()` counts UTF-16 units, and `getBytes()`
  encodes with the platform charset. Neither is modelled.
- The filesystem is one snapshot. Changes between the `isDirectory`,
  `exists`, `listFiles` and open calls are not modelled.
- `Serve` models an IOException while writing as one flag. When it is set,
  nothing counts as sent. A failure part-way through a response, and its
  partial output, are not modelled. So are a failure of `flush` after a
  partial write and an exception from `close()` itself.
- The modelled exceptions are these: a failed `substring`, a failed decode,
  a null directory listing in src/main, and a file that fails to open in
  THS. Other exceptions are not modelled, for example an error raised
  inside a collaborator such as a MIME lookup that throws.
