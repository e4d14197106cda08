/**
 Response text shared by both versions: the status line and header block,
 the 301 header, the error page and the frame of the directory index.
 */
module Pages {
  import opened Wrappers
  import opened Exchange
  import opened JavaStrings
  import opened Wire
  import opened Platform

  const ServerName := "ths - Tiny HTTP Server"

  const BadRequestMessage := "Your browser sent a request that this server could not understand."
  const ForbiddenMessage := "You don't have permission to access the requested URL."
  const NotFoundMessage := "The requested URL was not found on this server."

  /** "HTTP/1.0 " + code + " " + reason: the Status-Line of section 6.1 of RFC 1945. */
  function StatusLine(code: nat, reason: string): string {
    "HTTP/1.0 " + Decimal(code) + " " + reason
  }

  const ContentLengthName := "Content-Length: "

  /** The header fields of every full response, in the order they are written. */
  function HeaderFields(status: string, contentType: string, length: nat, date: string): seq<string> {
    [status,
     "Content-Type: " + contentType,
     ContentLengthName + Decimal(length),
     "Connection: close",
     "Date: " + date,
     "Server: " + ServerName]
  }

  /** The header block of every full response: the fields, each ended by CR LF, then an empty line. */
  function HeaderBlock(status: string, contentType: string, length: nat, date: string): string {
    Frame(HeaderFields(status, contentType, length, date))
  }

  predicate NoCr(s: string) {
    '\r' !in s
  }

  lemma DecimalHasNoCr(n: nat)
    ensures NoCr(Decimal(n))
  {
  }

  /**
   A client reading a full response gets the six fields in this order:
   status line, Content-Type, Content-Length, Connection, Date, Server; the
   body starts right after the empty line.
   */
  lemma HeaderBlockReadsBack(code: nat, reason: string, contentType: string, length: nat, date: string, body: string)
    requires NoCr(reason) && NoCr(contentType) && NoCr(date)
    ensures ReadHeader(HeaderBlock(StatusLine(code, reason), contentType, length, date) + body)
            == Some((HeaderFields(StatusLine(code, reason), contentType, length, date), body))
  {
    DecimalHasNoCr(code);
    DecimalHasNoCr(length);
    var fields := HeaderFields(StatusLine(code, reason), contentType, length, date);
    assert forall i :: 0 <= i < |fields| ==> FieldLine(fields[i]);
    FrameRoundTrip(fields, body);
  }

  /** A generated page: the full header block announcing the page's length, then the page. */
  function PageResponse(code: nat, reason: string, contentType: string, page: string, date: string): Response {
    Response(HeaderBlock(StatusLine(code, reason), contentType, |page|, date), Text(page))
  }

  /**
   A client reading a generated page gets the six header fields in order,
   with a Content-Length equal to the page's character count, and then
   exactly the page.
   */
  lemma PageResponseReadsBack(code: nat, reason: string, contentType: string, page: string, date: string)
    requires NoCr(reason) && NoCr(contentType) && NoCr(date)
    ensures PageResponse(code, reason, contentType, page, date).body == Text(page)
    ensures ReadHeader(PageResponse(code, reason, contentType, page, date).head + page)
            == Some((HeaderFields(StatusLine(code, reason), contentType, |page|, date), page))
  {
    HeaderBlockReadsBack(code, reason, contentType, |page|, date, page);
  }

  /** The Content-Length field carries `length`: a client parsing its value reads back the same number. */
  lemma ContentLengthReadsBack(status: string, contentType: string, length: nat, date: string)
    ensures StartsWith(HeaderFields(status, contentType, length, date)[2], ContentLengthName)
    ensures ParseDecimal(HeaderFields(status, contentType, length, date)[2][|ContentLengthName|..]) == length
  {
    var field := HeaderFields(status, contentType, length, date)[2];
    assert field[|ContentLengthName|..] == Decimal(length);
    DecimalRoundTrip(length);
  }

  /**
   What a client reading response `r` sees: six header fields, the first
   the status line, the second announcing `contentType`, the third a
   Content-Length whose value is the page's length; then exactly the page.
   */
  predicate ReadsAsPage(r: Response, status: string, contentType: string, page: string) {
    r.body == Text(page)
    && match ReadHeader(r.head + page)
       case None => false
       case Some(read) =>
         var fields := read.0;
         |fields| == 6 && fields[0] == status && fields[1] == "Content-Type: " + contentType
         && StartsWith(fields[2], ContentLengthName)
         && ParseDecimal(fields[2][|ContentLengthName|..]) == |page|
         && read.1 == page
  }

  /** Every generated page reads back as its status, its content type, its length and itself. */
  lemma PageReads(code: nat, reason: string, contentType: string, page: string, date: string)
    requires NoCr(reason) && NoCr(contentType) && NoCr(date)
    ensures ReadsAsPage(PageResponse(code, reason, contentType, page, date), StatusLine(code, reason), contentType, page)
  {
    PageResponseReadsBack(code, reason, contentType, page, date);
    ContentLengthReadsBack(StatusLine(code, reason), contentType, |page|, date);
  }

  /** The header of the 301 response: status line, Location, and nothing else. */
  function RedirectHead(address: string, port: nat, path: string): string {
    Frame(["HTTP/1.0 301 Moved Permanently",
           "Location: http://" + address + ":" + Decimal(port) + path + "/"])
  }

  /**
   A client reading the 301 response sees exactly two fields, the second a
   Location naming the server's own address and port and the path with a
   slash appended, and no body.
   */
  lemma RedirectReadsBack(address: string, port: nat, path: string)
    requires NoCr(address) && NoCr(path)
    ensures ReadHeader(RedirectHead(address, port, path)) ==
            Some((["HTTP/1.0 301 Moved Permanently",
                   "Location: http://" + address + ":" + Decimal(port) + path + "/"], ""))
  {
    DecimalHasNoCr(port);
    var lines := ["HTTP/1.0 301 Moved Permanently",
                  "Location: http://" + address + ":" + Decimal(port) + path + "/"];
    assert forall i :: 0 <= i < |lines| ==> FieldLine(lines[i]);
    FrameRoundTrip(lines, "");
    assert RedirectHead(address, port, path) + "" == RedirectHead(address, port, path);
  }

  /** generateErrorResponse: the HTML error page (identical in both versions). */
  function ErrorPage(code: string, title: string, msg: string, host: string, port: nat): (page: string)
    ensures |page| == 128 + |code| + 2 * |title| + |msg| + |host| + |Decimal(port)|
    ensures EndsWith(page, "</BODY></HTML>\r\n")
  {
    "<HTML><TITLE>" + code + " " + title + "</TITLE>\r\n"
    + "</HEAD><BODY>\r\n" + "<H1>" + title + "</H1>\r\n" + msg + "<P>\r\n"
    + "<HR><ADDRESS>" + ServerName + " at " + host + " Port "
    + Decimal(port) + "</ADDRESS>\r\n" + "</BODY></HTML>\r\n"
  }

  /** The anchor of one directory entry. */
  function Link(name: string): string {
    "<a href=\"" + name + "\">" + name + "</a>"
  }

  /** A listing row of a directory: no size. */
  function DirRow(name: string): string {
    "[Dir]\t --- \t\t" + Link(name) + "\n"
  }

  /** A listing row of a file: the formatted size and its unit. */
  function FileRow(name: string, size: string, unit: string): string {
    "[File]\t" + size + "\t" + unit + "\t" + Link(name) + "\n"
  }

  /** The rows of a listing, one per entry, in listing order. */
  function Rows(entries: seq<Entry>, row: Entry -> string): string {
    if entries == [] then "" else row(entries[0]) + Rows(entries[1..], row)
  }

  /** The number of line feeds in a string. */
  function NewlineCount(s: string): nat {
    if s == [] then 0 else NewlineCount(s[..|s| - 1]) + (if s[|s| - 1] == '\n' then 1 else 0)
  }

  lemma {:induction false} NewlineCountAppend(a: string, b: string)
    ensures NewlineCount(a + b) == NewlineCount(a) + NewlineCount(b)
    decreases |b|
  {
    if b != [] {
      assert (a + b)[..|a + b| - 1] == a + b[..|b| - 1];
      NewlineCountAppend(a, b[..|b| - 1]);
    } else {
      assert a + b == a;
    }
  }

  lemma {:induction false} NoNewlineCount(s: string)
    requires '\n' !in s
    ensures NewlineCount(s) == 0
    decreases |s|
  {
    if s != [] {
      assert '\n' !in s[..|s| - 1];
      NoNewlineCount(s[..|s| - 1]);
    }
  }

  /** A string without line feeds, then one line feed, is one line. */
  lemma OneLine(a: string)
    requires '\n' !in a
    ensures NewlineCount(a + "\n") == 1
  {
    NewlineCountAppend(a, "\n");
    NoNewlineCount(a);
    var nl := "\n";
    assert NewlineCount(nl) == NewlineCount(nl[..0]) + 1;
  }

  lemma LinkHasNoNewline(name: string)
    requires '\n' !in name
    ensures '\n' !in Link(name)
  {
  }

  lemma DirRowOneLine(name: string)
    requires '\n' !in name
    ensures NewlineCount(DirRow(name)) == 1
  {
    LinkHasNoNewline(name);
    var a := "[Dir]\t --- \t\t" + Link(name);
    assert DirRow(name) == a + "\n";
    OneLine(a);
  }

  lemma FileRowOneLine(name: string, size: string, unit: string)
    requires '\n' !in name && '\n' !in size && '\n' !in unit
    ensures NewlineCount(FileRow(name, size, unit)) == 1
  {
    LinkHasNoNewline(name);
    var a := "[File]\t" + size + "\t" + unit + "\t" + Link(name);
    assert FileRow(name, size, unit) == a + "\n";
    OneLine(a);
  }

  /** When every row is one line, the listing has exactly one line per entry. */
  lemma {:induction false} RowsLineCount(entries: seq<Entry>, row: Entry -> string)
    requires forall i :: 0 <= i < |entries| ==> NewlineCount(row(entries[i])) == 1
    ensures NewlineCount(Rows(entries, row)) == |entries|
  {
    if entries != [] {
      RowsLineCount(entries[1..], row);
      NewlineCountAppend(row(entries[0]), Rows(entries[1..], row));
    }
  }

  /** Rows of a concatenated listing are the concatenated rows. */
  lemma {:induction false} RowsAppend(a: seq<Entry>, b: seq<Entry>, row: Entry -> string)
    ensures Rows(a + b, row) == Rows(a, row) + Rows(b, row)
  {
    if a != [] {
      assert (a + b)[1..] == a[1..] + b;
      RowsAppend(a[1..], b, row);
    } else {
      assert a + b == b;
    }
  }

  /**
   The `dirIndex +=` loop of generateDirIndex: appending one row per entry,
   in listing order, builds exactly the rows of the whole listing.
   */
  method AppendRows(entries: seq<Entry>, row: Entry -> string) returns (s: string)
    ensures s == Rows(entries, row)
  {
    s := "";
    var i := 0;
    while i < |entries|
      invariant 0 <= i <= |entries|
      invariant s == Rows(entries[..i], row)
    {
      RowsAppend(entries[..i], [entries[i]], row);
      assert entries[..i + 1] == entries[..i] + [entries[i]];
      assert Rows([entries[i]], row) == row(entries[i]) + "";
      s := s + row(entries[i]);
      i := i + 1;
    }
    assert entries[..i] == entries;
  }

  const IndexTail := "</pre><hr><ADDRESS>"

  /** The first line of the directory index: title, heading and the link to the parent. */
  function IndexTitle(dirPath: string): string {
    "<html><head><title>Index of " + dirPath + "</title></head><body bgcolor=\"white\">"
    + "<h1>Index of " + dirPath + "</h1><hr><pre><a href=\"../\">../</a>"
  }

  const ColumnHeads := "<b>Type\tSize\t\tFilenme</b>"

  /** The part of the directory index before its rows: the title line and the column heads. */
  function IndexHead(dirPath: string): string {
    IndexTitle(dirPath) + "\n" + ColumnHeads + "\n"
  }

  /** The part of the directory index after its rows: the server's address line. */
  function IndexFoot(host: string, port: nat): string {
    IndexTail + ServerName + " at " + host + " Port " + Decimal(port) + "</ADDRESS></body></html>"
  }

  /** generateDirIndex around its rows. */
  function DirIndexPage(dirPath: string, rows: string, host: string, port: nat): string {
    IndexHead(dirPath) + rows + IndexFoot(host, port)
  }

  lemma TitleHasNoNewline(dirPath: string)
    requires '\n' !in dirPath
    ensures '\n' !in IndexTitle(dirPath)
  {
  }

  lemma IndexHeadLines(dirPath: string)
    requires '\n' !in dirPath
    ensures NewlineCount(IndexHead(dirPath)) == 2
  {
    var t, c := IndexTitle(dirPath), ColumnHeads;
    TitleHasNoNewline(dirPath);
    OneLine(t);
    OneLine(c);
    NewlineCountAppend(t + "\n", c + "\n");
    assert IndexHead(dirPath) == (t + "\n") + (c + "\n");
  }

  lemma IndexFootLines(host: string, port: nat)
    requires '\n' !in host
    ensures NewlineCount(IndexFoot(host, port)) == 0
  {
    assert '\n' !in Decimal(port);
    NoNewlineCount(IndexFoot(host, port));
  }

  /** The generated index has one line per row line, plus the two lines of its heading. */
  lemma DirIndexPageLines(dirPath: string, rows: string, host: string, port: nat)
    requires '\n' !in dirPath && '\n' !in host
    ensures NewlineCount(DirIndexPage(dirPath, rows, host, port)) == 2 + NewlineCount(rows)
  {
    IndexHeadLines(dirPath);
    IndexFootLines(host, port);
    NewlineCountAppend(IndexHead(dirPath), rows);
    NewlineCountAppend(IndexHead(dirPath) + rows, IndexFoot(host, port));
  }
}
