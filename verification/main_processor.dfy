/**
 The request processor of src/main/java/de/wpsverlinden/ths: the decision
 pipeline of processRequest, the response builders and the close discipline
 of run (a try-with-resources with a finally that closes the socket).
 */
module MainProcessor {
  import opened Wrappers
  import opened JavaStrings
  import opened Wire
  import opened Platform
  import opened RequestLine
  import opened Exchange
  import opened Pages
  import opened SizeUnits

  /** validRequestDst: no "..", no "/.ht", no trailing "~" (String.contains and endsWith). */
  predicate ValidRequestDst(p: string) {
    !Contains(p, "..") && !Contains(p, "/.ht") && !EndsWith(p, "~")
  }

  /** Two consecutive dots start at index i of p. */
  predicate DotsAt(p: string, i: int) {
    0 <= i < |p| - 1 && p[i] == '.' && p[i + 1] == '.'
  }

  /** The characters '/', '.', 'h', 't' start at index i of p. */
  predicate HiddenAt(p: string, i: int) {
    0 <= i < |p| - 3 && p[i] == '/' && p[i + 1] == '.' && p[i + 2] == 'h' && p[i + 3] == 't'
  }

  lemma DotDotChars(p: string)
    ensures Contains(p, "..") <==> exists i :: DotsAt(p, i)
  {
    if Contains(p, "..") {
      var i :| OccursAt(p, "..", i);
      assert p[i..i + 2] == [p[i], p[i + 1]];
      assert DotsAt(p, i);
    }
    if exists i :: DotsAt(p, i) {
      var i :| DotsAt(p, i);
      assert p[i..i + 2] == [p[i], p[i + 1]];
      assert OccursAt(p, "..", i);
    }
  }

  lemma HiddenAtOccurs(p: string, i: int)
    ensures OccursAt(p, "/.ht", i) <==> HiddenAt(p, i)
  {
    if 0 <= i < |p| - 3 {
      assert p[i..i + 4] == [p[i], p[i + 1], p[i + 2], p[i + 3]];
    }
  }

  lemma HtChars(p: string)
    ensures Contains(p, "/.ht") <==> exists i :: HiddenAt(p, i)
  {
    if Contains(p, "/.ht") {
      var i :| OccursAt(p, "/.ht", i);
      HiddenAtOccurs(p, i);
    }
    if exists i :: HiddenAt(p, i) {
      var i :| HiddenAt(p, i);
      HiddenAtOccurs(p, i);
    }
  }

  /**
   What the destination check means character by character: no two
   consecutive dots, no "/.ht", and a last character other than "~".
   */
  lemma ValidRequestDstChars(p: string)
    ensures ValidRequestDst(p) <==>
              (forall i :: !DotsAt(p, i)) && (forall i :: !HiddenAt(p, i))
              && (p == [] || p[|p| - 1] != '~')
  {
    DotDotChars(p);
    HtChars(p);
    if p != [] {
      assert p[|p| - 1..] == [p[|p| - 1]];
    }
  }

  /** A listing row: "[File]" with size and unit for a regular file, "[Dir]" for everything else. */
  function Row(e: Entry, formatSize: real -> string): (r: string)
    ensures StartsWith(r, "[File]\t") <==> e.kind == RegularFile
    ensures StartsWith(r, "[Dir]\t") <==> e.kind != RegularFile
    ensures EndsWith(r, Link(e.name) + "\n")
  {
    if e.kind == RegularFile then
      var s := Scale(e.length);
      var r := FileRow(e.name, formatSize(s.value), UnitName(s.unit));
      assert r[..7] == "[File]\t";
      assert r[..6] != "[Dir]\t" by { assert r[1] == 'F'; }
      assert r[|r| - |Link(e.name) + "\n"|..] == Link(e.name) + "\n";
      r
    else
      var r := DirRow(e.name);
      assert r[..6] == "[Dir]\t";
      assert |r| >= 7 ==> r[..7] != "[File]\t" by { assert r[1] == 'D'; }
      assert r[|r| - |Link(e.name) + "\n"|..] == Link(e.name) + "\n";
      r
  }

  /** generateDirIndex for the directory at `dir` with its listing. */
  function DirIndex(dir: string, entries: seq<Entry>, env: Env): string {
    DirIndexPage(env.displayPath(dir), Rows(entries, e => Row(e, env.formatSize)), env.hostName, env.port)
  }

  /**
   The branches of processRequest past the two checks: how the target of
   the decoded path p, looked up as "." + p, is answered.
   */
  function Classify(p: string, fs: FileSystem): (o: Outcome)
    ensures !o.BadRequest? && !o.Forbidden?
    ensures !o.OpenFailed?   // sendRawFile swallows the failure to open
  {
    var target := Stat(fs, "." + p);
    if target.kind == Directory && !EndsWith(p, "/") then Redirect(p)
    else if target.kind != Missing then
      if target.kind == Directory then
        match FindIndex(fs, p)
        case Some(index) => IndexFound(index)
        case None =>
          match target.listing
          case None => Crash   // the for-each over a null listFiles() throws
          case Some(entries) => Listing("." + p, entries)
      else SendFile("." + p, target)
    else NotFound
  }

  /** The decision pipeline of processRequest. */
  function Decide(line: string, env: Env, fs: FileSystem): Outcome {
    match ParseRequest(line, env.decode)
    case None => Crash
    case Some(req) =>
      if !ValidRequestFormat(line) then BadRequest
      else if !ValidRequestDst(req.path) then Forbidden
      else Classify(req.path, fs)
  }

  /** The predicate a request must pass before its target is classified. */
  predicate Admitted(line: string, env: Env) {
    ParseRequest(line, env.decode).Some? && ValidRequestFormat(line)
    && ValidRequestDst(ParseRequest(line, env.decode).value.path)
  }

  /** buildHeader(String, ...) and the page: every generated page is announced as "text/html " (trailing space). */
  function Page(code: nat, reason: string, page: string, env: Env): Response {
    PageResponse(code, reason, "text/html ", page, env.date)
  }

  /** The response each outcome writes; None where nothing is written. */
  function Respond(o: Outcome, env: Env): (r: Option<Response>)
    ensures r.None? <==> o.Crash? || o.IndexFound? || o.OpenFailed?
  {
    match o
    case Crash => None
    case BadRequest =>
      Some(Page(400, "Bad Request", ErrorPage("400", "Bad Request", BadRequestMessage, env.hostName, env.port), env))
    case Forbidden =>
      Some(Page(403, "Forbidden", ErrorPage("403", "Forbidden", ForbiddenMessage, env.hostName, env.port), env))
    case Redirect(p) => Some(Response(RedirectHead(env.hostAddress, env.port, p), Text("")))
    case IndexFound(_) => None
    case Listing(dir, entries) => Some(Page(200, "OK", DirIndex(dir, entries, env), env))
    case SendFile(f, n) =>
      // sendRawFile swallows a failure to open the file: the header then stands alone
      Some(Response(HeaderBlock(StatusLine(200, "OK"), env.mimeType(f), n.length, env.date),
                    if n.readable then FileBytes(f) else Text("")))
    case OpenFailed(_) => None
    case NotFound =>
      Some(Page(404, "Not Found", ErrorPage("404", "Not Found", NotFoundMessage, env.hostName, env.port), env))
  }

  /** processRequest: the decision and what it writes, or the runtime exception that escapes. */
  function Process(line: string, env: Env, fs: FileSystem): (r: Processed)
    ensures r.ThrewRuntime? <==> Decide(line, env, fs).Crash?
    ensures !r.ThrewIo?   // sendRawFile catches the failure to open the file
  {
    var o := Decide(line, env, fs);
    if o == Crash then ThrewRuntime else Completed(Respond(o, env))
  }

  /**
   run: read one line, process it, and close the socket in the finally
   block. `writeFails` stands for an IOException from the socket while the
   response is written. `escaped` reports a runtime exception leaving run.
   */
  method Serve(input: ReadResult, env: Env, fs: FileSystem, writeFails: bool)
    returns (sent: Option<Response>, closed: bool, escaped: bool)
    ensures closed
    ensures escaped <==> input.Line? && Process(input.text, env, fs) == ThrewRuntime
    ensures sent.Some? <==> input.Line? && !writeFails
                            && Process(input.text, env, fs).Completed? && Process(input.text, env, fs).sent.Some?
    ensures sent.Some? ==> Process(input.text, env, fs) == Completed(sent)
  {
    sent, closed, escaped := None, false, false;
    // try
    match input {
      case EndOfStream =>
        // readLine returned null: return
      case ReadFailed =>
        // the IOException is caught and logged
      case Line(line) =>
        var processed := Process(line, env, fs);
        match processed {
          case ThrewRuntime => escaped := true;
          case ThrewIo =>
          case Completed(r) =>
            if !(r.Some? && writeFails) {
              sent := r;
            }
        }
    }
    // finally
    closed := true;
  }

  /** A line shorter than 13 characters throws in substring: nothing is written, the exception escapes. */
  lemma ShortLineThrows(line: string, env: Env, fs: FileSystem)
    requires |line| < 13
    ensures Process(line, env, fs) == ThrewRuntime
  {
  }

  /** 400 comes first: exactly the parseable lines that fail the format test. */
  lemma BadRequestFirst(line: string, env: Env, fs: FileSystem)
    ensures Decide(line, env, fs) == BadRequest
            <==> ParseRequest(line, env.decode).Some? && !ValidRequestFormat(line)
    ensures Decide(line, env, fs) == BadRequest ==> |line| >= 13
  {
  }

  /** 403 exactly for well-formed lines whose decoded path is unsafe, whatever the filesystem holds. */
  lemma ForbiddenWhateverFs(line: string, env: Env, fs: FileSystem)
    ensures Decide(line, env, fs) == Forbidden
            <==> ParseRequest(line, env.decode).Some? && ValidRequestFormat(line)
                 && !ValidRequestDst(ParseRequest(line, env.decode).value.path)
  {
  }

  /**
   The filesystem is consulted only for admitted requests: every other line
   ends in 400, 403 or the runtime exception, and an admitted one is answered
   by classifying its decoded path.
   */
  lemma AdmittedClassified(line: string, env: Env, fs: FileSystem)
    ensures !Admitted(line, env) ==> Decide(line, env, fs) in {Crash, BadRequest, Forbidden}
    ensures Admitted(line, env) ==> Decide(line, env, fs) == Classify(ParseRequest(line, env.decode).value.path, fs)
  {
  }

  /** 301 exactly for a directory path without a trailing slash. */
  lemma RedirectIff(p: string, fs: FileSystem, q: string)
    ensures Classify(p, fs) == Redirect(q) <==> p == q && Stat(fs, "." + q).kind == Directory && !EndsWith(q, "/")
  {
  }

  /** 404 exactly for a target that does not exist. */
  lemma NotFoundIff(p: string, fs: FileSystem)
    ensures Classify(p, fs) == NotFound <==> Stat(fs, "." + p).kind == Missing
  {
  }

  /**
   Any existing target that is not a directory is sent with 200, special
   files included; a directory is never sent as a file.
   */
  lemma SendFileIff(p: string, fs: FileSystem, f: string, n: Node)
    ensures Classify(p, fs) == SendFile(f, n) <==> f == "." + p && n == Stat(fs, f) && n.kind in {RegularFile, Special}
  {
  }

  /** The index outcome exactly for a directory path with a trailing slash whose index lookup succeeds. */
  lemma IndexFoundIff(p: string, fs: FileSystem, ix: string)
    ensures Classify(p, fs) == IndexFound(ix)
            <==> Stat(fs, "." + p).kind == Directory && EndsWith(p, "/") && FindIndex(fs, p) == Some(ix)
  {
  }

  /**
   Processing completes without writing anything exactly when an index file
   was found: the found index file is never sent.
   */
  lemma IndexFoundWritesNothing(line: string, env: Env, fs: FileSystem)
    ensures Process(line, env, fs) == Completed(None) <==> Decide(line, env, fs).IndexFound?
  {
    var o := Decide(line, env, fs);
    AdmittedClassified(line, env, fs);
    assert !o.OpenFailed?;
    if o != Crash {
      assert Process(line, env, fs) == Completed(Respond(o, env));
    }
  }

  /** The directory is listed exactly when it is requested with a slash, has no index file and can be listed. */
  lemma ListingIff(p: string, fs: FileSystem, d: string, es: seq<Entry>)
    ensures Classify(p, fs) == Listing(d, es)
            <==> d == "." + p && Stat(fs, d).kind == Directory && EndsWith(p, "/")
                 && FindIndex(fs, p).None? && Stat(fs, d).listing == Some(es)
  {
  }

  /** The target's classification throws exactly when that directory has no index file and listFiles() returns null. */
  lemma ClassifyThrowsIff(p: string, fs: FileSystem)
    ensures Classify(p, fs) == Crash
            <==> Stat(fs, "." + p).kind == Directory && EndsWith(p, "/")
                 && FindIndex(fs, p).None? && Stat(fs, "." + p).listing.None?
  {
  }

  /** A client reads the 400 page announced as "text/html " (trailing space) with its exact length. */
  lemma BadRequestPage(env: Env)
    requires NoCr(env.date)
    ensures Respond(BadRequest, env).Some?
    ensures ReadsAsPage(Respond(BadRequest, env).value, StatusLine(400, "Bad Request"), "text/html ",
                        ErrorPage("400", "Bad Request", BadRequestMessage, env.hostName, env.port))
  {
    var reason, contentType := "Bad Request", "text/html ";
    var page := ErrorPage("400", reason, BadRequestMessage, env.hostName, env.port);
    assert Respond(BadRequest, env) == Some(PageResponse(400, reason, contentType, page, env.date));
    PageReads(400, reason, contentType, page, env.date);
  }

  /** A client reads the 403 page announced as "text/html " (trailing space) with its exact length. */
  lemma ForbiddenPage(env: Env)
    requires NoCr(env.date)
    ensures Respond(Forbidden, env).Some?
    ensures ReadsAsPage(Respond(Forbidden, env).value, StatusLine(403, "Forbidden"), "text/html ",
                        ErrorPage("403", "Forbidden", ForbiddenMessage, env.hostName, env.port))
  {
    var reason, contentType := "Forbidden", "text/html ";
    var page := ErrorPage("403", reason, ForbiddenMessage, env.hostName, env.port);
    assert Respond(Forbidden, env) == Some(PageResponse(403, reason, contentType, page, env.date));
    PageReads(403, reason, contentType, page, env.date);
  }

  /** A client reads the 404 page announced as "text/html " (trailing space) with its exact length. */
  lemma NotFoundPage(env: Env)
    requires NoCr(env.date)
    ensures Respond(NotFound, env).Some?
    ensures ReadsAsPage(Respond(NotFound, env).value, StatusLine(404, "Not Found"), "text/html ",
                        ErrorPage("404", "Not Found", NotFoundMessage, env.hostName, env.port))
  {
    var reason, contentType := "Not Found", "text/html ";
    var page := ErrorPage("404", reason, NotFoundMessage, env.hostName, env.port);
    assert Respond(NotFound, env) == Some(PageResponse(404, reason, contentType, page, env.date));
    PageReads(404, reason, contentType, page, env.date);
  }

  /** A client reads the directory index with status 200, announced as "text/html " as well. */
  lemma ListingPage(env: Env, dir: string, es: seq<Entry>)
    requires NoCr(env.date)
    ensures Respond(Listing(dir, es), env).Some?
    ensures ReadsAsPage(Respond(Listing(dir, es), env).value, StatusLine(200, "OK"), "text/html ", DirIndex(dir, es, env))
  {
    var reason, contentType := "OK", "text/html ";
    var page := DirIndex(dir, es, env);
    assert Respond(Listing(dir, es), env) == Some(PageResponse(200, reason, contentType, page, env.date));
    PageReads(200, reason, contentType, page, env.date);
  }

  /** The 301 response: status line and Location only, no Content-Length and no body. */
  lemma RedirectResponse(env: Env, p: string)
    requires NoCr(env.hostAddress) && NoCr(p)
    ensures Respond(Redirect(p), env).Some?
    ensures var r := Respond(Redirect(p), env).value;
            r.body == Text("")
            && ReadHeader(r.head) == Some((["HTTP/1.0 301 Moved Permanently",
                                           "Location: http://" + env.hostAddress + ":" + Decimal(env.port) + p + "/"], ""))
  {
    RedirectReadsBack(env.hostAddress, env.port, p);
  }

  /** A file response announces the file's length and the MIME type of its path, then streams its bytes. */
  lemma FileResponse(env: Env, f: string, n: Node)
    requires NoCr(env.mimeType(f)) && NoCr(env.date)
    ensures var r := Respond(SendFile(f, n), env).value;
            ReadHeader(r.head) == Some((HeaderFields(StatusLine(200, "OK"), env.mimeType(f), n.length, env.date), ""))
            && (r.body == FileBytes(f) <==> n.readable)
  {
    HeaderBlockReadsBack(200, "OK", env.mimeType(f), n.length, env.date, "");
    var h := HeaderBlock(StatusLine(200, "OK"), env.mimeType(f), n.length, env.date);
    assert h + "" == h;
  }

  /** A listing row is one line when neither the name nor the formatted size holds a line feed. */
  lemma RowIsOneLine(e: Entry, formatSize: real -> string)
    requires '\n' !in e.name
    requires forall x :: '\n' !in formatSize(x)
    ensures NewlineCount(Row(e, formatSize)) == 1
  {
    if e.kind == RegularFile {
      var s := Scale(e.length);
      FileRowOneLine(e.name, formatSize(s.value), UnitName(s.unit));
    } else {
      DirRowOneLine(e.name);
    }
  }

  /** The generated index has one line per listed entry, plus the two lines of its heading. */
  lemma DirIndexLines(dir: string, entries: seq<Entry>, env: Env)
    requires '\n' !in env.displayPath(dir) && '\n' !in env.hostName
    requires forall i :: 0 <= i < |entries| ==> '\n' !in entries[i].name
    requires forall x :: '\n' !in env.formatSize(x)
    ensures NewlineCount(DirIndex(dir, entries, env)) == 2 + |entries|
  {
    var row := e => Row(e, env.formatSize);
    forall i | 0 <= i < |entries|
      ensures NewlineCount(row(entries[i])) == 1
    {
      RowIsOneLine(entries[i], env.formatSize);
    }
    RowsLineCount(entries, row);
    DirIndexPageLines(env.displayPath(dir), Rows(entries, row), env.hostName, env.port);
  }
}
