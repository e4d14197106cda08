/**
 The older request processor of THS/src/de/wpsverlinden/ths: the same
 pipeline with inline header strings, early returns, a directory index that
 tolerates a null listing, index files that are actually sent, and a run
 method that closes the socket only after processRequest returns normally.
 */
module ThsProcessor {
  import opened Wrappers
  import opened JavaStrings
  import opened Wire
  import opened Platform
  import opened RequestLine
  import opened Exchange
  import opened Pages
  import opened SizeUnits

  /** validRequestDst written with indexOf: no "..", no "/.ht", no trailing "~". */
  predicate ValidRequestDst(p: string) {
    IndexOf(p, "..") == -1 && IndexOf(p, "/.ht") == -1 && !EndsWith(p, "~")
  }

  /** A listing row: "[Dir]" for a directory, "[File]" with size and unit for everything else. */
  function Row(e: Entry, formatSize: real -> string): (r: string)
    ensures StartsWith(r, "[Dir]\t") <==> e.kind == Directory
    ensures StartsWith(r, "[File]\t") <==> e.kind != Directory
    ensures EndsWith(r, Link(e.name) + "\n")
  {
    var s := Scale(e.length);
    if e.kind == Directory then
      var r := DirRow(e.name);
      assert r[..6] == "[Dir]\t";
      assert |r| >= 7 ==> r[..7] != "[File]\t" by { assert r[1] == 'D'; }
      assert r[|r| - |Link(e.name) + "\n"|..] == Link(e.name) + "\n";
      r
    else
      var r := FileRow(e.name, formatSize(s.value), UnitName(s.unit));
      assert r[..7] == "[File]\t";
      assert r[..6] != "[Dir]\t" by { assert r[1] == 'F'; }
      assert r[|r| - |Link(e.name) + "\n"|..] == Link(e.name) + "\n";
      r
  }

  /** generateDirIndex: a null listing yields no rows. */
  function DirIndex(dir: string, listing: Option<seq<Entry>>, env: Env): string {
    DirIndexPage(env.displayPath(dir), Rows(listing.GetOr([]), e => Row(e, env.formatSize)), env.hostName, env.port)
  }

  /** The last step of processRequest: an existing regular file is sent, anything else is 404. */
  function FileOutcome(f: string, n: Node): (o: Outcome)
    ensures o.NotFound? <==> n.kind != RegularFile
    ensures o.SendFile? || o.OpenFailed? || o.NotFound?
  {
    if n.kind == RegularFile then
      if n.readable then SendFile(f, n) else OpenFailed(f)
    else NotFound
  }

  /**
   The branches of processRequest past the two checks: how the target of
   the decoded path p, looked up as "." + p, is answered.
   */
  function Classify(p: string, fs: FileSystem): (o: Outcome)
    ensures !o.Crash? && !o.BadRequest? && !o.Forbidden?
    ensures !o.IndexFound?
  {
    var target := Stat(fs, "." + p);
    if target.kind == Directory && !EndsWith(p, "/") then Redirect(p)
    else if target.kind == Directory then
      match FindIndex(fs, p)
      case Some(index) => FileOutcome(index, Stat(fs, index))
      case None => Listing("." + p, target.listing.GetOr([]))
    else FileOutcome("." + p, target)
  }

  /** The decision pipeline of processRequest. */
  function Decide(line: string, env: Env, fs: FileSystem): Outcome {
    match ParseRequest(line, env.decode)
    case None => Crash
    case Some(req) =>
      if !ValidRequestFormat(line) then BadRequest
      else if !ValidRequestDst(req.path) then Forbidden
      else Classify(req.path, fs)
  }

  /** The predicate a request must pass before its target is classified. */
  predicate Admitted(line: string, env: Env) {
    ParseRequest(line, env.decode).Some? && ValidRequestFormat(line)
    && ValidRequestDst(ParseRequest(line, env.decode).value.path)
  }

  /** The response each outcome writes; None where nothing is written. */
  function Respond(o: Outcome, env: Env): (r: Option<Response>)
    ensures r.None? <==> o.Crash? || o.IndexFound? || o.OpenFailed?
  {
    match o
    case Crash => None
    case BadRequest =>
      Some(PageResponse(400, "Bad Request", "text/html ",
                        ErrorPage("400", "Bad Request", BadRequestMessage, env.hostName, env.port), env.date))
    case Forbidden =>
      Some(PageResponse(403, "Forbidden", "text/html ",
                        ErrorPage("403", "Forbidden", ForbiddenMessage, env.hostName, env.port), env.date))
    case Redirect(p) =>
      // the header, then the still-empty response string
      Some(Response(RedirectHead(env.hostAddress, env.port, p), Text("")))
    case IndexFound(_) => None
    case Listing(dir, entries) =>
      Some(PageResponse(200, "OK", "text/html", DirIndex(dir, Some(entries), env), env.date))
    case SendFile(f, n) =>
      Some(Response(HeaderBlock(StatusLine(200, "OK"), env.mimeType(f), n.length, env.date), FileBytes(f)))
    case OpenFailed(_) => None
    case NotFound =>
      Some(PageResponse(404, "Not Found", "text/html",
                        ErrorPage("404", "Not Found", NotFoundMessage, env.hostName, env.port), env.date))
  }

  /** processRequest: the decision and what it writes, or the exception that leaves it. */
  function Process(line: string, env: Env, fs: FileSystem): (r: Processed)
    ensures r.ThrewIo? <==> Decide(line, env, fs).OpenFailed?
    ensures r.ThrewRuntime? <==> Decide(line, env, fs).Crash?
  {
    match Decide(line, env, fs)
    case Crash => ThrewRuntime
    case OpenFailed(_) => ThrewIo   // new FileInputStream throws FileNotFoundException
    case o => Completed(Respond(o, env))
  }

  /**
   run: read one line, process it and close the socket, with no finally:
   the socket is closed only when processRequest returns normally and its
   response was written. `writeFails` stands for an IOException from the
   socket while the response is written.
   */
  method Serve(input: ReadResult, env: Env, fs: FileSystem, writeFails: bool)
    returns (sent: Option<Response>, closed: bool, escaped: bool)
    ensures closed <==> input.Line? && Process(input.text, env, fs).Completed?
                        && !(writeFails && Process(input.text, env, fs).sent.Some?)
    ensures escaped <==> input.Line? && Process(input.text, env, fs) == ThrewRuntime
    ensures sent.Some? <==> input.Line? && !writeFails
                            && Process(input.text, env, fs).Completed? && Process(input.text, env, fs).sent.Some?
    ensures sent.Some? ==> Process(input.text, env, fs) == Completed(sent)
  {
    sent, closed, escaped := None, false, false;
    match input {
      case EndOfStream =>
        // readLine returned null: return without closing
      case ReadFailed =>
        // the IOException is caught and printed
      case Line(line) =>
        var processed := Process(line, env, fs);
        match processed {
          case ThrewRuntime => escaped := true;
          case ThrewIo =>
          case Completed(r) =>
            if !(r.Some? && writeFails) {
              sent := r;
              closed := true;
            }
        }
    }
  }

  /** 400 returns early: exactly the parseable lines that fail the format test. */
  lemma BadRequestFirst(line: string, env: Env, fs: FileSystem)
    ensures Decide(line, env, fs) == BadRequest
            <==> ParseRequest(line, env.decode).Some? && !ValidRequestFormat(line)
  {
    match ParseRequest(line, env.decode)
    case None =>
    case Some(req) =>
      if ValidRequestFormat(line) && ValidRequestDst(req.path) {
        assert Decide(line, env, fs) == Classify(req.path, fs);
      }
  }

  /** 403 returns early: well-formed lines with an unsafe decoded path, whatever the filesystem holds. */
  lemma ForbiddenWhateverFs(line: string, env: Env, fs: FileSystem)
    ensures Decide(line, env, fs) == Forbidden
            <==> ParseRequest(line, env.decode).Some? && ValidRequestFormat(line)
                 && !ValidRequestDst(ParseRequest(line, env.decode).value.path)
  {
  }

  /**
   The filesystem is consulted only for admitted requests: every other line
   ends in 400, 403 or the runtime exception, and an admitted one is answered
   by classifying its decoded path.
   */
  lemma AdmittedClassified(line: string, env: Env, fs: FileSystem)
    ensures !Admitted(line, env) ==> Decide(line, env, fs) in {Crash, BadRequest, Forbidden}
    ensures Admitted(line, env) ==> Decide(line, env, fs) == Classify(ParseRequest(line, env.decode).value.path, fs)
  {
  }

  /**
   Every normal return of processRequest writes a response: unlike src/main,
   a found index file is sent rather than left unanswered.
   */
  lemma CompletedWrites(line: string, env: Env, fs: FileSystem)
    ensures Process(line, env, fs).Completed? ==> Process(line, env, fs).sent.Some?
  {
    AdmittedClassified(line, env, fs);
  }

  /** 301 exactly for a directory path without a trailing slash. */
  lemma RedirectIff(p: string, fs: FileSystem, q: string)
    ensures Classify(p, fs) == Redirect(q) <==> p == q && Stat(fs, "." + q).kind == Directory && !EndsWith(q, "/")
  {
    var target := Stat(fs, "." + p);
    if target.kind == Directory && EndsWith(p, "/") {
      match FindIndex(fs, p)
      case Some(ix) => assert !FileOutcome(ix, Stat(fs, ix)).Redirect?;
      case None =>
    } else if target.kind != Directory {
      assert !FileOutcome("." + p, target).Redirect?;
    }
  }

  /**
   The file processRequest ends up opening for path p: the index file found
   for a directory requested with a trailing slash, or the target itself
   when it is not a directory.
   */
  predicate FileRequested(p: string, fs: FileSystem, f: string) {
    var target := Stat(fs, "." + p);
    (target.kind == Directory && EndsWith(p, "/") && FindIndex(fs, p) == Some(f))
    || (target.kind != Directory && f == "." + p)
  }

  /** 200 with a file exactly for a requested file that is a readable regular file, index files included. */
  lemma SendFileIff(p: string, fs: FileSystem, f: string, n: Node)
    ensures Classify(p, fs) == SendFile(f, n)
            <==> FileRequested(p, fs, f) && n == Stat(fs, f) && n.kind == RegularFile && n.readable
  {
    var target := Stat(fs, "." + p);
    if target.kind == Directory && EndsWith(p, "/") {
      match FindIndex(fs, p)
      case Some(ix) =>
      case None =>
    }
  }

  /** The open throws exactly for a requested file that is a regular file but cannot be read. */
  lemma OpenFailedIff(p: string, fs: FileSystem, f: string)
    ensures Classify(p, fs) == OpenFailed(f)
            <==> FileRequested(p, fs, f) && Stat(fs, f).kind == RegularFile && !Stat(fs, f).readable
  {
    var target := Stat(fs, "." + p);
    if target.kind == Directory && EndsWith(p, "/") {
      match FindIndex(fs, p)
      case Some(ix) =>
      case None =>
    }
  }

  /**
   The directory is listed exactly when it is requested with a slash and
   has no index file; a null listing is listed as empty.
   */
  lemma ListingIff(p: string, fs: FileSystem, d: string, es: seq<Entry>)
    ensures Classify(p, fs) == Listing(d, es)
            <==> d == "." + p && Stat(fs, d).kind == Directory && EndsWith(p, "/")
                 && FindIndex(fs, p).None? && es == Stat(fs, d).listing.GetOr([])
  {
    var target := Stat(fs, "." + p);
    if target.kind == Directory && EndsWith(p, "/") {
      match FindIndex(fs, p)
      case Some(ix) => assert !FileOutcome(ix, Stat(fs, ix)).Listing?;
      case None =>
    } else if target.kind != Directory {
      assert !FileOutcome("." + p, target).Listing?;
    }
  }

  /** 404 exactly for a target that is neither a directory nor a regular file (special files included). */
  lemma NotFoundIff(p: string, fs: FileSystem)
    ensures Classify(p, fs) == NotFound <==> Stat(fs, "." + p).kind !in {Directory, RegularFile}
  {
    var target := Stat(fs, "." + p);
    if target.kind == Directory && EndsWith(p, "/") {
      match FindIndex(fs, p)
      case Some(ix) => assert !FileOutcome(ix, Stat(fs, ix)).NotFound?;
      case None =>
    }
  }

  /** Whatever is sent with 200 as a file is an existing, readable regular file. */
  lemma SentFilesAreRegular(p: string, fs: FileSystem, f: string, n: Node)
    requires Classify(p, fs) == SendFile(f, n)
    ensures n == Stat(fs, f) && n.kind == RegularFile && n.readable
  {
    var target := Stat(fs, "." + p);
    if target.kind == Directory && EndsWith(p, "/") {
      match FindIndex(fs, p)
      case Some(ix) =>
      case None =>
    }
  }

  /** A client reads the 400 page announced as "text/html " (trailing space) with its exact length. */
  lemma BadRequestPage(env: Env)
    requires NoCr(env.date)
    ensures Respond(BadRequest, env).Some?
    ensures ReadsAsPage(Respond(BadRequest, env).value, StatusLine(400, "Bad Request"), "text/html ",
                        ErrorPage("400", "Bad Request", BadRequestMessage, env.hostName, env.port))
  {
    var reason, contentType := "Bad Request", "text/html ";
    var page := ErrorPage("400", reason, BadRequestMessage, env.hostName, env.port);
    assert Respond(BadRequest, env) == Some(PageResponse(400, reason, contentType, page, env.date));
    PageReads(400, reason, contentType, page, env.date);
  }

  /** A client reads the 403 page announced as "text/html " (trailing space) with its exact length. */
  lemma ForbiddenPage(env: Env)
    requires NoCr(env.date)
    ensures Respond(Forbidden, env).Some?
    ensures ReadsAsPage(Respond(Forbidden, env).value, StatusLine(403, "Forbidden"), "text/html ",
                        ErrorPage("403", "Forbidden", ForbiddenMessage, env.hostName, env.port))
  {
    var reason, contentType := "Forbidden", "text/html ";
    var page := ErrorPage("403", reason, ForbiddenMessage, env.hostName, env.port);
    assert Respond(Forbidden, env) == Some(PageResponse(403, reason, contentType, page, env.date));
    PageReads(403, reason, contentType, page, env.date);
  }

  /** A client reads the 404 page announced as "text/html" (no trailing space) with its exact length. */
  lemma NotFoundPage(env: Env)
    requires NoCr(env.date)
    ensures Respond(NotFound, env).Some?
    ensures ReadsAsPage(Respond(NotFound, env).value, StatusLine(404, "Not Found"), "text/html",
                        ErrorPage("404", "Not Found", NotFoundMessage, env.hostName, env.port))
  {
    var reason, contentType := "Not Found", "text/html";
    var page := ErrorPage("404", reason, NotFoundMessage, env.hostName, env.port);
    assert Respond(NotFound, env) == Some(PageResponse(404, reason, contentType, page, env.date));
    PageReads(404, reason, contentType, page, env.date);
  }

  /** A client reads the directory index with status 200, announced as "text/html" (no trailing space). */
  lemma ListingPage(env: Env, dir: string, es: seq<Entry>)
    requires NoCr(env.date)
    ensures Respond(Listing(dir, es), env).Some?
    ensures ReadsAsPage(Respond(Listing(dir, es), env).value, StatusLine(200, "OK"), "text/html", DirIndex(dir, Some(es), env))
  {
    var reason, contentType := "OK", "text/html";
    var page := DirIndex(dir, Some(es), env);
    assert Respond(Listing(dir, es), env) == Some(PageResponse(200, reason, contentType, page, env.date));
    PageReads(200, reason, contentType, page, env.date);
  }

  /**
   A file response announces the file's length and the MIME type of its
   path, then streams the file's bytes.
   */
  lemma FileResponse(env: Env, f: string, n: Node)
    ensures Respond(SendFile(f, n), env).Some?
    ensures var r := Respond(SendFile(f, n), env).value;
            r.body == FileBytes(f)
            && (NoCr(env.mimeType(f)) && NoCr(env.date) ==>
                  ReadHeader(r.head) == Some((HeaderFields(StatusLine(200, "OK"), env.mimeType(f), n.length, env.date), "")))
  {
    var h := HeaderBlock(StatusLine(200, "OK"), env.mimeType(f), n.length, env.date);
    if NoCr(env.mimeType(f)) && NoCr(env.date) {
      HeaderBlockReadsBack(200, "OK", env.mimeType(f), n.length, env.date, "");
      assert h + "" == h;
    }
  }

  /** The 301 response: status line and Location, then the empty response string. */
  lemma RedirectResponse(env: Env, p: string)
    requires NoCr(env.hostAddress) && NoCr(p)
    ensures Respond(Redirect(p), env).Some?
    ensures var r := Respond(Redirect(p), env).value;
            r.body == Text("")
            && ReadHeader(r.head) == Some((["HTTP/1.0 301 Moved Permanently",
                                           "Location: http://" + env.hostAddress + ":" + Decimal(env.port) + p + "/"], ""))
  {
    RedirectReadsBack(env.hostAddress, env.port, p);
  }

  /** A listing row is one line when neither the name nor the formatted size holds a line feed. */
  lemma RowIsOneLine(e: Entry, formatSize: real -> string)
    requires '\n' !in e.name
    requires forall x :: '\n' !in formatSize(x)
    ensures NewlineCount(Row(e, formatSize)) == 1
  {
    if e.kind == Directory {
      DirRowOneLine(e.name);
    } else {
      var s := Scale(e.length);
      FileRowOneLine(e.name, formatSize(s.value), UnitName(s.unit));
    }
  }

  /** The generated index has one line per listed entry, none for a null listing, plus two heading lines. */
  lemma DirIndexLines(dir: string, listing: Option<seq<Entry>>, env: Env)
    requires '\n' !in env.displayPath(dir) && '\n' !in env.hostName
    requires listing.Some? ==> forall i :: 0 <= i < |listing.value| ==> '\n' !in listing.value[i].name
    requires forall x :: '\n' !in env.formatSize(x)
    ensures NewlineCount(DirIndex(dir, listing, env)) == 2 + (if listing.Some? then |listing.value| else 0)
  {
    var entries := listing.GetOr([]);
    var row := e => Row(e, env.formatSize);
    forall i | 0 <= i < |entries|
      ensures NewlineCount(row(entries[i])) == 1
    {
      RowIsOneLine(entries[i], env.formatSize);
    }
    RowsLineCount(entries, row);
    DirIndexPageLines(env.displayPath(dir), Rows(entries, row), env.hostName, env.port);
  }
}
