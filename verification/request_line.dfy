/**
 Reading the request line. Both versions of the processor take the path from
 the fixed window between index 4 and nine characters before the end, trim
 and URL-decode it, and check the line with the same narrow format test
 (an approximation of the Request-Line of section 5.1 of RFC 1945). The
 index-file lookup is also the same in both.
 */
module RequestLine {
  import opened Wrappers
  import opened JavaStrings
  import opened Platform

  /** A request line taken apart: the line, the trimmed path window and the decoded path. */
  datatype Request = Request(line: string, rawPath: string, path: string)

  const Http10 := "HTTP/1.0"
  const Http11 := "HTTP/1.1"

  /** validRequestFormat: "GET" prefix, at least 14 characters, HTTP/1.0 or HTTP/1.1 suffix. */
  predicate ValidRequestFormat(line: string) {
    StartsWith(line, "GET") && |line| >= 14 && (EndsWith(line, Http10) || EndsWith(line, Http11))
  }

  /**
   `line.substring(4, line.length() - 9).trim()`. The substring throws when
   the window is empty-reversed, i.e. for lines shorter than 13 characters.
   */
  function RawPath(line: string): (r: Option<string>)
    ensures r.Some? <==> |line| >= 13
    ensures r.Some? ==> Trimmed(r.value) && |r.value| <= |line| - 13
    ensures r.Some? ==> TrimOf(line[4..|line| - 9], r.value)
  {
    if |line| < 13 then None else Some(Trim(line[4..|line| - 9]))
  }

  /** The path window, then URLDecoder.decode; None when either throws. */
  function ParseRequest(line: string, decode: string -> Option<string>): (r: Option<Request>)
    ensures r.Some? <==> |line| >= 13 && decode(RawPath(line).value).Some?
    ensures r.Some? ==> r.value.line == line && r.value.rawPath == RawPath(line).value
    ensures r.Some? ==> decode(r.value.rawPath) == Some(r.value.path)
  {
    match RawPath(line)
    case None => None
    case Some(raw) =>
      match decode(raw)
      case None => None
      case Some(p) => Some(Request(line, raw, p))
  }

  /** The request line a client sends: "GET", a space, the path, a space, the version. */
  function ClientLine(path: string, version: string): string {
    "GET " + path + " " + version
  }

  /**
   For a client line whose path carries no surrounding blanks, the window
   recovers the path exactly; the format test accepts it iff the path is not
   empty (an empty path gives a 13-character line).
   */
  lemma {:induction false} ClientLineRoundTrip(path: string, version: string)
    requires Trimmed(path)
    requires version == Http10 || version == Http11
    ensures RawPath(ClientLine(path, version)) == Some(path)
    ensures ValidRequestFormat(ClientLine(path, version)) <==> path != []
  {
    var line := ClientLine(path, version);
    assert |line| == 13 + |path|;
    assert line[4..|line| - 9] == path;
    assert AllBlank([]);
    TrimPadded([], path, []);
    assert [] + path + [] == path;
    assert line[..3] == "GET";
    assert line[|line| - 8..] == version;
  }

  /** A line that passes the format test always has a path window, so the test never sees a throwing line. */
  lemma ValidFormatHasWindow(line: string)
    requires ValidRequestFormat(line)
    ensures RawPath(line).Some?
  {
  }

  /** The index files tried for a directory, in order. */
  const IndexNames: seq<string> := ["index.html", "index.htm"]

  /** The first candidate `dir + names[k]` that exists and is a regular file (the loop with `break`). */
  function FirstIndex(fs: FileSystem, dir: string, names: seq<string>): (r: Option<string>)
    ensures r.None? <==> forall k :: 0 <= k < |names| ==> Stat(fs, dir + names[k]).kind != RegularFile
    ensures r.Some? ==> exists k :: 0 <= k < |names| && r.value == dir + names[k]
                                   && Stat(fs, r.value).kind == RegularFile
                                   && forall j :: 0 <= j < k ==> Stat(fs, dir + names[j]).kind != RegularFile
  {
    if names == [] then None
    else if Stat(fs, dir + names[0]).kind == RegularFile then Some(dir + names[0])
    else
      var r := FirstIndex(fs, dir, names[1..]);
      assert forall k :: 1 <= k < |names| ==> names[k] == names[1..][k - 1];
      r
  }

  /**
   The index lookup of a directory request. Note the candidates are
   `path + name`, without the "." prefix the target itself gets.
   */
  function FindIndex(fs: FileSystem, path: string): (r: Option<string>)
    ensures r == Some(path + "index.html") <==> Stat(fs, path + "index.html").kind == RegularFile
    ensures r == Some(path + "index.htm")
            <==> Stat(fs, path + "index.html").kind != RegularFile && Stat(fs, path + "index.htm").kind == RegularFile
    ensures r == None
            <==> Stat(fs, path + "index.html").kind != RegularFile && Stat(fs, path + "index.htm").kind != RegularFile
  {
    var r := FirstIndex(fs, path, IndexNames);
    assert path + "index.html" != path + "index.htm" by {
      assert |path + "index.html"| != |path + "index.htm"|;
    }
    assert IndexNames[0] == "index.html" && IndexNames[1] == "index.htm";
    assert r.Some? ==> r.value == path + IndexNames[0] || r.value == path + IndexNames[1];
    r
  }
}
