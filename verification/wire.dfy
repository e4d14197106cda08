/**
 The line framing of an HTTP/1.0 header block (section 4 of RFC 1945): each
 field line is followed by CR LF and the block ends with an empty line.
 `Frame` builds a block the way the server concatenates it; `ReadHeader` is a
 client that reads a block back, so the pair states what a client sees.
 */
module Wire {
  import opened Wrappers

  const Crlf := "\r\n"

  /** Each line followed by CR LF. */
  function Lines(lines: seq<string>): string
  {
    if lines == [] then "" else lines[0] + Crlf + Lines(lines[1..])
  }

  /** A header block: the lines, then the empty line that ends the block. */
  function Frame(lines: seq<string>): string
  {
    Lines(lines) + Crlf
  }

  /** A line that frames cleanly: not empty (so it is not the end marker) and without CR. */
  predicate FieldLine(l: string) {
    l != [] && '\r' !in l
  }

  /** Reads up to the first CR; succeeds when that CR is followed by LF. */
  function ReadLine(s: string): (r: Option<(string, string)>)
    ensures r.Some? ==> s == r.value.0 + Crlf + r.value.1 && '\r' !in r.value.0
    decreases |s|
  {
    if s == [] then None
    else if s[0] == '\r' then
      if |s| >= 2 && s[1] == '\n' then Some(("", s[2..])) else None
    else
      match ReadLine(s[1..])
      case None => None
      case Some((l, rest)) => Some(([s[0]] + l, rest))
  }

  /** Reads field lines up to the empty line; returns the lines and what follows the block. */
  function ReadHeader(s: string): (r: Option<(seq<string>, string)>)
    ensures r.Some? ==> forall i :: 0 <= i < |r.value.0| ==> FieldLine(r.value.0[i])
    ensures r.Some? ==> s == Frame(r.value.0) + r.value.1
    decreases |s|
  {
    match ReadLine(s)
    case None => None
    case Some((l, rest)) =>
      if l == "" then Some(([], rest))
      else
        match ReadHeader(rest)
        case None => None
        case Some((ls, body)) =>
          assert Frame([l] + ls) == l + Crlf + Frame(ls) by {
            assert ([l] + ls)[1..] == ls;
          }
          Some(([l] + ls, body))
  }

  lemma ReadLineOf(l: string, rest: string)
    requires '\r' !in l
    ensures ReadLine(l + Crlf + rest) == Some((l, rest))
  {
    if l != [] {
      assert (l + Crlf + rest)[1..] == l[1..] + Crlf + rest;
      ReadLineOf(l[1..], rest);
      assert [l[0]] + l[1..] == l;
    } else {
      assert l + Crlf + rest == Crlf + rest;
    }
  }

  /** A client reading a framed block gets back exactly the lines, in order, and the body after it. */
  lemma {:induction false} FrameRoundTrip(lines: seq<string>, body: string)
    requires forall i :: 0 <= i < |lines| ==> FieldLine(lines[i])
    ensures ReadHeader(Frame(lines) + body) == Some((lines, body))
  {
    if lines == [] {
      ReadLineOf("", body);
      assert Frame(lines) + body == "" + Crlf + body;
    } else {
      var l := lines[0];
      var tail := Frame(lines[1..]) + body;
      assert Frame(lines) + body == l + Crlf + tail;
      ReadLineOf(l, tail);
      FrameRoundTrip(lines[1..], body);
      assert [l] + lines[1..] == lines;
    }
  }
}
