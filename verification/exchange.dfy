/** What one connection exchanges: the line read, the decision taken and the response written. */
module Exchange {
  import opened Wrappers
  import opened Platform

  /** BufferedReader.readLine on the connection: a line, end of stream (null), or an IOException. */
  datatype ReadResult = EndOfStream | Line(text: string) | ReadFailed

  /** The body after the header block: generated text, or the bytes of the file at a path, streamed verbatim. */
  datatype Body = Text(text: string) | FileBytes(path: string)

  datatype Response = Response(head: string, body: Body)

  /** Where the decision pipeline of one request ends. */
  datatype Outcome =
    | Crash                           // a runtime exception before anything is written
    | BadRequest                      // 400
    | Forbidden                       // 403
    | Redirect(path: string)          // 301 to path + "/"
    | IndexFound(index: string)       // an index file replaced the directory
    | Listing(dir: string, entries: seq<Entry>)  // 200 with a generated directory index
    | SendFile(file: string, node: Node)         // 200 with the file's bytes
    | OpenFailed(file: string)        // opening the file threw an IOException before the header
    | NotFound                        // 404

  /** How processRequest ends: normally, having written a response or nothing, or by an exception. */
  datatype Processed = Completed(sent: Option<Response>) | ThrewIo | ThrewRuntime
}
