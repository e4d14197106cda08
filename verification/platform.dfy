/**
 The collaborators the request processor calls but does not implement: the
 filesystem (java.io.File queries), the socket's local address, the clock,
 the MIME table, the URL decoder and the number formatter. They are inputs
 to the model: a snapshot of the filesystem and an environment of values and
 uninterpreted functions.
 */
module Platform {
  import opened Wrappers

  /** What File.exists / isFile / isDirectory report for a path. */
  datatype Kind =
    | Missing       // exists() is false
    | RegularFile   // exists() and isFile()
    | Directory     // exists() and isDirectory()
    | Special       // exists(), but neither a regular file nor a directory (a device, a pipe)

  /** One element of File.listFiles(): its name, its kind and File.length(). */
  datatype Entry = Entry(name: string, kind: Kind, length: nat)

  /**
   Everything the processor asks about one path: its kind, File.length(),
   whether a FileInputStream can be opened on it, and File.listFiles()
   (None where Java returns null).
   */
  datatype Node = Node(kind: Kind, length: nat, readable: bool, listing: Option<seq<Entry>>)

  /** A snapshot of the filesystem, keyed by the path string handed to java.io.File. */
  type FileSystem = map<string, Node>

  /** What java.io.File reports for a path that names nothing. */
  const Absent := Node(Missing, 0, false, None)

  function Stat(fs: FileSystem, path: string): (n: Node)
    ensures path !in fs ==> n.kind == Missing
  {
    if path in fs then fs[path] else Absent
  }

  /**
   The values and foreign functions of one connection:
   - hostName, hostAddress, port: the socket's getLocalAddress().getHostName(),
     getLocalAddress().getHostAddress() and getLocalPort();
   - date: the text of `new Date()`;
   - decode: URLDecoder.decode(_, "utf-8"), None where it throws IllegalArgumentException;
   - mimeType: MimetypesFileTypeMap.getContentType for the file at a path;
   - displayPath: File.getPath for a path (java.io.File normalises separators);
   - formatSize: DecimalFormat("#0.00").format of a size.
   */
  datatype Env = Env(
    hostName: string,
    hostAddress: string,
    port: nat,
    date: string,
    decode: string -> Option<string>,
    mimeType: string -> string,
    displayPath: string -> string,
    formatSize: real -> string)
}
