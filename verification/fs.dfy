/** The filesystem the snapshot engine walks, as a value, and the two
    library services it relies on (SHA-1 and UTF-8 decoding) as parameters. */
module Fs {

  import opened Wrappers
  import opened Hex

  type Bytes = seq<Byte>

  /** A base name inside one directory. */
  type Name = string

  /** What a path names.
      - `File`: a regular file; `readable` is false when opening it fails.
      - `Dir`: a directory; `listable` is false when `fs::read_dir` fails on it,
        and then none of its children can be reached either.
      - `Other`: neither a regular file nor a directory, and opening it fails
        with `NotFound`: a dangling symbolic link. `is_file` and `is_dir` are
        both false. */
  datatype Node =
    | File(data: Bytes, readable: bool)
    | Dir(children: map<Name, Node>, listable: bool)
    | Other

  /** A SHA-1 digest is 20 bytes. */
  type Digest = d: seq<Byte> | |d| == 20 witness seq(20, i => 0)

  /** The library services: the `sha1` crate's digest and `String::from_utf8`. */
  datatype Env = Env(sha1: Bytes -> Digest, utf8: Bytes -> Option<string>)

  /** The names `fs::read_dir` yields for `dir`: every direct child, of every kind;
      nothing when the directory cannot be read or is not a directory. */
  function Listing(dir: Node): set<Name>
  {
    if dir.Dir? && dir.listable then dir.children.Keys else {}
  }

  /** What `dir.join(name)` names. */
  function Child(dir: Node, name: Name): Option<Node>
  {
    if dir.Dir? && dir.listable && name in dir.children then Some(dir.children[name]) else None
  }

  /** The operating-system errors the core can meet when opening or reading a file. */
  datatype OsError = NotFound | PermissionDenied | IsADirectory

  /** `io::Error`'s `Display` text on Linux. */
  function Describe(e: OsError): string
  {
    match e
    case NotFound => "No such file or directory (os error 2)"
    case PermissionDenied => "Permission denied (os error 13)"
    case IsADirectory => "Is a directory (os error 21)"
  }

  /** Opening a path for reading: `File::open`. A directory opens (reading it then fails). */
  function OpenError(target: Option<Node>): Option<OsError>
  {
    match target
    case None => Some(NotFound)
    case Some(File(_, readable)) => if readable then None else Some(PermissionDenied)
    case Some(Dir(_, _)) => None
    case Some(Other) => Some(NotFound)
  }

  /** Reading an opened path to the end: `read_to_end`. */
  function ReadAll(target: Option<Node>): Result<Bytes, OsError>
    requires OpenError(target).None?
  {
    match target
    case Some(File(data, _)) => Ok(data)
    case _ => Err(IsADirectory)
  }

}
