# Snapshot engine of a small content-addressed version-control system

This project models and verifies the snapshot engine of a small version-control
system. The engine has three parts:

- **Walkers** list each directory and subtract that directory's ignore set
  (the names in its `.vcs.ignore`). They turn the remaining children into a
  snapshot: a map from base name to entry. A regular file becomes its content
  hash and a directory becomes its own snapshot.
- **The object store** holds one blob per hash. A blob's path is
  `vcs/objects/<first 6 hex digits>/<hash>.blob`.
- **The reconciler** (`traverse_and_update`) walks the directory again, this
  time against the previously saved JSON snapshot.

The model works over an abstract filesystem, `Fs.Node`:

- a regular file: bytes, and whether it can be opened;
- a directory: a name-to-node map, and whether it can be listed;
- anything else, such as a dangling link.

A path is identified with the node it names. SHA-1 and UTF-8 decoding are
parameters, `Fs.Env`. The store is a class, `Store.ObjectStore`, whose
`blobs` map from path to bytes is updated in place.

The three walkers of the source share one method, `Snapshot.Walk`, which has
two switches:

| walker | honours ignore files | hashes every non-directory |
|---|---|---|
| `traverse` | yes | no: children that are neither file nor directory are skipped |
| `create_hierarchy_of_folders` in `snapshot.rs` | yes | yes |
| `create_hierarchy_of_folders` in `feature.rs` | no | yes |

Each walker's contract ties its result to the specification function
`Snapshot.Build`. It ties whether it panics to `Snapshot.Healthy`, and the
store it leaves behind to `Snapshot.Files`. The reconciler's contract uses the
same functions, which is how it is proved to agree with `traverse`. Its own
panics are characterised by `Reconcile.Compatible`.

`read_file_and_get_hash` exists twice, in `src/feature.rs:55-72` and in
`src/read_write.rs:73-93`. The two bodies are the same, and one method models
both. `snapshot.rs` imports `create_blob_file_and_save` from `read_write.rs`,
which does not define it. The definition in `feature.rs` is the one modelled.

Three behaviours of the reconciler are worth stating on their own:

- **Missing or non-object previous tree.** On either, the code panics
  (`expect("JSON data is None")` and `expect("cant convert to object")` at
  `src/snapshot.rs:48`) before writing any blob. It does not fall back to a
  fresh build. `Reconcile.EmptyPreviousIsTraverse` shows that an *empty
  object* does behave exactly like `traverse`.
- **A name that changed kind.** The code panics rather than rebuilding the
  entry. A file that was a directory hits `as_str().unwrap()` at `:68`. A
  directory that was a file recurses into the reconciler, whose
  `as_object().expect` fails at `:48`.
- **A changed file.** Both branches of the file case record the new hash, and
  the old one is not kept (`:68-73`).

## Model

| member | source | states |
|---|---|---|
| Hex.ToHex | src/feature.rs:69 | the hex rendering has exactly two characters per digest byte |
| Hex.ToHexNibbles | src/feature.rs:69 | characters 2i and 2i+1 are the high and low nibble of byte i, zero-padded, in byte order |
| Hex.ToHexAlphabet | src/read_write.rs:87-90 | every character of the rendering is one of the lower-case digits `0-9a-f` |
| Hex.FromHexToHex | src/read_write.rs:87-90 | parsing the rendering back gives the digest bytes: the rendering loses nothing |
| Hex.ToHexInjective | src/feature.rs:69 | distinct digests have distinct hex strings |
| Hex.DigitValue | src/feature.rs:69 | the source never parses hex; this inverse of the digit rendering (exactly the 16 lower-case digits, each read back to the nibble it renders) serves only to prove that the rendering loses nothing |
| Store.ContentHash | src/feature.rs:63-69 | a content's hash is 40 characters, all lower-case hex |
| Store.ContentHashDeterminesDigest | src/feature.rs:63-69 | equal hash strings mean equal SHA-1 digests |
| Store.ReadFileAndGetHash | src/feature.rs:55-72 | an open failure gives `Err("Failed to open file: " + OS message)` and a read failure gives `Err("Failed to read file: " + OS message)`; it is `Ok` exactly for a readable regular file, and then it holds the file's bytes unchanged and the hash of those bytes |
| Store.ReadPanic | src/feature.rs:77 | `expect("Failed to read file.")` on the `Err` text panics with `Failed to read file.: "<Err text>"`, one of the three messages a save can raise |
| Store.BlobPathLayout | src/feature.rs:78-81 | the blob path is `vcs/objects/`, then the first 6 hash characters, then `/`, the full hash and `.blob`; the hash can be read back out of the path |
| Store.BlobPathInjective | src/feature.rs:78-81 | different hashes are stored at different paths |
| Store.SamePathIffSameDigest | src/feature.rs:76-91 | two contents are written to the same path exactly when their SHA-1 digests are equal |
| Store.ObjectStore.CreateBlobFileAndSave | src/feature.rs:76-92 | succeeds exactly for a readable regular file; then it returns the content hash, the blob path maps to exactly the file's bytes (overwritten unconditionally), and every other path is unchanged; otherwise it panics with `Failed to read file.: "<Err text of read_file_and_get_hash>"` and writes nothing |
| Store.SaveIdempotent | src/feature.rs:84-87 | saving the same content twice leaves the store as one save does |
| Store.SaveKeepsContentAddressed | src/feature.rs:80-87 | after a save, every blob still sits at the path its own content names |
| Store.WroteOne | src/feature.rs:84-87 | one save writes exactly that file's blob |
| Store.WroteTrans | src/feature.rs:84-87 | two batches of saves in sequence write the blobs of both batches, in whichever order |
| Store.WroteSomeKeepsContentAddressed | src/feature.rs:84-87 | an interrupted batch of saves still leaves the store content-addressed |
| Store.WroteExact | src/feature.rs:84-87 | after a batch of saves with no digest collision, each file's blob holds exactly that file |
| Ignore.Lines | src/snapshot.rs:10 | `contents.lines()`: no produced line contains a line feed |
| Ignore.LinesAppend | src/snapshot.rs:10 | a text splits into its first line, with one carriage return before the line feed dropped, followed by the lines of the rest |
| Ignore.LinesSingle | src/snapshot.rs:10 | a non-empty text without a line feed is one line, kept whole |
| Ignore.LinesFromText | src/snapshot.rs:10 | every character of every line comes from the text |
| Ignore.TrimStart | src/snapshot.rs:11 | removes exactly the longest prefix of Unicode whitespace |
| Ignore.TrimEnd | src/snapshot.rs:17 | removes exactly the longest suffix of Unicode whitespace |
| Ignore.TrimEmptyIffBlank | src/snapshot.rs:11 | a line trims to nothing exactly when it is all whitespace |
| Ignore.ReadIgnoreFile | src/snapshot.rs:7-23 | the loop's set is the ignore set of the file's text, one rule per line; nothing when the file cannot be read as UTF-8 text |
| Ignore.NoIgnoreFileIgnoresNothing | src/snapshot.rs:8-9 | a missing or unreadable ignore file gives the empty set |
| Ignore.BlankTextIgnoresNothing | src/snapshot.rs:10-11 | a text of only blank or whitespace lines gives the empty set |
| Ignore.SlashLineKept | src/snapshot.rs:12-13 | a line `/name` longer than one character contributes exactly `name` and nothing else, untrimmed, even when `name` starts with `#` |
| Ignore.CommentLineIgnored | src/snapshot.rs:14-15 | a line starting with `#` contributes nothing, whether it ends in `\n` or in `\r\n` |
| Ignore.PlainLineKept | src/snapshot.rs:16-17 | any other non-blank line, including a lone `/`, contributes exactly itself trimmed and nothing else |
| Ignore.LineRuleWellFormed | src/snapshot.rs:11-18 | what a line contributes is non-empty and made of that line's characters |
| Ignore.IgnoredNamesWellFormed | src/snapshot.rs:10-18 | every ignored name is non-empty and contains no line feed |
| Ignore.ParseIgnoreAppend | src/snapshot.rs:10-20 | lines are independent: the ignore set of a text is the set of its first line, less one `\r` before the `\n`, together with the set of the rest |
| Ignore.ParseIgnoreByLines | src/snapshot.rs:10-20 | the ignore set of a text is exactly the union of the sets of the lines `lines()` yields |
| Ignore.IsIgnoredIffSomeLine | src/snapshot.rs:25-28 | specifies `is_ignored` against the ignore file: a name is ignored exactly when some line of the ignore file contributes that very name: no pattern, no path, no case folding |
| Ignore.FilterIgnored | src/snapshot.rs:151-177 | the loop that asks `is_ignored` about each entry, telling it whether the entry is a folder, keeps exactly the listing less the ignore set, whatever the folder flag says |
| Snapshot.GetCurrentDirEntities | src/snapshot.rs:211-238 | the base names of all direct children, of every kind; empty for a directory that cannot be listed |
| Snapshot.BuildShape | src/snapshot.rs:114-128 | the keys of a snapshot are exactly the effective files and directories; a file maps to its content hash and a directory to its own snapshot |
| Snapshot.BuildKeys | src/snapshot.rs:103-104 | every key is a listed name outside the ignore set, so no ignored name is ever a key |
| Snapshot.EmptyDirectoryEmptySnapshot | src/snapshot.rs:110-111 | a directory with no effective children has the empty snapshot |
| Snapshot.IgnoreFileHashed | src/snapshot.rs:100-104 | `.vcs.ignore` is itself hashed into the snapshot, unless it lists itself |
| Snapshot.StrictImpliesLenient | src/snapshot.rs:148-179 | hashing every non-directory only adds panics: when the strict walk succeeds, so does `traverse` |
| Snapshot.IgnoreFreeAgreement | src/feature.rs:100-117 | on a tree without ignore sets, the walks that honour ignore files agree with the ignore-free one on the snapshot and on whether they panic |
| Snapshot.WalkAdvance | src/snapshot.rs:114-128 | visiting one more child adds its entry to the map and its files to the store |
| Snapshot.WalkAbort | src/snapshot.rs:120-122 | a panic in one child aborts the walk, leaving a subset of the walk's blobs written |
| Snapshot.VisitChild | src/snapshot.rs:120-128 | a directory is walked and a regular file is hashed and stored; in a strict walk any other child is hashed too and panics, otherwise it is skipped |
| Snapshot.VisitEach | src/snapshot.rs:110-130 | the loop over the effective names builds their part of the snapshot and writes their blobs; it panics exactly when one of them does |
| Snapshot.Walk | src/snapshot.rs:92-132 | the walk panics exactly when some effective file below it cannot be read (in a strict walk, also any effective child that is neither file nor directory); otherwise it returns the snapshot of the effective children and writes every effective file's blob, and on a panic the blobs written are a subset of those |
| Snapshot.Traverse | src/snapshot.rs:92-132 | `traverse`: the walk that honours ignore files and skips children that are neither files nor directories |
| Snapshot.CreateHierarchyOfFolders | src/snapshot.rs:134-184 | the walk that honours ignore files, filtering each entry through `is_ignored`, and hashes every non-directory, so any other child makes it panic |
| Feature.CreateHierarchyOfFolders | src/feature.rs:97-120 | the walk that reads no ignore file and hashes every non-directory |
| Feature.NothingExcluded | src/feature.rs:100-117 | when the ignore-free builder succeeds, every listed child is a key |
| Reconcile.EntryJson | src/snapshot.rs:70-82 | a file entry is saved as a JSON string and a directory entry as a JSON object |
| Reconcile.TreeJson | src/snapshot.rs:79-82 | a snapshot is saved as an object with the same keys |
| Reconcile.JsonEntryRoundTrip | src/snapshot.rs:70-82 | reading a saved entry back gives the entry: saving loses nothing |
| Reconcile.TraverseAndUpdate | src/snapshot.rs:29-90 | panics with "JSON data is None" exactly on a missing previous tree and with "cant convert to object" on a non-object one, in both cases before writing any blob; otherwise it succeeds exactly when the previous tree is compatible, and then returns what `traverse` returns and writes the same blobs |
| Reconcile.UpdateEach | src/snapshot.rs:55-88 | the loop over the effective names builds the same entries as `traverse`'s loop; it panics exactly when one name is incompatible with its previous entry |
| Reconcile.UpdateChild | src/snapshot.rs:59-86 | a file is hashed and then its previous entry must be a string; a directory is reconciled against its previous entry, or walked fresh when there is none; other children are skipped |
| Reconcile.CompatibleImpliesHealthy | src/snapshot.rs:75-84 | whenever the reconciler succeeds, `traverse` on the same tree succeeds too (the two contracts then give the same snapshot) |
| Reconcile.ChildCompatibleImpliesHealthy | src/snapshot.rs:77-82 | a child the reconciler visits without panicking is one `traverse` visits without panicking |
| Reconcile.SelfCompatible | src/snapshot.rs:77-79 | reconciling an unchanged tree against its own saved snapshot does not panic |
| Reconcile.EmptyPreviousIsTraverse | src/snapshot.rs:48-50 | against an empty previous object, the reconciler panics exactly when `traverse` does |
| Reconcile.FileBecameDirectoryPanics | src/snapshot.rs:77-78 | a name saved as a file (a string) that is now a directory makes the reconciler panic |
| Reconcile.DirectoryBecameFilePanics | src/snapshot.rs:68 | a name saved as a directory (an object) that is now a file makes the reconciler panic |

## Left out

- SHA-1 and UTF-8 decoding are parameters (`Fs.Env`). SHA-1 is only assumed to return 20 bytes.
- Real filesystem I/O is not modelled: path strings, `Path::join`, `is_file`/`is_dir`, `fs::read_dir` and the creation of shard folders. A shard folder exists exactly when a blob in it does.
- The store is taken to lie outside the walked tree, so blobs written during a walk never show up in the same walk.
- Write failures ("Cannot create blob file", "Cannot write content to blob file") are not modelled. A save of a readable file always succeeds.
- Non-UTF-8 file names, where `to_str().unwrap()` would panic, are not modelled. Names are strings.
- Snapshot.Walk: when several children would panic, which one panics first depends on `HashSet` iteration order. The contract says only that the message is one of the three read panics of `Store.ReadPanics` and that the blobs written are a subset of the walk's blobs.
- Reconcile.TraverseAndUpdate: for the same reason, the contract says only that a nested panic's message is one of the possible messages, not which.
- Special files are not modelled. `Fs.Node.Other` stands only for a child that is neither file nor directory and fails to open with `NotFound`, such as a dangling symbolic link. The source behaves differently on other kinds, and the model does not capture it:
  - a character device opens and reads, so the strict walks (`src/snapshot.rs:176`, `src/feature.rs:111`) hash it instead of panicking;
  - opening a FIFO blocks;
  - opening a Unix socket fails with "No such device or address (os error 6)", not with `NotFound`.
- Symbolic-link cycles cannot be expressed: a `Fs.Node` is a finite tree. On such a cycle `traverse` descends until the OS refuses the path.
- Store.ExpectPanic: the `Debug` form of an error string is modelled as the string in quotes. The error texts that occur hold no quote, backslash or control character, which `Debug` would escape.
- The order of keys in the produced JSON objects is not modelled. A snapshot is a map.
- JSON parsing and serialisation (`read_hierarchy_from_file`, `save_hierarchy_to_file`), `print_hierarchy` and all `println!` logging are left out. They are library calls and output.
- `src/controller.rs`, `src/main.rs`, `src/definition.rs` and the file helpers in `src/read_write.rs` and `src/feature.rs` are left out. They are command-line and configuration glue.
