/** The content-addressed object store: hashing a file, the blob layout
    `vcs/objects/<first 6 hex digits>/<hash>.blob`, and the store write. */
module Store {

  import opened Wrappers
  import opened Hex
  import opened Fs

  /** The name of a content: its SHA-1 digest in lower-case hex. */
  function ContentHash(env: Env, data: Bytes): (h: string)
    ensures |h| == 40
    ensures forall c | c in h :: c in Digits
  {
    ToHexAlphabet(env.sha1(data));
    ToHex(env.sha1(data))
  }

  /** Equal hashes mean equal digests: the hex rendering adds no collisions. */
  lemma ContentHashDeterminesDigest(env: Env, a: Bytes, b: Bytes)
    requires ContentHash(env, a) == ContentHash(env, b)
    ensures env.sha1(a) == env.sha1(b)
  {
    ToHexInjective(env.sha1(a), env.sha1(b));
  }

  const ObjectsDir: string := "vcs/objects/"

  /** The shard directory of a hash: its first six characters under the objects directory. */
  function ShardFolder(hash: string): string
    requires |hash| >= 6
  {
    ObjectsDir + hash[..6]
  }

  function BlobPath(hash: string): string
    requires |hash| >= 6
  {
    ShardFolder(hash) + "/" + hash + ".blob"
  }

  /** Reads the hash back out of a blob path. */
  function HashOfBlobPath(path: string): string
  {
    if |path| >= 24 then path[19..|path| - 5] else ""
  }

  /** The blob path is the objects directory, the 6-character shard, and the full hash. */
  lemma BlobPathLayout(hash: string)
    requires |hash| >= 6
    ensures var p := BlobPath(hash);
      && |p| == |hash| + 24
      && p[..12] == ObjectsDir
      && p[12..18] == hash[..6]
      && p[18] == '/'
      && p[|p| - 5..] == ".blob"
      && HashOfBlobPath(p) == hash
  {
    var p := BlobPath(hash);
    assert p == ObjectsDir + hash[..6] + "/" + hash + ".blob";
    assert p[19..|p| - 5] == hash;
  }

  /** Different hashes are stored at different paths. */
  lemma BlobPathInjective(h1: string, h2: string)
    requires |h1| >= 6 && |h2| >= 6
    requires BlobPath(h1) == BlobPath(h2)
    ensures h1 == h2
  {
    BlobPathLayout(h1);
    BlobPathLayout(h2);
  }

  function BlobPathOf(env: Env, data: Bytes): string
  {
    BlobPath(ContentHash(env, data))
  }

  /** Two contents share a blob path exactly when their digests are equal. */
  lemma SamePathIffSameDigest(env: Env, a: Bytes, b: Bytes)
    ensures BlobPathOf(env, a) == BlobPathOf(env, b) <==> env.sha1(a) == env.sha1(b)
  {
    if BlobPathOf(env, a) == BlobPathOf(env, b) {
      BlobPathInjective(ContentHash(env, a), ContentHash(env, b));
      ContentHashDeterminesDigest(env, a, b);
    }
  }

  /** An abort of the process (`expect`, `unwrap`), with its message. */
  datatype Panic = Panic(message: string)

  /** The panic of `Result::expect(msg)` on `Err(err)` for a string error: the
      message, a colon and the error's `Debug` form, which quotes it. The error
      texts met here hold no character that `Debug` would escape. */
  function ExpectPanic(msg: string, err: string): Panic
  {
    Panic(msg + ": \"" + err + "\"")
  }

  /** A file `read_file_and_get_hash` can read to the end. */
  predicate Readable(target: Option<Node>)
  {
    target.Some? && target.value.File? && target.value.readable
  }

  /** The `Err` text of `read_file_and_get_hash` for a target it cannot read. */
  function ReadFailure(target: Option<Node>): string
    requires !Readable(target)
  {
    if OpenError(target).Some? then "Failed to open file: " + Describe(OpenError(target).value)
    else "Failed to read file: " + Describe(ReadAll(target).error)
  }

  /** The panics `create_blob_file_and_save` can raise, one per way a file can fail. */
  const ReadPanics: set<Panic> := {
    ExpectPanic("Failed to read file.", "Failed to open file: " + Describe(NotFound)),
    ExpectPanic("Failed to read file.", "Failed to open file: " + Describe(PermissionDenied)),
    ExpectPanic("Failed to read file.", "Failed to read file: " + Describe(IsADirectory))
  }

  /** The panic of `create_blob_file_and_save` on a target it cannot read. */
  function ReadPanic(target: Option<Node>): (p: Panic)
    requires !Readable(target)
    ensures p in ReadPanics
  {
    ExpectPanic("Failed to read file.", ReadFailure(target))
  }

  /** Opens the file `target`, reads all of it and hashes it. */
  method ReadFileAndGetHash(env: Env, target: Option<Node>) returns (r: Result<(Bytes, string), string>)
    ensures OpenError(target).Some? ==> r == Err("Failed to open file: " + Describe(OpenError(target).value))
    ensures OpenError(target).None? && ReadAll(target).Err? ==> r == Err("Failed to read file: " + Describe(ReadAll(target).error))
    ensures r.Ok? <==> Readable(target)
    ensures r.Err? ==> r.error == ReadFailure(target)
    ensures r.Ok? ==> r.value.0 == target.value.data && r.value.1 == ContentHash(env, target.value.data)
  {
    var openFailure := OpenError(target);
    if openFailure.Some? {
      return Err("Failed to open file: " + Describe(openFailure.value));
    }
    var content := ReadAll(target);
    if content.Err? {
      return Err("Failed to read file: " + Describe(content.error));
    }
    var digest := env.sha1(content.value);
    var hashString := ToHex(digest);
    r := Ok((content.value, hashString));
  }

  /** Every blob sits at the path its own content names. */
  ghost predicate ContentAddressed(env: Env, blobs: map<string, Bytes>)
  {
    forall p | p in blobs :: p == BlobPathOf(env, blobs[p])
  }

  /** `after` is `before` with blobs of some of `files` written: nothing is removed,
      and every changed or new entry holds one of `files` at its own blob path.
      This is what any prefix of a walk leaves behind, in any order. */
  ghost predicate WroteSome(env: Env, before: map<string, Bytes>, after: map<string, Bytes>, files: iset<Bytes>)
  {
    && before.Keys <= after.Keys
    && forall p | p in after ::
         (p in before && after[p] == before[p]) || (after[p] in files && BlobPathOf(env, after[p]) == p)
  }

  /** `after` is `before` with the blob of every one of `files` written. When two
      files collide on a digest the last one written wins, so the blob found at a
      path is some file of `files` with that path, not necessarily a given one. */
  ghost predicate Wrote(env: Env, before: map<string, Bytes>, after: map<string, Bytes>, files: iset<Bytes>)
  {
    && WroteSome(env, before, after, files)
    && forall f | f in files ::
         BlobPathOf(env, f) in after && after[BlobPathOf(env, f)] in files
         && BlobPathOf(env, after[BlobPathOf(env, f)]) == BlobPathOf(env, f)
  }

  lemma WroteNothing(env: Env, blobs: map<string, Bytes>)
    ensures Wrote(env, blobs, blobs, iset{})
  {
  }

  lemma WroteOne(env: Env, blobs: map<string, Bytes>, data: Bytes)
    ensures Wrote(env, blobs, blobs[BlobPathOf(env, data) := data], iset{data})
  {
  }

  lemma WroteSomeWeaken(env: Env, a: map<string, Bytes>, b: map<string, Bytes>, f1: iset<Bytes>, f2: iset<Bytes>)
    requires WroteSome(env, a, b, f1)
    requires f1 <= f2
    ensures WroteSome(env, a, b, f2)
  {
  }

  lemma WroteSomeTrans(env: Env, a: map<string, Bytes>, b: map<string, Bytes>, c: map<string, Bytes>, f1: iset<Bytes>, f2: iset<Bytes>)
    requires WroteSome(env, a, b, f1)
    requires WroteSome(env, b, c, f2)
    ensures WroteSome(env, a, c, f1 + f2)
  {
  }

  /** Two writes in sequence write the union of their files. */
  lemma WroteTrans(env: Env, a: map<string, Bytes>, b: map<string, Bytes>, c: map<string, Bytes>, f1: iset<Bytes>, f2: iset<Bytes>)
    requires Wrote(env, a, b, f1)
    requires Wrote(env, b, c, f2)
    ensures Wrote(env, a, c, f1 + f2)
  {
    WroteSomeTrans(env, a, b, c, f1, f2);
    forall f | f in f1 + f2
      ensures BlobPathOf(env, f) in c && c[BlobPathOf(env, f)] in f1 + f2
      ensures BlobPathOf(env, c[BlobPathOf(env, f)]) == BlobPathOf(env, f)
    {
      var p := BlobPathOf(env, f);
      if f !in f2 {
        assert p in b && b[p] in f1 && BlobPathOf(env, b[p]) == p;
        assert p in c;
      }
    }
  }

  /** A write keeps a content-addressed store content-addressed. */
  lemma WroteSomeKeepsContentAddressed(env: Env, a: map<string, Bytes>, b: map<string, Bytes>, files: iset<Bytes>)
    requires ContentAddressed(env, a)
    requires WroteSome(env, a, b, files)
    ensures ContentAddressed(env, b)
  {
  }

  /** Without digest collisions among the files, each file's blob is exactly that file. */
  lemma WroteExact(env: Env, a: map<string, Bytes>, b: map<string, Bytes>, files: iset<Bytes>, f: Bytes)
    requires Wrote(env, a, b, files)
    requires forall g, h | g in files && h in files :: env.sha1(g) == env.sha1(h) ==> g == h
    requires f in files
    ensures BlobPathOf(env, f) in b && b[BlobPathOf(env, f)] == f
  {
    var g := b[BlobPathOf(env, f)];
    SamePathIffSameDigest(env, g, f);
  }

  /** The object store: the blob files under `vcs/objects`, by path. A shard
      folder exists exactly when a blob in it does. */
  class ObjectStore {
    var blobs: map<string, Bytes>

    constructor ()
      ensures blobs == map[]
    {
      blobs := map[];
    }

    /** Hashes the file `target`, creates its shard folder if missing and
        (over)writes its blob. Panics, writing nothing, when the file cannot be read. */
    method CreateBlobFileAndSave(env: Env, target: Option<Node>) returns (r: Result<string, Panic>)
      modifies this
      ensures r.Ok? <==> Readable(target)
      ensures r.Err? ==> r.error == ReadPanic(target) && blobs == old(blobs)
      ensures r.Ok? ==>
        && r.value == ContentHash(env, target.value.data)
        && blobs == old(blobs)[BlobPath(r.value) := target.value.data]
    {
      var read := ReadFileAndGetHash(env, target);
      if read.Err? {
        return Err(ExpectPanic("Failed to read file.", read.error));
      }
      var (content, hashString) := read.value;
      var folderName := ShardFolder(hashString);
      var blobFilename := folderName + "/" + hashString + ".blob";
      blobs := blobs[blobFilename := content];
      r := Ok(hashString);
    }
  }

  /** Saving the same content twice leaves the store as one save does. */
  lemma SaveIdempotent(env: Env, blobs: map<string, Bytes>, data: Bytes)
    ensures var once := blobs[BlobPathOf(env, data) := data];
      once[BlobPathOf(env, data) := data] == once
  {
  }

  /** Saving keeps a content-addressed store content-addressed. */
  lemma SaveKeepsContentAddressed(env: Env, blobs: map<string, Bytes>, data: Bytes)
    requires ContentAddressed(env, blobs)
    ensures ContentAddressed(env, blobs[BlobPathOf(env, data) := data])
  {
  }

}
