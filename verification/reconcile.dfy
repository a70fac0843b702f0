/** Reconciling the current directory against a previously saved snapshot
    (`traverse_and_update`): the same walk as `traverse`, consulting the
    previous JSON tree on the way. */
module Reconcile {

  import opened Wrappers
  import opened Fs
  import opened Ignore
  import opened Store
  import opened Snapshot

  /** A parsed JSON value, as far as the reconciler tells values apart: a string,
      an object, or anything else (null, a boolean, a number, an array). */
  datatype Json = JStr(s: string) | JObj(fields: map<string, Json>) | JOther

  const NonePanic: Panic := Panic("JSON data is None")
  const ObjectPanic: Panic := Panic("cant convert to object")
  const UnwrapPanic: Panic := Panic("called `Option::unwrap()` on a `None` value")

  /** The JSON value a snapshot entry is saved as: a file's hash as a string, a
      directory as an object. */
  function EntryJson(e: Entry): (j: Json)
    ensures e.FileEntry? <==> j.JStr?
    ensures e.DirEntry? <==> j.JObj?
    decreases e, 1
  {
    match e
    case FileEntry(hash) => JStr(hash)
    case DirEntry(children) => TreeJson(children)
  }

  /** The JSON object a snapshot is saved as. */
  function TreeJson(t: Tree): (j: Json)
    ensures j.JObj? && j.fields.Keys == t.Keys
    decreases DirEntry(t), 0
  {
    JObj(map n | n in t :: EntryJson(t[n]))
  }

  /** Reading a saved entry back; `None` for a value no snapshot produces. */
  function JsonEntry(j: Json): Option<Entry>
  {
    match j
    case JStr(hash) => Some(FileEntry(hash))
    case JObj(fields) =>
      if forall n | n in fields :: JsonEntry(fields[n]).Some? then
        Some(DirEntry(map n | n in fields :: JsonEntry(fields[n]).value))
      else None
    case JOther => None
  }

  /** Saving an entry loses nothing. */
  lemma {:induction false} JsonEntryRoundTrip(e: Entry)
    ensures JsonEntry(EntryJson(e)) == Some(e)
  {
    match e
    case FileEntry(_) =>
    case DirEntry(children) =>
      var fields := TreeJson(children).fields;
      forall n | n in fields
        ensures JsonEntry(fields[n]) == Some(children[n])
      {
        JsonEntryRoundTrip(children[n]);
      }
      var back := JsonEntry(JObj(fields));
      assert back.Some? && back.value.children.Keys == children.Keys;
      assert back.value.children == children;
  }

  // ---------------------------------------------------------------------------
  // When the reconciler does not panic: the previous tree is an object, every
  // current file that it names is named there by a string, and every current
  // directory that it names is named there by a tree that is compatible in turn.
  // Directories it does not name are walked fresh, so they must only be healthy.
  // ---------------------------------------------------------------------------

  /** The visit of `names` of `dir` against the previous entries `fields` does not panic. */
  ghost predicate CompatibleOver(env: Env, fields: map<string, Json>, dir: Node, names: set<Name>)
    decreases dir, 0
  {
    dir.Dir? ==>
      forall n | n in names && n in dir.children :: CompatibleChild(env, fields, n, dir.children[n])
  }

  /** Reconciling `dir` against the previous tree `prev` does not panic. */
  ghost predicate Compatible(env: Env, prev: Json, dir: Node)
    decreases dir, 1
  {
    prev.JObj? && CompatibleOver(env, prev.fields, dir, Effective(env, dir, true))
  }

  ghost predicate CompatibleChild(env: Env, fields: map<string, Json>, n: Name, child: Node)
    decreases child, 2
  {
    match child
    case File(_, readable) => readable && (n in fields ==> fields[n].JStr?)
    case Dir(_, _) => if n in fields then Compatible(env, fields[n], child) else Healthy(env, child, true, false)
    case Other => true
  }

  // ---------------------------------------------------------------------------
  // The reconciler.
  // ---------------------------------------------------------------------------

  /** `traverse_and_update`: panics on a missing or non-object previous tree;
      otherwise visits each effective child, recursing with the previous subtree
      into directories the previous tree names and walking the others fresh. */
  method TraverseAndUpdate(store: ObjectStore, env: Env, previous: Option<Json>, currentPath: Node)
    returns (r: Result<Tree, Panic>)
    modifies store
    decreases currentPath, 1
    ensures r.Ok? <==> previous.Some? && Compatible(env, previous.value, currentPath)
    ensures previous.None? ==> r == Err(NonePanic)
    ensures previous.Some? && !previous.value.JObj? ==> r == Err(ObjectPanic)
    ensures previous.None? || !previous.value.JObj? ==> store.blobs == old(store.blobs)
    ensures r.Ok? ==> r.value == Build(env, currentPath, true)
    ensures r.Ok? ==> Wrote(env, old(store.blobs), store.blobs, Files(env, currentPath, true))
    ensures r.Err? ==>
      && r.error in {NonePanic, ObjectPanic, UnwrapPanic} + ReadPanics
      && (r.error == NonePanic <==> previous.None?)
      && WroteSome(env, old(store.blobs), store.blobs, Files(env, currentPath, true))
  {
    var wholeList := GetCurrentDirEntities(currentPath);
    var ignoreList := ReadIgnoreFile(env, Child(currentPath, IgnoreFileName));
    var actualList := wholeList - ignoreList;
    assert actualList == Effective(env, currentPath, true);
    if previous.None? {
      return Err(NonePanic);
    }
    if !previous.value.JObj? {
      return Err(ObjectPanic);
    }
    var previousListMap := previous.value.fields;
    r := UpdateEach(store, env, previousListMap, currentPath, actualList);
  }

  /** The loop of the reconciler over `actualList`; the first panic aborts it. */
  method UpdateEach(store: ObjectStore, env: Env, previousListMap: map<string, Json>, dir: Node, actualList: set<Name>)
    returns (r: Result<Tree, Panic>)
    requires actualList <= Listing(dir)
    modifies store
    decreases dir, 0
    ensures r.Ok? <==> CompatibleOver(env, previousListMap, dir, actualList)
    ensures r.Ok? ==> r.value == BuildOver(env, dir, true, actualList)
    ensures r.Ok? ==> Wrote(env, old(store.blobs), store.blobs, FilesOver(env, dir, true, actualList))
    ensures r.Err? ==>
      && r.error in {ObjectPanic, UnwrapPanic} + ReadPanics
      && WroteSome(env, old(store.blobs), store.blobs, FilesOver(env, dir, true, actualList))
  {
    var folderStructure: Tree := map[];
    var todo := actualList;
    ghost var done: set<Name> := {};
    WroteNothing(env, store.blobs);
    while todo != {}
      invariant todo <= actualList && done == actualList - todo
      invariant CompatibleOver(env, previousListMap, dir, done)
      invariant folderStructure == BuildOver(env, dir, true, done)
      invariant Wrote(env, old(store.blobs), store.blobs, FilesOver(env, dir, true, done))
      decreases |todo|
    {
      var entity :| entity in todo;
      var child := dir.children[entity];
      ghost var mid := store.blobs;
      var visited := UpdateChild(store, env, previousListMap, entity, child);
      if visited.Err? {
        WalkAbort(env, dir, true, actualList, done, entity, old(store.blobs), mid, store.blobs);
        return Err(visited.error);
      }
      WalkAdvance(env, dir, true, done, entity, folderStructure, visited.value, old(store.blobs), mid, store.blobs);
      if visited.value.Some? {
        folderStructure := folderStructure[entity := visited.value.value];
      }
      todo := todo - {entity};
      done := done + {entity};
    }
    assert done == actualList;
    r := Ok(folderStructure);
  }

  /** One child of the reconciler: a file is hashed and stored and its previous
      entry, if any, read as a string; a directory is reconciled against its
      previous entry or, when there is none, walked fresh; anything else is skipped. */
  method UpdateChild(store: ObjectStore, env: Env, previousListMap: map<string, Json>, entity: Name, child: Node)
    returns (r: Result<Option<Entry>, Panic>)
    modifies store
    decreases child, 2
    ensures r.Ok? <==> CompatibleChild(env, previousListMap, entity, child)
    ensures r.Ok? ==> r.value == if child.Other? then None else Some(BuildEntry(env, child, true))
    ensures r.Ok? ==> Wrote(env, old(store.blobs), store.blobs, ChildFiles(env, child, true))
    ensures r.Err? ==>
      && r.error in {ObjectPanic, UnwrapPanic} + ReadPanics
      && WroteSome(env, old(store.blobs), store.blobs, ChildFiles(env, child, true))
  {
    if child.File? {
      ghost var before := store.blobs;
      var fileHash := store.CreateBlobFileAndSave(env, Some(child));
      if fileHash.Err? {
        return Err(fileHash.error);
      }
      WroteOne(env, before, child.data);
      if entity in previousListMap.Keys && !previousListMap[entity].JStr? {
        return Err(UnwrapPanic);
      }
      // changed or not, the new hash is what is recorded
      r := Ok(Some(FileEntry(fileHash.value)));
    } else if child.Dir? {
      var nested;
      if entity in previousListMap.Keys {
        nested := TraverseAndUpdate(store, env, Some(previousListMap[entity]), child);
      } else {
        nested := Traverse(store, env, child);
      }
      if nested.Err? {
        return Err(nested.error);
      }
      r := Ok(Some(DirEntry(nested.value)));
    } else {
      WroteNothing(env, store.blobs);
      r := Ok(None);
    }
  }

  // ---------------------------------------------------------------------------
  // Properties of the reconciler.
  // ---------------------------------------------------------------------------

  /** Whenever the reconciler succeeds, `traverse` of the same tree succeeds too
      (and, by the two methods' contracts, yields the same snapshot). */
  lemma {:induction false} CompatibleImpliesHealthy(env: Env, prev: Json, dir: Node)
    requires Compatible(env, prev, dir)
    ensures Healthy(env, dir, true, false)
    decreases dir, 1
  {
    if dir.Dir? {
      forall n | n in Effective(env, dir, true) && n in dir.children
        ensures ChildHealthy(env, dir.children[n], true, false)
      {
        ChildCompatibleImpliesHealthy(env, prev.fields, n, dir.children[n]);
      }
    }
  }

  lemma {:induction false} ChildCompatibleImpliesHealthy(env: Env, fields: map<string, Json>, n: Name, child: Node)
    requires CompatibleChild(env, fields, n, child)
    ensures ChildHealthy(env, child, true, false)
    decreases child, 2
  {
    if child.Dir? && n in fields {
      CompatibleImpliesHealthy(env, fields[n], child);
    }
  }

  /** Reconciling an unchanged tree against its own saved snapshot does not panic. */
  lemma {:induction false} SelfCompatible(env: Env, dir: Node)
    requires Healthy(env, dir, true, false)
    ensures Compatible(env, TreeJson(Build(env, dir, true)), dir)
    decreases dir
  {
    var snapshot := Build(env, dir, true);
    var fields := TreeJson(snapshot).fields;
    assert forall n | n in snapshot :: fields[n] == EntryJson(snapshot[n]);
    if dir.Dir? {
      forall n | n in Effective(env, dir, true) && n in dir.children
        ensures CompatibleChild(env, fields, n, dir.children[n])
      {
        var child := dir.children[n];
        assert ChildHealthy(env, child, true, false);
        BuildShape(env, dir, true, n);
        if child.Dir? {
          assert snapshot[n] == DirEntry(Build(env, child, true));
          assert fields[n] == TreeJson(Build(env, child, true));
          SelfCompatible(env, child);
        }
      }
    }
  }

  /** An empty previous object makes the reconciler the fresh walk: it panics
      exactly when `traverse` does. A missing previous tree panics at once. */
  lemma EmptyPreviousIsTraverse(env: Env, dir: Node)
    ensures Compatible(env, JObj(map[]), dir) <==> Healthy(env, dir, true, false)
  {
    if dir.Dir? {
      forall n | n in Effective(env, dir, true) && n in dir.children
        ensures CompatibleChild(env, map[], n, dir.children[n]) <==> ChildHealthy(env, dir.children[n], true, false)
      {
      }
    }
  }

  /** A name that was a file (a string) and is now a directory makes the reconciler panic. */
  lemma FileBecameDirectoryPanics(env: Env, prev: Json, dir: Node, n: Name)
    requires prev.JObj? && dir.Dir?
    requires n in Effective(env, dir, true) && dir.children[n].Dir?
    requires n in prev.fields && !prev.fields[n].JObj?
    ensures !Compatible(env, prev, dir)
  {
    assert !CompatibleChild(env, prev.fields, n, dir.children[n]);
  }

  /** A name that was a directory (an object) and is now a file makes the reconciler panic. */
  lemma DirectoryBecameFilePanics(env: Env, prev: Json, dir: Node, n: Name)
    requires prev.JObj? && dir.Dir?
    requires n in Effective(env, dir, true) && dir.children[n].File?
    requires n in prev.fields && !prev.fields[n].JStr?
    ensures !Compatible(env, prev, dir)
  {
    assert !CompatibleChild(env, prev.fields, n, dir.children[n]);
  }

}
