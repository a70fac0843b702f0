/** Building a snapshot of a directory tree: every effective regular file
    becomes its content hash (its blob written to the store), every effective
    directory its own snapshot. */
module Snapshot {

  import opened Wrappers
  import opened Fs
  import opened Ignore
  import opened Store

  /** One entry of a snapshot: the JSON string of a file's hash or the JSON object of a directory. */
  datatype Entry = FileEntry(hash: string) | DirEntry(children: map<Name, Entry>)

  /** The snapshot of one directory: base name to entry. */
  type Tree = map<Name, Entry>

  /** The children a walk visits: every listed name, less the directory's own
      ignore set when the walk honours ignore files. */
  function Effective(env: Env, dir: Node, honour: bool): set<Name>
  {
    Listing(dir) - (if honour then IgnoreListAt(env, dir) else {})
  }

  // ---------------------------------------------------------------------------
  // What a walk yields, as functions of the tree.
  //
  // `honour`: the walk subtracts each directory's ignore set.
  // `strict`: the walk hashes every child that is not a directory, so a child
  //           that is neither file nor directory makes it panic; otherwise such
  //           children are skipped.
  // ---------------------------------------------------------------------------

  /** A walk over `names` of `dir` does not panic. */
  ghost predicate HealthyOver(env: Env, dir: Node, honour: bool, strict: bool, names: set<Name>)
    decreases dir, 0
  {
    dir.Dir? ==>
      forall n | n in names && n in dir.children :: ChildHealthy(env, dir.children[n], honour, strict)
  }

  /** The walk of `dir` does not panic. */
  ghost predicate Healthy(env: Env, dir: Node, honour: bool, strict: bool)
    decreases dir, 1
  {
    HealthyOver(env, dir, honour, strict, Effective(env, dir, honour))
  }

  /** Visiting one child does not panic: a file must open, a directory's own walk
      must not panic, and other nodes are fine only when skipped. */
  ghost predicate ChildHealthy(env: Env, child: Node, honour: bool, strict: bool)
    decreases child, 2
  {
    match child
    case File(_, readable) => readable
    case Dir(_, _) => Healthy(env, child, honour, strict)
    case Other => !strict
  }

  /** The entries of `names` of `dir`. */
  function BuildOver(env: Env, dir: Node, honour: bool, names: set<Name>): Tree
    decreases dir, 0
  {
    if dir.Dir? then
      map n | n in names && n in dir.children && !dir.children[n].Other? :: BuildEntry(env, dir.children[n], honour)
    else map[]
  }

  /** The snapshot of `dir`. */
  function Build(env: Env, dir: Node, honour: bool): Tree
    decreases dir, 1
  {
    BuildOver(env, dir, honour, Effective(env, dir, honour))
  }

  function BuildEntry(env: Env, child: Node, honour: bool): Entry
    requires !child.Other?
    decreases child, 2
  {
    match child
    case File(data, _) => FileEntry(ContentHash(env, data))
    case Dir(_, _) => DirEntry(Build(env, child, honour))
  }

  /** `f` is written by the visit of one of `names` of `dir`. */
  ghost predicate WrittenOver(env: Env, dir: Node, honour: bool, names: set<Name>, f: Bytes)
    decreases dir, 0
  {
    dir.Dir? && exists n | n in names && n in dir.children :: f in ChildFiles(env, dir.children[n], honour)
  }

  /** The contents a walk over `names` of `dir` writes to the store. */
  ghost function FilesOver(env: Env, dir: Node, honour: bool, names: set<Name>): iset<Bytes>
    decreases dir, 1
  {
    iset f | WrittenOver(env, dir, honour, names, f)
  }

  /** The contents the walk of `dir` writes to the store. */
  ghost function Files(env: Env, dir: Node, honour: bool): iset<Bytes>
    decreases dir, 2
  {
    FilesOver(env, dir, honour, Effective(env, dir, honour))
  }

  ghost function ChildFiles(env: Env, child: Node, honour: bool): iset<Bytes>
    decreases child, 3
  {
    match child
    case File(data, _) => iset{data}
    case Dir(_, _) => Files(env, child, honour)
    case Other => iset{}
  }

  /** Visiting one more child extends the over-`names` functions by that child. */
  lemma WalkStep(env: Env, dir: Node, honour: bool, strict: bool, names: set<Name>, n: Name)
    requires dir.Dir? && n in dir.children
    ensures HealthyOver(env, dir, honour, strict, names + {n})
        <==> HealthyOver(env, dir, honour, strict, names) && ChildHealthy(env, dir.children[n], honour, strict)
    ensures BuildOver(env, dir, honour, names + {n})
         == if dir.children[n].Other? then BuildOver(env, dir, honour, names)
            else BuildOver(env, dir, honour, names)[n := BuildEntry(env, dir.children[n], honour)]
    ensures FilesOver(env, dir, honour, names + {n})
         == FilesOver(env, dir, honour, names) + ChildFiles(env, dir.children[n], honour)
  {
  }

  /** The snapshot and the store after one more child is visited. */
  lemma WalkAdvance(env: Env, dir: Node, honour: bool, done: set<Name>, n: Name,
                    folder: Tree, visited: Option<Entry>,
                    a: map<string, Bytes>, mid: map<string, Bytes>, b: map<string, Bytes>)
    requires dir.Dir? && n in dir.children
    requires folder == BuildOver(env, dir, honour, done)
    requires visited == if dir.children[n].Other? then None else Some(BuildEntry(env, dir.children[n], honour))
    requires Wrote(env, a, mid, FilesOver(env, dir, honour, done))
    requires Wrote(env, mid, b, ChildFiles(env, dir.children[n], honour))
    ensures (if visited.Some? then folder[n := visited.value] else folder) == BuildOver(env, dir, honour, done + {n})
    ensures Wrote(env, a, b, FilesOver(env, dir, honour, done + {n}))
  {
    WalkStep(env, dir, honour, false, done, n);
    WroteTrans(env, a, mid, b, FilesOver(env, dir, honour, done), ChildFiles(env, dir.children[n], honour));
  }

  /** A panic while visiting one of `names` aborts the visit of them all,
      leaving part of their files written. */
  lemma WalkAbort(env: Env, dir: Node, honour: bool, names: set<Name>, done: set<Name>, n: Name,
                  a: map<string, Bytes>, mid: map<string, Bytes>, b: map<string, Bytes>)
    requires dir.Dir? && n in dir.children
    requires done <= names && n in names
    requires Wrote(env, a, mid, FilesOver(env, dir, honour, done))
    requires WroteSome(env, mid, b, ChildFiles(env, dir.children[n], honour))
    ensures WroteSome(env, a, b, FilesOver(env, dir, honour, names))
  {
    var doneFiles := FilesOver(env, dir, honour, done);
    var childFiles := ChildFiles(env, dir.children[n], honour);
    WalkStep(env, dir, honour, false, done, n);
    FilesOverMono(env, dir, honour, done + {n}, names);
    WroteSomeTrans(env, a, mid, b, doneFiles, childFiles);
    WroteSomeWeaken(env, a, b, doneFiles + childFiles, FilesOver(env, dir, honour, names));
  }

  /** The shape of a snapshot: exactly the effective files and directories are
      keys; a file maps to its content hash, a directory to its own snapshot. */
  lemma BuildShape(env: Env, dir: Node, honour: bool, n: Name)
    requires dir.Dir?
    ensures n in Build(env, dir, honour)
        <==> n in Effective(env, dir, honour) && n in dir.children && !dir.children[n].Other?
    ensures n in Build(env, dir, honour) && dir.children[n].File? ==>
      Build(env, dir, honour)[n] == FileEntry(ContentHash(env, dir.children[n].data))
    ensures n in Build(env, dir, honour) && dir.children[n].Dir? ==>
      Build(env, dir, honour)[n] == DirEntry(Build(env, dir.children[n], honour))
  {
    var names := Effective(env, dir, honour);
    assert Build(env, dir, honour) == BuildOver(env, dir, honour, names);
    if n in names && n in dir.children && !dir.children[n].Other? {
      assert BuildOver(env, dir, honour, names)[n] == BuildEntry(env, dir.children[n], honour);
    }
  }

  /** No ignored name is ever a key: the keys are among the listed names less the ignore set. */
  lemma BuildKeys(env: Env, dir: Node, honour: bool)
    ensures Build(env, dir, honour).Keys <= Effective(env, dir, honour)
    ensures honour ==> Build(env, dir, honour).Keys !! IgnoreListAt(env, dir)
  {
    if dir.Dir? {
      forall n | n in Build(env, dir, honour)
        ensures n in Effective(env, dir, honour)
      {
        BuildShape(env, dir, honour, n);
      }
    }
  }

  /** A directory with no effective children has the empty snapshot. */
  lemma EmptyDirectoryEmptySnapshot(env: Env, dir: Node, honour: bool)
    requires Effective(env, dir, honour) == {}
    ensures Build(env, dir, honour) == map[]
  {
    BuildKeys(env, dir, honour);
  }

  /** The ignore file is a child like any other: it is hashed into the snapshot
      unless it lists itself. */
  lemma IgnoreFileHashed(env: Env, dir: Node)
    requires dir.Dir? && dir.listable && IgnoreFileName in dir.children
    requires dir.children[IgnoreFileName].File?
    ensures IgnoreFileName in Build(env, dir, true) <==> IgnoreFileName !in IgnoreListAt(env, dir)
    ensures IgnoreFileName in Build(env, dir, true) ==>
      Build(env, dir, true)[IgnoreFileName] == FileEntry(ContentHash(env, dir.children[IgnoreFileName].data))
  {
    BuildShape(env, dir, true, IgnoreFileName);
  }

  /** A walk that hashes everything panics whenever the one that skips other
      nodes does: strictness only adds panics. */
  lemma {:induction false} StrictImpliesLenient(env: Env, dir: Node, honour: bool)
    requires Healthy(env, dir, honour, true)
    ensures Healthy(env, dir, honour, false)
    decreases dir
  {
    if dir.Dir? {
      forall n | n in Effective(env, dir, honour) && n in dir.children
        ensures ChildHealthy(env, dir.children[n], honour, false)
      {
        var child := dir.children[n];
        assert ChildHealthy(env, child, honour, true);
        if child.Dir? {
          StrictImpliesLenient(env, child, honour);
        }
      }
    }
  }

  /** No directory of the tree has a non-empty ignore set. */
  ghost predicate NoIgnores(env: Env, node: Node)
  {
    node.Dir? ==>
      && IgnoreListAt(env, node) == {}
      && forall n | n in node.children :: NoIgnores(env, node.children[n])
  }

  /** On a tree without ignore sets, honouring them changes nothing: the walks
      agree on whether they panic and on the snapshot. */
  lemma {:induction false} IgnoreFreeAgreement(env: Env, dir: Node, strict: bool)
    requires NoIgnores(env, dir)
    ensures Healthy(env, dir, true, strict) <==> Healthy(env, dir, false, strict)
    ensures Build(env, dir, true) == Build(env, dir, false)
    decreases dir
  {
    assert Effective(env, dir, true) == Effective(env, dir, false);
    if dir.Dir? {
      forall n | n in dir.children && dir.children[n].Dir?
        ensures Healthy(env, dir.children[n], true, strict) <==> Healthy(env, dir.children[n], false, strict)
        ensures Build(env, dir.children[n], true) == Build(env, dir.children[n], false)
      {
        IgnoreFreeAgreement(env, dir.children[n], strict);
      }
      assert forall n | n in dir.children ::
        ChildHealthy(env, dir.children[n], true, strict) == ChildHealthy(env, dir.children[n], false, strict);
      assert forall n | n in dir.children && !dir.children[n].Other? ::
        BuildEntry(env, dir.children[n], true) == BuildEntry(env, dir.children[n], false);
    }
  }

  lemma FilesOverMono(env: Env, dir: Node, honour: bool, a: set<Name>, b: set<Name>)
    requires a <= b
    ensures FilesOver(env, dir, honour, a) <= FilesOver(env, dir, honour, b)
  {
  }

  // ---------------------------------------------------------------------------
  // The walks.
  // ---------------------------------------------------------------------------

  /** `get_current_dir_entities`: the base names of all direct children, of every
      kind; nothing when the directory cannot be read. */
  method GetCurrentDirEntities(dir: Node) returns (entityList: set<Name>)
    ensures entityList == Listing(dir)
  {
    entityList := {};
    if dir.Dir? && dir.listable {
      var entries := dir.children.Keys;
      while entries != {}
        invariant entries <= dir.children.Keys
        invariant entityList == dir.children.Keys - entries
        decreases |entries|
      {
        var name :| name in entries;
        // directories and files alike are inserted under their base name
        entityList := entityList + {name};
        entries := entries - {name};
      }
    }
  }

  /** The walk shared by `traverse` and both `create_hierarchy_of_folders`: list
      the children, subtract the ignore set, and visit each remaining child. */
  method Walk(store: ObjectStore, env: Env, dir: Node, honour: bool, strict: bool) returns (r: Result<Tree, Panic>)
    modifies store
    decreases dir, 1
    ensures r.Ok? <==> Healthy(env, dir, honour, strict)
    ensures r.Ok? ==> r.value == Build(env, dir, honour)
    ensures r.Ok? ==> Wrote(env, old(store.blobs), store.blobs, Files(env, dir, honour))
    ensures r.Err? ==> r.error in ReadPanics && WroteSome(env, old(store.blobs), store.blobs, Files(env, dir, honour))
  {
    var wholeList := GetCurrentDirEntities(dir);
    var ignoreList: set<Name> := {};
    if honour {
      ignoreList := ReadIgnoreFile(env, Child(dir, IgnoreFileName));
    }
    var actualList: set<Name>;
    if honour && strict {
      // `create_hierarchy_of_folders` asks `is_ignored` about each entry
      actualList := FilterIgnored(wholeList, ignoreList, n => Child(dir, n).Some? && Child(dir, n).value.Dir?);
    } else {
      actualList := wholeList - ignoreList;
    }
    assert actualList == Effective(env, dir, honour);
    r := VisitEach(store, env, dir, honour, strict, actualList);
  }

  /** The loop of a walk: visits each of `actualList`, inserting each entry into
      the directory's map; the first panic aborts it. */
  method VisitEach(store: ObjectStore, env: Env, dir: Node, honour: bool, strict: bool, actualList: set<Name>)
    returns (r: Result<Tree, Panic>)
    requires actualList <= Listing(dir)
    modifies store
    decreases dir, 0
    ensures r.Ok? <==> HealthyOver(env, dir, honour, strict, actualList)
    ensures r.Ok? ==> r.value == BuildOver(env, dir, honour, actualList)
    ensures r.Ok? ==> Wrote(env, old(store.blobs), store.blobs, FilesOver(env, dir, honour, actualList))
    ensures r.Err? ==> r.error in ReadPanics && WroteSome(env, old(store.blobs), store.blobs, FilesOver(env, dir, honour, actualList))
  {
    var folderStructure: Tree := map[];
    var todo := actualList;
    ghost var done: set<Name> := {};
    WroteNothing(env, store.blobs);
    while todo != {}
      invariant todo <= actualList && done == actualList - todo
      invariant HealthyOver(env, dir, honour, strict, done)
      invariant folderStructure == BuildOver(env, dir, honour, done)
      invariant Wrote(env, old(store.blobs), store.blobs, FilesOver(env, dir, honour, done))
      decreases |todo|
    {
      var entity :| entity in todo;
      var child := dir.children[entity];
      ghost var mid := store.blobs;
      var visited := VisitChild(store, env, child, honour, strict);
      if visited.Err? {
        WalkAbort(env, dir, honour, actualList, done, entity, old(store.blobs), mid, store.blobs);
        return Err(visited.error);
      }
      WalkAdvance(env, dir, honour, done, entity, folderStructure, visited.value, old(store.blobs), mid, store.blobs);
      if visited.value.Some? {
        folderStructure := folderStructure[entity := visited.value.value];
      }
      todo := todo - {entity};
      done := done + {entity};
    }
    assert done == actualList;
    r := Ok(folderStructure);
  }

  /** One child of a walk: a directory is walked, a file (or, in a strict walk,
      anything that is not a directory) is hashed and stored; anything else is
      skipped. */
  method VisitChild(store: ObjectStore, env: Env, child: Node, honour: bool, strict: bool) returns (r: Result<Option<Entry>, Panic>)
    modifies store
    decreases child, 2
    ensures r.Ok? <==> ChildHealthy(env, child, honour, strict)
    ensures r.Ok? ==> r.value == if child.Other? then None else Some(BuildEntry(env, child, honour))
    ensures r.Ok? ==> Wrote(env, old(store.blobs), store.blobs, ChildFiles(env, child, honour))
    ensures r.Err? ==> r.error in ReadPanics && WroteSome(env, old(store.blobs), store.blobs, ChildFiles(env, child, honour))
  {
    if child.Dir? {
      var nested := Walk(store, env, child, honour, strict);
      if nested.Err? {
        return Err(nested.error);
      }
      r := Ok(Some(DirEntry(nested.value)));
    } else if child.File? || strict {
      ghost var before := store.blobs;
      var hashString := store.CreateBlobFileAndSave(env, Some(child));
      if hashString.Err? {
        return Err(hashString.error);
      }
      WroteOne(env, before, child.data);
      r := Ok(Some(FileEntry(hashString.value)));
    } else {
      WroteNothing(env, store.blobs);
      r := Ok(None);
    }
  }

  /** `traverse`: the walk that honours ignore files and skips children that are
      neither files nor directories. */
  method Traverse(store: ObjectStore, env: Env, currentPath: Node) returns (r: Result<Tree, Panic>)
    modifies store
    ensures r.Ok? <==> Healthy(env, currentPath, true, false)
    ensures r.Ok? ==> r.value == Build(env, currentPath, true)
    ensures r.Ok? ==> Wrote(env, old(store.blobs), store.blobs, Files(env, currentPath, true))
    ensures r.Err? ==> r.error in ReadPanics && WroteSome(env, old(store.blobs), store.blobs, Files(env, currentPath, true))
  {
    r := Walk(store, env, currentPath, true, false);
  }

  /** `create_hierarchy_of_folders` of the snapshot module: honours ignore files
      and hashes every child that is not a directory. */
  method CreateHierarchyOfFolders(store: ObjectStore, env: Env, folder: Node) returns (r: Result<Tree, Panic>)
    modifies store
    ensures r.Ok? <==> Healthy(env, folder, true, true)
    ensures r.Ok? ==> r.value == Build(env, folder, true)
    ensures r.Ok? ==> Wrote(env, old(store.blobs), store.blobs, Files(env, folder, true))
    ensures r.Err? ==> r.error in ReadPanics && WroteSome(env, old(store.blobs), store.blobs, Files(env, folder, true))
  {
    r := Walk(store, env, folder, true, true);
  }

}
