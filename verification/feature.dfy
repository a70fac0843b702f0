/** The older, ignore-free snapshot builder of the feature module: every
    directory becomes its own snapshot and every other child is hashed. */
module Feature {

  import opened Wrappers
  import opened Fs
  import opened Store
  import opened Snapshot

  /** `create_hierarchy_of_folders` of the feature module: no ignore file is read,
      and every child that is not a directory is hashed as a file. */
  method CreateHierarchyOfFolders(store: ObjectStore, env: Env, folderPath: Node) returns (r: Result<Tree, Panic>)
    modifies store
    ensures r.Ok? <==> Healthy(env, folderPath, false, true)
    ensures r.Ok? ==> r.value == Build(env, folderPath, false)
    ensures r.Ok? ==> Wrote(env, old(store.blobs), store.blobs, Files(env, folderPath, false))
    ensures r.Err? ==> r.error in ReadPanics && WroteSome(env, old(store.blobs), store.blobs, Files(env, folderPath, false))
  {
    r := Walk(store, env, folderPath, false, true);
  }

  /** When the ignore-free builder succeeds, every listed child is a key: nothing
      is excluded, and no child is neither file nor directory. */
  lemma NothingExcluded(env: Env, dir: Node)
    requires Healthy(env, dir, false, true)
    ensures Build(env, dir, false).Keys == Listing(dir)
  {
    if dir.Dir? {
      forall n | n in Listing(dir)
        ensures n in Build(env, dir, false)
      {
        assert ChildHealthy(env, dir.children[n], false, true);
        BuildShape(env, dir, false, n);
      }
      BuildKeys(env, dir, false);
    }
  }

}
