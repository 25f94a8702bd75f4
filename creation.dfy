/** vector_databases/creation.py: build the index, then save it. */
module Creation {
  import opened Wrappers
  import opened Errors
  import opened Files
  import opened Annoy

  /** create_vector_database: the build with NUMBER_OF_TREES happens before the
      save and stays done when the save fails; an OSError on saving becomes
      UnableToSaveVectorDatabaseError, and any other error passes through. */
  method CreateVectorDatabase(fs: FileSystem, path: Path, index: AnnoyIndex) returns (o: Outcome<Error>)
    modifies index, fs
    ensures index.items == old(index.items)
    ensures !CanAddItems(old(index.state)) ==>
      o == Fail(AnnoyMisuse) && index.state == old(index.state) && fs.files == old(fs.files)
    ensures CanAddItems(old(index.state)) ==> index.state == Built && index.trees == NUMBER_OF_TREES
    ensures CanAddItems(old(index.state)) && path in fs.unwritable ==>
      o == Fail(UnableToSaveVectorDatabase(path)) && fs.files == old(fs.files)
    ensures CanAddItems(old(index.state)) && path !in fs.unwritable ==>
      o.Pass? && fs.files == old(fs.files)[path := IndexFile(index.items)]
  {
    o := index.Build(NUMBER_OF_TREES);
    if o.Fail? {
      return;
    }
    o := index.Save(fs, path);
    if o.Fail? && o.error.OSError? {
      o := Fail(UnableToSaveVectorDatabase(path));
    }
  }
}
