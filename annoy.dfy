/** The part of annoy's AnnoyIndex the store relies on: items added by id,
    a build/save/load/unload lifecycle and the item count. Approximate search
    is not modelled; neighbour lists are given to the queriers. */
module Annoy {
  import opened Wrappers
  import opened Errors
  import opened Files

  /** NUMBER_OF_TREES (defines/defines.py). */
  const NUMBER_OF_TREES: nat := 10

  datatype State = Empty | Populated | Built | Loaded | Unloaded

  /** Items can be added unless the index has been built or loaded. */
  predicate CanAddItems(s: State) {
    s == Empty || s == Populated || s == Unloaded
  }

  function ZeroVector(): Vector {
    seq(VECTOR_DIMENSIONS, _ => 0.0)
  }

  class AnnoyIndex {
    /** items[i] is the vector stored under id i. */
    var items: seq<Vector>
    var state: State
    var trees: nat

    /** AnnoyIndex(VECTOR_DIMENSIONS, METRIC_ANGULAR) */
    constructor ()
      ensures items == [] && state == Empty && trees == 0
    {
      items := [];
      state := Empty;
      trees := 0;
    }

    /** get_n_items(): one more than the largest id added. */
    function ItemCount(): nat
      reads this
    {
      |items|
    }

    /** add_item(id, vector): ids skipped over hold zero vectors. */
    method AddItem(id: nat, vector: Vector) returns (o: Outcome<Error>)
      modifies this
      ensures o.Pass? <==> CanAddItems(old(state))
      ensures o.Fail? ==> o.error == AnnoyMisuse && items == old(items) && state == old(state)
      ensures o.Pass? ==> state == Populated
      ensures o.Pass? && id < old(|items|) ==> items == old(items)[id := vector]
      ensures o.Pass? && id >= old(|items|) ==>
        items == old(items) + seq(id - old(|items|), _ => ZeroVector()) + [vector]
      ensures trees == old(trees)
    {
      if !CanAddItems(state) {
        return Fail(AnnoyMisuse);
      }
      if id < |items| {
        items := items[id := vector];
      } else {
        items := items + seq(id - |items|, _ => ZeroVector()) + [vector];
      }
      state := Populated;
      return Pass;
    }

    /** get_item_vector(id) */
    function ItemVector(id: nat): Vector
      reads this
      requires id < |items|
    {
      items[id]
    }

    /** build(n_trees): refused on an index that is already built or loaded. */
    method Build(numberOfTrees: nat) returns (o: Outcome<Error>)
      modifies this
      ensures o.Pass? <==> CanAddItems(old(state))
      ensures o.Pass? ==> state == Built && trees == numberOfTrees
      ensures o.Fail? ==> o.error == AnnoyMisuse && state == old(state) && trees == old(trees)
      ensures items == old(items)
    {
      if !CanAddItems(state) {
        return Fail(AnnoyMisuse);
      }
      state := Built;
      trees := numberOfTrees;
      return Pass;
    }

    /** save(path): writes the built index to a file. */
    method Save(fs: FileSystem, path: Path) returns (o: Outcome<Error>)
      modifies fs
      ensures state != Built ==> o == Fail(AnnoyMisuse) && fs.files == old(fs.files)
      ensures state == Built && path in fs.unwritable ==> o == Fail(OSError(path)) && fs.files == old(fs.files)
      ensures state == Built && path !in fs.unwritable ==>
        o.Pass? && fs.files == old(fs.files)[path := IndexFile(items)]
    {
      if state != Built {
        return Fail(AnnoyMisuse);
      }
      o := fs.WriteIndex(path, items);
    }

    /** load(path): OSError when the path holds no index file. */
    method Load(fs: FileSystem, path: Path) returns (o: Outcome<Error>)
      modifies this
      ensures o.Pass? <==> path in fs.files && fs.files[path].IndexFile?
      ensures o.Pass? ==> items == fs.files[path].vectors && state == Loaded
      ensures o.Fail? ==> o.error == OSError(path) && items == old(items) && state == old(state)
      ensures trees == old(trees)
    {
      if path !in fs.files || !fs.files[path].IndexFile? {
        return Fail(OSError(path));
      }
      items := fs.files[path].vectors;
      state := Loaded;
      return Pass;
    }

    /** unload(): releases the items and the file. */
    method Unload()
      modifies this
      ensures items == [] && state == Unloaded && trees == old(trees)
    {
      items := [];
      state := Unloaded;
    }
  }
}
