/** vector_databases/vectorization.py: a new memory takes the next free slot id
    of the index. */
module Vectorization {
  import opened Wrappers
  import opened Errors
  import opened Timestamps
  import opened MathUtils
  import opened Records
  import opened Files
  import opened Annoy
  import opened Jsonification

  /** The code the store calls but this model does not contain: the sentence
      embedding model, the language model that rates a memory's importance
      (given the memory's description), and math.exp. */
  datatype Collaborators = Collaborators(
    embed: string -> Vector,
    rate: string -> RatingReply,
    exp: Exponential)

  /** create_vectorized_memory: the id is the item count before the insertion,
      the embedding is stored under it before the rating is asked for, and the
      record is the one create_memory_dictionary builds. */
  method CreateVectorizedMemory(description: string, now: DateTime, index: AnnoyIndex, c: Collaborators)
    returns (r: Result<(nat, Record), Error>)
    modifies index
    ensures !CanAddItems(old(index.state)) ==>
      r == Failure(AnnoyMisuse) && index.items == old(index.items) && index.state == old(index.state)
    ensures CanAddItems(old(index.state)) ==>
      && index.items == old(index.items) + [c.embed(description)]
      && index.state == Populated
      && (var memory := CreateMemoryDictionary(description, now, c.rate(description), c.exp);
          if memory.Success? then r == Success((old(index.ItemCount()), memory.value))
          else r == Failure(memory.error))
    ensures index.trees == old(index.trees)
  {
    var id := index.ItemCount();
    var added := index.AddItem(id, c.embed(description));
    if added.Fail? {
      return Failure(added.error);
    }
    var memory :- CreateMemoryDictionary(description, now, c.rate(description), c.exp);
    return Success((id, memory));
  }
}
