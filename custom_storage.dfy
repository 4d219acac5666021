/**
 * `CustomStorage`, the agents' in-process memory store: an append-only list
 * of records that can be searched by a case-insensitive substring of the
 * stored value, and emptied.
 */
module Storage {
  import opened Wrappers
  import opened Text
  import opened Seqs

  /**
   * One saved record: the `{value, metadata, agent}` dictionary. `value` is
   * held in its printed form (`str(value)`), which is all that search looks at;
   * the agent is identified by its role name.
   */
  datatype Memory = Memory(value: string, metadata: Option<map<string, string>>, agent: Option<string>)

  /** `query.lower() in str(m["value"]).lower()`. */
  predicate MatchesMemory(m: Memory, query: string) {
    Contains(Lower(m.value), Lower(query))
  }

  /** The keep-test of the search comprehension, as one function value per query. */
  function KeepsMemory(query: string): (keep: Memory -> bool) {
    m => MatchesMemory(m, query)
  }

  /** The records of `memories` that a search for `query` returns, in insertion order. */
  function MatchingMemories(memories: seq<Memory>, query: string): (found: seq<Memory>) {
    Filter(memories, KeepsMemory(query))
  }

  class CustomStorage {
    /** The saved records, oldest first. */
    var memories: seq<Memory>

    /** A new store holds no memories. */
    constructor ()
      ensures memories == []
    {
      memories := [];
    }

    /** Appends one record; the records saved before are untouched. */
    method Save(value: string, metadata: Option<map<string, string>>, agent: Option<string>)
      modifies this
      ensures memories == old(memories) + [Memory(value, metadata, agent)]
      ensures forall limit: int, scoreThreshold: real ::
        Memory(value, metadata, agent) in Search(value, limit, scoreThreshold)
    {
      memories := memories + [Memory(value, metadata, agent)];
      SavedValueIsFound(old(memories), Memory(value, metadata, agent));
    }

    /**
     * The stored records whose value contains `query`, ignoring case, in
     * insertion order and with repeats kept. `limit` and `scoreThreshold`
     * are accepted and not used.
     */
    function Search(query: string, limit: int, scoreThreshold: real): (r: seq<Memory>)
      reads this
      ensures forall m :: m in r ==> m in memories && MatchesMemory(m, query)
      ensures forall m :: m in memories && MatchesMemory(m, query) ==> m in r
      ensures forall m :: m in memories && MatchesMemory(m, query) ==> multiset(r)[m] == multiset(memories)[m]
      ensures IsSubsequence(r, memories)
    {
      FilterComplete(memories, KeepsMemory(query));
      MatchingMemories(memories, query)
    }

    /** Forgets every record. */
    method Reset()
      modifies this
      ensures memories == []
      ensures forall query: string, limit: int, scoreThreshold: real :: Search(query, limit, scoreThreshold) == []
    {
      memories := [];
    }
  }

  /** `limit` and `scoreThreshold` have no effect on what a search returns. */
  lemma SearchIgnoresLimit(store: CustomStorage, query: string, limit1: int, threshold1: real, limit2: int, threshold2: real)
    ensures store.Search(query, limit1, threshold1) == store.Search(query, limit2, threshold2)
  {
  }

  /** The empty query matches every record, so it returns the whole store, however long. */
  lemma EmptyQueryReturnsAll(memories: seq<Memory>)
    ensures MatchingMemories(memories, "") == memories
  {
    forall m | m in memories ensures KeepsMemory("")(m) {
      ContainsEmpty(Lower(m.value));
    }
    FilterAllKept(memories, KeepsMemory(""));
  }

  /** The search result is not cut at `limit`: a store holding more records than `limit` returns them all for the empty query. */
  lemma SearchMayExceedLimit(store: CustomStorage, limit: int, scoreThreshold: real)
    requires 0 <= limit < |store.memories|
    ensures |store.Search("", limit, scoreThreshold)| > limit
  {
    EmptyQueryReturnsAll(store.memories);
  }

  /** Saving a record extends a later search by that record exactly when it matches. */
  lemma SearchAfterSave(memories: seq<Memory>, m: Memory, query: string)
    ensures MatchingMemories(memories + [m], query)
         == MatchingMemories(memories, query) + (if MatchesMemory(m, query) then [m] else [])
  {
    FilterAppend(memories, m, KeepsMemory(query));
  }

  /** Right after saving a record, searching for its value returns it, as the last result. */
  lemma SavedValueIsFound(memories: seq<Memory>, m: Memory)
    ensures var r := MatchingMemories(memories + [m], m.value); r != [] && r[|r| - 1] == m
  {
    ContainsSelf(Lower(m.value));
    SearchAfterSave(memories, m, m.value);
  }

  /** Searching does not depend on the letter case of the query. */
  lemma SearchIgnoresQueryCase(memories: seq<Memory>, q1: string, q2: string)
    requires Lower(q1) == Lower(q2)
    ensures MatchingMemories(memories, q1) == MatchingMemories(memories, q2)
  {
    FilterCongruent(memories, KeepsMemory(q1), KeepsMemory(q2));
  }
}
