/**
 Model ids (server/modelpool.cpp): a table from id to model, a table from name to id, and ids drawn at
 random until one is unused.  A model is identified with its name.
 */
module ModelPools {
  import opened Bytes

  type Name = Blob

  // RandomGenerator::randomInt() is rand(), which is below 2^31.
  type Draw = v: int | 0 <= v < 0x8000_0000

  datatype Pool = Pool(ids: map<uint32, Name>, names: map<Name, uint32>)

  const EMPTY_POOL := Pool(map[], map[])

  predicate HasFresh(taken: set<uint32>, draws: seq<Draw>) {
    exists d <- draws :: d !in taken
  }

  /** The first draw that is not taken. */
  function FirstFresh(taken: set<uint32>, draws: seq<Draw>): (id: uint32)
    requires HasFresh(taken, draws)
    ensures id in draws && id !in taken
  {
    if draws[0] !in taken then draws[0] else FirstFresh(taken, draws[1..])
  }

  method GenerateUniqueId(taken: set<uint32>, draws: seq<Draw>) returns (id: uint32)
    requires HasFresh(taken, draws)
    ensures id == FirstFresh(taken, draws)
  {
    var i := 0;
    id := draws[0];
    assert draws[0..] == draws;
    while id in taken
      invariant 0 <= i < |draws| && id == draws[i] && HasFresh(taken, draws[i..])
      invariant FirstFresh(taken, draws) == FirstFresh(taken, draws[i..])
      decreases |draws| - i
    {
      assert draws[i..][1..] == draws[i + 1..];
      i := i + 1;
      id := draws[i];
    }
  }

  // idForModelName: known names keep their id; a model that cannot be opened has id 0.
  function Opened(pool: Pool, name: Name, exists_: bool, draws: seq<Draw>): (Pool, uint32)
    requires HasFresh(pool.ids.Keys, draws)
  {
    if name in pool.names then (pool, pool.names[name])
    else if !exists_ then (pool, 0)
    else
      var id := FirstFresh(pool.ids.Keys, draws);
      (Pool(pool.ids[id := name], pool.names[name := id]), id)
  }

  // removeModel: the id of an unknown name reads as 0, and that entry is removed.
  function Removed(pool: Pool, name: Name): Pool {
    Pool(pool.ids - {if name in pool.names then pool.names[name] else 0}, pool.names - {name})
  }

  /** The two tables are inverse to each other. */
  ghost predicate Consistent(pool: Pool) {
    && (forall name | name in pool.names :: pool.names[name] in pool.ids && pool.ids[pool.names[name]] == name)
    && (forall id | id in pool.ids :: pool.ids[id] in pool.names && pool.names[pool.ids[id]] == id)
  }

  lemma OpenKeepsConsistent(pool: Pool, name: Name, exists_: bool, draws: seq<Draw>)
    requires Consistent(pool) && HasFresh(pool.ids.Keys, draws)
    ensures var (pool', id) := Opened(pool, name, exists_, draws);
            && Consistent(pool')
            && (name in pool.names || exists_ ==> id in pool'.ids && pool'.ids[id] == name)
            && (forall other | other in pool.ids :: other in pool'.ids && pool'.ids[other] == pool.ids[other])
  {
  }

  /**
   Removing a model keeps the tables inverse, and no other model loses its id, if and only if the name is known
   or no model has id 0.
   */
  lemma RemoveKeepsConsistent(pool: Pool, name: Name)
    requires Consistent(pool)
    ensures Consistent(Removed(pool, name)) <==> name in pool.names || 0 !in pool.ids
    ensures name in pool.names ==> Removed(pool, name).ids == pool.ids - {pool.names[name]}
  {
    if name !in pool.names && 0 in pool.ids {
      var lost := pool.ids[0];
      assert lost in Removed(pool, name).names && pool.names[lost] == 0;
    }
  }

  lemma RemoveKeepsConsistentIfAny(pool: Pool, name: Name)
    ensures Consistent(pool) ==> (Consistent(Removed(pool, name)) <==> name in pool.names || 0 !in pool.ids)
  {
    if Consistent(pool) { RemoveKeepsConsistent(pool, name); }
  }

  class ModelPool {
    var modelIdMap: map<uint32, Name>
    var modelNameMap: map<Name, uint32>

    ghost function State(): Pool
      reads this
    {
      Pool(modelIdMap, modelNameMap)
    }

    constructor ()
      ensures State() == EMPTY_POOL
    {
      modelIdMap, modelNameMap := map[], map[];
    }

    predicate Contains(id: uint32)
      reads this
    {
      id in modelIdMap
    }

    method IdForModelName(name: Name, exists_: bool, draws: seq<Draw>) returns (id: uint32)
      requires HasFresh(modelIdMap.Keys, draws)
      modifies this
      ensures (State(), id) == Opened(old(State()), name, exists_, draws)
    {
      id := 0;
      if name in modelNameMap {
        id := modelNameMap[name];
      } else if exists_ {
        id := GenerateUniqueId(modelIdMap.Keys, draws);
        modelIdMap := modelIdMap[id := name];
        modelNameMap := modelNameMap[name := id];
      }
    }

    /**
     The name and its id are gone and every other model keeps its own, as long as the name is known or no model
     has id 0; otherwise the tables are no longer inverse to each other.
     */
    method RemoveModel(name: Name)
      modifies this
      ensures State() == Removed(old(State()), name)
      ensures name !in modelNameMap
      ensures old(Consistent(State())) ==>
                (Consistent(State()) <==> old(name in modelNameMap || 0 !in modelIdMap))
      ensures old(Consistent(State())) && Consistent(State()) ==>
                (forall id | id in old(modelIdMap) && old(modelIdMap)[id] != name ::
                   Contains(id) && modelIdMap[id] == old(modelIdMap)[id]) &&
                (forall id | Contains(id) :: modelIdMap[id] != name)
    {
      RemoveKeepsConsistentIfAny(State(), name);
      var id := if name in modelNameMap then modelNameMap[name] else 0;
      modelIdMap := modelIdMap - {id};
      modelNameMap := modelNameMap - {name};
    }
  }
}
