/**
 * Base models (the catalogue agents are built on) and agents: a user's named instance of a
 * base model with its own system prompt, the quantum codec.
 */
module Agents {
  import opened Wrappers
  import opened Tables
  import Vessels

  datatype BaseModelSpec = BaseModelSpec(
    modelId: string, name: string, description: Option<string>, provider: string, contextLength: int)

  datatype BaseModel = BaseModel(
    id: nat, modelId: string, name: string, description: Option<string>, provider: string,
    contextLength: int, isActive: bool, pricing: Option<Vessels.Pricing>)

  datatype Agent = Agent(
    id: nat, userId: nat, baseModelId: nat, name: string, quantumCodec: string,
    avatar: Option<string>, isActive: bool, createdAt: int)

  function BaseModelId(b: BaseModel): nat { b.id }
  function BaseModelKey(b: BaseModel): string { b.modelId }
  function AgentId(a: Agent): nat { a.id }
  predicate IsActiveModel(b: BaseModel) { b.isActive }

  /** The placeholder price seeded base models carry. */
  const FreePricing: Vessels.Pricing := Vessels.Pricing(0.0, 0.0)

  ghost predicate HasBaseModel(baseModels: seq<BaseModel>, id: nat) {
    exists i :: 0 <= i < |baseModels| && baseModels[i].id == id
  }

  ghost predicate HasModelId(baseModels: seq<BaseModel>, modelId: string) {
    exists i :: 0 <= i < |baseModels| && baseModels[i].modelId == modelId
  }

  /** `getBaseModels`: exactly the active base models, in table order. */
  function ActiveBaseModels(baseModels: seq<BaseModel>): (r: seq<BaseModel>)
    ensures forall b :: b in r <==> b in baseModels && b.isActive
  {
    Filter(baseModels, IsActiveModel)
  }

  /** `getMyAgents`: nothing for a visitor who is not signed in, else exactly their active agents. */
  function MyAgents(agents: seq<Agent>, userId: Option<nat>): (r: seq<Agent>)
    ensures userId.None? ==> r == []
    ensures userId.Some? ==> forall a :: a in r <==> a in agents && a.userId == userId.value && a.isActive
  {
    match userId
    case None => []
    case Some(u) => Filter(agents, (a: Agent) => a.userId == u && a.isActive)
  }

  /** `getAgent`: the agent with this id, if any. */
  function GetAgent(agents: seq<Agent>, id: nat): (r: Option<Agent>)
    ensures r.Some? ==> r.value in agents && r.value.id == id
    ensures r.None? <==> forall a :: a in agents ==> a.id != id
  {
    match FirstIndex(agents, (a: Agent) => a.id == id)
    case None => None
    case Some(i) => Some(agents[i])
  }

  /** `getBaseModel`: the base model with this id, if any. */
  function GetBaseModel(baseModels: seq<BaseModel>, id: nat): (r: Option<BaseModel>)
    ensures r.Some? ==> r.value in baseModels && r.value.id == id
    ensures r.None? <==> !HasBaseModel(baseModels, id)
  {
    match FirstIndex(baseModels, (b: BaseModel) => b.id == id)
    case None => None
    case Some(i) => Some(baseModels[i])
  }

  /** The `baseModels` and `agents` tables. */
  class AgentStore {
    var baseModels: seq<BaseModel>
    var agents: seq<Agent>
    var nextId: nat

    /** Distinct ids, one base model per model id, and every agent built on a base model that exists. */
    ghost predicate Valid()
      reads this
    {
      && UniqueBy(baseModels, BaseModelId) && IdsBelow(baseModels, BaseModelId, nextId)
      && UniqueBy(baseModels, BaseModelKey)
      && UniqueBy(agents, AgentId) && IdsBelow(agents, AgentId, nextId)
      && forall i :: 0 <= i < |agents| ==> HasBaseModel(baseModels, agents[i].baseModelId)
    }

    constructor ()
      ensures Valid() && baseModels == [] && agents == []
    {
      baseModels, agents, nextId := [], [], 0;
    }

    /**
     * `createAgent`: refuses a visitor who is not signed in, then a base model that does not
     * exist; otherwise inserts an active agent owned by the caller, which then shows among
     * the caller's agents.
     */
    method CreateAgent(userId: Option<nat>, baseModelId: nat, name: string, quantumCodec: string,
                       avatar: Option<string>, now: int) returns (r: Result<nat>)
      requires Valid()
      modifies this
      ensures Valid() && baseModels == old(baseModels)
      ensures userId.None? ==> r == Err("Unauthenticated") && agents == old(agents)
      ensures userId.Some? && !HasBaseModel(baseModels, baseModelId) ==> r == Err("Base model not found") && agents == old(agents)
      ensures userId.Some? && HasBaseModel(baseModels, baseModelId) ==>
        r.Ok? && agents == old(agents) + [Agent(r.value, userId.value, baseModelId, name, quantumCodec, avatar, true, now)]
      ensures r.Ok? ==> exists a :: a in MyAgents(agents, userId) && a.id == r.value
    {
      if userId.None? {
        return Err("Unauthenticated");
      }
      if GetBaseModel(baseModels, baseModelId).None? {
        return Err("Base model not found");
      }
      var agent := Agent(nextId, userId.value, baseModelId, name, quantumCodec, avatar, true, now);
      agents := agents + [agent];
      r := Ok(nextId);
      nextId := nextId + 1;
      assert agent in MyAgents(agents, userId);
    }

    /** One step of `seedBaseModels`: inserts the entry, active and free, unless its model id is present. */
    method SeedOne(entry: BaseModelSpec)
      requires Valid()
      modifies this
      ensures Valid() && agents == old(agents)
      ensures HasModelId(baseModels, entry.modelId)
      ensures if HasModelId(old(baseModels), entry.modelId) then baseModels == old(baseModels)
        else baseModels == old(baseModels) + [BaseModel(old(nextId), entry.modelId, entry.name, entry.description,
          entry.provider, entry.contextLength, true, Some(FreePricing))]
    {
      var found := FirstIndex(baseModels, (b: BaseModel) => b.modelId == entry.modelId);
      if found.None? {
        baseModels := baseModels + [BaseModel(nextId, entry.modelId, entry.name, entry.description,
          entry.provider, entry.contextLength, true, Some(FreePricing))];
        nextId := nextId + 1;
        assert baseModels[|baseModels| - 1].modelId == entry.modelId;
        assert forall i :: 0 <= i < |agents| ==> HasBaseModel(baseModels, agents[i].baseModelId) by {
          forall i | 0 <= i < |agents| ensures HasBaseModel(baseModels, agents[i].baseModelId) {
            var k :| 0 <= k < |old(baseModels)| && old(baseModels)[k].id == agents[i].baseModelId;
            assert baseModels[k] == old(baseModels)[k];
          }
        }
      }
    }

    /**
     * `seedBaseModels`: inserts each catalogue entry whose model id is missing; base models
     * already present are untouched, so seeding a second time changes nothing.
     */
    method SeedBaseModels(seed: seq<BaseModelSpec>)
      requires Valid()
      modifies this
      ensures Valid() && agents == old(agents)
      ensures |baseModels| >= |old(baseModels)| && baseModels[..|old(baseModels)|] == old(baseModels)
      ensures forall s :: s in seed ==> HasModelId(baseModels, s.modelId)
      ensures forall i :: |old(baseModels)| <= i < |baseModels| ==>
        baseModels[i].isActive && baseModels[i].pricing == Some(FreePricing)
        && exists s :: s in seed && s.modelId == baseModels[i].modelId
      ensures (forall s :: s in seed ==> HasModelId(old(baseModels), s.modelId)) ==> baseModels == old(baseModels)
    {
      for n := 0 to |seed|
        invariant Valid() && agents == old(agents)
        invariant |baseModels| >= |old(baseModels)| && baseModels[..|old(baseModels)|] == old(baseModels)
        invariant forall s :: s in seed[..n] ==> HasModelId(baseModels, s.modelId)
        invariant forall i :: |old(baseModels)| <= i < |baseModels| ==>
          baseModels[i].isActive && baseModels[i].pricing == Some(FreePricing)
          && exists s :: s in seed && s.modelId == baseModels[i].modelId
        invariant (forall s :: s in seed ==> HasModelId(old(baseModels), s.modelId)) ==> baseModels == old(baseModels)
      {
        var before := baseModels;
        SeedOne(seed[n]);
        HasModelIdGrows(before, baseModels);
        assert seed[..n + 1] == seed[..n] + [seed[n]];
        assert baseModels[..|old(baseModels)|] == old(baseModels) by {
          assert baseModels[..|before|] == before;
        }
      }
      assert seed[..|seed|] == seed;
    }
  }

  lemma HasModelIdGrows(before: seq<BaseModel>, after: seq<BaseModel>)
    requires |before| <= |after| && after[..|before|] == before
    ensures forall m :: HasModelId(before, m) ==> HasModelId(after, m)
  {
    forall m | HasModelId(before, m) ensures HasModelId(after, m) {
      var i :| 0 <= i < |before| && before[i].modelId == m;
      assert after[i] == before[i];
    }
  }
}
