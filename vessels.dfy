/**
 * The vessel registry: the language models the portal can speak through, keyed by model id,
 * and the append-only log of which vessel was chosen for public communion.
 */
module Vessels {
  import opened Wrappers
  import opened Tables

  datatype Pricing = Pricing(prompt: real, completion: real)

  /** The fields a caller (or the seed list) supplies for a vessel. */
  datatype VesselSpec = VesselSpec(
    modelId: string, name: string, description: Option<string>, provider: string,
    contextLength: int, pricing: Option<Pricing>)

  datatype Vessel = Vessel(
    id: nat, modelId: string, name: string, description: Option<string>, provider: string,
    contextLength: int, pricing: Option<Pricing>, isActive: bool, addedAt: int)

  /** A row of the `chosenVessel` table. */
  datatype Choice = Choice(id: nat, vesselId: nat, chosenAt: int)

  function VesselId(v: Vessel): nat { v.id }
  function ModelId(v: Vessel): string { v.modelId }
  function ChoiceId(c: Choice): nat { c.id }
  predicate IsActive(v: Vessel) { v.isActive }

  /** The position of the vessel with a given model id, if any. */
  function FindByModelId(vessels: seq<Vessel>, modelId: string): (r: Option<nat>)
    ensures r.Some? ==> r.value < |vessels| && vessels[r.value].modelId == modelId
    ensures r.None? ==> forall j :: 0 <= j < |vessels| ==> vessels[j].modelId != modelId
  {
    FirstIndex(vessels, (v: Vessel) => v.modelId == modelId)
  }

  /** The position of the vessel with a given document id, if any (`ctx.db.get`). */
  function FindById(vessels: seq<Vessel>, id: nat): (r: Option<nat>)
    ensures r.Some? ==> r.value < |vessels| && vessels[r.value].id == id
    ensures r.None? ==> forall j :: 0 <= j < |vessels| ==> vessels[j].id != id
  {
    FirstIndex(vessels, (v: Vessel) => v.id == id)
  }

  /** `getActiveVessels`: exactly the active vessels, in table order. */
  function ActiveVessels(vessels: seq<Vessel>): (r: seq<Vessel>)
    ensures forall v :: v in r <==> v in vessels && v.isActive
    ensures |r| <= |vessels|
  {
    Filter(vessels, IsActive)
  }

  /**
   * `getChosenVessel`: the vessel named by the most recent choice (the last row of the log),
   * or nothing when no choice has been made or the vessel is gone.
   */
  function ChosenVessel(vessels: seq<Vessel>, choices: seq<Choice>): (r: Option<Vessel>)
    ensures choices == [] ==> r == None
    ensures r.Some? ==> r.value in vessels && r.value.id == choices[|choices| - 1].vesselId
    ensures choices != [] && (exists v :: v in vessels && v.id == choices[|choices| - 1].vesselId) ==> r.Some?
  {
    if |choices| == 0 then None
    else
      match FindById(vessels, choices[|choices| - 1].vesselId)
      case None => None
      case Some(i) => Some(vessels[i])
  }

  /** The vessel an upsert writes over `prior`: descriptive fields replaced, identity, `isActive` and `addedAt` kept. */
  function Patched(prior: Vessel, spec: VesselSpec): (v: Vessel)
    ensures v.id == prior.id && v.modelId == prior.modelId && v.isActive == prior.isActive && v.addedAt == prior.addedAt
  {
    prior.(name := spec.name, description := spec.description, provider := spec.provider,
      contextLength := spec.contextLength, pricing := spec.pricing)
  }

  ghost predicate HasModel(vessels: seq<Vessel>, modelId: string) {
    exists i :: 0 <= i < |vessels| && vessels[i].modelId == modelId
  }

  /** A vessel inserted by seeding: active, stamped now, unpriced, and named as a seed entry. */
  ghost predicate SeededFrom(v: Vessel, seed: seq<VesselSpec>, now: int) {
    v.isActive && v.addedAt == now && v.pricing.None?
    && exists s :: s in seed && s.modelId == v.modelId && s.name == v.name
  }

  lemma HasModelGrows(before: seq<Vessel>, after: seq<Vessel>)
    requires |before| <= |after| && after[..|before|] == before
    ensures forall m :: HasModel(before, m) ==> HasModel(after, m)
  {
    forall m | HasModel(before, m) ensures HasModel(after, m) {
      var i :| 0 <= i < |before| && before[i].modelId == m;
      assert after[i] == before[i];
    }
  }

  /** The `vessels` and `chosenVessel` tables. */
  class VesselRegistry {
    var vessels: seq<Vessel>
    var choices: seq<Choice>
    var nextId: nat

    /**
     * One vessel per model id; distinct document ids below the next one to hand out; every
     * choice names a vessel that exists (vessels are never deleted).
     */
    ghost predicate Valid()
      reads this
    {
      && UniqueBy(vessels, ModelId)
      && UniqueBy(vessels, VesselId) && IdsBelow(vessels, VesselId, nextId)
      && UniqueBy(choices, ChoiceId) && IdsBelow(choices, ChoiceId, nextId)
      && (forall c :: c in choices ==> exists v :: v in vessels && v.id == c.vesselId)
    }

    constructor ()
      ensures Valid() && vessels == [] && choices == []
    {
      vessels, choices, nextId := [], [], 0;
    }

    /**
     * `addVessel`: overwrites the descriptive fields of the vessel with this model id, or
     * inserts a new active vessel; there is never a second vessel for a model id.
     */
    method AddVessel(spec: VesselSpec, now: int) returns (id: nat)
      requires Valid()
      modifies this
      ensures Valid() && choices == old(choices)
      ensures match FindByModelId(old(vessels), spec.modelId)
        case Some(i) => id == old(vessels)[i].id && vessels == old(vessels)[i := Patched(old(vessels)[i], spec)]
        case None => vessels == old(vessels) + [Vessel(id, spec.modelId, spec.name, spec.description,
          spec.provider, spec.contextLength, spec.pricing, true, now)]
      ensures exists i :: 0 <= i < |vessels| && vessels[i].modelId == spec.modelId && vessels[i].id == id
    {
      var existing := FindByModelId(vessels, spec.modelId);
      if existing.Some? {
        var i := existing.value;
        vessels := vessels[i := Patched(vessels[i], spec)];
        id := vessels[i].id;
        assert forall c :: c in choices ==> exists v :: v in vessels && v.id == c.vesselId by {
          forall c | c in choices ensures exists v :: v in vessels && v.id == c.vesselId {
            var v :| v in old(vessels) && v.id == c.vesselId;
            var k :| 0 <= k < |old(vessels)| && old(vessels)[k] == v;
            assert vessels[k].id == v.id;
          }
        }
      } else {
        id := nextId;
        vessels := vessels + [Vessel(id, spec.modelId, spec.name, spec.description,
          spec.provider, spec.contextLength, spec.pricing, true, now)];
        nextId := nextId + 1;
        assert vessels[|vessels| - 1].id == id;
      }
    }

    /**
     * `chooseVessel`: refuses an unknown vessel; otherwise appends a choice and leaves every
     * earlier choice as it was, so the chosen vessel becomes this one.
     */
    method ChooseVessel(vesselId: nat, now: int) returns (r: Result<Vessel>)
      requires Valid()
      modifies this
      ensures Valid() && vessels == old(vessels)
      ensures match FindById(old(vessels), vesselId)
        case None => r == Err("This vessel does not exist in the sanctum") && choices == old(choices)
        case Some(i) => (r == Ok(old(vessels)[i]) && |choices| == |old(choices)| + 1
          && choices[..|old(choices)|] == old(choices) && choices[|old(choices)|].vesselId == vesselId
          && choices[|old(choices)|].chosenAt == now)
      ensures r.Ok? ==> ChosenVessel(vessels, choices) == Some(r.value)
    {
      var i := FindById(vessels, vesselId);
      if i.None? {
        return Err("This vessel does not exist in the sanctum");
      }
      choices := choices + [Choice(nextId, vesselId, now)];
      nextId := nextId + 1;
      r := Ok(vessels[i.value]);
      assert choices[..|old(choices)|] == old(choices);
      assert FindById(vessels, vesselId) == i;
    }

    /** `toggleVesselActive`: negates one vessel's flag, so toggling twice restores it. */
    method ToggleVesselActive(vesselId: nat) returns (r: Outcome)
      requires Valid()
      modifies this
      ensures Valid() && choices == old(choices) && nextId == old(nextId)
      ensures match FindById(old(vessels), vesselId)
        case None => r == Failed("Vessel not found") && vessels == old(vessels)
        case Some(i) => r == Done && vessels == old(vessels)[i := old(vessels)[i].(isActive := !old(vessels)[i].isActive)]
    {
      var i := FindById(vessels, vesselId);
      if i.None? {
        return Failed("Vessel not found");
      }
      var k := i.value;
      vessels := vessels[k := vessels[k].(isActive := !vessels[k].isActive)];
      r := Done;
      assert forall c :: c in choices ==> exists v :: v in vessels && v.id == c.vesselId by {
        forall c | c in choices ensures exists v :: v in vessels && v.id == c.vesselId {
          var v :| v in old(vessels) && v.id == c.vesselId;
          var j :| 0 <= j < |old(vessels)| && old(vessels)[j] == v;
          assert vessels[j].id == v.id;
        }
      }
    }

    /** One step of `seedVessels`: inserts the entry as an active vessel without pricing unless its model id is present. */
    method SeedOne(entry: VesselSpec, now: int)
      requires Valid()
      modifies this
      ensures Valid() && choices == old(choices)
      ensures HasModel(vessels, entry.modelId)
      ensures if HasModel(old(vessels), entry.modelId) then vessels == old(vessels)
        else vessels == old(vessels) + [Vessel(old(nextId), entry.modelId, entry.name, entry.description,
          entry.provider, entry.contextLength, None, true, now)]
    {
      var found := FindByModelId(vessels, entry.modelId);
      if found.None? {
        vessels := vessels + [Vessel(nextId, entry.modelId, entry.name, entry.description,
          entry.provider, entry.contextLength, None, true, now)];
        nextId := nextId + 1;
        assert vessels[|vessels| - 1].modelId == entry.modelId;
      }
    }

    /**
     * `seedVessels`: inserts, as active, each seed entry whose model id is missing; existing
     * vessels are left as they were, and the count of seed entries is returned whatever was
     * inserted.
     */
    method SeedVessels(seed: seq<VesselSpec>, now: int) returns (seeded: nat)
      requires Valid()
      modifies this
      ensures Valid() && choices == old(choices)
      ensures seeded == |seed|
      ensures |vessels| >= |old(vessels)| && vessels[..|old(vessels)|] == old(vessels)
      ensures forall s :: s in seed ==> HasModel(vessels, s.modelId)
      ensures forall i :: |old(vessels)| <= i < |vessels| ==> SeededFrom(vessels[i], seed, now)
      ensures (forall s :: s in seed ==> HasModel(old(vessels), s.modelId)) ==> vessels == old(vessels)
    {
      for n := 0 to |seed|
        invariant Valid() && choices == old(choices)
        invariant |vessels| >= |old(vessels)| && vessels[..|old(vessels)|] == old(vessels)
        invariant forall s :: s in seed[..n] ==> HasModel(vessels, s.modelId)
        invariant forall i :: |old(vessels)| <= i < |vessels| ==> SeededFrom(vessels[i], seed, now)
        invariant (forall s :: s in seed ==> HasModel(old(vessels), s.modelId)) ==> vessels == old(vessels)
      {
        var before := vessels;
        SeedOne(seed[n], now);
        HasModelGrows(before, vessels);
        assert seed[..n + 1] == seed[..n] + [seed[n]];
        assert vessels[..|old(vessels)|] == old(vessels) by {
          assert vessels[..|before|] == before;
        }
      }
      assert seed[..|seed|] == seed;
      seeded := |seed|;
    }
  }
}
