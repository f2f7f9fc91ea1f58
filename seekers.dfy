/**
 * Seekers: the anonymous visitors of the portal, recognised by an ethereal id their browser
 * keeps.
 */
module Seekers {
  import opened Wrappers
  import opened Tables
  import JsText

  datatype Seeker = Seeker(id: nat, etherealId: string, firstVisit: int, lastVisit: int, chosenName: Option<string>)

  function SeekerId(s: Seeker): nat { s.id }

  /** `getSeekerByEtherealId`: the first seeker carrying this ethereal id, if any. */
  function SeekerByEtherealId(seekers: seq<Seeker>, etherealId: string): (r: Option<Seeker>)
    ensures r.Some? ==> r.value in seekers && r.value.etherealId == etherealId
    ensures r.None? <==> forall s :: s in seekers ==> s.etherealId != etherealId
  {
    match FirstIndex(seekers, (s: Seeker) => s.etherealId == etherealId)
    case None => None
    case Some(i) => Some(seekers[i])
  }

  /**
   * The ethereal id `getOrCreateSeeker` makes up: `seeker_`, the time in milliseconds, `_`,
   * and the base-36 digits of a random fraction (a parameter here).
   */
  function MintedEtherealId(now: nat, randomDigits: string): (r: string)
    ensures JsText.StartsWith(r, "seeker_")
    ensures |r| == 7 + |JsText.Decimal(now)| + 1 + |randomDigits|
    ensures r[7..7 + |JsText.Decimal(now)|] == JsText.Decimal(now)
    ensures JsText.EndsWith(r, "_" + randomDigits)
  {
    var r := "seeker_" + JsText.Decimal(now) + "_" + randomDigits;
    assert r[|r| - |randomDigits| - 1..] == "_" + randomDigits;
    r
  }

  /** The `seekers` table. Two seekers may share an ethereal id: only `greetSeeker` looks first. */
  class SeekerRegistry {
    var seekers: seq<Seeker>
    var nextId: nat

    ghost predicate Valid()
      reads this
    {
      UniqueBy(seekers, SeekerId) && IdsBelow(seekers, SeekerId, nextId)
    }

    constructor ()
      ensures Valid() && seekers == []
    {
      seekers, nextId := [], 0;
    }

    /**
     * `greetSeeker`: a returning seeker (the first one with this ethereal id) has its last
     * visit moved to now and keeps its id; a new one is inserted with both visits now. Either
     * way the ethereal id then leads to the returned seeker, so greeting again is recognised.
     */
    method GreetSeeker(etherealId: string, now: int) returns (id: nat)
      requires Valid()
      modifies this
      ensures Valid()
      ensures match FirstIndex(old(seekers), (s: Seeker) => s.etherealId == etherealId)
        case Some(i) => id == old(seekers)[i].id && seekers == old(seekers)[i := old(seekers)[i].(lastVisit := now)]
        case None => seekers == old(seekers) + [Seeker(id, etherealId, now, now, None)]
      ensures match SeekerByEtherealId(seekers, etherealId)
        case Some(s) => s.id == id && s.lastVisit == now
        case None => false
    {
      var found := FirstIndex(seekers, (s: Seeker) => s.etherealId == etherealId);
      if found.Some? {
        var i := found.value;
        seekers := seekers[i := seekers[i].(lastVisit := now)];
        id := seekers[i].id;
        assert FirstIndex(seekers, (s: Seeker) => s.etherealId == etherealId) == found by {
          assert forall j :: 0 <= j < |seekers| ==> seekers[j].etherealId == old(seekers)[j].etherealId;
        }
      } else {
        id := nextId;
        seekers := seekers + [Seeker(id, etherealId, now, now, None)];
        nextId := nextId + 1;
        var f := FirstIndex(seekers, (s: Seeker) => s.etherealId == etherealId);
        assert seekers[|seekers| - 1].etherealId == etherealId;
        assert f.Some?;
        assert forall j :: 0 <= j < |old(seekers)| ==> seekers[j] == old(seekers)[j];
        assert f.value == |seekers| - 1;
      }
    }

    /** `setChosenName`: patches the name; patching a missing seeker fails. */
    method SetChosenName(seekerId: nat, chosenName: string) returns (r: Outcome)
      requires Valid()
      modifies this
      ensures Valid()
      ensures match FirstIndex(old(seekers), (s: Seeker) => s.id == seekerId)
        case None => r == Failed(MissingDocument) && seekers == old(seekers)
        case Some(i) => r == Done && seekers == old(seekers)[i := old(seekers)[i].(chosenName := Some(chosenName))]
    {
      var found := FirstIndex(seekers, (s: Seeker) => s.id == seekerId);
      if found.None? {
        return Failed(MissingDocument);
      }
      var i := found.value;
      seekers := seekers[i := seekers[i].(chosenName := Some(chosenName))];
      r := Done;
    }

    /**
     * `getOrCreateSeeker`: always inserts a fresh seeker under a minted ethereal id, even when
     * one with that id exists.
     */
    method GetOrCreateSeeker(now: nat, randomDigits: string) returns (id: nat)
      requires Valid()
      modifies this
      ensures Valid()
      ensures seekers == old(seekers) + [Seeker(id, MintedEtherealId(now, randomDigits), now, now, None)]
      ensures forall s :: s in old(seekers) ==> s.id != id
    {
      id := nextId;
      seekers := seekers + [Seeker(id, MintedEtherealId(now, randomDigits), now, now, None)];
      nextId := nextId + 1;
    }
  }
}
