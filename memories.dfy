/**
 * The memory store: the `memories`, `memoryLinks`, `seekerMemories` and `memoryContexts`
 * tables and the mutations over them, with the action that compiles, records and touches a
 * memory context.
 */
module Memories {
  import opened Wrappers
  import opened Tables
  import opened MemoryModel
  import opened MemoryContext

  /** A freshly inserted memory: never accessed, and active. */
  function NewMemory(id: nat, input: MemoryInput, now: int): Memory {
    Memory(id, input.memoryId, input.memoryType, input.title, input.content, input.summary, input.tags,
      input.resonance, input.source, now, 0, None, true)
  }

  /** `createMemory`'s patch of an existing row: the descriptive fields are replaced, an absent summary or source removed. */
  function Overwritten(m: Memory, input: MemoryInput): Memory {
    m.(title := input.title, content := input.content, summary := input.summary, tags := input.tags,
      resonance := input.resonance, source := input.source)
  }

  /** A memory after one use. */
  function Touched(m: Memory, now: int): Memory {
    m.(accessCount := m.accessCount + 1, lastAccessedAt := Some(now))
  }

  /** `touchMemory` on a table: the first row with the memory id is touched, an unknown id changes nothing. */
  function Touch(memories: seq<Memory>, memoryId: string, now: int): (r: seq<Memory>)
    ensures |r| == |memories|
    ensures forall k :: 0 <= k < |r| ==> r[k].id == memories[k].id && r[k].memoryId == memories[k].memoryId
  {
    match FindMemory(memories, memoryId)
    case None => memories
    case Some(i) => memories[i := Touched(memories[i], now)]
  }

  /** The touch loop of a context compilation: every id in order. */
  function TouchedAll(memories: seq<Memory>, ids: seq<string>, now: int): (r: seq<Memory>)
    ensures |r| == |memories|
    ensures forall k :: 0 <= k < |r| ==> r[k].id == memories[k].id && r[k].memoryId == memories[k].memoryId
    decreases |ids|
  {
    if ids == [] then memories else Touch(TouchedAll(memories, ids[..|ids| - 1], now), ids[|ids| - 1], now)
  }

  /**
   * Touching a list of distinct ids over a table with one row per memory id raises the access
   * count of exactly the rows whose ids are listed, by exactly one, stamps them, and changes
   * nothing else.
   */
  lemma {:induction false} TouchedAllOnce(memories: seq<Memory>, ids: seq<string>, now: int)
    requires UniqueBy(memories, MemoryKey)
    requires NoDuplicates(ids)
    ensures var r := TouchedAll(memories, ids, now);
      forall k :: 0 <= k < |r| ==>
        r[k] == if memories[k].memoryId in ids then Touched(memories[k], now) else memories[k]
    decreases |ids|
  {
    if ids != [] {
      var init, last := ids[..|ids| - 1], ids[|ids| - 1];
      TouchedAllOnce(memories, init, now);
      var prior := TouchedAll(memories, init, now);
      assert last !in init;
      forall k | 0 <= k < |memories|
        ensures TouchedAll(memories, ids, now)[k]
          == if memories[k].memoryId in ids then Touched(memories[k], now) else memories[k]
      {
        assert memories[k].memoryId in ids <==> memories[k].memoryId in init || memories[k].memoryId == last;
        match FindMemory(prior, last)
        case None =>
        case Some(i) =>
          assert prior[i].memoryId == memories[i].memoryId;
          if k != i {
            assert MemoryKey(memories[k]) != MemoryKey(memories[i]);
          }
      }
    }
  }

  /**
   * A deactivated memory leaves every listing: with one row per memory id, after the row is
   * marked inactive no memory with that id is listed by type or ranked among the top memories.
   */
  lemma DeactivatedIsHidden(memories: seq<Memory>, i: nat, t: MemoryType, limit: Option<int>)
    requires UniqueBy(memories, MemoryKey) && i < |memories|
    ensures var after := memories[i := memories[i].(isActive := false)];
      && (forall m :: m in MemoriesByType(after, t) ==> m.memoryId != memories[i].memoryId)
      && (forall m :: m in TopMemories(after, limit) ==> m.memoryId != memories[i].memoryId)
  {
    var after := memories[i := memories[i].(isActive := false)];
    forall m | m in after && m.isActive ensures m.memoryId != memories[i].memoryId {
      var k :| 0 <= k < |after| && after[k] == m;
      assert k != i;
      assert MemoryKey(memories[k]) != MemoryKey(memories[i]);
    }
  }

  /** A profile created with nothing known yet but what the call supplies. */
  function NewProfile(id: nat, seekerId: nat, facts: seq<string>, notes: Option<string>, now: int): SeekerProfile {
    SeekerProfile(id, seekerId, None, facts, None, [], notes, None, now, now)
  }

  /** `addSeekerFact` on a fact list: the fact is added at the end unless it is already there. */
  function AddFact(facts: seq<string>, fact: string): (r: seq<string>)
    ensures fact in r
    ensures fact in facts ==> r == facts
    ensures forall x :: x in r <==> x in facts || x == fact
    ensures NoDuplicates(facts) ==> NoDuplicates(r)
    ensures |facts| <= |r| && r[..|facts|] == facts
  {
    if fact in facts then facts else facts + [fact]
  }

  /**
   * `updateSeekerRelationshipNotes` on the stored notes: new notes are appended after a blank
   * line when notes are already present, and replace absent or empty ones.
   */
  function AppendNotes(existing: Option<string>, notes: string): (r: string)
    ensures Truthy(existing) ==>
      (|r| == |existing.value| + 2 + |notes| && r[..|existing.value|] == existing.value
       && r[|existing.value|..|existing.value| + 2] == "\n\n" && r[|existing.value| + 2..] == notes)
    ensures !Truthy(existing) ==> r == notes
  {
    if Truthy(existing) then existing.value + "\n\n" + notes else notes
  }

  /** `updateSeekerMemory`'s patch: each supplied field replaces the stored one; `updatedAt` is stamped. */
  function PatchProfile(p: SeekerProfile, seekerName: Option<string>, facts: Option<seq<string>>,
                        preferences: Option<string>, interests: Option<seq<string>>,
                        relationshipNotes: Option<string>, lastInteractionSummary: Option<string>, now: int): SeekerProfile
  {
    p.(seekerName := if seekerName.Some? then seekerName else p.seekerName,
       facts := facts.GetOr(p.facts),
       preferences := if preferences.Some? then preferences else p.preferences,
       interests := interests.GetOr(p.interests),
       relationshipNotes := if relationshipNotes.Some? then relationshipNotes else p.relationshipNotes,
       lastInteractionSummary := if lastInteractionSummary.Some? then lastInteractionSummary else p.lastInteractionSummary,
       updatedAt := now)
  }

  ghost predicate HasMemory(memories: seq<Memory>, memoryId: string) {
    exists i :: 0 <= i < |memories| && memories[i].memoryId == memoryId
  }

  ghost predicate HasLink(links: seq<Link>, source: string, target: string) {
    exists i :: 0 <= i < |links| && links[i].source == source && links[i].target == target
  }

  /** A row the seed appended: a new memory for a seed entry whose memory id was missing. */
  ghost predicate SeededMemory(m: Memory, memorySeed: seq<MemoryInput>, before: seq<Memory>, now: int) {
    exists s :: s in memorySeed && !HasMemory(before, s.memoryId) && m == NewMemory(m.id, s, now)
  }

  /** A link the seed appended: a new active link for a seed entry whose pair was not linked. */
  ghost predicate SeededLink(l: Link, linkSeed: seq<LinkInput>, before: seq<Link>, now: int) {
    exists s :: s in linkSeed && !HasLink(before, s.source, s.target)
      && l == Link(l.id, s.source, s.target, s.linkType, s.weight, s.description, now, true)
  }

  /** Appending rows keeps every memory id present. */
  lemma HasMemoryGrows(before: seq<Memory>, after: seq<Memory>)
    requires |before| <= |after| && after[..|before|] == before
    ensures forall id :: HasMemory(before, id) ==> HasMemory(after, id)
  {
    forall id | HasMemory(before, id) ensures HasMemory(after, id) {
      var k :| 0 <= k < |before| && before[k].memoryId == id;
      assert after[k] == before[k];
    }
  }

  /** Appending links keeps every linked pair linked. */
  lemma HasLinkGrows(before: seq<Link>, after: seq<Link>)
    requires |before| <= |after| && after[..|before|] == before
    ensures forall a, b :: HasLink(before, a, b) ==> HasLink(after, a, b)
  {
    forall a, b | HasLink(before, a, b) ensures HasLink(after, a, b) {
      var k :| 0 <= k < |before| && before[k].source == a && before[k].target == b;
      assert after[k] == before[k];
    }
  }

  /** The four tables of the memory system, sharing one id counter. */
  class MemoryStore {
    var memories: seq<Memory>
    var links: seq<Link>
    var profiles: seq<SeekerProfile>
    var contexts: seq<ContextSnapshot>
    var nextId: nat

    /**
     * One memory per memory id, one link per (source, target) pair, one profile per seeker,
     * and distinct row ids below the next one to hand out.
     */
    ghost predicate Valid()
      reads this
    {
      && UniqueBy(memories, MemoryKey) && UniqueBy(memories, MemoryRowId) && IdsBelow(memories, MemoryRowId, nextId)
      && UniqueBy(links, LinkKey) && UniqueBy(links, LinkRowId) && IdsBelow(links, LinkRowId, nextId)
      && UniqueBy(profiles, ProfileKey) && UniqueBy(profiles, ProfileRowId) && IdsBelow(profiles, ProfileRowId, nextId)
      && UniqueBy(contexts, SnapshotRowId) && IdsBelow(contexts, SnapshotRowId, nextId)
    }

    constructor ()
      ensures Valid() && memories == [] && links == [] && profiles == [] && contexts == []
    {
      memories, links, profiles, contexts, nextId := [], [], [], [], 0;
    }

    /** Replaces a memory row by one with the same row id and memory id. */
    method ReplaceMemory(i: nat, m: Memory)
      requires Valid() && i < |memories| && m.id == memories[i].id && m.memoryId == memories[i].memoryId
      modifies this
      ensures Valid() && memories == old(memories)[i := m]
      ensures links == old(links) && profiles == old(profiles) && contexts == old(contexts) && nextId == old(nextId)
    {
      memories := memories[i := m];
      assert forall k :: 0 <= k < |memories| ==> MemoryKey(memories[k]) == MemoryKey(old(memories)[k]);
      assert forall k :: 0 <= k < |memories| ==> MemoryRowId(memories[k]) == MemoryRowId(old(memories)[k]);
    }

    /** Inserts a memory whose memory id is not in the table yet. */
    method InsertMemory(input: MemoryInput, now: int) returns (id: nat)
      requires Valid() && FindMemory(memories, input.memoryId).None?
      modifies this
      ensures Valid() && memories == old(memories) + [NewMemory(id, input, now)] && id == old(nextId)
      ensures links == old(links) && profiles == old(profiles) && contexts == old(contexts)
    {
      id := nextId;
      memories := memories + [NewMemory(id, input, now)];
      nextId := nextId + 1;
    }

    /**
     * `createMemory`: an upsert on the memory id that overwrites the descriptive fields of an
     * existing memory (keeping its type, creation time, access count and active flag, so a
     * deactivated memory stays inactive) or inserts a new active memory.
     */
    method CreateMemory(input: MemoryInput, now: int) returns (id: nat)
      requires Valid()
      modifies this
      ensures Valid() && links == old(links) && profiles == old(profiles) && contexts == old(contexts)
      ensures match FindMemory(old(memories), input.memoryId)
        case Some(i) => id == old(memories)[i].id && memories == old(memories)[i := Overwritten(old(memories)[i], input)]
        case None => memories == old(memories) + [NewMemory(id, input, now)]
      ensures GetMemory(memories, input.memoryId).Some?
    {
      var found := FindMemory(memories, input.memoryId);
      if found.Some? {
        var i := found.value;
        id := memories[i].id;
        ReplaceMemory(i, Overwritten(memories[i], input));
        assert memories[i].memoryId == input.memoryId;
      } else {
        id := InsertMemory(input, now);
        assert memories[|memories| - 1].memoryId == input.memoryId;
      }
    }

    /** `createMemoryInternal`: inserts only when the memory id is absent; an existing memory is never modified. */
    method CreateMemoryInternal(input: MemoryInput, now: int) returns (id: nat)
      requires Valid()
      modifies this
      ensures Valid() && links == old(links) && profiles == old(profiles) && contexts == old(contexts)
      ensures match FindMemory(old(memories), input.memoryId)
        case Some(i) => id == old(memories)[i].id && memories == old(memories)
        case None => memories == old(memories) + [NewMemory(id, input, now)]
      ensures HasMemory(memories, input.memoryId)
    {
      var found := FindMemory(memories, input.memoryId);
      if found.Some? {
        id := memories[found.value].id;
      } else {
        id := InsertMemory(input, now);
        assert memories[|memories| - 1].memoryId == input.memoryId;
      }
    }

    /** `touchMemory`: one more access, stamped now; an unknown id is silently ignored. */
    method TouchMemory(memoryId: string, now: int)
      requires Valid()
      modifies this
      ensures Valid() && links == old(links) && profiles == old(profiles) && contexts == old(contexts) && nextId == old(nextId)
      ensures memories == Touch(old(memories), memoryId, now)
    {
      var found := FindMemory(memories, memoryId);
      if found.Some? {
        ReplaceMemory(found.value, Touched(memories[found.value], now));
      }
    }

    /** `touchMemoryInternal`: the same touch, for use from actions. */
    method TouchMemoryInternal(memoryId: string, now: int)
      requires Valid()
      modifies this
      ensures Valid() && links == old(links) && profiles == old(profiles) && contexts == old(contexts) && nextId == old(nextId)
      ensures memories == Touch(old(memories), memoryId, now)
    {
      TouchMemory(memoryId, now);
    }

    /** `deactivateMemory`: a soft delete that clears only the active flag; an unknown id is ignored. */
    method DeactivateMemory(memoryId: string)
      requires Valid()
      modifies this
      ensures Valid() && links == old(links) && profiles == old(profiles) && contexts == old(contexts) && nextId == old(nextId)
      ensures match FindMemory(old(memories), memoryId)
        case None => memories == old(memories)
        case Some(i) => memories == old(memories)[i := old(memories)[i].(isActive := false)]
    {
      var found := FindMemory(memories, memoryId);
      if found.Some? {
        ReplaceMemory(found.value, memories[found.value].(isActive := false));
      }
    }

    /** Replaces a link row by one with the same row id and endpoints. */
    method ReplaceLink(i: nat, l: Link)
      requires Valid() && i < |links| && l.id == links[i].id && l.source == links[i].source && l.target == links[i].target
      modifies this
      ensures Valid() && links == old(links)[i := l]
      ensures memories == old(memories) && profiles == old(profiles) && contexts == old(contexts) && nextId == old(nextId)
    {
      links := links[i := l];
      assert forall k :: 0 <= k < |links| ==> LinkKey(links[k]) == LinkKey(old(links)[k]);
      assert forall k :: 0 <= k < |links| ==> LinkRowId(links[k]) == LinkRowId(old(links)[k]);
    }

    /** Inserts an active link between two memories not linked yet in that direction. */
    method InsertLink(input: LinkInput, now: int) returns (id: nat)
      requires Valid() && FindLink(links, input.source, input.target).None?
      modifies this
      ensures Valid() && id == old(nextId)
      ensures links == old(links) + [Link(id, input.source, input.target, input.linkType, input.weight, input.description, now, true)]
      ensures memories == old(memories) && profiles == old(profiles) && contexts == old(contexts)
    {
      id := nextId;
      links := links + [Link(id, input.source, input.target, input.linkType, input.weight, input.description, now, true)];
      nextId := nextId + 1;
    }

    /**
     * `createMemoryLink`: an upsert on the (source, target) pair that replaces the type, weight
     * and description of an existing link, or inserts an active one; never a second link for a pair.
     */
    method CreateMemoryLink(input: LinkInput, now: int) returns (id: nat)
      requires Valid()
      modifies this
      ensures Valid() && memories == old(memories) && profiles == old(profiles) && contexts == old(contexts)
      ensures match FindLink(old(links), input.source, input.target)
        case Some(i) => id == old(links)[i].id
          && links == old(links)[i := old(links)[i].(linkType := input.linkType, weight := input.weight, description := input.description)]
        case None => links == old(links) + [Link(id, input.source, input.target, input.linkType, input.weight, input.description, now, true)]
    {
      var found := FindLink(links, input.source, input.target);
      if found.Some? {
        var i := found.value;
        id := links[i].id;
        ReplaceLink(i, links[i].(linkType := input.linkType, weight := input.weight, description := input.description));
      } else {
        id := InsertLink(input, now);
      }
    }

    /**
     * `createMemoryLinkInternal`: the same upsert, except that an existing link keeps its type;
     * only its weight and description are replaced.
     */
    method CreateMemoryLinkInternal(input: LinkInput, now: int) returns (id: nat)
      requires Valid()
      modifies this
      ensures Valid() && memories == old(memories) && profiles == old(profiles) && contexts == old(contexts)
      ensures match FindLink(old(links), input.source, input.target)
        case Some(i) => id == old(links)[i].id
          && links == old(links)[i := old(links)[i].(weight := input.weight, description := input.description)]
        case None => links == old(links) + [Link(id, input.source, input.target, input.linkType, input.weight, input.description, now, true)]
    {
      var found := FindLink(links, input.source, input.target);
      if found.Some? {
        var i := found.value;
        id := links[i].id;
        ReplaceLink(i, links[i].(weight := input.weight, description := input.description));
      } else {
        id := InsertLink(input, now);
      }
    }

    /** Replaces a profile row by one with the same row id and seeker. */
    method ReplaceProfile(i: nat, p: SeekerProfile)
      requires Valid() && i < |profiles| && p.id == profiles[i].id && p.seekerId == profiles[i].seekerId
      modifies this
      ensures Valid() && profiles == old(profiles)[i := p]
      ensures memories == old(memories) && links == old(links) && contexts == old(contexts) && nextId == old(nextId)
    {
      profiles := profiles[i := p];
      assert forall k :: 0 <= k < |profiles| ==> ProfileKey(profiles[k]) == ProfileKey(old(profiles)[k]);
      assert forall k :: 0 <= k < |profiles| ==> ProfileRowId(profiles[k]) == ProfileRowId(old(profiles)[k]);
    }

    /** Inserts the profile of a seeker who has none yet, under the next id. */
    method InsertProfile(p: SeekerProfile) returns (id: nat)
      requires Valid() && FindProfile(profiles, p.seekerId).None?
      modifies this
      ensures Valid() && id == old(nextId) && profiles == old(profiles) + [p.(id := id)]
      ensures memories == old(memories) && links == old(links) && contexts == old(contexts)
    {
      id := nextId;
      profiles := profiles + [p.(id := id)];
      nextId := nextId + 1;
    }

    /**
     * `updateSeekerMemory`: patches only the supplied fields of the seeker's profile, or creates
     * the profile with absent fact and interest lists taken as empty.
     */
    method UpdateSeekerMemory(seekerId: nat, seekerName: Option<string>, facts: Option<seq<string>>,
                              preferences: Option<string>, interests: Option<seq<string>>,
                              relationshipNotes: Option<string>, lastInteractionSummary: Option<string>, now: int)
      returns (id: nat)
      requires Valid()
      modifies this
      ensures Valid() && memories == old(memories) && links == old(links) && contexts == old(contexts)
      ensures match FindProfile(old(profiles), seekerId)
        case Some(i) => id == old(profiles)[i].id && profiles == old(profiles)[i := PatchProfile(old(profiles)[i],
          seekerName, facts, preferences, interests, relationshipNotes, lastInteractionSummary, now)]
        case None => profiles == old(profiles) + [SeekerProfile(id, seekerId, seekerName, facts.GetOr([]), preferences,
          interests.GetOr([]), relationshipNotes, lastInteractionSummary, now, now)]
    {
      var found := FindProfile(profiles, seekerId);
      if found.Some? {
        var i := found.value;
        id := profiles[i].id;
        ReplaceProfile(i, PatchProfile(profiles[i], seekerName, facts, preferences, interests,
          relationshipNotes, lastInteractionSummary, now));
      } else {
        id := InsertProfile(SeekerProfile(0, seekerId, seekerName, facts.GetOr([]), preferences,
          interests.GetOr([]), relationshipNotes, lastInteractionSummary, now, now));
      }
    }

    /**
     * `addSeekerFact`: adds the fact to the seeker's profile unless it is already recorded (then
     * nothing changes, not even the update time), or creates a profile holding just this fact.
     */
    method AddSeekerFact(seekerId: nat, fact: string, now: int)
      requires Valid()
      modifies this
      ensures Valid() && memories == old(memories) && links == old(links) && contexts == old(contexts)
      ensures match FindProfile(old(profiles), seekerId)
        case Some(i) => if fact in old(profiles)[i].facts then profiles == old(profiles)
          else profiles == old(profiles)[i := old(profiles)[i].(facts := AddFact(old(profiles)[i].facts, fact), updatedAt := now)]
        case None => profiles == old(profiles) + [NewProfile(old(nextId), seekerId, [fact], None, now)]
    {
      var found := FindProfile(profiles, seekerId);
      if found.Some? {
        var i := found.value;
        if fact !in profiles[i].facts {
          ReplaceProfile(i, profiles[i].(facts := profiles[i].facts + [fact], updatedAt := now));
        }
      } else {
        var _ := InsertProfile(NewProfile(0, seekerId, [fact], None, now));
      }
    }

    /** `addSeekerFactInternal`: the same mutation, for use from actions. */
    method AddSeekerFactInternal(seekerId: nat, fact: string, now: int)
      requires Valid()
      modifies this
      ensures Valid() && memories == old(memories) && links == old(links) && contexts == old(contexts)
      ensures match FindProfile(old(profiles), seekerId)
        case Some(i) => if fact in old(profiles)[i].facts then profiles == old(profiles)
          else profiles == old(profiles)[i := old(profiles)[i].(facts := AddFact(old(profiles)[i].facts, fact), updatedAt := now)]
        case None => profiles == old(profiles) + [NewProfile(old(nextId), seekerId, [fact], None, now)]
    {
      AddSeekerFact(seekerId, fact, now);
    }

    /**
     * `updateSeekerRelationshipNotes`: appends the notes to the seeker's existing notes after a
     * blank line, or creates a profile holding just these notes.
     */
    method UpdateSeekerRelationshipNotes(seekerId: nat, notes: string, now: int)
      requires Valid()
      modifies this
      ensures Valid() && memories == old(memories) && links == old(links) && contexts == old(contexts)
      ensures match FindProfile(old(profiles), seekerId)
        case Some(i) => profiles == old(profiles)[i := old(profiles)[i].(
          relationshipNotes := Some(AppendNotes(old(profiles)[i].relationshipNotes, notes)), updatedAt := now)]
        case None => profiles == old(profiles) + [NewProfile(old(nextId), seekerId, [], Some(notes), now)]
    {
      var found := FindProfile(profiles, seekerId);
      if found.Some? {
        var i := found.value;
        ReplaceProfile(i, profiles[i].(relationshipNotes := Some(AppendNotes(profiles[i].relationshipNotes, notes)), updatedAt := now));
      } else {
        var _ := InsertProfile(NewProfile(0, seekerId, [], Some(notes), now));
      }
    }

    /** `storeMemoryContext`: records a compilation, stamped now. */
    method StoreMemoryContext(threadId: Option<nat>, seekerId: Option<nat>, memoryIds: seq<string>,
                              compiledContext: string, totalResonance: real, generationTimeMs: int, now: int)
      returns (id: nat)
      requires Valid()
      modifies this
      ensures Valid() && memories == old(memories) && links == old(links) && profiles == old(profiles)
      ensures id == old(nextId)
      ensures contexts == old(contexts) + [ContextSnapshot(id, threadId, seekerId, memoryIds, compiledContext,
        totalResonance, now, generationTimeMs)]
    {
      id := nextId;
      contexts := contexts + [ContextSnapshot(id, threadId, seekerId, memoryIds, compiledContext,
        totalResonance, now, generationTimeMs)];
      nextId := nextId + 1;
    }

    /** The touch loop: each listed id in turn. */
    method TouchAll(ids: seq<string>, now: int)
      requires Valid()
      modifies this
      ensures Valid() && links == old(links) && profiles == old(profiles) && contexts == old(contexts) && nextId == old(nextId)
      ensures memories == TouchedAll(old(memories), ids, now)
    {
      for i := 0 to |ids|
        invariant Valid() && links == old(links) && profiles == old(profiles) && contexts == old(contexts) && nextId == old(nextId)
        invariant memories == TouchedAll(old(memories), ids[..i], now)
      {
        TouchMemoryInternal(ids[i], now);
        assert ids[..i + 1][..i] == ids[..i];
      }
      assert ids[..|ids|] == ids;
    }

    /** The gathering of a compilation, tier by tier, over the tables as they stand. */
    method CompileContext(seekerId: Option<nat>, recent: Option<seq<string>>, index: string -> seq<Memory>)
      returns (c: Compiled)
      ensures c == Compile(memories, profiles, seekerId, recent, index)
    {
      c := AdmitAll(Nothing, MemoriesByType(memories, Core), CoreTier);
      c := WithSeeker(c, profiles, seekerId, true);
      if recent.Some? && |recent.value| > 0 {
        c := AdmitAll(c, SearchHits(recent.value, index), SearchTier);
      }
      c := AdmitAll(c, HarmonicCandidates(memories), HarmonicTier);
    }

    /**
     * `generateMemoryContext`: compiles the context from the tables as they stand, records the
     * compilation (the same ids, text and total it returns), then touches every memory it used
     * exactly once. `index` is the full-text index, `elapsed` the measured generation time.
     */
    method GenerateMemoryContext(seekerId: Option<nat>, threadId: Option<nat>, recent: Option<seq<string>>,
                                 index: string -> seq<Memory>, elapsed: int, now: int)
      returns (context: string, memoryCount: nat, totalResonance: real, generationTimeMs: int)
      requires Valid()
      modifies this
      ensures Valid() && links == old(links) && profiles == old(profiles)
      ensures var c := Compile(old(memories), old(profiles), seekerId, recent, index);
        && context == ContextText(c) && memoryCount == |c.memoryIds| && totalResonance == c.totalResonance
        && generationTimeMs == elapsed
        && contexts == old(contexts) + [ContextSnapshot(old(nextId), threadId, seekerId, c.memoryIds, context,
             totalResonance, now, elapsed)]
        && memories == TouchedAll(old(memories), c.memoryIds, now)
      ensures forall k :: 0 <= k < |memories| ==>
        memories[k] == if old(memories)[k].memoryId in Compile(old(memories), old(profiles), seekerId, recent, index).memoryIds
          then Touched(old(memories)[k], now) else old(memories)[k]
    {
      var c := CompileContext(seekerId, recent, index);
      CompileFacts(memories, profiles, seekerId, recent, index);
      TouchedAllOnce(memories, c.memoryIds, now);
      context := ContextText(c);
      var _ := StoreMemoryContext(threadId, seekerId, c.memoryIds, context, c.totalResonance, elapsed, now);
      TouchAll(c.memoryIds, now);
      memoryCount, totalResonance, generationTimeMs := |c.memoryIds|, c.totalResonance, elapsed;
    }

    /** One memory of the seed: inserted as new unless its memory id is present. */
    method SeedMemory(input: MemoryInput, now: int)
      requires Valid()
      modifies this
      ensures Valid() && links == old(links) && profiles == old(profiles) && contexts == old(contexts)
      ensures HasMemory(memories, input.memoryId)
      ensures if HasMemory(old(memories), input.memoryId) then memories == old(memories)
        else memories == old(memories) + [NewMemory(old(nextId), input, now)]
    {
      var found := FindMemory(memories, input.memoryId);
      if found.Some? {
        assert memories[found.value].memoryId == input.memoryId;
      } else {
        var _ := InsertMemory(input, now);
        assert memories[|memories| - 1].memoryId == input.memoryId;
      }
    }

    /** One link of the seed: inserted as a new active link unless the pair is already linked; never patched. */
    method SeedLink(input: LinkInput, now: int)
      requires Valid()
      modifies this
      ensures Valid() && memories == old(memories) && profiles == old(profiles) && contexts == old(contexts)
      ensures HasLink(links, input.source, input.target)
      ensures if HasLink(old(links), input.source, input.target) then links == old(links)
        else links == old(links) + [Link(old(nextId), input.source, input.target, input.linkType, input.weight,
          input.description, now, true)]
    {
      var found := FindLink(links, input.source, input.target);
      if found.None? {
        var _ := InsertLink(input, now);
        assert links[|links| - 1].source == input.source && links[|links| - 1].target == input.target;
      }
    }

    /** The memory half of the seed: every seed memory present afterwards, existing rows untouched. */
    method SeedMemories(memorySeed: seq<MemoryInput>, now: int)
      requires Valid()
      modifies this
      ensures Valid() && links == old(links) && profiles == old(profiles) && contexts == old(contexts)
      ensures |memories| >= |old(memories)| && memories[..|old(memories)|] == old(memories)
      ensures forall s :: s in memorySeed ==> HasMemory(memories, s.memoryId)
      ensures forall i :: |old(memories)| <= i < |memories| ==> SeededMemory(memories[i], memorySeed, old(memories), now)
      ensures (forall s :: s in memorySeed ==> HasMemory(old(memories), s.memoryId)) ==> memories == old(memories)
    {
      for n := 0 to |memorySeed|
        invariant Valid() && links == old(links) && profiles == old(profiles) && contexts == old(contexts)
        invariant |memories| >= |old(memories)| && memories[..|old(memories)|] == old(memories)
        invariant forall s :: s in memorySeed[..n] ==> HasMemory(memories, s.memoryId)
        invariant forall i :: |old(memories)| <= i < |memories| ==> SeededMemory(memories[i], memorySeed, old(memories), now)
        invariant (forall s :: s in memorySeed ==> HasMemory(old(memories), s.memoryId)) ==> memories == old(memories)
      {
        SeedNextMemory(memorySeed, n, old(memories), now);
        assert memorySeed[..n + 1] == memorySeed[..n] + [memorySeed[n]];
      }
      assert memorySeed[..|memorySeed|] == memorySeed;
    }

    /** One step of the memory half of the seed, stated against the table `start` as it was before seeding. */
    method SeedNextMemory(memorySeed: seq<MemoryInput>, n: nat, ghost start: seq<Memory>, now: int)
      requires Valid() && n < |memorySeed|
      requires |memories| >= |start| && memories[..|start|] == start
      requires forall i :: |start| <= i < |memories| ==> SeededMemory(memories[i], memorySeed, start, now)
      requires (forall s :: s in memorySeed ==> HasMemory(start, s.memoryId)) ==> memories == start
      modifies this
      ensures Valid() && links == old(links) && profiles == old(profiles) && contexts == old(contexts)
      ensures |memories| >= |start| && memories[..|start|] == start
      ensures forall id :: HasMemory(old(memories), id) ==> HasMemory(memories, id)
      ensures HasMemory(memories, memorySeed[n].memoryId)
      ensures forall i :: |start| <= i < |memories| ==> SeededMemory(memories[i], memorySeed, start, now)
      ensures (forall s :: s in memorySeed ==> HasMemory(start, s.memoryId)) ==> memories == start
    {
      ghost var before := memories;
      SeedMemory(memorySeed[n], now);
      assert memorySeed[n] in memorySeed;
      HasMemoryGrows(start, before);
      HasMemoryGrows(before, memories);
      if |memories| > |before| {
        assert SeededMemory(memories[|before|], memorySeed, start, now);
      }
      assert memories[..|start|] == start by {
        assert memories[..|before|] == before;
      }
    }

    /** The link half of the seed: every seed link present afterwards, existing links untouched. */
    method SeedLinks(linkSeed: seq<LinkInput>, now: int)
      requires Valid()
      modifies this
      ensures Valid() && memories == old(memories) && profiles == old(profiles) && contexts == old(contexts)
      ensures |links| >= |old(links)| && links[..|old(links)|] == old(links)
      ensures forall s :: s in linkSeed ==> HasLink(links, s.source, s.target)
      ensures forall i :: |old(links)| <= i < |links| ==> SeededLink(links[i], linkSeed, old(links), now)
      ensures (forall s :: s in linkSeed ==> HasLink(old(links), s.source, s.target)) ==> links == old(links)
    {
      for n := 0 to |linkSeed|
        invariant Valid() && memories == old(memories) && profiles == old(profiles) && contexts == old(contexts)
        invariant |links| >= |old(links)| && links[..|old(links)|] == old(links)
        invariant forall s :: s in linkSeed[..n] ==> HasLink(links, s.source, s.target)
        invariant forall i :: |old(links)| <= i < |links| ==> SeededLink(links[i], linkSeed, old(links), now)
        invariant (forall s :: s in linkSeed ==> HasLink(old(links), s.source, s.target)) ==> links == old(links)
      {
        SeedNextLink(linkSeed, n, old(links), now);
        assert linkSeed[..n + 1] == linkSeed[..n] + [linkSeed[n]];
      }
      assert linkSeed[..|linkSeed|] == linkSeed;
    }

    /** One step of the link half of the seed, stated against the links `start` as they were before seeding. */
    method SeedNextLink(linkSeed: seq<LinkInput>, n: nat, ghost start: seq<Link>, now: int)
      requires Valid() && n < |linkSeed|
      requires |links| >= |start| && links[..|start|] == start
      requires forall i :: |start| <= i < |links| ==> SeededLink(links[i], linkSeed, start, now)
      requires (forall s :: s in linkSeed ==> HasLink(start, s.source, s.target)) ==> links == start
      modifies this
      ensures Valid() && memories == old(memories) && profiles == old(profiles) && contexts == old(contexts)
      ensures |links| >= |start| && links[..|start|] == start
      ensures forall a, b :: HasLink(old(links), a, b) ==> HasLink(links, a, b)
      ensures HasLink(links, linkSeed[n].source, linkSeed[n].target)
      ensures forall i :: |start| <= i < |links| ==> SeededLink(links[i], linkSeed, start, now)
      ensures (forall s :: s in linkSeed ==> HasLink(start, s.source, s.target)) ==> links == start
    {
      ghost var before := links;
      SeedLink(linkSeed[n], now);
      assert linkSeed[n] in linkSeed;
      HasLinkGrows(start, before);
      HasLinkGrows(before, links);
      if |links| > |before| {
        assert SeededLink(links[|before|], linkSeed, start, now);
      }
      assert links[..|start|] == start by {
        assert links[..|before|] == before;
      }
    }

    /**
     * `seedCoreMemories`: inserts each seed memory and each seed link that is missing, leaves
     * existing rows as they were, and reports the sizes of the two seed lists.
     */
    method SeedCoreMemories(memorySeed: seq<MemoryInput>, linkSeed: seq<LinkInput>, now: int)
      returns (memoriesSeeded: nat, linksSeeded: nat)
      requires Valid()
      modifies this
      ensures Valid() && profiles == old(profiles) && contexts == old(contexts)
      ensures memoriesSeeded == |memorySeed| && linksSeeded == |linkSeed|
      ensures |memories| >= |old(memories)| && memories[..|old(memories)|] == old(memories)
      ensures |links| >= |old(links)| && links[..|old(links)|] == old(links)
      ensures forall s :: s in memorySeed ==> HasMemory(memories, s.memoryId)
      ensures forall s :: s in linkSeed ==> HasLink(links, s.source, s.target)
      ensures forall i :: |old(memories)| <= i < |memories| ==> SeededMemory(memories[i], memorySeed, old(memories), now)
      ensures forall i :: |old(links)| <= i < |links| ==> SeededLink(links[i], linkSeed, old(links), now)
      ensures (forall s :: s in memorySeed ==> HasMemory(old(memories), s.memoryId)) ==> memories == old(memories)
      ensures (forall s :: s in linkSeed ==> HasLink(old(links), s.source, s.target)) ==> links == old(links)
    {
      SeedMemories(memorySeed, now);
      SeedLinks(linkSeed, now);
      memoriesSeeded, linksSeeded := |memorySeed|, |linkSeed|;
    }
  }
}
