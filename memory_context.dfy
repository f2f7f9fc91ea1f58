/**
 * The compilation of a memory context: the text injected into a vessel's system prompt so that
 * it remembers across conversations. Memories are gathered tier by tier (core memories, the
 * seeker's profile, memories found by searching the recent messages, harmonic memories), each
 * tier appending labelled parts, the ids of the memories it used and their resonance.
 */
module MemoryContext {
  import opened Wrappers
  import opened Tables
  import opened JsText
  import opened MemoryModel

  /** The running state of a compilation: `contextParts`, `memoryIds` and `totalResonance`. */
  datatype Compiled = Compiled(parts: seq<string>, memoryIds: seq<string>, totalResonance: real)

  const Nothing: Compiled := Compiled([], [], 0.0)
  const Separator: string := "\n\n---\n\n"
  const SeekerHeading: string := "[Seeker Memory]"
  const SearchLimit: int := 5
  const HarmonicLimit: int := 3

  /**
   * The four loops that gather memories. The core loop counts every core memory; the search
   * loop of the full compiler counts memories not counted yet; the harmonic loop, and the
   * search loop of the oracle's simplified compiler, count memories not counted yet that have
   * a summary.
   */
  datatype Tier = CoreTier | SearchTier | StrictSearchTier | HarmonicTier

  /** The label in a part's heading: the tier's name, or the memory's own type for a search hit. */
  function Label(tier: Tier, m: Memory): string {
    match tier
    case CoreTier => "Core"
    case HarmonicTier => "Harmonic"
    case SearchTier => TypeName(m.memoryType)
    case StrictSearchTier => TypeName(m.memoryType)
  }

  /** `[tag: title]` on one line and the summary below it. */
  function Part(tag: string, title: string, summary: string): (r: string)
    ensures |r| > 0 && r[0] == '['
  {
    "[" + tag + ": " + title + "]\n" + summary
  }

  /** Whether a tier counts a memory, given the ids counted so far (`memoryIds.includes`). */
  predicate Counts(tier: Tier, seen: seq<string>, m: Memory) {
    match tier
    case CoreTier => true
    case SearchTier => m.memoryId !in seen
    case StrictSearchTier => m.memoryId !in seen && Truthy(m.summary)
    case HarmonicTier => m.memoryId !in seen && Truthy(m.summary)
  }

  /**
   * One iteration of a tier's loop: a counted memory appends its id and resonance, and a part
   * when it has a summary; a memory the tier does not count changes nothing.
   */
  function Admit(acc: Compiled, m: Memory, tier: Tier): (r: Compiled)
    ensures Counts(tier, acc.memoryIds, m) ==>
      (r.memoryIds == acc.memoryIds + [m.memoryId] && r.totalResonance == acc.totalResonance + m.resonance)
    ensures !Counts(tier, acc.memoryIds, m) ==> r == acc
    ensures r.parts == acc.parts || (Counts(tier, acc.memoryIds, m) && Truthy(m.summary)
      && r.parts == acc.parts + [Part(Label(tier, m), m.title, m.summary.value)])
  {
    if !Counts(tier, acc.memoryIds, m) then acc
    else Compiled(
      acc.parts + (if Truthy(m.summary) then [Part(Label(tier, m), m.title, m.summary.value)] else []),
      acc.memoryIds + [m.memoryId],
      acc.totalResonance + m.resonance)
  }

  /**
   * A whole tier: its loop run over `ms` in order. What was gathered before is kept as a
   * prefix, at most one id is added per memory, every added id is the id of one of `ms`, and
   * every added part is a labelled part.
   */
  function Fold(acc: Compiled, ms: seq<Memory>, tier: Tier): (r: Compiled)
    ensures |acc.parts| <= |r.parts| && r.parts[..|acc.parts|] == acc.parts
    ensures |acc.memoryIds| <= |r.memoryIds| <= |acc.memoryIds| + |ms| && r.memoryIds[..|acc.memoryIds|] == acc.memoryIds
    ensures forall k :: |acc.memoryIds| <= k < |r.memoryIds| ==> r.memoryIds[k] in Ids(ms)
    ensures forall k :: |acc.parts| <= k < |r.parts| ==> |r.parts[k]| > 0 && r.parts[k][0] == '['
    decreases |ms|
  {
    if ms == [] then acc
    else
      var prior := Fold(acc, ms[..|ms| - 1], tier);
      var r := Admit(prior, ms[|ms| - 1], tier);
      assert Ids(ms) == Ids(ms[..|ms| - 1]) + [ms[|ms| - 1].memoryId];
      r
  }

  /** The loop of a tier, run on local arrays, computes exactly `Fold`. */
  method AdmitAll(acc: Compiled, ms: seq<Memory>, tier: Tier) returns (r: Compiled)
    ensures r == Fold(acc, ms, tier)
  {
    var parts, memoryIds, total := acc.parts, acc.memoryIds, acc.totalResonance;
    for i := 0 to |ms|
      invariant Compiled(parts, memoryIds, total) == Fold(acc, ms[..i], tier)
    {
      var m := ms[i];
      assert ms[..i + 1][..i] == ms[..i];
      assert Fold(acc, ms[..i + 1], tier) == Admit(Fold(acc, ms[..i], tier), m, tier);
      if Counts(tier, memoryIds, m) {
        if Truthy(m.summary) {
          parts := parts + [Part(Label(tier, m), m.title, m.summary.value)];
        }
        memoryIds := memoryIds + [m.memoryId];
        total := total + m.resonance;
      }
    }
    assert ms[..|ms|] == ms;
    r := Compiled(parts, memoryIds, total);
  }

  /** The memory ids of a list of memories, in order. */
  function Ids(ms: seq<Memory>): (r: seq<string>)
    ensures |r| == |ms| && forall i :: 0 <= i < |ms| ==> r[i] == ms[i].memoryId
    decreases |ms|
  {
    if ms == [] then [] else Ids(ms[..|ms| - 1]) + [ms[|ms| - 1].memoryId]
  }

  /** The summed resonance of a list of memories. */
  function SumResonance(ms: seq<Memory>): real
    decreases |ms|
  {
    if ms == [] then 0.0 else SumResonance(ms[..|ms| - 1]) + ms[|ms| - 1].resonance
  }

  /** The core tier counts every core memory: it appends all their ids and all their resonance. */
  lemma {:induction false} CoreTierCountsAll(acc: Compiled, ms: seq<Memory>)
    ensures Fold(acc, ms, CoreTier).memoryIds == acc.memoryIds + Ids(ms)
    ensures Fold(acc, ms, CoreTier).totalResonance == acc.totalResonance + SumResonance(ms)
  {
    if ms != [] {
      var init, last := ms[..|ms| - 1], ms[|ms| - 1];
      CoreTierCountsAll(acc, init);
      var prior := Fold(acc, init, CoreTier);
      assert Fold(acc, ms, CoreTier) == Admit(prior, last, CoreTier);
      calc {
        Fold(acc, ms, CoreTier).memoryIds;
        prior.memoryIds + [last.memoryId];
        (acc.memoryIds + Ids(init)) + [last.memoryId];
        acc.memoryIds + (Ids(init) + [last.memoryId]);
      }
    }
  }

  /** The memories a tier counts, in order: a reference tally kept beside the fold. */
  function Counted(seen: seq<string>, ms: seq<Memory>, tier: Tier): (r: seq<Memory>)
    ensures |r| <= |ms|
    ensures forall m :: m in r ==> m in ms
    decreases |ms|
  {
    if ms == [] then []
    else
      var u := Counted(seen, ms[..|ms| - 1], tier);
      if Counts(tier, seen + Ids(u), ms[|ms| - 1]) then u + [ms[|ms| - 1]] else u
  }

  lemma {:induction false} IdsAppend(a: seq<Memory>, b: seq<Memory>)
    ensures Ids(a + b) == Ids(a) + Ids(b)
  {
  }

  lemma {:induction false} SumResonanceAppend(a: seq<Memory>, b: seq<Memory>)
    ensures SumResonance(a + b) == SumResonance(a) + SumResonance(b)
    decreases |b|
  {
    if b != [] {
      assert (a + b)[..|a + b| - 1] == a + b[..|b| - 1];
      assert (a + b)[|a + b| - 1] == b[|b| - 1];
      SumResonanceAppend(a, b[..|b| - 1]);
    } else {
      assert a + b == a;
    }
  }

  /**
   * A tier adds exactly the ids of the memories it counts, and exactly their resonance: the
   * total is the summed resonance of the counted memories.
   */
  lemma {:induction false} FoldTally(acc: Compiled, ms: seq<Memory>, tier: Tier)
    ensures var r := Fold(acc, ms, tier); var used := Counted(acc.memoryIds, ms, tier);
      r.memoryIds == acc.memoryIds + Ids(used) && r.totalResonance == acc.totalResonance + SumResonance(used)
    decreases |ms|
  {
    if ms != [] {
      var init, last := ms[..|ms| - 1], ms[|ms| - 1];
      FoldTally(acc, init, tier);
      var prior := Fold(acc, init, tier);
      var u := Counted(acc.memoryIds, init, tier);
      assert prior.memoryIds == acc.memoryIds + Ids(u);
      assert Fold(acc, ms, tier) == Admit(prior, last, tier);
      if Counts(tier, prior.memoryIds, last) {
        assert (u + [last])[..|u|] == u;
        assert Ids(u + [last]) == Ids(u) + [last.memoryId];
        assert SumResonance(u + [last]) == SumResonance(u) + last.resonance;
      }
    }
  }

  /** A tier other than the core one never counts a memory twice, nor one counted before it. */
  lemma {:induction false} FoldKeepsIdsDistinct(acc: Compiled, ms: seq<Memory>, tier: Tier)
    requires tier != CoreTier
    requires NoDuplicates(acc.memoryIds)
    ensures NoDuplicates(Fold(acc, ms, tier).memoryIds)
  {
    if ms != [] {
      FoldKeepsIdsDistinct(acc, ms[..|ms| - 1], tier);
    }
  }

  /** In the strict tiers every counted memory contributes exactly one part. */
  lemma {:induction false} StrictTierPartPerId(acc: Compiled, ms: seq<Memory>, tier: Tier)
    requires tier == StrictSearchTier || tier == HarmonicTier
    ensures var r := Fold(acc, ms, tier); |r.parts| - |acc.parts| == |r.memoryIds| - |acc.memoryIds|
  {
    if ms != [] {
      StrictTierPartPerId(acc, ms[..|ms| - 1], tier);
    }
  }

  /** Distinct memory ids among the memories give distinct ids in the list. */
  lemma IdsDistinct(ms: seq<Memory>)
    requires UniqueBy(ms, MemoryKey)
    ensures NoDuplicates(Ids(ms))
  {
    forall i, j | 0 <= i < j < |ms| ensures Ids(ms)[i] != Ids(ms)[j] {
      assert MemoryKey(ms[i]) != MemoryKey(ms[j]);
    }
  }

  /** The `[Seeker Memory]` block; the oracle's simplified compiler omits preferences and the last interaction. */
  function SeekerBlock(p: SeekerProfile, full: bool): (r: string)
    ensures |SeekerHeading| <= |r| && r[..|SeekerHeading|] == SeekerHeading
    ensures r == SeekerHeading <==>
      (!Truthy(p.seekerName) && p.facts == [] && p.interests == []
       && (full ==> !Truthy(p.preferences) && !Truthy(p.lastInteractionSummary)))
  {
    var name := if Truthy(p.seekerName) then "\nName: " + p.seekerName.value else "";
    var facts := if |p.facts| > 0 then "\nKnown facts: " + Join(p.facts, "; ") else "";
    var preferences := if full && Truthy(p.preferences) then "\nPreferences: " + p.preferences.value else "";
    var interests := if |p.interests| > 0 then "\nInterests: " + Join(p.interests, ", ") else "";
    var last := if full && Truthy(p.lastInteractionSummary) then "\nLast interaction: " + p.lastInteractionSummary.value else "";
    HeadingThen(SeekerHeading, name, facts, preferences, interests, last);
    SeekerHeading + name + facts + preferences + interests + last
  }

  /** A heading followed by five optional lines is the bare heading exactly when every line is absent. */
  lemma HeadingThen(h: string, a: string, b: string, c: string, d: string, e: string)
    ensures var r := h + a + b + c + d + e;
      |h| <= |r| && r[..|h|] == h && (r == h <==> a == [] && b == [] && c == [] && d == [] && e == [])
  {
    var r := h + a + b + c + d + e;
    assert |r| == |h| + |a| + |b| + |c| + |d| + |e|;
    assert r[..|h|] == h;
  }

  /** The seeker tier: the profile's block as one more part, when the seeker has a profile. */
  function WithSeeker(acc: Compiled, profiles: seq<SeekerProfile>, seekerId: Option<nat>, full: bool): (r: Compiled)
    ensures r.memoryIds == acc.memoryIds && r.totalResonance == acc.totalResonance
    ensures seekerId.None? || GetSeekerMemory(profiles, seekerId.value).None? ==> r == acc
    ensures seekerId.Some? && GetSeekerMemory(profiles, seekerId.value).Some? ==>
      r.parts == acc.parts + [SeekerBlock(GetSeekerMemory(profiles, seekerId.value).value, full)]
  {
    if seekerId.None? then acc
    else
      match GetSeekerMemory(profiles, seekerId.value)
      case None => acc
      case Some(p) => acc.(parts := acc.parts + [SeekerBlock(p, full)])
  }

  /** The search query: the last three recent messages joined by spaces. */
  function SearchQuery(recent: seq<string>): (q: string)
    ensures |recent| <= 3 ==> q == Join(recent, " ")
  {
    assert JsSliceFrom(recent, -3) == if 3 <= |recent| then recent[|recent| - 3..] else recent by {
      LastElements(recent, 3);
    }
    Join(JsSliceFrom(recent, -3), " ")
  }

  /** Only the last three messages shape the query: earlier history never changes it. */
  lemma SearchQueryIgnoresHistory(history: seq<string>, recent: seq<string>)
    requires |recent| == 3
    ensures SearchQuery(history + recent) == SearchQuery(recent)
  {
    LastElements(history + recent, 3);
    assert (history + recent)[|history + recent| - 3..] == recent;
  }

  /** The harmonic memories the compiler considers: the first three in table order. */
  function HarmonicCandidates(memories: seq<Memory>): (r: seq<Memory>)
    ensures |r| <= HarmonicLimit
    ensures var all := MemoriesByType(memories, Harmonic); r == all[..if |all| <= 3 then |all| else 3]
  {
    JsSlice(MemoriesByType(memories, Harmonic), 0, HarmonicLimit)
  }

  /** The memories a search for the recent messages contributes: at most five active content matches. */
  function SearchHits(recent: seq<string>, index: string -> seq<Memory>): (r: seq<Memory>)
    ensures |r| <= SearchLimit
  {
    SearchMemoriesInternal(index(SearchQuery(recent)), Some(SearchLimit))
  }

  /** The search tier, which runs only when recent messages were supplied. */
  function Searched(acc: Compiled, recent: Option<seq<string>>, index: string -> seq<Memory>): (r: Compiled)
    ensures |acc.memoryIds| <= |r.memoryIds| <= |acc.memoryIds| + SearchLimit
    ensures r.memoryIds[..|acc.memoryIds|] == acc.memoryIds
    ensures recent.None? || recent.value == [] ==> r == acc
  {
    if recent.Some? && |recent.value| > 0 then Fold(acc, SearchHits(recent.value, index), SearchTier)
    else acc
  }

  /**
   * `generateMemoryContext`'s gathering. The full-text index is an oracle: `index(q)` is the
   * relevance-ordered list of memories whose content matches the query `q`.
   */
  function Compile(memories: seq<Memory>, profiles: seq<SeekerProfile>, seekerId: Option<nat>,
                   recent: Option<seq<string>>, index: string -> seq<Memory>): Compiled
  {
    var core := Fold(Nothing, MemoriesByType(memories, Core), CoreTier);
    var searched := Searched(WithSeeker(core, profiles, seekerId, true), recent, index);
    Fold(searched, HarmonicCandidates(memories), HarmonicTier)
  }

  /** With memory ids unique in the table, the core tier yields exactly the core ids, each once. */
  lemma CoreIdsDistinct(memories: seq<Memory>)
    requires UniqueBy(memories, MemoryKey)
    ensures var core := MemoriesByType(memories, Core);
      Fold(Nothing, core, CoreTier).memoryIds == Ids(core) && NoDuplicates(Ids(core))
  {
    var core := MemoriesByType(memories, Core);
    FilterUnique(memories, (m: Memory) => m.isActive && m.memoryType == Core, MemoryKey);
    IdsDistinct(core);
    CoreTierCountsAll(Nothing, core);
  }

  /** The search tier adds no id already counted and none twice. */
  lemma SearchedDistinct(acc: Compiled, recent: Option<seq<string>>, index: string -> seq<Memory>)
    requires NoDuplicates(acc.memoryIds)
    ensures NoDuplicates(Searched(acc, recent, index).memoryIds)
  {
    if recent.Some? && |recent.value| > 0 {
      FoldKeepsIdsDistinct(acc, SearchHits(recent.value, index), SearchTier);
    }
  }

  /** The compiled context: the parts joined by a horizontal rule. */
  function ContextText(c: Compiled): string {
    Join(c.parts, Separator)
  }

  /**
   * What a compilation promises: with memory ids unique in the table, no memory is counted
   * twice; the core memories come first, all of them; and no more than five search hits and
   * three harmonic memories are added to them.
   */
  lemma CompileFacts(memories: seq<Memory>, profiles: seq<SeekerProfile>, seekerId: Option<nat>,
                     recent: Option<seq<string>>, index: string -> seq<Memory>)
    requires UniqueBy(memories, MemoryKey)
    ensures var r := Compile(memories, profiles, seekerId, recent, index);
      var core := MemoriesByType(memories, Core);
      && NoDuplicates(r.memoryIds)
      && |core| <= |r.memoryIds| <= |core| + SearchLimit + HarmonicLimit
      && r.memoryIds[..|core|] == Ids(core)
  {
    var core := MemoriesByType(memories, Core);
    CoreIdsDistinct(memories);
    var c := Fold(Nothing, core, CoreTier);
    var searched := Searched(WithSeeker(c, profiles, seekerId, true), recent, index);
    SearchedDistinct(WithSeeker(c, profiles, seekerId, true), recent, index);
    FoldKeepsIdsDistinct(searched, HarmonicCandidates(memories), HarmonicTier);
    var r := Fold(searched, HarmonicCandidates(memories), HarmonicTier);
    assert r.memoryIds[..|searched.memoryIds|] == searched.memoryIds;
    assert searched.memoryIds[..|core|] == Ids(core);
    assert r.memoryIds[..|core|] == searched.memoryIds[..|core|];
  }

  /** Every memory a compilation may draw on: the core memories, the search hits, the first three harmonic ones. */
  function Candidates(memories: seq<Memory>, recent: Option<seq<string>>, index: string -> seq<Memory>): seq<Memory> {
    MemoriesByType(memories, Core)
    + (if recent.Some? && |recent.value| > 0 then SearchHits(recent.value, index) else [])
    + HarmonicCandidates(memories)
  }

  /**
   * The total resonance is the summed resonance of the memories whose ids were gathered, each
   * of which is a core memory, a search hit or one of the first three harmonic memories.
   */
  lemma CompileTally(memories: seq<Memory>, profiles: seq<SeekerProfile>, seekerId: Option<nat>,
                     recent: Option<seq<string>>, index: string -> seq<Memory>)
    ensures var r := Compile(memories, profiles, seekerId, recent, index);
      exists used: seq<Memory> ::
        && r.memoryIds == Ids(used) && r.totalResonance == SumResonance(used)
        && forall m :: m in used ==> m in Candidates(memories, recent, index)
  {
    var core := MemoriesByType(memories, Core);
    var hits := if recent.Some? && |recent.value| > 0 then SearchHits(recent.value, index) else [];
    var harmonic := HarmonicCandidates(memories);
    var u1 := TierTally(Nothing, core, CoreTier, []);
    var p := WithSeeker(Fold(Nothing, core, CoreTier), profiles, seekerId, true);
    var searched := Searched(p, recent, index);
    var u2 := u1;
    if recent.Some? && |recent.value| > 0 {
      u2 := TierTally(p, hits, SearchTier, u1);
    }
    var used := TierTally(searched, harmonic, HarmonicTier, u2);
    forall m | m in used ensures m in Candidates(memories, recent, index) {
      assert m in core || m in hits || m in harmonic;
    }
  }

  /** One tier extends a tally of the memories gathered so far by the memories it counts. */
  lemma TierTally(acc: Compiled, ms: seq<Memory>, tier: Tier, before: seq<Memory>) returns (after: seq<Memory>)
    requires acc.memoryIds == Ids(before) && acc.totalResonance == SumResonance(before)
    ensures var r := Fold(acc, ms, tier); r.memoryIds == Ids(after) && r.totalResonance == SumResonance(after)
    ensures forall m :: m in after ==> m in before || m in ms
  {
    var u := Counted(acc.memoryIds, ms, tier);
    FoldTally(acc, ms, tier);
    IdsAppend(before, u);
    SumResonanceAppend(before, u);
    after := before + u;
  }

  /** Every part starts with `[`, so the context is empty exactly when no part was gathered. */
  lemma ContextEmptyIffNoParts(c: Compiled)
    requires forall k :: 0 <= k < |c.parts| ==> |c.parts[k]| > 0
    ensures ContextText(c) == [] <==> c.parts == []
  {
  }
}
