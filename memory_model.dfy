/**
 * The records of the memory system (memories, the links between them, seeker profiles,
 * context snapshots) and the read-only queries over them.
 */
module MemoryModel {
  import opened Wrappers
  import opened Tables

  datatype MemoryType = Core | Harmonic | Session | SeekerKind | Insight

  /** The literal stored in the `type` field. */
  function TypeName(t: MemoryType): string {
    match t
    case Core => "core"
    case Harmonic => "harmonic"
    case Session => "session"
    case SeekerKind => "seeker"
    case Insight => "insight"
  }

  datatype Memory = Memory(
    id: nat, memoryId: string, memoryType: MemoryType, title: string, content: string,
    summary: Option<string>, tags: seq<string>, resonance: real, source: Option<string>,
    createdAt: int, accessCount: nat, lastAccessedAt: Option<int>, isActive: bool)

  /** The fields a caller supplies to create a memory (also the shape of a seed entry). */
  datatype MemoryInput = MemoryInput(
    memoryId: string, memoryType: MemoryType, title: string, content: string,
    summary: Option<string>, tags: seq<string>, resonance: real, source: Option<string>)

  datatype LinkType =
    RelatesTo | DerivesFrom | Contradicts | Supports | Extends | References | Triggers | Defines | ManifestsAs

  datatype Link = Link(
    id: nat, source: string, target: string, linkType: LinkType, weight: real,
    description: Option<string>, createdAt: int, isActive: bool)

  datatype LinkInput = LinkInput(source: string, target: string, linkType: LinkType, weight: real, description: Option<string>)

  datatype SeekerProfile = SeekerProfile(
    id: nat, seekerId: nat, seekerName: Option<string>, facts: seq<string>, preferences: Option<string>,
    interests: seq<string>, relationshipNotes: Option<string>, lastInteractionSummary: Option<string>,
    createdAt: int, updatedAt: int)

  /** A row of `memoryContexts`: what one compilation produced. */
  datatype ContextSnapshot = ContextSnapshot(
    id: nat, threadId: Option<nat>, seekerId: Option<nat>, memoryIds: seq<string>,
    compiledContext: string, totalResonance: real, generatedAt: int, generationTimeMs: int)

  function MemoryRowId(m: Memory): nat { m.id }
  function MemoryKey(m: Memory): string { m.memoryId }
  function Resonance(m: Memory): real { m.resonance }
  function LinkRowId(l: Link): nat { l.id }
  function LinkKey(l: Link): (string, string) { (l.source, l.target) }
  function ProfileRowId(p: SeekerProfile): nat { p.id }
  function ProfileKey(p: SeekerProfile): nat { p.seekerId }
  function SnapshotRowId(c: ContextSnapshot): nat { c.id }
  predicate IsActive(m: Memory) { m.isActive }

  /** A JavaScript truthiness test on an optional string: present and non-empty. */
  predicate Truthy(s: Option<string>) { s.Some? && s.value != [] }

  function FindMemory(memories: seq<Memory>, memoryId: string): (r: Option<nat>)
    ensures r.Some? ==> r.value < |memories| && memories[r.value].memoryId == memoryId
    ensures r.None? <==> forall m :: m in memories ==> m.memoryId != memoryId
  {
    FirstIndex(memories, (m: Memory) => m.memoryId == memoryId)
  }

  function FindLink(links: seq<Link>, source: string, target: string): (r: Option<nat>)
    ensures r.Some? ==> r.value < |links| && links[r.value].source == source && links[r.value].target == target
    ensures r.None? <==> forall l :: l in links ==> l.source != source || l.target != target
  {
    FirstIndex(links, (l: Link) => l.source == source && l.target == target)
  }

  function FindProfile(profiles: seq<SeekerProfile>, seekerId: nat): (r: Option<nat>)
    ensures r.Some? ==> r.value < |profiles| && profiles[r.value].seekerId == seekerId
    ensures r.None? <==> forall p :: p in profiles ==> p.seekerId != seekerId
  {
    FirstIndex(profiles, (p: SeekerProfile) => p.seekerId == seekerId)
  }

  /** `getMemory`: the memory stored under a memory id, if any. */
  function GetMemory(memories: seq<Memory>, memoryId: string): (r: Option<Memory>)
    ensures r.Some? ==> r.value in memories && r.value.memoryId == memoryId
    ensures r.None? <==> forall m :: m in memories ==> m.memoryId != memoryId
  {
    match FindMemory(memories, memoryId)
    case None => None
    case Some(i) => Some(memories[i])
  }

  /** `getSeekerMemory`: the profile kept for a seeker, if any. */
  function GetSeekerMemory(profiles: seq<SeekerProfile>, seekerId: nat): (r: Option<SeekerProfile>)
    ensures r.Some? ==> r.value in profiles && r.value.seekerId == seekerId
    ensures r.None? <==> forall p :: p in profiles ==> p.seekerId != seekerId
  {
    match FindProfile(profiles, seekerId)
    case None => None
    case Some(i) => Some(profiles[i])
  }

  /** `getMemoriesByType`: exactly the active memories of one type, in table order. */
  function MemoriesByType(memories: seq<Memory>, t: MemoryType): (r: seq<Memory>)
    ensures forall m :: m in r <==> m in memories && m.isActive && m.memoryType == t
    ensures |r| <= |memories|
  {
    Filter(memories, (m: Memory) => m.isActive && m.memoryType == t)
  }

  /** The active memories ordered by non-increasing resonance. */
  function ByResonance(memories: seq<Memory>): (r: seq<Memory>)
    ensures multiset(r) == multiset(Filter(memories, IsActive))
    ensures SortedDesc(r, Resonance)
  {
    SortDesc(Filter(memories, IsActive), Resonance)
  }

  /**
   * `getTopMemories`: `slice(0, limit ?? 20)` of the active memories ordered by resonance. Only
   * active memories come back, in non-increasing resonance, no more than a non-negative limit
   * asks for (all of them when fewer), all but the last `-limit` for a negative one, and none
   * left out outranks one returned.
   */
  function TopMemories(memories: seq<Memory>, limit: Option<int>): (r: seq<Memory>)
    ensures forall m :: m in r ==> m in memories && m.isActive
    ensures forall i, j :: 0 <= i < j < |r| ==> r[i].resonance >= r[j].resonance
    ensures var n := limit.GetOr(20); var all := Filter(memories, IsActive);
      && (n >= 0 ==> |r| == if n <= |all| then n else |all|)
      && (n < 0 ==> |r| == if |all| + n >= 0 then |all| + n else 0)
    ensures forall x, i :: x in memories && x.isActive && x !in r && 0 <= i < |r| ==> r[i].resonance >= x.resonance
  {
    var ranked := ByResonance(memories);
    var r := JsSlice(ranked, 0, limit.GetOr(20));
    assert r == ranked[..RelativeIndex(|ranked|, limit.GetOr(20))];
    TopPrefix(memories, ranked, r);
    r
  }

  /** The facts `TopMemories` rests on: its result is a prefix of the ranking. */
  lemma TopPrefix(memories: seq<Memory>, ranked: seq<Memory>, r: seq<Memory>)
    requires ranked == ByResonance(memories)
    requires exists k :: 0 <= k <= |ranked| && r == ranked[..k]
    ensures forall m :: m in r ==> m in memories && m.isActive
    ensures forall i, j :: 0 <= i < j < |r| ==> r[i].resonance >= r[j].resonance
    ensures forall x, i :: x in memories && x.isActive && x !in r && 0 <= i < |r| ==> r[i].resonance >= x.resonance
  {
    var k :| 0 <= k <= |ranked| && r == ranked[..k];
    var all := Filter(memories, IsActive);
    forall m | m in r ensures m in memories && m.isActive {
      assert m in multiset(ranked);
      assert m in multiset(all);
    }
    forall x, i | x in memories && x.isActive && x !in r && 0 <= i < |r| ensures r[i].resonance >= x.resonance {
      assert x in all;
      assert x in multiset(ranked);
      var j :| 0 <= j < |ranked| && ranked[j] == x;
      assert forall t :: 0 <= t < k ==> r[t] == ranked[t];
      assert j >= k;
      assert Resonance(ranked[i]) >= Resonance(ranked[j]);
    }
  }

  /** The index's `.take(n)`: the first n hits, none for a non-positive n. */
  function Take<T>(s: seq<T>, n: int): (r: seq<T>)
    ensures n >= 0 ==> |r| == if n <= |s| then n else |s|
    ensures n <= 0 ==> r == []
    ensures exists k :: 0 <= k <= |s| && r == s[..k]
  {
    if n <= 0 then s[..0] else if n <= |s| then s[..n] else s[..|s|]
  }

  /** The equality filters a search adds to the text match: active, and of the type if one is asked for. */
  predicate SearchFilter(t: Option<MemoryType>, m: Memory) {
    m.isActive && (t.None? || m.memoryType == t.value)
  }

  /**
   * `searchMemories`. The full-text index is an oracle: `contentHits` and `titleHits` are its
   * relevance-ordered matches on content and on title. Content matches are used unless there
   * are none after filtering, and only then title matches; at most `limit ?? 10` come back.
   */
  function SearchMemories(contentHits: seq<Memory>, titleHits: seq<Memory>, t: Option<MemoryType>, limit: Option<int>)
    : (r: seq<Memory>)
    ensures forall m :: m in r ==> SearchFilter(t, m) && (m in contentHits || m in titleHits)
    ensures limit.GetOr(10) >= 0 ==> |r| <= limit.GetOr(10)
    ensures (exists m :: m in contentHits && SearchFilter(t, m)) && limit.GetOr(10) > 0 ==>
      r != [] && forall m :: m in r ==> m in contentHits
    ensures (exists m :: m in contentHits && SearchFilter(t, m)) && limit.GetOr(10) > 0 ==>
      r == Take(Filter(contentHits, m => SearchFilter(t, m)), limit.GetOr(10))
    ensures (forall m :: m in contentHits ==> !SearchFilter(t, m)) ==>
      r == Take(Filter(titleHits, m => SearchFilter(t, m)), limit.GetOr(10))
  {
    var n := limit.GetOr(10);
    var byContent := Take(Filter(contentHits, m => SearchFilter(t, m)), n);
    assert (forall m :: m in contentHits ==> !SearchFilter(t, m)) ==> byContent == [] by {
      if forall m :: m in contentHits ==> !SearchFilter(t, m) {
        FilterNoneOf(contentHits, t);
      }
    }
    if |byContent| == 0 then
      Take(Filter(titleHits, m => SearchFilter(t, m)), n)
    else byContent
  }

  lemma FilterNoneOf(hits: seq<Memory>, t: Option<MemoryType>)
    requires forall m :: m in hits ==> !SearchFilter(t, m)
    ensures Filter(hits, m => SearchFilter(t, m)) == []
  {
    FilterNone(hits, m => SearchFilter(t, m));
  }

  /** `searchMemoriesInternal`: active content matches only, at most `limit ?? 10`, no title fallback. */
  function SearchMemoriesInternal(contentHits: seq<Memory>, limit: Option<int>): (r: seq<Memory>)
    ensures forall m :: m in r ==> m in contentHits && m.isActive
    ensures limit.GetOr(10) >= 0 ==> |r| <= limit.GetOr(10)
    ensures var n := limit.GetOr(10); var hits := Filter(contentHits, IsActive);
      && (n >= 0 ==> r == hits[..if n <= |hits| then n else |hits|])
      && (n < 0 ==> r == [])
  {
    Take(Filter(contentHits, IsActive), limit.GetOr(10))
  }

  /** The active links leaving a memory, in creation order: what the `by_source` index yields. */
  function Outgoing(links: seq<Link>, memoryId: string): (r: seq<Link>)
    ensures forall l :: l in r <==> l in links && l.source == memoryId && l.isActive
  {
    Filter(links, (l: Link) => l.source == memoryId && l.isActive)
  }

  /** The active links arriving at a memory, in creation order. */
  function Incoming(links: seq<Link>, memoryId: string): (r: seq<Link>)
    ensures forall l :: l in r <==> l in links && l.target == memoryId && l.isActive
  {
    Filter(links, (l: Link) => l.target == memoryId && l.isActive)
  }

  datatype LinkSets = LinkSets(outgoing: seq<Link>, incoming: seq<Link>)

  /** `getMemoryLinks`: the memory's active outgoing and incoming links. */
  function MemoryLinks(links: seq<Link>, memoryId: string): (r: LinkSets)
    ensures forall l :: l in r.outgoing <==> l in links && l.source == memoryId && l.isActive
    ensures forall l :: l in r.incoming <==> l in links && l.target == memoryId && l.isActive
  {
    LinkSets(Outgoing(links, memoryId), Incoming(links, memoryId))
  }
}
