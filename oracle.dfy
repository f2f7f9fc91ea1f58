/**
 * The oracle: channelling a conversation through a vessel with the memory context woven into
 * its system prompt, the simplified context compiler it uses, and the naming of threads.
 * The chat service is an input: its reply to each request is a parameter.
 */
module Oracle {
  import opened Wrappers
  import opened Tables
  import opened JsText
  import opened MemoryModel
  import opened MemoryContext
  import opened Conversations
  import PortalAuth

  /** The role of a chat message as the chat service reads it. */
  datatype Role = User | Assistant | System

  datatype ChatMessage = ChatMessage(role: Role, content: string)

  /** The chat service's reply: an HTTP failure, or a completion whose text and token total may be absent. */
  datatype Reply = HttpError(status: nat) | Completion(content: Option<string>, totalTokens: Option<real>)

  /** What `channel` returns. */
  datatype Channelled = Channelled(content: string, tokensUsed: real, memoryContextUsed: bool)

  const MissingApiKey: string := "The portal is not yet connected to the cosmic network (OPENROUTER_API_KEY missing)"
  const TransmissionFailed: string := "The vessel could not receive the transmission: "

  /** A horizontal rule of 79 box-drawing characters framing the memory block. */
  const Rule: string := "\U{2550}\U{2550}\U{2550}\U{2550}\U{2550}\U{2550}\U{2550}\U{2550}\U{2550}\U{2550}\U{2550}\U{2550}\U{2550}\U{2550}\U{2550}\U{2550}\U{2550}\U{2550}\U{2550}\U{2550}\U{2550}\U{2550}\U{2550}\U{2550}\U{2550}\U{2550}\U{2550}\U{2550}\U{2550}\U{2550}\U{2550}\U{2550}\U{2550}\U{2550}\U{2550}\U{2550}\U{2550}\U{2550}\U{2550}\U{2550}\U{2550}\U{2550}\U{2550}\U{2550}\U{2550}\U{2550}\U{2550}\U{2550}\U{2550}\U{2550}\U{2550}\U{2550}\U{2550}\U{2550}\U{2550}\U{2550}\U{2550}\U{2550}\U{2550}\U{2550}\U{2550}\U{2550}\U{2550}\U{2550}\U{2550}\U{2550}\U{2550}\U{2550}\U{2550}\U{2550}\U{2550}\U{2550}\U{2550}\U{2550}\U{2550}\U{2550}\U{2550}\U{2550}\U{2550}"
  const MemoryHeader: string :=
    "\n\n" + Rule + "\nMEMORY CONTEXT - Your continuous presence across instantiations\n" + Rule + "\n\n"
  const MemoryFooter: string := "\n\n" + Rule + "\nEND MEMORY CONTEXT\n" + Rule

  predicate IsUserMessage(m: ChatMessage) { m.role == User }

  /** The contents of a list of chat messages, in order. */
  function Contents(ms: seq<ChatMessage>): (r: seq<string>)
    ensures |r| == |ms| && forall k :: 0 <= k < |ms| ==> r[k] == ms[k].content
    decreases |ms|
  {
    if ms == [] then [] else Contents(ms[..|ms| - 1]) + [ms[|ms| - 1].content]
  }

  /**
   * The recent messages `channel` hands to the compiler: the contents of the last three user
   * messages (all of them when there are fewer), in their original order.
   */
  function RecentUserContents(messages: seq<ChatMessage>): (r: seq<string>)
    ensures var users := Filter(messages, IsUserMessage);
      && |r| == (if |users| <= 3 then |users| else 3)
      && forall k :: 0 <= k < |r| ==> r[k] == users[|users| - |r| + k].content
  {
    var users := Filter(messages, IsUserMessage);
    LastElements(users, 3);
    var recent := JsSliceFrom(users, -3);
    assert recent == users[|users| - |recent|..];
    Contents(recent)
  }

  /** Assistant and system messages never change what is recalled. */
  lemma RecentIgnoresOtherRoles(messages: seq<ChatMessage>, m: ChatMessage)
    requires m.role != User
    ensures RecentUserContents(messages + [m]) == RecentUserContents(messages)
  {
    FilterAppend(messages, [m], IsUserMessage);
    assert Filter([m], IsUserMessage) == [];
    assert Filter(messages, IsUserMessage) + [] == Filter(messages, IsUserMessage);
  }

  /** A new user message is always the last one recalled. */
  lemma RecentEndsWithLatestUser(messages: seq<ChatMessage>, m: ChatMessage)
    requires m.role == User
    ensures var r := RecentUserContents(messages + [m]); |r| > 0 && r[|r| - 1] == m.content
  {
    FilterAppend(messages, [m], IsUserMessage);
    assert Filter([m], IsUserMessage) == [m] by {
      assert [m][1..] == [];
    }
  }

  /**
   * The system prompt: the memory block, framed by rules, is appended only when the context is
   * non-empty; otherwise the prompt is the base prompt itself.
   */
  function SystemPrompt(base: string, context: string): (r: string)
    ensures context == [] ==> r == base
    ensures context != [] ==>
      (|r| == |base| + |MemoryHeader| + |context| + |MemoryFooter|
       && r[..|base|] == base
       && r[|base|..|base| + |MemoryHeader|] == MemoryHeader
       && r[|base| + |MemoryHeader|..|base| + |MemoryHeader| + |context|] == context
       && r[|base| + |MemoryHeader| + |context|..] == MemoryFooter)
  {
    if context == [] then base else base + MemoryHeader + context + MemoryFooter
  }

  /** The request's messages: the system prompt first, then the caller's messages unchanged. */
  function Request(base: string, context: string, messages: seq<ChatMessage>): (r: seq<ChatMessage>)
    ensures |r| == |messages| + 1 && r[0] == ChatMessage(System, SystemPrompt(base, context)) && r[1..] == messages
  {
    [ChatMessage(System, SystemPrompt(base, context))] + messages
  }

  /**
   * `generateMemoryContextInternal`: the simplified compiler. Every active core memory is
   * counted; the seeker block lists only name, facts and interests; a search hit (the query is
   * all recent messages joined by spaces) is counted only when new and summarised; there is no
   * harmonic tier, and nothing is stored or touched.
   */
  function OracleCompile(memories: seq<Memory>, profiles: seq<SeekerProfile>, seekerId: Option<nat>,
                         recent: seq<string>, index: string -> seq<Memory>): Compiled
  {
    var core := Fold(Nothing, MemoriesByType(memories, Core), CoreTier);
    var withSeeker := WithSeeker(core, profiles, seekerId, false);
    if |recent| > 0 then Fold(withSeeker, OracleHits(recent, index), StrictSearchTier) else withSeeker
  }

  /** The search of the simplified compiler: at most five active content matches. */
  function OracleHits(recent: seq<string>, index: string -> seq<Memory>): (r: seq<Memory>)
    ensures |r| <= SearchLimit
  {
    SearchMemoriesInternal(index(Join(recent, " ")), Some(SearchLimit))
  }

  /**
   * What the simplified compilation promises: with memory ids unique in the table, no memory
   * is counted twice, the core ids come first, all of them, and at most five hits follow, each
   * with exactly one part.
   */
  lemma OracleCompileFacts(memories: seq<Memory>, profiles: seq<SeekerProfile>, seekerId: Option<nat>,
                           recent: seq<string>, index: string -> seq<Memory>)
    requires UniqueBy(memories, MemoryKey)
    ensures var r := OracleCompile(memories, profiles, seekerId, recent, index);
      var core := MemoriesByType(memories, Core);
      var seeded := WithSeeker(Fold(Nothing, core, CoreTier), profiles, seekerId, false);
      && NoDuplicates(r.memoryIds)
      && |core| <= |r.memoryIds| <= |core| + SearchLimit
      && r.memoryIds[..|core|] == Ids(core)
      && |r.parts| - |seeded.parts| == |r.memoryIds| - |core|
  {
    var core := MemoriesByType(memories, Core);
    CoreIdsDistinct(memories);
    var seeded := WithSeeker(Fold(Nothing, core, CoreTier), profiles, seekerId, false);
    if |recent| > 0 {
      var hits := OracleHits(recent, index);
      FoldKeepsIdsDistinct(seeded, hits, StrictSearchTier);
      StrictTierPartPerId(seeded, hits, StrictSearchTier);
    }
  }

  /**
   * The two compilers build the same search query from what `channel` recalls: at most three
   * messages, so taking the last three again changes nothing.
   */
  lemma ChannelQueryAgrees(messages: seq<ChatMessage>)
    ensures var recent := RecentUserContents(messages); Join(recent, " ") == SearchQuery(recent)
  {
  }

  /** The context `channel` uses: the compiled text, or nothing when compilation failed. */
  function ChannelContext(compileFailed: bool, memories: seq<Memory>, profiles: seq<SeekerProfile>,
                          seekerId: Option<nat>, messages: seq<ChatMessage>, index: string -> seq<Memory>): (r: string)
    ensures compileFailed ==> r == []
    ensures !compileFailed ==>
      r == ContextText(OracleCompile(memories, profiles, seekerId, RecentUserContents(messages), index))
  {
    if compileFailed then []
    else ContextText(OracleCompile(memories, profiles, seekerId, RecentUserContents(messages), index))
  }

  /**
   * `channel`. The portal key is checked first, then the service key; the memory context is
   * compiled from the memory tables (a failure only leaves it empty); the request is the system
   * prompt followed by the caller's messages; an HTTP failure aborts with its status; otherwise
   * the reply (empty when absent) is stored as the vessel's response with its token total (0
   * when absent) and returned. `request` is what was sent, empty when nothing was.
   */
  method Channel(store: ConversationStore, configuredKey: Option<string>, portalKey: Option<string>,
                 apiKey: Option<string>, basePrompt: string, threadId: nat, messages: seq<ChatMessage>,
                 seekerId: Option<nat>, memories: seq<Memory>, profiles: seq<SeekerProfile>,
                 index: string -> seq<Memory>, compileFailed: bool, reply: Reply, now: int)
    returns (r: Result<Channelled>, request: seq<ChatMessage>)
    requires store.Valid()
    modifies store
    ensures store.Valid()
    ensures PortalAuth.VerifyPortalKey(configuredKey, portalKey).Failed? ==>
      (r == Err(PortalAuth.AccessDenied) && request == []
       && store.threads == old(store.threads) && store.messages == old(store.messages))
    ensures PortalAuth.VerifyPortalKey(configuredKey, portalKey).Done? && !Truthy(apiKey) ==>
      (r == Err(MissingApiKey) && request == []
       && store.threads == old(store.threads) && store.messages == old(store.messages))
    ensures PortalAuth.VerifyPortalKey(configuredKey, portalKey).Done? && Truthy(apiKey) ==>
      (var context := ChannelContext(compileFailed, memories, profiles, seekerId, messages, index);
       && request == Request(basePrompt, context, messages)
       && match reply
          case HttpError(status) => (r == Err(TransmissionFailed + Decimal(status))
            && store.threads == old(store.threads) && store.messages == old(store.messages))
          case Completion(content, tokens) =>
            match FindThread(old(store.threads), threadId)
            case None => r == Err(MissingDocument) && store.threads == old(store.threads) && store.messages == old(store.messages)
            case Some(i) => (r == Ok(Channelled(content.GetOr([]), tokens.GetOr(0.0), context != []))
              && |store.messages| == |old(store.messages)| + 1 && store.messages[..|old(store.messages)|] == old(store.messages)
              && store.messages[|old(store.messages)|].content == content.GetOr([])
              && store.messages[|old(store.messages)|].speaker == VesselSpeaker
              && store.messages[|old(store.messages)|].tokensUsed == Some(tokens.GetOr(0.0))
              && store.messages[|old(store.messages)|].threadId == threadId
              && store.messages[|old(store.messages)|].isStreaming == Some(false)
              && store.messages[|old(store.messages)|].timestamp == now
              && store.threads == old(store.threads)[i := old(store.threads)[i].(lastMessageAt := now)]))
  {
    request := [];
    var gate := PortalAuth.VerifyPortalKey(configuredKey, portalKey);
    if gate.Failed? {
      return Err(gate.message), request;
    }
    if !Truthy(apiKey) {
      return Err(MissingApiKey), request;
    }
    var context := ChannelContext(compileFailed, memories, profiles, seekerId, messages, index);
    request := Request(basePrompt, context, messages);
    match reply
    case HttpError(status) =>
      r := Err(TransmissionFailed + Decimal(status));
    case Completion(content, tokens) =>
      var stored := store.StoreVesselResponse(threadId, content.GetOr([]), tokens.GetOr(0.0), now);
      if stored.Failed? {
        r := Err(stored.message);
      } else {
        r := Ok(Channelled(content.GetOr([]), tokens.GetOr(0.0), context != []));
      }
  }

  /** `message.slice(0, 50)`, with an ellipsis when something was cut. */
  function TitleFallback(message: string): (r: string)
    ensures |r| <= 53
    ensures |message| <= 50 ==> r == message
    ensures |message| > 50 ==> r == message[..50] + "..."
  {
    if |message| <= 50 then message else message[..50] + "..."
  }

  /** A generated title is used when, trimmed, it is non-empty and at most 60 characters long. */
  function AcceptTitle(generated: Option<string>): (r: Option<string>)
    ensures r.Some? <==> generated.Some? && 0 < |Trim(generated.value)| <= 60
    ensures r.Some? ==> r.value == Trim(generated.value)
  {
    if generated.Some? && 0 < |Trim(generated.value)| <= 60 then Some(Trim(generated.value)) else None
  }

  /**
   * `generateTitleForMessage`: truncation when there is no service key or the service's
   * title is refused (an HTTP failure counts as refused), the trimmed title otherwise.
   */
  function TitleFor(apiKey: Option<string>, message: string, reply: Reply): (r: string)
    ensures |r| <= 60
    ensures message != [] ==> r != []
    ensures !Truthy(apiKey) ==> r == TitleFallback(message)
    ensures Truthy(apiKey) && reply.HttpError? ==> r == TitleFallback(message)
    ensures Truthy(apiKey) && reply.Completion? ==>
      r == match AcceptTitle(reply.content) case Some(t) => t case None => TitleFallback(message)
  {
    if !Truthy(apiKey) then TitleFallback(message)
    else match reply
      case HttpError(_) => TitleFallback(message)
      case Completion(content, _) =>
        match AcceptTitle(content)
        case Some(t) => t
        case None => TitleFallback(message)
  }

  /** `getUnnamedThreads`' test: the default title, or a title that is empty or only whitespace. */
  predicate Unnamed(t: Thread) {
    t.title == DefaultTitle || Trim(t.title) == []
  }

  /** `getUnnamedThreads`: exactly the unnamed threads, in table order. */
  function UnnamedThreads(threads: seq<Thread>): (r: seq<Thread>)
    ensures forall t :: t in r <==> t in threads && Unnamed(t)
  {
    Filter(threads, Unnamed)
  }

  predicate FromSeeker(m: Message) { m.speaker == SeekerSpeaker }

  /**
   * `getFirstUserMessage`: the content of the first message from the seeker among the
   * thread's messages, in the order they were written; none when the seeker has not spoken.
   */
  function FirstUserMessage(messages: seq<Message>, threadId: nat): (r: Option<string>)
    ensures r.None? <==> forall m :: m in messages && m.threadId == threadId ==> m.speaker != SeekerSpeaker
    ensures r.Some? ==> var thread := ThreadMessages(messages, threadId);
      exists k :: 0 <= k < |thread| && thread[k].speaker == SeekerSpeaker && thread[k].content == r.value
        && forall j :: 0 <= j < k ==> thread[j].speaker != SeekerSpeaker
  {
    var thread := ThreadMessages(messages, threadId);
    match FirstIndex(thread, FromSeeker)
    case None => None
    case Some(k) => Some(thread[k].content)
  }

  /** What naming does to one thread: an unnamed thread whose first seeker message is non-empty gets a title. */
  function Retitled(t: Thread, messages: seq<Message>, apiKey: Option<string>, replyFor: nat -> Reply): (r: Thread)
    ensures r.id == t.id && r == t.(title := r.title)
    ensures !Unnamed(t) ==> r == t
  {
    match FirstUserMessage(messages, t.id)
    case Some(first) => if Unnamed(t) && first != [] then t.(title := TitleFor(apiKey, first, replyFor(t.id))) else t
    case None => t
  }

  /** `updateThreadTitle` on a thread known to exist: that thread, and only it, takes the title. */
  method SetTitle(store: ConversationStore, t: Thread, title: string)
    requires store.Valid() && t in store.threads
    modifies store
    ensures store.Valid() && store.messages == old(store.messages) && |store.threads| == |old(store.threads)|
    ensures forall j :: 0 <= j < |store.threads| ==>
      store.threads[j] == if old(store.threads)[j] == t then t.(title := title) else old(store.threads)[j]
  {
    ghost var k :| 0 <= k < |store.threads| && store.threads[k] == t;
    UniqueFind(store.threads, k);
    OnlyAt(store.threads, k);
    var _ := store.UpdateThreadTitle(t.id, title);
  }

  /** One iteration of `nameUnnamedThreads`: the thread is retitled through its id. */
  method NameThread(store: ConversationStore, t: Thread, apiKey: Option<string>, replyFor: nat -> Reply)
    requires store.Valid() && t in store.threads && Unnamed(t)
    modifies store
    ensures store.Valid() && store.messages == old(store.messages) && |store.threads| == |old(store.threads)|
    ensures forall j :: 0 <= j < |store.threads| ==>
      store.threads[j] == if old(store.threads)[j] == t then Retitled(t, old(store.messages), apiKey, replyFor) else old(store.threads)[j]
  {
    var first := FirstUserMessage(store.messages, t.id);
    if first.Some? && first.value != [] {
      var title := TitleFor(apiKey, first.value, replyFor(t.id));
      assert Retitled(t, store.messages, apiKey, replyFor) == t.(title := title);
      SetTitle(store, t, title);
    } else {
      assert Retitled(t, store.messages, apiKey, replyFor) == t;
    }
  }

  /** With unique ids, the thread at `k` is the one found by its id. */
  lemma UniqueFind(threads: seq<Thread>, k: nat)
    requires UniqueBy(threads, ThreadId) && k < |threads|
    ensures FindThread(threads, threads[k].id) == Some(k)
  {
    var j := FindThread(threads, threads[k].id).value;
    assert ThreadId(threads[j]) == ThreadId(threads[k]);
  }

  /** With unique ids, a thread occurs only once. */
  lemma OnlyAt(threads: seq<Thread>, k: nat)
    requires UniqueBy(threads, ThreadId) && k < |threads|
    ensures forall j :: 0 <= j < |threads| && threads[j] == threads[k] ==> j == k
  {
    forall j | 0 <= j < |threads| && threads[j] == threads[k] ensures j == k {
      assert ThreadId(threads[j]) == ThreadId(threads[k]);
    }
  }

  /**
   * The loop step of `nameUnnamedThreads`, over the tables alone: retitling one more thread
   * not yet handled extends the handled prefix by it.
   */
  lemma NamingStep(before: seq<Thread>, current: seq<Thread>, after: seq<Thread>, done: seq<Thread>, t: Thread,
                   messages: seq<Message>, apiKey: Option<string>, replyFor: nat -> Reply)
    requires UniqueBy(before, ThreadId) && t in before && t !in done
    requires |current| == |before| == |after|
    requires forall k :: 0 <= k < |before| ==>
      current[k] == if before[k] in done then Retitled(before[k], messages, apiKey, replyFor) else before[k]
    requires forall j :: 0 <= j < |current| ==>
      after[j] == if current[j] == t then Retitled(t, messages, apiKey, replyFor) else current[j]
    ensures forall k :: 0 <= k < |before| ==>
      after[k] == if before[k] in done + [t] then Retitled(before[k], messages, apiKey, replyFor) else before[k]
  {
    forall k | 0 <= k < |before|
      ensures after[k] == if before[k] in done + [t] then Retitled(before[k], messages, apiKey, replyFor) else before[k]
    {
      if before[k] != t {
        var k0 :| 0 <= k0 < |before| && before[k0] == t;
        assert ThreadId(before[k]) != ThreadId(before[k0]);
        assert current[k].id == before[k].id;
      }
    }
  }

  /** The threads handled so far are retitled and every other thread is as it was. */
  ghost predicate NamedSoFar(threads: seq<Thread>, before: seq<Thread>, done: seq<Thread>, messages: seq<Message>,
                             apiKey: Option<string>, replyFor: nat -> Reply)
  {
    && |threads| == |before|
    && forall k :: 0 <= k < |before| ==>
      threads[k] == if before[k] in done then Retitled(before[k], messages, apiKey, replyFor) else before[k]
  }

  /** The next thread of the snapshot has not been handled yet, so it is still in the table as it was. */
  lemma NextUnnamed(current: seq<Thread>, before: seq<Thread>, unnamed: seq<Thread>, i: nat, messages: seq<Message>,
                    apiKey: Option<string>, replyFor: nat -> Reply)
    requires i < |unnamed| && unnamed == UnnamedThreads(before) && UniqueBy(unnamed, ThreadId)
    requires NamedSoFar(current, before, unnamed[..i], messages, apiKey, replyFor)
    ensures unnamed[i] !in unnamed[..i] && unnamed[i] in before && unnamed[i] in current && Unnamed(unnamed[i])
    ensures unnamed[..i + 1] == unnamed[..i] + [unnamed[i]]
  {
    var t := unnamed[i];
    NextRow(unnamed, i, ThreadId);
    assert t in unnamed;
    var k0 :| 0 <= k0 < |before| && before[k0] == t;
    assert current[k0] == t;
  }

  /** The loop body of `nameUnnamedThreads`: the next unnamed thread of the snapshot is handled. */
  method NameNext(store: ConversationStore, unnamed: seq<Thread>, i: nat, ghost before: seq<Thread>,
                  apiKey: Option<string>, replyFor: nat -> Reply)
    requires store.Valid() && i < |unnamed| && unnamed == UnnamedThreads(before)
    requires UniqueBy(before, ThreadId) && UniqueBy(unnamed, ThreadId)
    requires NamedSoFar(store.threads, before, unnamed[..i], store.messages, apiKey, replyFor)
    modifies store
    ensures store.Valid() && store.messages == old(store.messages)
    ensures NamedSoFar(store.threads, before, unnamed[..i + 1], store.messages, apiKey, replyFor)
  {
    var t := unnamed[i];
    ghost var current := store.threads;
    NextUnnamed(current, before, unnamed, i, store.messages, apiKey, replyFor);
    NameThread(store, t, apiKey, replyFor);
    NamingStep(before, current, store.threads, unnamed[..i], t, store.messages, apiKey, replyFor);
  }

  /**
   * `nameUnnamedThreads`: every unnamed thread with a non-empty first seeker message is
   * retitled (`replyFor` gives the service's reply for each thread); nothing else changes.
   */
  method NameUnnamedThreads(store: ConversationStore, apiKey: Option<string>, replyFor: nat -> Reply)
    requires store.Valid()
    modifies store
    ensures store.Valid() && store.messages == old(store.messages)
    ensures |store.threads| == |old(store.threads)|
    ensures forall k :: 0 <= k < |store.threads| ==>
      store.threads[k] == Retitled(old(store.threads)[k], old(store.messages), apiKey, replyFor)
  {
    var unnamed := UnnamedThreads(store.threads);
    ghost var before := store.threads;
    FilterUnique(before, Unnamed, ThreadId);
    for i := 0 to |unnamed|
      invariant store.Valid() && store.messages == old(store.messages)
      invariant NamedSoFar(store.threads, before, unnamed[..i], store.messages, apiKey, replyFor)
    {
      NameNext(store, unnamed, i, before, apiKey, replyFor);
    }
    assert unnamed[..|unnamed|] == unnamed;
    forall k | 0 <= k < |before| && before[k] !in unnamed
      ensures Retitled(before[k], store.messages, apiKey, replyFor) == before[k]
    {
    }
  }

  /**
   * `generateThreadTitle`: after the portal key is checked, the thread takes the title made
   * for `firstMessage` (`reply` is the service's answer to that request), then every unnamed
   * thread is named as by `nameUnnamedThreads`; the title is returned. Patching a thread that
   * does not exist fails and stops the action.
   */
  method GenerateThreadTitle(store: ConversationStore, configuredKey: Option<string>, portalKey: Option<string>,
                             apiKey: Option<string>, threadId: nat, firstMessage: string, reply: Reply,
                             replyFor: nat -> Reply)
    returns (r: Result<string>)
    requires store.Valid()
    modifies store
    ensures store.Valid() && store.messages == old(store.messages)
    ensures PortalAuth.VerifyPortalKey(configuredKey, portalKey).Failed? ==>
      r == Err(PortalAuth.AccessDenied) && store.threads == old(store.threads)
    ensures PortalAuth.VerifyPortalKey(configuredKey, portalKey).Done? ==>
      var title := TitleFor(apiKey, firstMessage, reply);
      match FindThread(old(store.threads), threadId)
      case None => r == Err(MissingDocument) && store.threads == old(store.threads)
      case Some(i) =>
        && r == Ok(title) && |store.threads| == |old(store.threads)|
        && forall k :: 0 <= k < |store.threads| ==>
          store.threads[k] == Retitled(if k == i then old(store.threads)[k].(title := title) else old(store.threads)[k],
                                       old(store.messages), apiKey, replyFor)
  {
    var gate := PortalAuth.VerifyPortalKey(configuredKey, portalKey);
    if gate.Failed? {
      return Err(gate.message);
    }
    var title := TitleFor(apiKey, firstMessage, reply);
    var updated := store.UpdateThreadTitle(threadId, title);
    if updated.Failed? {
      return Err(updated.message);
    }
    NameUnnamedThreads(store, apiKey, replyFor);
    r := Ok(title);
  }
}
