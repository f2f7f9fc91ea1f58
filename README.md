# Aetheria portal — a verified model of its core

Aetheria is a web portal where visitors ("seekers") hold conversations ("communion") with
language models ("vessels"). Its backend runs on a hosted document database with serverless
query, mutation and action functions. This project models that backend's core in Dafny and
proves properties of the model:

- **The memory system** (`src/convex/memories.ts`).
  - A table of memories keyed by memory id, with two upsert policies, touch and soft delete,
    listings by type and by resonance, and full-text search.
  - Links between memories, keyed by their (source, target) pair, and the depth-bounded walk
    over them.
  - A profile per seeker: a list of facts without duplicates and relationship notes that only
    grow.
  - The context compiler. It gathers core memories, the seeker's profile, search hits for the
    recent messages and harmonic memories, tier by tier. It records a snapshot of what it
    compiled and touches every memory it used.
  - Fence stripping and id prefixing for the JSON that the memory-extraction and
    document-processing actions receive from the model.
- **The ingestion script** (`scripts/ingest-memories.js`): the chunker that packs a
  document's paragraphs (or, for an over-long paragraph, its sentences) into chunks, the JSON
  escaping and shell quoting of each chunk's command, and the tallies per chunk and per file.
- **The oracle** (`src/convex/oracle.ts`):
  - the selection of recent user messages and the assembly of the system prompt;
  - a simplified second context compiler;
  - storing the vessel's reply;
  - titling threads: the truncation fallback, accepting a model title, and naming unnamed
    threads.
- **The keeper gate** (`src/convex/keepers.ts`): a 32-bit wrapping polynomial hash over UTF-16
  code units, rendered in base 36. Around it, a single keeper record that is created once,
  verified, re-hashed on a passphrase change and reset by an administrator.
- **The registries and the conversation store** (`vessels.ts`, `seekers.ts`, `agents.ts`,
  `threads.ts`, `messages.ts`): upserts by business key, seeding that inserts only what is
  missing, the append-only log of chosen vessels, toggles, inserts that bump the thread's
  `lastMessageAt`, cascade delete, and sorted and filtered listings.
- **The portal key check** (`src/convex/auth.ts`).

How the model is built:

- Each table is a sequence of rows in creation order, the order the database returns them in.
  `.first()` on an index is the first matching row.
- A class owns the tables that one group of functions mutates. Its `Valid()` invariant says:
  - one row per business key;
  - row ids are distinct and below the next id to hand out.
- Each mutation is a method.
  - Its `ensures` clause states the whole new state of every table.
  - A mutation that throws returns an error and leaves every table unchanged, because a
    mutation is a transaction.
- Each loop of the source is a loop of the model. It is proved to compute a reference function,
  and the source's promises are proved as lemmas about that function.
- Inputs the functions receive from outside are parameters:
  - the clock;
  - random ids;
  - the full-text search index;
  - the chat service's replies;
  - environment keys;
  - the ingestion command's report.
- The record shapes are the ones the function files actually read and write. The declared
  schema describes a newer data model that these functions do not use.

## Model

| member | source | states |
|---|---|---|
| PortalAuth.VerifyPortalKey | src/convex/auth.ts:17-29 | an unset or empty `PORTAL_KEY` lets every caller through; otherwise the call passes exactly when the supplied key equals the configured one, and a refusal carries the access-denied message |
| PortalAuth.CheckPortalKey | src/convex/auth.ts:35-49 | `valid` is true exactly when `verifyPortalKey` would accept the same key |
| Keepers.ToInt32 | src/convex/keepers.ts:23 | the 32-bit conversion lands in the signed 32-bit range |
| Keepers.ShiftSubtractIsPolynomial | src/convex/keepers.ts:22-23 | one iteration `(h << 5) - h + c` followed by `h & h` equals the wrapped polynomial step int32(31·h + c) |
| Keepers.PolyHash | src/convex/keepers.ts:19-24 | the reference hash: int32(31·h + unit) folded over the UTF-16 code units from 0, always a signed 32-bit value |
| Keepers.SimpleHash | src/convex/keepers.ts:18-27 | the loop over `charCodeAt` computes `PolyHash` of the code units (loop invariant) and renders it as the digest |
| Keepers.HashDigest | src/convex/keepers.ts:26 | every digest starts with `aetheria_` and ends with `_` and the decimal UTF-16 length of the passphrase |
| Keepers.NoUnderscoreInDigits | src/convex/keepers.ts:26 | a base-36 or decimal rendering never contains `_`, so the separators in the digest are unambiguous |
| Keepers.DigestRecordsLength | src/convex/keepers.ts:26 | two passphrases with the same digest have the same UTF-16 length |
| Keepers.VerifyKeeper | src/convex/keepers.ts:58-87 | no keeper gives invalid with the "No keeper has been anointed" message; otherwise valid exactly when the stored hash is the passphrase's digest, and the keeper's name and id are returned exactly when valid |
| Keepers.IsSanctumInitialized | src/convex/keepers.ts:115-120 | true exactly when a keeper record exists |
| Keepers.KeeperTable.InitializeKeeper | src/convex/keepers.ts:32-53 | refused with the "already watches" error and no change once a keeper exists; otherwise the table holds exactly the new keeper, whose passphrase then verifies |
| Keepers.KeeperTable.RecordAccess | src/convex/keepers.ts:101-110 | stamps only the named keeper's `lastAccess`; an unknown id fails and changes nothing |
| Keepers.KeeperTable.UpdatePassphrase | src/convex/keepers.ts:125-146 | an unknown keeper or a wrong current passphrase is refused with its message and changes nothing; otherwise only that keeper's hash becomes the new digest, which then verifies |
| Keepers.KeeperTable.AdminResetPassphrase | src/convex/keepers.ts:151-165 | with no keeper fails with "No keeper found"; otherwise re-hashes the first keeper without checking the old passphrase and returns success, after which the new passphrase verifies |
| Vessels.FindByModelId | src/convex/vessels.ts:32-35 | the filter on `modelId` finds a vessel with that model id, and finds none only when no vessel has it |
| Vessels.ActiveVessels | src/convex/vessels.ts:70-77 | exactly the vessels whose `isActive` is true |
| Vessels.ChosenVessel | src/convex/vessels.ts:82-93 | no choice gives null; otherwise the result is the vessel named by the most recent choice, and it is found whenever that vessel exists |
| Vessels.Patched | src/convex/vessels.ts:39-45 | the patch keeps the vessel's id, model id, `isActive` and `addedAt` |
| Vessels.HasModelGrows | src/convex/vessels.ts:353-366 | appending rows never loses a model id, so seeding keeps what earlier steps inserted |
| Vessels.VesselRegistry.AddVessel | src/convex/vessels.ts:16-56 | an existing model id has only its descriptive fields overwritten and its id returned; a new one is appended as active and stamped now; either way one vessel per model id remains |
| Vessels.VesselRegistry.ChooseVessel | src/convex/vessels.ts:98-117 | an unknown vessel is refused with its message and no change; otherwise one choice is appended, earlier choices stay as they were, and the chosen vessel becomes this one |
| Vessels.VesselRegistry.ToggleVesselActive | src/convex/vessels.ts:122-136 | only the named vessel's `isActive` is negated (so two toggles restore it); an unknown vessel fails with "Vessel not found" and changes nothing |
| Vessels.VesselRegistry.SeedOne | src/convex/vessels.ts:354-365 | a seed entry is inserted as active, unpriced and stamped now exactly when its model id is missing |
| Vessels.VesselRegistry.SeedVessels | src/convex/vessels.ts:139-370 | existing vessels are never modified, every seed model id is present afterwards, each added vessel comes from the seed list, a second run changes nothing, and the seed list's length is returned whatever was inserted |
| Seekers.SeekerByEtherealId | src/convex/seekers.ts:66-76 | the first seeker carrying the ethereal id, and null exactly when no seeker carries it |
| Seekers.MintedEtherealId | src/convex/seekers.ts:87 | the minted id starts with `seeker_`, carries the decimal time right after it, and ends with `_` and the random digits |
| Seekers.SeekerRegistry.GreetSeeker | src/convex/seekers.ts:16-46 | a known ethereal id has only its last visit moved to now and keeps its id; an unknown one is inserted with both visits now; afterwards the id looks up to the returned seeker |
| Seekers.SeekerRegistry.SetChosenName | src/convex/seekers.ts:51-61 | only the seeker's `chosenName` is set; patching a missing seeker fails and changes nothing |
| Seekers.SeekerRegistry.GetOrCreateSeeker | src/convex/seekers.ts:82-97 | always appends one fresh seeker, with a new id, under the minted ethereal id, with both visits now |
| Agents.ActiveBaseModels | src/convex/agents.ts:8-15 | exactly the active base models |
| Agents.MyAgents | src/convex/agents.ts:20-30 | a visitor who is not signed in gets nothing; a signed-in user gets exactly their own active agents |
| Agents.GetAgent | src/convex/agents.ts:32-37 | the agent with that id, and null exactly when none has it |
| Agents.GetBaseModel | src/convex/agents.ts:39-44 | the base model with that id, and null exactly when none has it |
| Agents.AgentStore.CreateAgent | src/convex/agents.ts:49-75 | "Unauthenticated" without a user and "Base model not found" for a missing base model, both with no change; otherwise one active agent owned by the caller is appended and then shows among the caller's agents |
| Agents.AgentStore.SeedOne | src/convex/agents.ts:119-131 | a catalogue entry is inserted, active and with zero pricing, exactly when its model id is missing |
| Agents.AgentStore.SeedBaseModels | src/convex/agents.ts:80-134 | existing base models are untouched, every catalogue model id is present afterwards, each added row is active, free and from the catalogue, and a second run changes nothing |
| Conversations.FindThread | src/convex/threads.ts:197 | `ctx.db.get` on a thread id: a row with that id, and none only when no row has it |
| Conversations.FindMessage | src/convex/messages.ts:184 | `ctx.db.get` on a message id: a row with that id, and none only when no row has it |
| Conversations.VesselOf | src/convex/threads.ts:56 | the vessel a thread speaks through, and null exactly when no vessel has that id |
| Conversations.ThreadMessages | src/convex/messages.ts:93-103 | exactly the messages written to the thread |
| Conversations.Survivors | src/convex/threads.ts:131-138 | exactly the messages not written to the deleted thread |
| Conversations.SurvivorsAppend | src/convex/threads.ts:136-138 | the survivors of a longer table extend those of the shorter one by the new message exactly when it is not in the deleted thread (the step behind the delete loop) |
| Conversations.ThreadMessagesAppend | src/convex/messages.ts:24-29 | writing a message extends its own thread's history by exactly that message and leaves every other thread's history as it was |
| Conversations.RecentMessages | src/convex/messages.ts:108-122 | `slice(-limit)`: a positive limit keeps the last min(limit, n) messages in order, zero keeps all of them, and a negative limit drops the first -limit |
| Conversations.MessageViews | src/convex/messages.ts:154-173 | one view per message of the thread, in order, with speaker as role and content, timestamp, id and favourite carried over |
| Conversations.Attach | src/convex/threads.ts:54-62 | each thread, in the same order, paired with its own vessel lookup |
| Conversations.SeekerThreads | src/convex/threads.ts:40-66 | the seeker's threads, each exactly as often as in the table (a permutation of them), most recent message first, each with its vessel |
| Conversations.GetThread | src/convex/threads.ts:71-91 | null exactly when the thread does not exist; otherwise that thread, its vessel and exactly its messages |
| Conversations.RecentFirst | src/convex/threads.ts:151-157 | a permutation of the threads passing the filter, sorted by `lastMessageAt` non-increasing |
| Conversations.OpenThreads | src/convex/threads.ts:148-161 | a permutation of the threads not archived, most recent message first |
| Conversations.FavoriteThreads | src/convex/threads.ts:212-225 | a permutation of the favourite threads, most recent message first |
| Conversations.RemoveThreadRow | src/convex/threads.ts:125-143 | dropping a thread row with its messages keeps ids unique, leaves no row with the dropped id, and leaves every surviving message with a thread |
| Conversations.ConversationStore.BeginThread | src/convex/threads.ts:15-35 | appends one open thread with a new id, titled "New Communion" unless a title is given, with `createdAt` = `lastMessageAt` = now |
| Conversations.ConversationStore.CreateThread | src/convex/threads.ts:166-186 | the same insertion as `beginThread` |
| Conversations.ConversationStore.RenameThread | src/convex/threads.ts:96-106 | only the thread's title changes; a missing thread fails and changes nothing |
| Conversations.ConversationStore.UpdateThreadTitle | src/convex/oracle.ts:459-469 | only the thread's title changes; a missing thread fails and changes nothing |
| Conversations.ConversationStore.ArchiveThread | src/convex/threads.ts:111-120 | only `isArchived` becomes true (idempotent), and the thread leaves the open listing |
| Conversations.ConversationStore.ToggleThreadFavorite | src/convex/threads.ts:192-207 | "Thread not found" with no change for a missing thread; otherwise the flag is stored and returned negated (missing reads as false), and the thread is in the favourite listing exactly when the result is true |
| Conversations.ConversationStore.DeleteThread | src/convex/threads.ts:125-143 | removes the thread row and exactly the messages written to it, keeping everything else in order; a missing thread fails and deletes nothing |
| Conversations.ConversationStore.DeleteThreadRows | src/convex/threads.ts:136-141 | after the deletes no row has the id and no message of it remains |
| Conversations.ConversationStore.Post | src/convex/messages.ts:21-36 | appends one message with a new id and moves only that thread's `lastMessageAt` to the message's timestamp; the thread's history grows by exactly that message; a missing thread fails and writes nothing |
| Conversations.ConversationStore.SendSeekerMessage | src/convex/messages.ts:15-38 | a `seeker` message with no token count or streaming flag, and the thread's `lastMessageAt` set to its timestamp |
| Conversations.ConversationStore.SendVesselMessage | src/convex/messages.ts:43-69 | a `vessel` message with `isStreaming` defaulting to false, and the thread's `lastMessageAt` set to its timestamp |
| Conversations.ConversationStore.AddMessage | src/convex/messages.ts:127-149 | a message with the given role, and the thread's `lastMessageAt` set to its timestamp |
| Conversations.ConversationStore.StoreVesselResponse | src/convex/oracle.ts:309-330 | one `vessel` message, not streaming, with its token count, and the thread's `lastMessageAt` set to the same timestamp |
| Conversations.ConversationStore.UpdateVesselMessage | src/convex/messages.ts:74-88 | only content, `isStreaming` and `tokensUsed` of that message change (thread, speaker, timestamp kept); a missing message fails |
| Conversations.ConversationStore.ToggleMessageFavorite | src/convex/messages.ts:179-194 | "Message not found" with no change for a missing message; otherwise the flag is stored and returned negated, missing reading as false |
| Oracle.Contents | src/convex/oracle.ts:150 | one content per message, in order |
| Oracle.RecentUserContents | src/convex/oracle.ts:147-150 | the contents of the last min(3, n) `user` messages, in their original order |
| Oracle.RecentIgnoresOtherRoles | src/convex/oracle.ts:148 | an assistant or system message never changes what is recalled |
| Oracle.RecentEndsWithLatestUser | src/convex/oracle.ts:148-150 | a newly appended user message is always the last one recalled |
| Oracle.SystemPrompt | src/convex/oracle.ts:163-174 | an empty context leaves the base prompt unchanged; otherwise the prompt is the base, the framed header, the context and the framed footer, in that order |
| Oracle.Request | src/convex/oracle.ts:177-180 | the system message comes first, followed by the caller's messages unchanged |
| Oracle.OracleHits | src/convex/oracle.ts:278-284 | the search for the joined recent messages returns at most five memories |
| Oracle.OracleCompileFacts | src/convex/oracle.ts:233-301 | with unique memory ids, the simplified compiler lists every core id first and in order, never counts an id twice, adds at most five search hits, and gives each hit exactly one part |
| Oracle.ChannelQueryAgrees | src/convex/oracle.ts:147-150 | what `channel` recalls is at most three messages, so the memories module's last-three query gives the same text as joining them |
| Oracle.ChannelContext | src/convex/oracle.ts:145-160 | a failed compilation leaves the context empty instead of aborting; otherwise it is the compiled text |
| Oracle.Channel | src/convex/oracle.ts:120-222 | a refused portal key, then a missing service key, abort with their messages and store nothing; an HTTP failure aborts with its status; otherwise the request is the system prompt followed by the messages, and the reply (empty when absent) is stored in that thread as a finished (not streaming) `vessel` message stamped now, with its token total (0 when absent), bumping only that thread's `lastMessageAt` |
| Oracle.TitleFallback | src/convex/oracle.ts:379 | a message of at most 50 characters is returned unchanged, a longer one as its first 50 characters plus "...", so never more than 53 |
| Oracle.AcceptTitle | src/convex/oracle.ts:414-419 | a generated title is accepted exactly when, trimmed, it is non-empty and at most 60 characters, and it is used trimmed |
| Oracle.TitleFor | src/convex/oracle.ts:372-424 | without a service key, and after an HTTP failure, the title is the truncation; a completion's title is used trimmed when `AcceptTitle` accepts it and the truncation is used otherwise; the result is at most 60 characters and non-empty for a non-empty message |
| Oracle.UnnamedThreads | src/convex/oracle.ts:474-480 | exactly the threads titled "New Communion" or with an empty or whitespace-only title |
| Oracle.FirstUserMessage | src/convex/oracle.ts:485-499 | null exactly when the seeker never spoke in the thread; otherwise the content of the first seeker message in the thread's history |
| Oracle.Retitled | src/convex/oracle.ts:439-451 | naming changes at most the title of a thread, and never touches a thread that is not unnamed |
| Oracle.SetTitle | src/convex/oracle.ts:447-450 | the one row holding the thread takes the title and every other row stays as it was |
| Oracle.NameThread | src/convex/oracle.ts:441-451 | the thread is replaced by its retitled form and every other row stays as it was |
| Oracle.UniqueFind | src/convex/oracle.ts:447-450 | with unique ids, looking a thread up by its id finds that very row |
| Oracle.NamingStep | src/convex/oracle.ts:439-452 | retitling one more not-yet-handled thread extends the set of handled threads by it and leaves every other row as the snapshot had it |
| Oracle.NextUnnamed | src/convex/oracle.ts:437-439 | the next thread of the snapshot has not been handled yet, so it is still in the table unchanged |
| Oracle.NameUnnamedThreads | src/convex/oracle.ts:429-454 | every thread ends up as its retitled form: an unnamed thread with a non-empty first seeker message takes its title, and nothing else changes |
| Oracle.GenerateThreadTitle | src/convex/oracle.ts:337-367 | a refused portal key aborts with no change; a missing thread aborts when patched; otherwise the thread takes the generated title, then every thread is named as `nameUnnamedThreads` does, and the title is returned |
| MemoryModel.FindMemory | src/convex/memories.ts:195-198 | the `by_memory_id` lookup finds a row with that memory id, and none only when no row has it |
| MemoryModel.FindLink | src/convex/memories.ts:257-261 | the `by_source` lookup filtered on the target finds a link with that source and target, and none only when no link joins them |
| MemoryModel.FindProfile | src/convex/memories.ts:647-650 | the `by_seeker` lookup finds that seeker's profile, and none only when the seeker has none |
| MemoryModel.GetMemory | src/convex/memories.ts:85-95 | the memory stored under the memory id, and null exactly when there is none |
| MemoryModel.GetSeekerMemory | src/convex/memories.ts:642-652 | the seeker's profile, and null exactly when there is none |
| MemoryModel.MemoriesByType | src/convex/memories.ts:100-117 | exactly the active memories of the type, in table order |
| MemoryModel.ByResonance | src/convex/memories.ts:128-134 | a permutation of the active memories in non-increasing resonance |
| MemoryModel.TopMemories | src/convex/memories.ts:122-136 | only active memories, in non-increasing resonance; exactly min(limit, n) of them for a non-negative limit (20 by default), and all but the last `-limit` ranked memories for a negative one, as `slice(0, limit)` gives; no active memory left out outranks one returned |
| MemoryModel.TopPrefix | src/convex/memories.ts:134 | any prefix of the ranking holds only active memories, in order, and outranks everything after it |
| MemoryModel.Take | src/convex/memories.ts:167 | `.take(n)`: the first min(n, length) hits, none for a non-positive n |
| MemoryModel.SearchMemories | src/convex/memories.ts:141-185 | only active hits of the asked type come back, at most the limit (10 by default); when some content match passes the filters, the result is the first `limit` of the filtered content matches in relevance order; title matches are used, likewise the first `limit` filtered ones, exactly when no content match passes the filters |
| MemoryModel.SearchMemoriesInternal | src/convex/memories.ts:654-668 | exactly the first min(limit, n) active content matches in relevance order (10 by default), none for a negative limit, with no title fallback |
| MemoryModel.Outgoing | src/convex/memories.ts:293-297 | exactly the active links leaving the memory |
| MemoryModel.Incoming | src/convex/memories.ts:299-303 | exactly the active links arriving at the memory |
| MemoryModel.MemoryLinks | src/convex/memories.ts:288-307 | the memory's active outgoing and incoming links |
| MemoryGraph.Traverse | src/convex/memories.ts:322-342 | the recursive `traverse` closure, with the visited set and the result array it shares threaded through, computes exactly the reference walk `Walk` (its loop invariant is the remaining links still to be followed) |
| MemoryGraph.GetConnectedMemories | src/convex/memories.ts:312-347 | the query returns the reference walk from the memory at depth 1, `depth ?? 1` levels deep |
| MemoryGraph.Compose | src/convex/memories.ts:332-341 | two successive stretches of the walk that each only add to the state, and only add new, in-range entries, compose into one such stretch |
| MemoryGraph.WalkFacts | src/convex/memories.ts:322-324 | one call of `traverse` keeps the walk's invariant, only adds to the visited set, the expansion log and the result, and every entry it adds was unvisited, lies between the current depth and the maximum, and has one link type per level |
| MemoryGraph.WalkLinksFacts | src/convex/memories.ts:332-341 | the same for the loop over one memory's links |
| MemoryGraph.FollowFacts | src/convex/memories.ts:333-340 | the same for one iteration of that loop |
| MemoryGraph.ConnectedMemoriesFacts | src/convex/memories.ts:312-347 | on every graph, cyclic ones included, each result has 1 <= depth <= the requested depth and a path as long as its depth, the start memory is never reported, no memory has its links read twice, and a memory reported above the last level is reported only once |
| MemoryGraph.NoDepthNoResults | src/convex/memories.ts:323 | a requested depth of zero or less gives an empty result |
| MemoryGraph.FrontierRepeats | src/convex/memories.ts:323-339 | a memory first reached on the last level is not marked visited, so it can be reported more than once: in the diamond A→B, A→C, B→D, C→D walked to depth 2, D is reported twice, once through B and once through C |
| Memories.Touch | src/convex/memories.ts:190-207 | touching a table keeps every row's row id and memory id and the table's length; only the first row with the memory id gains one access and is stamped, an unknown id changes nothing |
| Memories.TouchedAll | src/convex/memories.ts:564-566 | the touch loop over a list of ids keeps the table's length and every row's row id and memory id |
| Memories.TouchedAllOnce | src/convex/memories.ts:564-566 | touching distinct ids over a table with one row per memory id touches exactly the rows whose ids are listed, each exactly once, and leaves every other row as it was |
| Memories.DeactivatedIsHidden | src/convex/memories.ts:212-228 | once a memory is marked inactive, no memory with its id is listed by type or ranked among the top memories |
| Memories.AddFact | src/convex/memories.ts:436-441 | the fact is in the new list; a fact already present leaves the list as it was, so adding the same fact twice is adding it once; the new list holds exactly the old facts and the fact, keeps the old list as its prefix, and has no duplicates when the old list had none |
| Memories.AppendNotes | src/convex/memories.ts:1116-1118 | present, non-empty notes are kept, followed by a blank line and the new notes; absent or empty notes are replaced by the new ones |
| Memories.MemoryStore.CreateMemory | src/convex/memories.ts:28-82 | an existing memory keeps its row id, type, creation time, access count and active flag and has its descriptive fields replaced (an absent summary or source is removed); otherwise a new active, never-accessed memory is appended; no other table changes and the invariant holds |
| Memories.MemoryStore.CreateMemoryInternal | src/convex/memories.ts:1057-1099 | an existing memory is returned unchanged; otherwise a new active memory is appended; afterwards the memory id is present |
| Memories.MemoryStore.TouchMemory | src/convex/memories.ts:190-207 | the memory table becomes `Touch` of the old one; nothing else changes |
| Memories.MemoryStore.TouchMemoryInternal | src/convex/memories.ts:603-620 | the same touch, from the internal mutation |
| Memories.MemoryStore.DeactivateMemory | src/convex/memories.ts:212-228 | only the active flag of the memory's row is cleared; an unknown id changes nothing |
| Memories.MemoryStore.CreateMemoryLink | src/convex/memories.ts:237-283 | an existing link for the (source, target) pair keeps its row id and has its type, weight and description replaced; otherwise one new active link is appended, so a pair never gets a second link |
| Memories.MemoryStore.CreateMemoryLinkInternal | src/convex/memories.ts:1369-1419 | the same upsert, except that an existing link keeps its type |
| Memories.MemoryStore.UpdateSeekerMemory | src/convex/memories.ts:371-418 | an existing profile has exactly the supplied fields replaced and its update time stamped; otherwise a profile is created with absent fact and interest lists as empty lists |
| Memories.MemoryStore.AddSeekerFact | src/convex/memories.ts:423-459 | a fact already recorded changes nothing, not even the update time; a new fact is appended and stamped; a seeker with no profile gets one holding just the fact |
| Memories.MemoryStore.AddSeekerFactInternal | src/convex/memories.ts:1022-1052 | the same mutation, from the internal mutation |
| Memories.MemoryStore.UpdateSeekerRelationshipNotes | src/convex/memories.ts:1104-1136 | the profile's notes become `AppendNotes` of the old notes and the update time is stamped; a seeker with no profile gets one with just the notes and empty fact and interest lists |
| Memories.MemoryStore.StoreMemoryContext | src/convex/memories.ts:581-598 | exactly one snapshot is appended, carrying the given ids, text, total, thread, seeker and generation time, stamped now |
| Memories.MemoryStore.TouchAll | src/convex/memories.ts:564-566 | the loop leaves the memory table as `TouchedAll` of the old one and changes nothing else |
| Memories.MemoryStore.CompileContext | src/convex/memories.ts:481-553 | the four gathering steps over the tables as they stand compute the reference compilation `Compile` |
| Memories.MemoryStore.GenerateMemoryContext | src/convex/memories.ts:465-576 | the returned text, count and total are those of the compilation over the tables before the call; exactly one snapshot is appended, with a fresh id, the same ids, text and total, the thread and seeker, stamped now with the measured generation time; every memory the compilation used is touched exactly once and every other memory is left as it was |
| Memories.MemoryStore.SeedMemory | src/convex/memories.ts:819-833 | a seed memory is inserted as new unless its memory id is present, in which case the table is unchanged |
| Memories.MemoryStore.SeedLink | src/convex/memories.ts:836-850 | a seed link is inserted as a new active link unless the pair is already linked, in which case the table is unchanged |
| Memories.MemoryStore.SeedMemories | src/convex/memories.ts:819-833 | every seed memory's id is present afterwards; rows that existed before are unchanged; each appended row is a new memory for a seed entry whose id was missing; when every seed id was already present the table is unchanged |
| Memories.MemoryStore.SeedLinks | src/convex/memories.ts:836-850 | every seed link's pair is linked afterwards; links that existed before are unchanged; each appended link is a new active link for a seed entry whose pair was not linked; when every seed pair was already linked the links are unchanged |
| Memories.MemoryStore.SeedCoreMemories | src/convex/memories.ts:679-853 | inserts only what is missing: every seed memory and link is present afterwards, existing rows are untouched, every appended row comes from a missing seed entry, a second run changes nothing, and the reported counts are the sizes of the two seed lists |
| MemoryContext.Part | src/convex/memories.ts:488 | a labelled part is non-empty and starts with `[` |
| MemoryContext.Admit | src/convex/memories.ts:486-492 | one loop iteration: a counted memory appends its id and resonance, plus its `[tag: title]` part exactly when it has a summary; a memory the tier does not count changes nothing |
| MemoryContext.Fold | src/convex/memories.ts:527-535 | a tier keeps what was gathered before as a prefix, adds at most one id per memory, adds only ids of the memories it was given, and adds only labelled parts |
| MemoryContext.AdmitAll | src/convex/memories.ts:542-548 | the loop, run on local lists, computes exactly the reference tier `Fold` |
| MemoryContext.Ids | src/convex/memories.ts:490 | the id list has one entry per memory, in order |
| MemoryContext.CoreTierCountsAll | src/convex/memories.ts:486-492 | the core tier appends the ids of all core memories, with or without a summary, and all of their resonance |
| MemoryContext.Counted | src/convex/memories.ts:527-535 | the memories a tier counts are drawn from its input, and there are no more of them than inputs |
| MemoryContext.FoldTally | src/convex/memories.ts:527-548 | a tier adds exactly the ids of the memories it counts, and its total grows by exactly their summed resonance |
| MemoryContext.FoldKeepsIdsDistinct | src/convex/memories.ts:527-548 | the search and harmonic tiers, which check `memoryIds.includes`, never add an id twice or one added before |
| MemoryContext.StrictTierPartPerId | src/convex/memories.ts:543-546 | in the harmonic tier every counted memory contributes exactly one part |
| MemoryContext.IdsDistinct | src/convex/memories.ts:623-640 | memories with distinct memory ids give a list of distinct ids |
| MemoryContext.SeekerBlock | src/convex/memories.ts:499-516 | the block starts with `[Seeker Memory]`, and is just that heading exactly when the profile has no name, facts or interests (and, in the full compiler, no preferences or last interaction) |
| MemoryContext.WithSeeker | src/convex/memories.ts:495-518 | the seeker step adds the profile's block as one more part when a seeker is given and has a profile, and otherwise changes nothing; it never adds ids or resonance |
| MemoryContext.SearchQuery | src/convex/memories.ts:522 | with at most three recent messages the query is all of them joined by spaces |
| MemoryContext.SearchQueryIgnoresHistory | src/convex/memories.ts:522 | only the last three messages shape the query: messages before them never change it |
| MemoryContext.HarmonicCandidates | src/convex/memories.ts:539-542 | the harmonic loop considers the first three active harmonic memories in table order, or all of them when there are fewer |
| MemoryContext.SearchHits | src/convex/memories.ts:523-526 | the search contributes at most five memories |
| MemoryContext.Searched | src/convex/memories.ts:521-537 | the search tier adds at most five ids after those gathered before, and changes nothing when recent messages are absent or empty |
| MemoryContext.CoreIdsDistinct | src/convex/memories.ts:483-492 | with memory ids unique in the table, the core tier yields exactly the core memories' ids, each once |
| MemoryContext.SearchedDistinct | src/convex/memories.ts:527-535 | the search tier keeps the id list free of duplicates |
| MemoryContext.CompileFacts | src/convex/memories.ts:481-551 | with memory ids unique in the table, no memory is counted twice, all core memories come first, and at most five search hits and three harmonic memories follow them |
| MemoryContext.CompileTally | src/convex/memories.ts:481-549 | the total resonance is the summed resonance of the gathered memories, each of which is a core memory, a search hit or one of the first three harmonic memories |
| MemoryContext.TierTally | src/convex/memories.ts:486-548 | one tier extends the tally of gathered memories by the memories it counts, keeping ids and total in step |
| MemoryContext.ContextEmptyIffNoParts | src/convex/memories.ts:551 | the compiled context is empty exactly when no part was gathered |
| DocumentText.FindFence | src/convex/memories.ts:958 | the search for the regular expression's next three backticks returns the first fence at or after the start position, or none when no fence follows |
| DocumentText.SkipSpace | src/convex/memories.ts:958 | `\s*` consumes exactly the maximal run of whitespace |
| DocumentText.MatchAt | src/convex/memories.ts:958 | a match of the fence expression can start only at a fence |
| DocumentText.FencedJson | src/convex/memories.ts:956-961 | the text handed to `JSON.parse` is the first fenced group when there is one, otherwise the whole reply, and is never longer than the reply |
| DocumentText.UnfencedReplyKept | src/convex/memories.ts:957-961 | a reply without three backticks is parsed as it stands |
| DocumentText.FencedReplyYieldsPayload | src/convex/memories.ts:958-961 | a ```` ```json ```` block with backtick-free prose around it yields exactly the JSON inside it, when the JSON holds no backtick and starts with no whitespace |
| DocumentText.DropOpeningFence | src/convex/memories.ts:1288 | `/^```(?:json)?\n?/` removes only a prefix of at least the three backticks |
| DocumentText.DropClosingFence | src/convex/memories.ts:1288 | `/\n?```$/` removes only a suffix |
| DocumentText.StripFence | src/convex/memories.ts:1286-1289 | the pre-parse text is never longer than the trimmed reply, and is the trimmed reply itself when it does not start with a fence |
| DocumentText.JsonFenceRoundTrip | src/convex/memories.ts:1286-1289 | wrapping any payload in a ```` ```json ```` block and stripping it gives the payload back |
| DocumentText.PlainFenceRoundTrip | src/convex/memories.ts:1286-1289 | the same for a bare ```` ``` ```` block |
| DocumentText.Lower | src/convex/memories.ts:1310 | ASCII `toLowerCase` leaves no upper-case letter and never turns a non-space into whitespace |
| DocumentText.Slug | src/convex/memories.ts:1310 | `toLowerCase().replace(/\s+/g, '-')` leaves neither whitespace nor upper-case letters and never lengthens the name |
| DocumentText.SlugIdempotent | src/convex/memories.ts:1310 | slugging a slug changes nothing |
| DocumentText.SlugIgnoresRunLength | src/convex/memories.ts:1310 | document names that differ only in the length of a whitespace run get the same slug, so their memories share one id prefix |
| DocumentText.DocPrefix | src/convex/memories.ts:1328 | every id stored from a document starts with `doc-` and with the slug followed by `-` |
| DocumentText.DocIdsInjective | src/convex/memories.ts:1310-1328 | within one document, distinct memory ids remain distinct once prefixed |
| DocumentText.DocumentMemoryInput | src/convex/memories.ts:1309-1318 | the stored record has the prefixed id, the memory's own tags followed by `document-extracted` and the document type (or `general`), the document as its source, and the other fields unchanged |
| DocumentText.DocumentLinkInput | src/convex/memories.ts:1328-1343 | both link endpoints carry the document's prefix, and removing it gives back the extractor's ids |
| DocumentText.SummaryOf | src/convex/memories.ts:991 | `content.slice(0, 200)` is the content's prefix of length at most 200 |
| DocumentText.InsightMemoryInput | src/convex/memories.ts:984-994 | an insight is stored as an `insight` memory whose id is built from the source type and id, the time and a random suffix; its summary is the first 200 characters, its tags get the source type and `extracted` appended, its resonance is 0.7 when absent, and its source is `type:id` |
| Tables.FirstIndex | src/convex/memories.ts:47-50 | `.first()` of a filtered query finds the first row that satisfies the filter, and finds none exactly when no row does |
| Tables.Filter | src/convex/memories.ts:623-640 | a filtered listing holds exactly the rows that pass the filter, each drawn from the table, and is no longer than the table |
| Tables.FilterAppend | src/convex/memories.ts:623-640 | filtering a concatenation is concatenating the filtered parts |
| Tables.FilterUnique | src/convex/memories.ts:623-640 | filtering a table whose rows have distinct keys keeps the keys distinct |
| Tables.SortDesc | src/convex/memories.ts:134 | the sort by descending key returns a permutation of its input, in non-increasing key order |
| Tables.RelativeIndex | src/convex/messages.ts:120 | `slice` resolves a negative index from the end and clamps every index to the array's bounds |
| Tables.JsSlice | src/convex/memories.ts:134 | `slice(0, end)` is the prefix up to the resolved end |
| Tables.LastElements | src/convex/memories.ts:522 | `slice(-n)` is the last n elements, or the whole array when it is shorter |
| JsText.Trim | src/convex/memories.ts:1286 | `trim` returns a slice of the string that neither starts nor ends with whitespace |
| JsText.TrimIdempotent | src/convex/memories.ts:1286 | trimming twice is trimming once |
| JsText.TrimBlank | src/convex/oracle.ts:478 | a string of whitespace only trims to the empty string |
| JsText.Join | src/convex/memories.ts:551 | a join of one part is that part, of none is empty, and otherwise starts with the first part |
| JsText.NatToString | src/convex/keepers.ts:26 | `toString(radix)` of a non-negative number gives at least one digit, with no leading zero |
| JsText.ParseNatToString | src/convex/keepers.ts:26 | reading the rendered digits back in the same radix gives the number |
| JsText.NatToStringInjective | src/convex/keepers.ts:26 | distinct numbers are rendered differently in any radix from 2 to 36 |
| Chunking.BreakAt | scripts/ingest-memories.js:87-97 | a separator is matched exactly where `/\n\n+/` starts (two newlines) or where `/(?<=[.!?])\s+/` starts (whitespace right after `.`, `!` or `?`), and what it consumes is blank |
| Chunking.SplitFrom | scripts/ingest-memories.js:87-97 | `split` yields at least one piece |
| Chunking.Paragraphs | scripts/ingest-memories.js:87 | `content.split(/\n\n+/)` yields at least one paragraph |
| Chunking.Sentences | scripts/ingest-memories.js:97 | `para.split(/(?<=[.!?])\s+/)` yields at least one sentence |
| Chunking.SplitKeepsText | scripts/ingest-memories.js:87-97 | splitting drops only whitespace: the pieces laid end to end hold the text's non-whitespace characters in order |
| Chunking.Flushed | scripts/ingest-memories.js:115-117 | the chunk being built is pushed, trimmed, only when it is non-empty |
| Chunking.Chunks | scripts/ingest-memories.js:81-120 | a document no longer than the chunk size is returned as its single chunk, untrimmed |
| Chunking.PackSentenceLoop | scripts/ingest-memories.js:99-106 | the sentence loop computes exactly the reference packing `PackSentences` |
| Chunking.ChunkContent | scripts/ingest-memories.js:81-120 | `chunkContent` with its two loops computes exactly the reference chunking `Chunks` |
| Chunking.ChunksTrimmed | scripts/ingest-memories.js:90-117 | when a document is split, every chunk it gives is trimmed |
| Chunking.ChunksWithin | scripts/ingest-memories.js:91-109 | a chunk can exceed the size only as a trimmed over-long sentence of an over-long paragraph |
| Chunking.ChunksBounded | scripts/ingest-memories.js:91-109 | when no over-long paragraph holds an over-long sentence, no chunk exceeds the chunk size |
| Chunking.ChunksKeepText | scripts/ingest-memories.js:81-120 | chunking loses and reorders nothing but whitespace: the chunks laid end to end hold the document's non-whitespace characters in their original order |
| Ingest.ReplaceAll | scripts/ingest-memories.js:130-134 | `replace(/c/g, rep)` leaves no `c` behind when the replacement holds none |
| Ingest.EscapeChar | scripts/ingest-memories.js:129-134 | the replacement chain writes backslash, quote, newline, carriage return and tab as two-character escapes and leaves every other character as it is |
| Ingest.EscapeRoundTrip | scripts/ingest-memories.js:129-136 | reading the escaped chunk as the body of a JSON string gives back the chunk, because backslashes are escaped first |
| Ingest.EscapedIsJsonBody | scripts/ingest-memories.js:129-136 | the escaped chunk holds no raw quote, newline, carriage return or tab, and each of its backslashes starts an escape, so it cannot end the JSON string early |
| Ingest.ShellQuoteRoundTrip | scripts/ingest-memories.js:140 | the single-quoted argument, with each `'` written as `'\''`, reaches the command unchanged whatever quotes it holds |
| Ingest.ChunkName | scripts/ingest-memories.js:126 | a file with a single chunk keeps its name |
| Ingest.ChunkNamesDistinct | scripts/ingest-memories.js:126 | the parts of a file with several chunks are named distinctly |
| Ingest.CommandCarriesContent | scripts/ingest-memories.js:125-146 | the command line carries its request intact: the shell hands over the JSON argument unchanged, that argument has the documented shape, and its content field reads back as the chunk |
| Ingest.Reports | scripts/ingest-memories.js:204-214 | one report per chunk, in order, each the outcome of the request for that chunk numbered from 1 |
| Ingest.TallyFailed | scripts/ingest-memories.js:228-234 | the file is marked failed exactly when one of its chunks failed |
| Ingest.TallyNoMemories | scripts/ingest-memories.js:216-217 | the memory total is zero exactly when no successful chunk reported a memory |
| Ingest.FileUnprocessedIff | scripts/ingest-memories.js:158-244 | `processFile` returns `null` exactly when the file is unsupported or unreadable, or, outside a dry run, when some chunk failed and no successful chunk reported a memory |
| Ingest.AddReport | scripts/ingest-memories.js:216-234 | the loop body adds a successful report's counts (absent counts as 0) and suggestions, and only marks the file failed otherwise |
| Ingest.ProcessChunks | scripts/ingest-memories.js:198-240 | the chunk loop computes exactly the reference totals `Tally` of the chunks' reports |
| Ingest.ProcessFile | scripts/ingest-memories.js:158-268 | `processFile` computes exactly the reference outcome `FileOutcome` |
| Ingest.IngestAll | scripts/ingest-memories.js:334-356 | the file loop of `main` computes exactly the reference summary of the files' outcomes |
| Ingest.EveryFileCounted | scripts/ingest-memories.js:343-356 | processed, failed and skipped files add up to the number of files |
| Ingest.NothingProcessedNothingCounted | scripts/ingest-memories.js:350-355 | when no file was processed, no memory, link or token is counted |
| Ingest.DryRunProcessesNothing | scripts/ingest-memories.js:184-189 | in a dry run every file is skipped or failed, never processed |
| Ingest.DryRunStoresNothing | scripts/ingest-memories.js:184-189 | a dry run reports no processed file, memory, link or token |

## Left out

- Vector embeddings and semantic search (`generateEmbedding`, `embedMemory`, `embedAllMemories`, `semanticSearch`, `cosineSimilarity`, from `src/convex/memories.ts:1424` on): network calls and floating-point similarity. The ingestion script's optional embedding step is left out for the same reason.
- The chat service: every `fetch` to the model gateway is replaced by its reply, given as a parameter. This covers the channel, title generation, memory extraction and document processing.
- `JSON.parse` of the model's replies and of the ingestion command's output is a foreign call. Its result, the reply's fields or the chunk report, is a parameter. Only the fence handling done before parsing is modelled.
- The actions `extractMemories` and `processDocument` as a whole: only the records they hand to `createMemoryInternal` and `createMemoryLinkInternal` are modelled, plus the fence stripping and id prefixing they apply.
- The full-text search index (`withSearchIndex`) is a hosted-database feature. It is a parameter: a function from the query to the matching memories in relevance order.
- Inputs that vary from run to run are parameters: the clock (`Date.now()`), the random digits of minted ids and the measured generation time.
- Memories.MemoryStore.GenerateMemoryContext: the stored and the returned generation times are one parameter, whereas the source reads the clock once for each.
- Oracle.OracleCompileFacts: the `try`/`catch` around the oracle compiler's profile lookup and search is not modelled. Those reads over the modelled tables cannot fail.
- Oracle.ChannelContext: a failure of the whole context compilation is a boolean parameter, since its cause lies outside the model.
- The ingestion script's plumbing is not modelled:
  - reading files (`fs`, the document converter), with each file's text given as an optional parameter;
  - listing a directory (`getFiles`) and parsing command-line arguments;
  - the subprocess call and its timeout, with its report given as a parameter;
  - the 500 ms pause between chunks;
  - console output, including the de-duplicated printing of suggestions.
- Ingest.CommandCarriesContent: the model reads the command line with its own shell and JSON-string readers. It shows that these readers give back the request, not what the `convex` command line tool does with it.
- Ingest.EscapedIsJsonBody: control characters other than newline, carriage return and tab pass through unescaped, as in the source. The JSON-string reader of the model accepts them, where a strict JSON parser would not.
- The contents of the seed lists (memories, links, vessels, base models) and of the long prompt constants are parameters. The seeding and prompt assembly around them are modelled.
- The browser stores, the user, billing and configuration files and the declared schema hold no backend logic over these tables.
- Concurrency: each mutation is taken to run atomically and one at a time, as the database's transactions guarantee.
- Interleaving inside actions: `generateMemoryContext`, `channel`, `generateThreadTitle` and `nameUnnamedThreads` are actions that run several separate mutations (storing the snapshot, then touching each memory; storing the reply; retitling thread after thread). Each is modelled as one method with no other mutation running between its steps, so the model does not capture what another client's write between those steps would do.
- Limits and depths are integers: the numeric arguments `limit` of `getTopMemories`, `searchMemories`, `searchMemoriesInternal` and `getRecentMessages`, and `depth` of `getConnectedMemories`, are `int` in MemoryModel.TopMemories, MemoryModel.SearchMemories, MemoryModel.SearchMemoriesInternal, Conversations.RecentMessages and MemoryGraph.GetConnectedMemories. A fractional value, which `slice` truncates and the database's `take` treats in its own way, is not modelled. A negative limit to the database's `take` is taken to return nothing.
- Resonance, weights, token counts and prices are `real`: floating-point rounding is not modelled.
- `toLowerCase` is modelled on ASCII letters only. String lengths are counted in characters, except in the keeper hash, which counts UTF-16 code units explicitly.
- Sorting: JavaScript's `sort` is modelled by a stable insertion sort into non-increasing order. The source's sorts are stable as well, so the order of equal keys agrees.
- `maxTokens` of `generateMemoryContext` is read but never used by the source, so it is not a parameter.
