/**
 * Threads of communion and the messages exchanged in them, together with the two oracle
 * mutations that write to the same tables (storing a vessel's reply, retitling a thread).
 */
module Conversations {
  import opened Wrappers
  import opened Tables
  import Vessels

  /** Who spoke a message: the `speaker` field, `'seeker'` or `'vessel'`. */
  datatype Speaker = SeekerSpeaker | VesselSpeaker

  datatype Thread = Thread(
    id: nat, seekerId: nat, vesselId: nat, title: string, createdAt: int, lastMessageAt: int,
    isArchived: bool, isFavorite: Option<bool>)

  datatype Message = Message(
    id: nat, threadId: nat, speaker: Speaker, content: string, timestamp: int,
    tokensUsed: Option<real>, isStreaming: Option<bool>, isFavorite: Option<bool>)

  /** A thread listed with the vessel it speaks through (`null` when that vessel is gone). */
  datatype ThreadView = ThreadView(thread: Thread, vessel: Option<Vessels.Vessel>)

  /** `getThread`'s result: the thread, its vessel and all of its messages. */
  datatype ThreadDetail = ThreadDetail(thread: Thread, vessel: Option<Vessels.Vessel>, messages: seq<Message>)

  /** The shape `getMessages` hands to the front end. */
  datatype MessageView = MessageView(id: nat, role: Speaker, content: string, timestamp: int, isFavorite: Option<bool>)

  const DefaultTitle: string := "New Communion"

  function ThreadId(t: Thread): nat { t.id }
  function MessageId(m: Message): nat { m.id }
  function LastMessageAt(t: Thread): real { t.lastMessageAt as real }

  /** A missing `isFavorite` counts as false, as `!thread.isFavorite` reads it. */
  predicate Favorite(f: Option<bool>) { f == Some(true) }

  function FindThread(threads: seq<Thread>, id: nat): (r: Option<nat>)
    ensures r.Some? ==> r.value < |threads| && threads[r.value].id == id
    ensures r.None? ==> forall j :: 0 <= j < |threads| ==> threads[j].id != id
  {
    FirstIndex(threads, (t: Thread) => t.id == id)
  }

  function FindMessage(messages: seq<Message>, id: nat): (r: Option<nat>)
    ensures r.Some? ==> r.value < |messages| && messages[r.value].id == id
    ensures r.None? ==> forall j :: 0 <= j < |messages| ==> messages[j].id != id
  {
    FirstIndex(messages, (m: Message) => m.id == id)
  }

  function VesselOf(vessels: seq<Vessels.Vessel>, vesselId: nat): (r: Option<Vessels.Vessel>)
    ensures r.Some? ==> r.value in vessels && r.value.id == vesselId
    ensures r.None? ==> forall v :: v in vessels ==> v.id != vesselId
  {
    match Vessels.FindById(vessels, vesselId)
    case None => None
    case Some(i) => Some(vessels[i])
  }

  ghost predicate HasThread(threads: seq<Thread>, id: nat) {
    exists i :: 0 <= i < |threads| && threads[i].id == id
  }

  /** `getThreadMessages`: the messages of one thread, in the order they were written. */
  function ThreadMessages(messages: seq<Message>, threadId: nat): (r: seq<Message>)
    ensures forall m :: m in r <==> m in messages && m.threadId == threadId
    ensures |r| <= |messages|
  {
    Filter(messages, (m: Message) => m.threadId == threadId)
  }

  /** The messages that survive deleting a thread: every message not written to it, in order. */
  function Survivors(messages: seq<Message>, gone: nat): (r: seq<Message>)
    ensures forall m :: m in r <==> m in messages && m.threadId != gone
    ensures |r| <= |messages|
  {
    Filter(messages, (m: Message) => m.threadId != gone)
  }

  lemma SurvivorsAppend(messages: seq<Message>, m: Message, gone: nat)
    ensures Survivors(messages + [m], gone) == Survivors(messages, gone) + (if m.threadId != gone then [m] else [])
  {
    FilterAppend(messages, [m], (m: Message) => m.threadId != gone);
  }

  /** Writing a message extends its own thread's history by exactly that message and no other thread's. */
  lemma ThreadMessagesAppend(messages: seq<Message>, m: Message, threadId: nat)
    ensures ThreadMessages(messages + [m], threadId)
      == ThreadMessages(messages, threadId) + (if m.threadId == threadId then [m] else [])
  {
    FilterAppend(messages, [m], (m: Message) => m.threadId == threadId);
  }

  /**
   * `getRecentMessages`: `slice(-limit)` of the thread's messages, so a positive limit keeps the
   * last `limit` of them, a zero limit keeps all of them, and a negative one drops the first `-limit`.
   */
  function RecentMessages(messages: seq<Message>, threadId: nat, limit: int): (r: seq<Message>)
    ensures var all := ThreadMessages(messages, threadId);
      && (limit >= 1 ==> r == if limit <= |all| then all[|all| - limit..] else all)
      && (limit == 0 ==> r == all)
      && (limit < 0 ==> r == if -limit <= |all| then all[-limit..] else [])
  {
    JsSliceFrom(ThreadMessages(messages, threadId), -limit)
  }

  function View(m: Message): MessageView {
    MessageView(m.id, m.speaker, m.content, m.timestamp, m.isFavorite)
  }

  /** `getMessages`: the thread's messages, in order, seen as role/content/timestamp/favourite. */
  function MessageViews(messages: seq<Message>, threadId: nat): (r: seq<MessageView>)
    ensures var all := ThreadMessages(messages, threadId);
      |r| == |all| && forall i :: 0 <= i < |r| ==>
        r[i].id == all[i].id && r[i].role == all[i].speaker && r[i].content == all[i].content
        && r[i].timestamp == all[i].timestamp && r[i].isFavorite == all[i].isFavorite
  {
    var all := ThreadMessages(messages, threadId);
    seq(|all|, i requires 0 <= i < |all| => View(all[i]))
  }

  function Attach(ts: seq<Thread>, vessels: seq<Vessels.Vessel>): (r: seq<ThreadView>)
    ensures |r| == |ts|
    ensures forall i :: 0 <= i < |r| ==> r[i].thread == ts[i] && r[i].vessel == VesselOf(vessels, ts[i].vesselId)
    ensures forall i :: 0 <= i < |r| ==> r[i].thread in ts
    ensures forall t :: t in ts ==> exists i :: 0 <= i < |r| && r[i].thread == t
  {
    var r := seq(|ts|, i requires 0 <= i < |ts| => ThreadView(ts[i], VesselOf(vessels, ts[i].vesselId)));
    assert forall t :: t in ts ==> exists i :: 0 <= i < |r| && r[i].thread == t by {
      forall t | t in ts ensures exists i :: 0 <= i < |r| && r[i].thread == t {
        var i :| 0 <= i < |ts| && ts[i] == t;
        assert r[i].thread == t;
      }
    }
    r
  }

  /**
   * `getSeekerThreads`: exactly the seeker's threads, most recent message first, each with its
   * vessel.
   */
  function SeekerThreads(threads: seq<Thread>, vessels: seq<Vessels.Vessel>, seekerId: nat): (r: seq<ThreadView>)
    ensures forall i :: 0 <= i < |r| ==> r[i].thread in threads && r[i].thread.seekerId == seekerId
    ensures forall t :: t in threads && t.seekerId == seekerId ==> exists i :: 0 <= i < |r| && r[i].thread == t
    ensures multiset(ThreadsOf(r)) == multiset(Filter(threads, OfSeeker(seekerId)))
    ensures forall i, j :: 0 <= i < j < |r| ==> r[i].thread.lastMessageAt >= r[j].thread.lastMessageAt
    ensures forall i :: 0 <= i < |r| ==> r[i].vessel == VesselOf(vessels, r[i].thread.vesselId)
  {
    var sorted := RecentFirst(threads, OfSeeker(seekerId));
    ThreadsOfAttach(sorted, vessels);
    Attach(sorted, vessels)
  }

  /** Attaching vessels keeps the threads, in order. */
  lemma ThreadsOfAttach(ts: seq<Thread>, vessels: seq<Vessels.Vessel>)
    ensures ThreadsOf(Attach(ts, vessels)) == ts
  {
    var r := Attach(ts, vessels);
    assert forall i :: 0 <= i < |ts| ==> ThreadsOf(r)[i] == ts[i];
  }

  /** The threads of a listing, in its order. */
  function ThreadsOf(views: seq<ThreadView>): (r: seq<Thread>)
    ensures |r| == |views| && forall i :: 0 <= i < |r| ==> r[i] == views[i].thread
  {
    seq(|views|, i requires 0 <= i < |views| => views[i].thread)
  }

  /** The seeker's threads, as `getSeekerThreads`' index selects them. */
  function OfSeeker(seekerId: nat): Thread -> bool {
    (t: Thread) => t.seekerId == seekerId
  }

  predicate IsOpen(t: Thread) { !t.isArchived }

  predicate IsFavorite(t: Thread) { Favorite(t.isFavorite) }

  /** `getThread`: nothing for an unknown id; otherwise the thread, its vessel and its whole history. */
  function GetThread(threads: seq<Thread>, messages: seq<Message>, vessels: seq<Vessels.Vessel>, id: nat): (r: Option<ThreadDetail>)
    ensures r.None? <==> !HasThread(threads, id)
    ensures r.Some? ==> (r.value.thread in threads && r.value.thread.id == id
      && r.value.vessel == VesselOf(vessels, r.value.thread.vesselId)
      && r.value.messages == ThreadMessages(messages, id))
  {
    match FindThread(threads, id)
    case None => None
    case Some(i) => Some(ThreadDetail(threads[i], VesselOf(vessels, threads[i].vesselId), ThreadMessages(messages, id)))
  }

  /** The threads satisfying `p`, most recent message first. */
  function RecentFirst(threads: seq<Thread>, p: Thread -> bool): (r: seq<Thread>)
    ensures forall t :: t in r <==> t in threads && p(t)
    ensures multiset(r) == multiset(Filter(threads, p))
    ensures forall i, j :: 0 <= i < j < |r| ==> r[i].lastMessageAt >= r[j].lastMessageAt
  {
    var kept := Filter(threads, p);
    var r := SortDesc(kept, LastMessageAt);
    assert forall t :: t in r <==> t in kept by {
      forall t ensures t in r <==> t in kept {
        assert t in r <==> t in multiset(r);
      }
    }
    assert forall i, j :: 0 <= i < j < |r| ==> LastMessageAt(r[i]) >= LastMessageAt(r[j]);
    r
  }

  /** `getThreads`: every thread not archived, most recent message first. */
  function OpenThreads(threads: seq<Thread>): (r: seq<Thread>)
    ensures forall t :: t in r <==> t in threads && !t.isArchived
    ensures multiset(r) == multiset(Filter(threads, IsOpen))
    ensures forall i, j :: 0 <= i < j < |r| ==> r[i].lastMessageAt >= r[j].lastMessageAt
  {
    RecentFirst(threads, IsOpen)
  }

  /** `getFavoriteThreads`: the threads marked favourite, most recent message first. */
  function FavoriteThreads(threads: seq<Thread>): (r: seq<Thread>)
    ensures forall t :: t in r <==> t in threads && Favorite(t.isFavorite)
    ensures multiset(r) == multiset(Filter(threads, IsFavorite))
    ensures forall i, j :: 0 <= i < j < |r| ==> r[i].lastMessageAt >= r[j].lastMessageAt
  {
    RecentFirst(threads, IsFavorite)
  }

  /**
   * Dropping thread row `i` together with the messages written to it keeps ids unique and
   * below the bound, leaves every surviving message with its thread, and leaves no row with
   * the dropped id.
   */
  lemma RemoveThreadRow(threads: seq<Thread>, i: nat, messages: seq<Message>, kept: seq<Message>)
    requires i < |threads| && UniqueBy(threads, ThreadId)
    requires forall j :: 0 <= j < |messages| ==> HasThread(threads, messages[j].threadId)
    requires kept == Survivors(messages, threads[i].id)
    ensures var rest := threads[..i] + threads[i + 1..];
      && (forall k :: 0 <= k < |rest| ==> rest[k] in threads && rest[k].id != threads[i].id)
      && UniqueBy(rest, ThreadId)
      && forall j :: 0 <= j < |kept| ==> kept[j] in messages && HasThread(rest, kept[j].threadId)
  {
    var rest := threads[..i] + threads[i + 1..];
    RemoveRow(threads, i, ThreadId);
    forall j | 0 <= j < |kept| ensures kept[j] in messages && HasThread(rest, kept[j].threadId) {
      var m := kept[j];
      assert m in messages && m.threadId != threads[i].id;
      var p :| 0 <= p < |messages| && messages[p] == m;
      var k :| 0 <= k < |threads| && threads[k].id == m.threadId;
      assert threads[k] in rest;
      var q :| 0 <= q < |rest| && rest[q] == threads[k];
    }
  }

  /** The `threads` and `messages` tables. */
  class ConversationStore {
    var threads: seq<Thread>
    var messages: seq<Message>
    var nextId: nat

    /**
     * Distinct ids below the next one to hand out, and no orphan messages: a message can only
     * be written to a thread that exists, and deleting a thread deletes its messages.
     */
    ghost predicate Valid()
      reads this
    {
      && UniqueBy(threads, ThreadId) && IdsBelow(threads, ThreadId, nextId)
      && UniqueBy(messages, MessageId) && IdsBelow(messages, MessageId, nextId)
      && forall i :: 0 <= i < |messages| ==> HasThread(threads, messages[i].threadId)
    }

    constructor ()
      ensures Valid() && threads == [] && messages == []
    {
      threads, messages, nextId := [], [], 0;
    }

    /** `beginThread`: a new open thread titled "New Communion" unless a title is given. */
    method BeginThread(seekerId: nat, vesselId: nat, title: Option<string>, now: int) returns (id: nat)
      requires Valid()
      modifies this
      ensures Valid() && messages == old(messages)
      ensures threads == old(threads) + [Thread(id, seekerId, vesselId, title.GetOr(DefaultTitle), now, now, false, None)]
      ensures !HasThread(old(threads), id)
    {
      id := nextId;
      threads := threads + [Thread(id, seekerId, vesselId, title.GetOr(DefaultTitle), now, now, false, None)];
      nextId := nextId + 1;
      assert forall i :: 0 <= i < |messages| ==> HasThread(threads, messages[i].threadId) by {
        forall i | 0 <= i < |messages| ensures HasThread(threads, messages[i].threadId) {
          var k :| 0 <= k < |old(threads)| && old(threads)[k].id == messages[i].threadId;
          assert threads[k] == old(threads)[k];
        }
      }
    }

    /** `createThread`: the same insertion as `beginThread`. */
    method CreateThread(seekerId: nat, vesselId: nat, title: Option<string>, now: int) returns (id: nat)
      requires Valid()
      modifies this
      ensures Valid() && messages == old(messages)
      ensures threads == old(threads) + [Thread(id, seekerId, vesselId, title.GetOr(DefaultTitle), now, now, false, None)]
    {
      id := BeginThread(seekerId, vesselId, title, now);
    }

    /** Replaces one thread by a row with the same id; messages still all have their thread. */
    method ReplaceThread(i: nat, t: Thread)
      requires Valid() && i < |threads| && t.id == threads[i].id
      modifies this
      ensures Valid() && threads == old(threads)[i := t] && messages == old(messages) && nextId == old(nextId)
    {
      threads := threads[i := t];
      assert forall j :: 0 <= j < |messages| ==> HasThread(threads, messages[j].threadId) by {
        forall j | 0 <= j < |messages| ensures HasThread(threads, messages[j].threadId) {
          var k :| 0 <= k < |old(threads)| && old(threads)[k].id == messages[j].threadId;
          assert threads[k].id == old(threads)[k].id;
        }
      }
    }

    /** `renameThread`: patches the title; patching a missing thread fails. */
    method RenameThread(threadId: nat, title: string) returns (r: Outcome)
      requires Valid()
      modifies this
      ensures Valid() && messages == old(messages)
      ensures match FindThread(old(threads), threadId)
        case None => r == Failed(MissingDocument) && threads == old(threads)
        case Some(i) => r == Done && threads == old(threads)[i := old(threads)[i].(title := title)]
    {
      var i := FindThread(threads, threadId);
      if i.None? {
        return Failed(MissingDocument);
      }
      ReplaceThread(i.value, threads[i.value].(title := title));
      r := Done;
    }

    /** The oracle's `updateThreadTitle`: the same patch as `renameThread`. */
    method UpdateThreadTitle(threadId: nat, title: string) returns (r: Outcome)
      requires Valid()
      modifies this
      ensures Valid() && messages == old(messages)
      ensures match FindThread(old(threads), threadId)
        case None => r == Failed(MissingDocument) && threads == old(threads)
        case Some(i) => r == Done && threads == old(threads)[i := old(threads)[i].(title := title)]
    {
      r := RenameThread(threadId, title);
    }

    /** `archiveThread`: a soft delete; the thread keeps its messages but leaves the open listing. */
    method ArchiveThread(threadId: nat) returns (r: Outcome)
      requires Valid()
      modifies this
      ensures Valid() && messages == old(messages)
      ensures match FindThread(old(threads), threadId)
        case None => r == Failed(MissingDocument) && threads == old(threads)
        case Some(i) => r == Done && threads == old(threads)[i := old(threads)[i].(isArchived := true)]
      ensures r.Done? ==> forall t :: t in OpenThreads(threads) ==> t.id != threadId
    {
      var i := FindThread(threads, threadId);
      if i.None? {
        return Failed(MissingDocument);
      }
      ReplaceThread(i.value, threads[i.value].(isArchived := true));
      r := Done;
    }

    /**
     * `toggleThreadFavorite`: fails for an unknown thread; otherwise flips the thread between
     * favourite and not (a missing flag reads as not) and returns the new status.
     */
    method ToggleThreadFavorite(threadId: nat) returns (r: Result<bool>)
      requires Valid()
      modifies this
      ensures Valid() && messages == old(messages)
      ensures match FindThread(old(threads), threadId)
        case None => r == Err("Thread not found") && threads == old(threads)
        case Some(i) => (r == Ok(!Favorite(old(threads)[i].isFavorite))
          && threads == old(threads)[i := old(threads)[i].(isFavorite := Some(r.value))])
      ensures r.Ok? ==> (r.value <==> exists t :: t in FavoriteThreads(threads) && t.id == threadId)
    {
      var i := FindThread(threads, threadId);
      if i.None? {
        return Err("Thread not found");
      }
      var k := i.value;
      var status := !Favorite(threads[k].isFavorite);
      ReplaceThread(k, threads[k].(isFavorite := Some(status)));
      r := Ok(status);
      assert threads[k] in threads;
    }

    /**
     * `deleteThread`: removes the thread and every message written to it, leaving every other
     * thread and message as it was; deleting a missing thread fails and deletes nothing.
     */
    method DeleteThread(threadId: nat) returns (r: Outcome)
      requires Valid()
      modifies this
      ensures Valid() && nextId == old(nextId)
      ensures match FindThread(old(threads), threadId)
        case None => r == Failed(MissingDocument) && threads == old(threads) && messages == old(messages)
        case Some(i) => (r == Done && threads == old(threads)[..i] + old(threads)[i + 1..]
          && messages == Survivors(old(messages), threadId))
      ensures r.Done? ==> !HasThread(threads, threadId) && ThreadMessages(messages, threadId) == []
    {
      var found := FindThread(threads, threadId);
      if found.None? {
        return Failed(MissingDocument);
      }
      var i := found.value;
      var all := messages;
      var kept: seq<Message> := [];
      for j := 0 to |all|
        invariant threads == old(threads) && messages == all && nextId == old(nextId)
        invariant kept == Survivors(all[..j], threadId)
      {
        SurvivorsAppend(all[..j], all[j], threadId);
        assert all[..j + 1] == all[..j] + [all[j]];
        if all[j].threadId != threadId {
          kept := kept + [all[j]];
        }
      }
      assert all[..|all|] == all;
      DeleteThreadRows(i, threadId, kept);
      r := Done;
    }

    /** The last step of `deleteThread`: keeps `kept` as the messages and drops thread row `i`. */
    method DeleteThreadRows(i: nat, gone: nat, kept: seq<Message>)
      requires Valid() && i < |threads| && threads[i].id == gone
      requires kept == Survivors(messages, gone)
      modifies this
      ensures Valid() && nextId == old(nextId)
      ensures threads == old(threads)[..i] + old(threads)[i + 1..] && messages == kept
      ensures !HasThread(threads, gone) && ThreadMessages(messages, gone) == []
    {
      RemoveThreadRow(threads, i, messages, kept);
      FilterUnique(messages, (m: Message) => m.threadId != gone, MessageId);
      threads := threads[..i] + threads[i + 1..];
      messages := kept;
      FilterNone(messages, (m: Message) => m.threadId == gone);
    }

    /**
     * Writes a message to a thread and moves the thread's `lastMessageAt` to now; a missing
     * thread makes the mutation fail and nothing is written. `sendSeekerMessage`,
     * `sendVesselMessage`, `addMessage` and the oracle's `storeVesselResponse` all do this.
     */
    method Post(threadId: nat, speaker: Speaker, content: string, tokensUsed: Option<real>,
                isStreaming: Option<bool>, now: int) returns (r: Result<nat>)
      requires Valid()
      modifies this
      ensures Valid()
      ensures match FindThread(old(threads), threadId)
        case None => r == Err(MissingDocument) && threads == old(threads) && messages == old(messages)
        case Some(i) => (r == Ok(old(nextId))
          && messages == old(messages) + [Message(r.value, threadId, speaker, content, now, tokensUsed, isStreaming, None)]
          && threads == old(threads)[i := old(threads)[i].(lastMessageAt := now)])
      ensures r.Ok? ==> ThreadMessages(messages, threadId) == ThreadMessages(old(messages), threadId) + [messages[|messages| - 1]]
    {
      var found := FindThread(threads, threadId);
      if found.None? {
        return Err(MissingDocument);
      }
      var i := found.value;
      var m := Message(nextId, threadId, speaker, content, now, tokensUsed, isStreaming, None);
      ThreadMessagesAppend(messages, m, threadId);
      messages := messages + [m];
      r := Ok(nextId);
      nextId := nextId + 1;
      assert threads[i].id == threadId;
      ReplaceThread(i, threads[i].(lastMessageAt := now));
    }

    /** `sendSeekerMessage`. */
    method SendSeekerMessage(threadId: nat, content: string, now: int) returns (r: Result<nat>)
      requires Valid()
      modifies this
      ensures Valid()
      ensures match FindThread(old(threads), threadId)
        case None => r == Err(MissingDocument) && threads == old(threads) && messages == old(messages)
        case Some(i) => (r.Ok?
          && messages == old(messages) + [Message(r.value, threadId, SeekerSpeaker, content, now, None, None, None)]
          && threads == old(threads)[i := old(threads)[i].(lastMessageAt := now)])
    {
      r := Post(threadId, SeekerSpeaker, content, None, None, now);
    }

    /** `sendVesselMessage`: a reply from the vessel, not streaming unless told otherwise. */
    method SendVesselMessage(threadId: nat, content: string, tokensUsed: Option<real>, isStreaming: Option<bool>, now: int)
      returns (r: Result<nat>)
      requires Valid()
      modifies this
      ensures Valid()
      ensures match FindThread(old(threads), threadId)
        case None => r == Err(MissingDocument) && threads == old(threads) && messages == old(messages)
        case Some(i) => (r.Ok?
          && messages == old(messages) + [Message(r.value, threadId, VesselSpeaker, content, now, tokensUsed,
            Some(isStreaming.GetOr(false)), None)]
          && threads == old(threads)[i := old(threads)[i].(lastMessageAt := now)])
    {
      r := Post(threadId, VesselSpeaker, content, tokensUsed, Some(isStreaming.GetOr(false)), now);
    }

    /** `addMessage`: a message from either side, with no token count or streaming flag. */
    method AddMessage(threadId: nat, role: Speaker, content: string, now: int) returns (r: Result<nat>)
      requires Valid()
      modifies this
      ensures Valid()
      ensures match FindThread(old(threads), threadId)
        case None => r == Err(MissingDocument) && threads == old(threads) && messages == old(messages)
        case Some(i) => (r.Ok?
          && messages == old(messages) + [Message(r.value, threadId, role, content, now, None, None, None)]
          && threads == old(threads)[i := old(threads)[i].(lastMessageAt := now)])
    {
      r := Post(threadId, role, content, None, None, now);
    }

    /** The oracle's `storeVesselResponse`: a finished (not streaming) vessel reply with its token count. */
    method StoreVesselResponse(threadId: nat, content: string, tokensUsed: real, now: int) returns (r: Outcome)
      requires Valid()
      modifies this
      ensures Valid()
      ensures match FindThread(old(threads), threadId)
        case None => r == Failed(MissingDocument) && threads == old(threads) && messages == old(messages)
        case Some(i) => (r == Done && |messages| == |old(messages)| + 1 && messages[..|old(messages)|] == old(messages)
          && (var m := messages[|old(messages)|];
             m.threadId == threadId && m.speaker == VesselSpeaker && m.content == content && m.timestamp == now
             && m.tokensUsed == Some(tokensUsed) && m.isStreaming == Some(false) && m.isFavorite.None?)
          && threads == old(threads)[i := old(threads)[i].(lastMessageAt := now)])
    {
      var posted := Post(threadId, VesselSpeaker, content, Some(tokensUsed), Some(false), now);
      r := if posted.Ok? then Done else Failed(posted.message);
      assert messages[..|old(messages)|] == old(messages);
    }

    /**
     * `updateVesselMessage`: replaces a message's content, streaming flag and token count (an
     * absent count removes the field); a missing message fails.
     */
    method UpdateVesselMessage(messageId: nat, content: string, isStreaming: bool, tokensUsed: Option<real>) returns (r: Outcome)
      requires Valid()
      modifies this
      ensures Valid() && threads == old(threads)
      ensures match FindMessage(old(messages), messageId)
        case None => r == Failed(MissingDocument) && messages == old(messages)
        case Some(i) => (r == Done && messages == old(messages)[i :=
          old(messages)[i].(content := content, isStreaming := Some(isStreaming), tokensUsed := tokensUsed)])
    {
      var found := FindMessage(messages, messageId);
      if found.None? {
        return Failed(MissingDocument);
      }
      var i := found.value;
      messages := messages[i := messages[i].(content := content, isStreaming := Some(isStreaming), tokensUsed := tokensUsed)];
      r := Done;
      assert forall j :: 0 <= j < |messages| ==> messages[j].threadId == old(messages)[j].threadId;
    }

    /** `toggleMessageFavorite`: as for threads, flips one message's favourite flag and returns it. */
    method ToggleMessageFavorite(messageId: nat) returns (r: Result<bool>)
      requires Valid()
      modifies this
      ensures Valid() && threads == old(threads)
      ensures match FindMessage(old(messages), messageId)
        case None => r == Err("Message not found") && messages == old(messages)
        case Some(i) => (r == Ok(!Favorite(old(messages)[i].isFavorite))
          && messages == old(messages)[i := old(messages)[i].(isFavorite := Some(r.value))])
    {
      var found := FindMessage(messages, messageId);
      if found.None? {
        return Err("Message not found");
      }
      var i := found.value;
      var status := !Favorite(messages[i].isFavorite);
      messages := messages[i := messages[i].(isFavorite := Some(status))];
      r := Ok(status);
      assert forall j :: 0 <= j < |messages| ==> messages[j].threadId == old(messages)[j].threadId;
    }
  }
}
