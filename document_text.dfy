/**
 * The text handling around the model's structured replies in the memory actions: locating the
 * JSON inside a code fence, and the ids, tags and sources given to the memories that are
 * stored from a reply.
 */
module DocumentText {
  import opened Wrappers
  import opened JsText
  import opened MemoryModel

  const Fence := "```"

  /** A code fence (three backticks) starts at position `k`. */
  predicate FenceAt(s: string, k: int) {
    0 <= k && k + 3 <= |s| && s[k..k + 3] == Fence
  }

  /** The first fence at or after `from`. */
  function FindFence(s: string, from: nat): (r: Option<nat>)
    requires from <= |s|
    ensures r.Some? ==> from <= r.value && FenceAt(s, r.value)
    ensures r.Some? ==> forall k :: from <= k < r.value ==> !FenceAt(s, k)
    ensures r.None? ==> forall k :: from <= k ==> !FenceAt(s, k)
    decreases |s| - from
  {
    if from + 3 > |s| then None
    else if FenceAt(s, from) then Some(from)
    else FindFence(s, from + 1)
  }

  /** How much whitespace `\s*` consumes at position `j`. */
  function SkipSpace(s: string, j: nat): (r: nat)
    requires j <= |s|
    ensures j <= r <= |s|
    ensures forall k :: j <= k < r ==> IsWhitespace(s[k])
    ensures r == |s| || !IsWhitespace(s[r])
    decreases |s| - j
  {
    if j < |s| && IsWhitespace(s[j]) then SkipSpace(s, j + 1) else j
  }

  /**
   * The match of `/```(?:json)?\s*([\s\S]*?)```/` that starts at `i`, as its captured group:
   * an opening fence, an optional `json` tag, whitespace, then the shortest text up to the
   * next fence. (Giving back the tag or the whitespace never helps: neither holds a backtick.)
   */
  function MatchAt(s: string, i: nat): (r: Option<string>)
    requires i <= |s|
    ensures r.Some? ==> FenceAt(s, i)
  {
    if !FenceAt(s, i) then None
    else
      var afterTag := if StartsWith(s[i + 3..], "json") then i + 7 else i + 3;
      var j := SkipSpace(s, afterTag);
      match FindFence(s, j)
      case None => None
      case Some(k) => Some(s[j..k])
  }

  /** The leftmost match at or after `i`. */
  function FirstMatch(s: string, i: nat): (r: Option<string>)
    requires i <= |s|
    decreases |s| - i
  {
    if i == |s| then None
    else match MatchAt(s, i)
      case Some(g) => Some(g)
      case None => FirstMatch(s, i + 1)
  }

  /**
   * `extractMemories`' pre-parse step: the group of the first fenced block when the reply has
   * one, the whole reply otherwise.
   */
  function FencedJson(reply: string): (r: string)
    ensures |r| <= |reply|
  {
    match FirstMatch(reply, 0)
    case Some(g) => FencedBound(reply, 0); g
    case None => reply
  }

  lemma {:induction false} FencedBound(s: string, i: nat)
    requires i <= |s|
    ensures FirstMatch(s, i).Some? ==> |FirstMatch(s, i).value| <= |s|
    decreases |s| - i
  {
    if i < |s| && MatchAt(s, i).None? {
      FencedBound(s, i + 1);
    }
  }

  /** No match starts anywhere from `i` on when no fence does. */
  lemma {:induction false} NoFenceNoMatch(s: string, i: nat)
    requires i <= |s|
    requires forall k :: i <= k ==> !FenceAt(s, k)
    ensures FirstMatch(s, i) == None
    decreases |s| - i
  {
    if i < |s| {
      NoFenceNoMatch(s, i + 1);
    }
  }

  /** A reply without a code fence is parsed as it stands. */
  lemma UnfencedReplyKept(reply: string)
    requires forall k :: !FenceAt(reply, k)
    ensures FencedJson(reply) == reply
  {
    NoFenceNoMatch(reply, 0);
  }

  /** Skips the positions before `i` that cannot start a fence. */
  lemma {:induction false} MatchSkipsTo(s: string, i: nat, target: nat)
    requires i <= target <= |s|
    requires forall k :: i <= k < target ==> !FenceAt(s, k)
    ensures FirstMatch(s, i) == if target == |s| then None else
      (match MatchAt(s, target) case Some(g) => Some(g) case None => FirstMatch(s, target + 1))
    decreases target - i
  {
    if i < target {
      MatchSkipsTo(s, i + 1, target);
    }
  }

  /** A string with no backtick in it has no fence in it. */
  predicate NoBacktick(s: string) {
    forall k :: 0 <= k < |s| ==> s[k] != '`'
  }

  /** The middle of a concatenation, recovered by slicing. */
  lemma Middle(a: string, b: string, c: string)
    ensures (a + b + c)[|a|..|a| + |b|] == b
    ensures forall k :: 0 <= k < |a| ==> (a + b + c)[k] == a[k]
  {
  }

  /** The opening of a ```` ```json ```` block at `i` leads the group to start right after its newline. */
  lemma JsonOpeningAt(s: string, i: nat, payload: string)
    requires i + 8 <= |s| && s[i..i + 8] == "```json\n"
    requires i + 8 < |s| && !IsWhitespace(s[i + 8])
    ensures FenceAt(s, i) && StartsWith(s[i + 3..], "json")
    ensures SkipSpace(s, i + 7) == i + 8
  {
    assert s[i..i + 3] == s[i..i + 8][..3];
    var w := s[i..i + 8];
    assert s[i + 3..][..4] == "json" by {
      forall k | 0 <= k < 4 ensures s[i + 3..][..4][k] == "json"[k] {
        assert s[i + 3..][..4][k] == s[i + 3 + k] == w[3 + k];
      }
    }
    assert s[i + 7] == s[i..i + 8][7];
  }

  /** The group runs up to the first fence after the payload when the payload holds no backtick. */
  lemma ClosingAfter(s: string, j: nat, payload: string)
    requires j + |payload| + 3 <= |s| && s[j..j + |payload|] == payload && NoBacktick(payload)
    requires s[j + |payload|..j + |payload| + 3] == Fence
    ensures FindFence(s, j) == Some(j + |payload|)
  {
    var k := j + |payload|;
    forall m | j <= m < k ensures !FenceAt(s, m) {
      assert s[m] == payload[m - j];
    }
    assert FenceAt(s, k);
    var r := FindFence(s, j);
    assert r.Some?;
    assert !(r.value < k) && !(k < r.value);
  }

  /**
   * A reply that wraps its JSON in a ```` ```json ```` block, with prose around it that holds no
   * backtick, yields exactly the JSON (given that the JSON has no backtick and does not start
   * with whitespace, which `\s*` would swallow).
   */
  lemma FencedReplyYieldsPayload(before: string, payload: string, after: string)
    requires NoBacktick(before) && NoBacktick(payload)
    requires payload == [] || !IsWhitespace(payload[0])
    ensures FencedJson(before + "```json\n" + payload + "```" + after) == payload
  {
    var open, tail := "```json\n", payload + "```" + after;
    var s := before + open + tail;
    assert s == before + "```json\n" + payload + "```" + after;
    var i, j := |before|, |before| + 8;
    Middle(before, open, tail);
    forall k | 0 <= k < i ensures !FenceAt(s, k) {
      assert s[k] == before[k];
    }
    Middle(before + open, payload, "```" + after);
    assert s == before + open + payload + ("```" + after);
    Middle(before + open + payload, Fence, after);
    assert s == before + open + payload + Fence + after;
    assert s[j] == (if payload == [] then '`' else payload[0]) by {
      if payload == [] {
        assert s[j] == s[j..j + 3][0];
      } else {
        assert s[j] == s[j..j + |payload|][0];
      }
    }
    JsonOpeningAt(s, i, payload);
    ClosingAfter(s, j, payload);
    assert MatchAt(s, i) == Some(payload);
    MatchSkipsTo(s, 0, i);
  }

  /** `/^```(?:json)?\n?/` removed from a string that starts with a fence. */
  function DropOpeningFence(t: string): (r: string)
    requires StartsWith(t, Fence)
    ensures |r| <= |t| - 3 && r == t[|t| - |r|..]
  {
    var a := t[3..];
    var b := if StartsWith(a, "json") then a[4..] else a;
    if StartsWith(b, "\n") then b[1..] else b
  }

  /** `/\n?```$/` removed: a closing fence at the very end, with the newline before it. */
  function DropClosingFence(a: string): (r: string)
    ensures |r| <= |a| && r == a[..|r|]
  {
    if EndsWith(a, "\n```") then a[..|a| - 4]
    else if EndsWith(a, Fence) then a[..|a| - 3]
    else a
  }

  /**
   * `processDocument`'s pre-parse step: the trimmed reply, with its opening fence line and its
   * closing fence removed when it starts with a fence.
   */
  function StripFence(reply: string): (r: string)
    ensures |r| <= |Trim(reply)|
    ensures !StartsWith(Trim(reply), Fence) ==> r == Trim(reply)
  {
    var t := Trim(reply);
    if StartsWith(t, Fence) then DropClosingFence(DropOpeningFence(t)) else t
  }

  /** `/^```(?:json)?\n?/` on a ```` ```json ```` opening line. */
  lemma DropJsonOpening(rest: string)
    ensures DropOpeningFence("```json\n" + rest) == rest
  {
    var t := "```json\n" + rest;
    var a := t[3..];
    assert a == "json\n" + rest;
    assert a[..4] == "json";
    assert a[4..] == "\n" + rest;
  }

  /** `/^```(?:json)?\n?/` on a bare ```` ``` ```` opening line. */
  lemma DropPlainOpening(rest: string)
    ensures DropOpeningFence("```\n" + rest) == rest
  {
    var t := "```\n" + rest;
    assert t[..3] == Fence;
    var a := t[3..];
    assert a == "\n" + rest;
    assert !StartsWith(a, "json") by {
      assert a[0] == '\n';
    }
    assert a[..1] == "\n";
    assert a[1..] == rest;
  }

  /** `/\n?```$/` on a closing fence line. */
  lemma DropClosingLine(body: string)
    ensures DropClosingFence(body + "\n```") == body
  {
    var a := body + "\n```";
    assert a[|a| - 4..] == "\n```";
  }

  /** A fenced reply is already trimmed. */
  lemma FencedIsTrimmed(open: string, body: string)
    requires StartsWith(open, Fence)
    ensures var s := open + body + "\n```"; Trim(s) == s && StartsWith(s, Fence)
  {
    var s := open + body + "\n```";
    assert s[0] == open[0] == '`';
    assert s[|s| - 1] == '`';
    assert s[..3] == open[..3];
    TrimmedFixed(s);
  }

  /** On a reply that is already trimmed and starts with a fence, both fence lines are dropped. */
  lemma StripOfFenced(s: string)
    requires Trim(s) == s && StartsWith(s, Fence)
    ensures StripFence(s) == DropClosingFence(DropOpeningFence(s))
  {
  }

  /** A ```` ```json ```` block around the payload is removed, whatever the payload. */
  lemma JsonFenceRoundTrip(payload: string)
    ensures StripFence("```json\n" + payload + "\n```") == payload
  {
    var s := "```json\n" + payload + "\n```";
    var body := payload + "\n```";
    assert s == "```json\n" + body;
    FencedIsTrimmed("```json\n", payload);
    StripOfFenced(s);
    DropJsonOpening(body);
    DropClosingLine(payload);
  }

  /** So is a bare ```` ``` ```` block. */
  lemma PlainFenceRoundTrip(payload: string)
    ensures StripFence("```\n" + payload + "\n```") == payload
  {
    var s := "```\n" + payload + "\n```";
    var body := payload + "\n```";
    assert s == "```\n" + body;
    FencedIsTrimmed("```\n", payload);
    StripOfFenced(s);
    DropPlainOpening(body);
    DropClosingLine(payload);
  }

  /** ASCII `toLowerCase`. */
  function Lower(c: char): (r: char)
    ensures !('A' <= r <= 'Z')
    ensures !IsWhitespace(c) ==> !IsWhitespace(r)
  {
    if 'A' <= c <= 'Z' then (c as int + 32) as char else c
  }

  /** A character a slug may hold: neither whitespace nor an upper-case ASCII letter. */
  predicate SlugChar(c: char) {
    !IsWhitespace(c) && !('A' <= c <= 'Z')
  }

  /** `name.toLowerCase().replace(/\s+/g, '-')`: lower case, each run of whitespace one hyphen. */
  function Slug(name: string): (r: string)
    ensures forall k :: 0 <= k < |r| ==> SlugChar(r[k])
    ensures |r| <= |name|
    decreases |name|
  {
    if name == [] then []
    else if IsWhitespace(name[0]) then
      var rest := TrimStart(name[1..]);
      var tail := Slug(rest);
      assert SlugChar('-');
      ['-'] + tail
    else
      var tail := Slug(name[1..]);
      assert SlugChar(Lower(name[0]));
      [Lower(name[0])] + tail
  }

  /** A name that is already lower case with no whitespace is its own slug. */
  lemma {:induction false} SlugOfSlugLike(name: string)
    requires forall k :: 0 <= k < |name| ==> SlugChar(name[k])
    ensures Slug(name) == name
  {
    if name != [] {
      SlugOfSlugLike(name[1..]);
    }
  }

  /** Slugging twice is slugging once. */
  lemma SlugIdempotent(name: string)
    ensures Slug(Slug(name)) == Slug(name)
  {
    SlugOfSlugLike(Slug(name));
  }

  /** A single word, lower-cased letter by letter. */
  function LowerWord(w: string): (r: string)
    ensures |r| == |w|
  {
    if w == [] then [] else [Lower(w[0])] + LowerWord(w[1..])
  }

  /** A word without whitespace is slugged letter by letter, ahead of whatever follows it. */
  lemma {:induction false} SlugWord(w: string, rest: string)
    requires forall k :: 0 <= k < |w| ==> !IsWhitespace(w[k])
    ensures Slug(w + rest) == LowerWord(w) + Slug(rest)
  {
    if w == [] {
      assert w + rest == rest;
    } else {
      var s := w + rest;
      assert s[0] == w[0] && !IsWhitespace(s[0]);
      assert s[1..] == w[1..] + rest;
      SlugWord(w[1..], rest);
      assert Slug(s) == [Lower(w[0])] + Slug(s[1..]);
      assert LowerWord(w) == [Lower(w[0])] + LowerWord(w[1..]);
    }
  }

  /**
   * Document names that differ only in how long a run of whitespace is get the same slug, so
   * their memories share one id prefix.
   */
  lemma SlugIgnoresRunLength(w: string, rest: string)
    requires forall k :: 0 <= k < |w| ==> !IsWhitespace(w[k])
    requires rest == [] || !IsWhitespace(rest[0])
    ensures Slug(w + " " + rest) == Slug(w + "  " + rest)
  {
    assert w + " " + rest == w + (" " + rest);
    assert w + "  " + rest == w + ("  " + rest);
    SlugWord(w, " " + rest);
    SlugWord(w, "  " + rest);
    SlugOfRun(rest);
  }

  lemma SlugOfRun(rest: string)
    ensures Slug(" " + rest) == Slug("  " + rest)
  {
    var one, two := " " + rest, "  " + rest;
    assert one[1..] == rest && two[1..] == one;
    assert TrimStart(two[1..]) == TrimStart(rest);
  }

  /** The prefix of every memory and link endpoint stored from one document. */
  function DocPrefix(documentName: string): (r: string)
    ensures StartsWith(r, "doc-") && EndsWith(r, "-")
  {
    "doc-" + Slug(documentName) + "-"
  }

  /** Within one document, distinct memory ids stay distinct once prefixed. */
  lemma DocIdsInjective(documentName: string, a: string, b: string)
    requires DocPrefix(documentName) + a == DocPrefix(documentName) + b
    ensures a == b
  {
    var p := DocPrefix(documentName);
    assert a == (p + a)[|p|..];
    assert b == (p + b)[|p|..];
  }

  /** A memory as the document processor stores it. */
  datatype DocMemory = DocMemory(
    memoryId: string, memoryType: MemoryType, title: string, content: string, summary: string,
    tags: seq<string>, resonance: real)

  /**
   * The record `processDocument` hands to `createMemoryInternal`: the prefixed id, two extra
   * tags (the document type defaulting to `general`), and the document as source.
   */
  function DocumentMemoryInput(documentName: string, documentType: Option<string>, m: DocMemory): (r: MemoryInput)
    ensures r.memoryId == DocPrefix(documentName) + m.memoryId
    ensures |r.tags| == |m.tags| + 2 && r.tags[..|m.tags|] == m.tags && r.tags[|m.tags|] == "document-extracted"
    ensures r.tags[|m.tags| + 1] == if Truthy(documentType) then documentType.value else "general"
    ensures r.source == Some("document:" + documentName)
    ensures (r.memoryType, r.title, r.content, r.summary, r.resonance) == (m.memoryType, m.title, m.content, Some(m.summary), m.resonance)
  {
    MemoryInput(DocPrefix(documentName) + m.memoryId, m.memoryType, m.title, m.content, Some(m.summary),
      m.tags + ["document-extracted", if Truthy(documentType) then documentType.value else "general"],
      m.resonance, Some("document:" + documentName))
  }

  /** A link endpoint pair from a document, both ends under the document's prefix. */
  function DocumentLinkInput(documentName: string, sourceId: string, targetId: string, linkType: LinkType,
                             weight: real, description: Option<string>): (r: LinkInput)
    ensures StartsWith(r.source, DocPrefix(documentName)) && StartsWith(r.target, DocPrefix(documentName))
    ensures r.source[|DocPrefix(documentName)|..] == sourceId && r.target[|DocPrefix(documentName)|..] == targetId
  {
    var p := DocPrefix(documentName);
    assert (p + sourceId)[..|p|] == p && (p + targetId)[..|p|] == p;
    LinkInput(p + sourceId, p + targetId, linkType, weight, description)
  }

  /** An insight as the extractor returns it (its resonance may be absent). */
  datatype Extracted = Extracted(title: string, content: string, tags: seq<string>, resonance: Option<real>)

  /** `content.slice(0, 200)`. */
  function SummaryOf(content: string): (r: string)
    ensures |r| == if |content| <= 200 then |content| else 200
    ensures r == content[..|r|]
  {
    if |content| <= 200 then content else content[..200]
  }

  /**
   * The record `extractMemories` hands to `createMemoryInternal` for an insight: an `insight-`
   * id built from the source, the time and a random suffix (both parameters), the first 200
   * characters as summary, two extra tags, resonance 0.7 when absent.
   */
  function InsightMemoryInput(sourceType: string, sourceId: string, now: nat, randomSuffix: string, insight: Extracted)
    : (r: MemoryInput)
    ensures r.memoryId == "insight-" + sourceType + "-" + sourceId + "-" + Decimal(now) + "-" + randomSuffix
    ensures r.memoryType == Insight && r.summary == Some(SummaryOf(insight.content))
    ensures |r.tags| == |insight.tags| + 2 && r.tags[..|insight.tags|] == insight.tags
    ensures r.tags[|insight.tags|..] == [sourceType, "extracted"]
    ensures r.resonance == if insight.resonance.Some? then insight.resonance.value else 0.7
    ensures r.source == Some(sourceType + ":" + sourceId)
  {
    MemoryInput("insight-" + sourceType + "-" + sourceId + "-" + Decimal(now) + "-" + randomSuffix, Insight,
      insight.title, insight.content, Some(SummaryOf(insight.content)), insight.tags + [sourceType, "extracted"],
      insight.resonance.GetOr(0.7), Some(sourceType + ":" + sourceId))
  }
}
