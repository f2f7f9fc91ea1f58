/**
 * The chunker of the ingestion script: a document longer than the chunk size is split into
 * paragraphs (at runs of two or more newlines), paragraphs are packed greedily into chunks
 * joined by a blank line, and a paragraph too long on its own is split into sentences (at
 * whitespace that follows `.`, `!` or `?`) which are packed the same way, joined by a space.
 */
module Chunking {
  import opened JsText

  /** `MAX_CHUNK_SIZE`, in characters. */
  const MaxChunkSize: nat := 15000

  // ---------------------------------------------------------------------------------------
  // Splitting
  // ---------------------------------------------------------------------------------------

  /** The two separators `String.prototype.split` is given: `/\n\n+/` and `/(?<=[.!?])\s+/`. */
  datatype Break = ParagraphBreak | SentenceBreak

  /** The length of the run of characters satisfying `p` that starts at `i`. */
  function RunFrom(s: string, i: nat, p: char -> bool): (n: nat)
    requires i <= |s|
    ensures i + n <= |s|
    ensures forall k :: i <= k < i + n ==> p(s[k])
    ensures i + n == |s| || !p(s[i + n])
    decreases |s| - i
  {
    if i < |s| && p(s[i]) then 1 + RunFrom(s, i + 1, p) else 0
  }

  predicate IsNewline(c: char) { c == '\n' }

  predicate EndsSentence(c: char) { c == '.' || c == '!' || c == '?' }

  /** The length of the separator that matches at `i`, or 0 when none does. */
  function BreakAt(b: Break, s: string, i: nat): (n: nat)
    requires i <= |s|
    ensures i + n <= |s|
    ensures Blank(s[i..i + n])
    ensures b == ParagraphBreak ==> (n > 0 <==> i + 1 < |s| && s[i] == '\n' && s[i + 1] == '\n')
    ensures b == SentenceBreak ==> (n > 0 <==> 0 < i < |s| && EndsSentence(s[i - 1]) && IsWhitespace(s[i]))
  {
    match b
    case ParagraphBreak =>
      if i + 1 < |s| && s[i] == '\n' && s[i + 1] == '\n' then RunFrom(s, i, IsNewline) else 0
    case SentenceBreak =>
      if 0 < i < |s| && EndsSentence(s[i - 1]) && IsWhitespace(s[i]) then RunFrom(s, i, IsWhitespace) else 0
  }

  /**
   * `s.split(separator)` scanned from position `i`, the current piece having begun at `start`:
   * each match closes a piece and the text after the last match is the final piece, so a
   * string with no match gives itself and a match at the end gives a trailing empty piece.
   */
  function SplitFrom(b: Break, s: string, start: nat, i: nat): (r: seq<string>)
    requires start <= i <= |s|
    ensures |r| >= 1
    decreases |s| - i
  {
    if i == |s| then [s[start..]]
    else
      var n := BreakAt(b, s, i);
      if n > 0 then [s[start..i]] + SplitFrom(b, s, i + n, i + n)
      else SplitFrom(b, s, start, i + 1)
  }

  /** `content.split(/\n\n+/)`. */
  function Paragraphs(s: string): (r: seq<string>)
    ensures |r| >= 1
  {
    SplitFrom(ParagraphBreak, s, 0, 0)
  }

  /** `para.split(/(?<=[.!?])\s+/)`. */
  function Sentences(s: string): (r: seq<string>)
    ensures |r| >= 1
  {
    SplitFrom(SentenceBreak, s, 0, 0)
  }

  // ---------------------------------------------------------------------------------------
  // Packing
  // ---------------------------------------------------------------------------------------

  /** The chunks emitted so far and the chunk being built. */
  datatype Packing = Packing(chunks: seq<string>, current: string)

  /** The chunks once the one being built, if any, is pushed trimmed. */
  function Flushed(p: Packing): (r: seq<string>)
    ensures p.current == [] ==> r == p.chunks
    ensures p.current != [] ==> r == p.chunks + [Trim(p.current)]
  {
    if p.current != [] then p.chunks + [Trim(p.current)] else p.chunks
  }

  /** One sentence of an over-long paragraph: appended after a space while it fits, else it starts a chunk. */
  function PackSentence(maxSize: nat, p: Packing, sentence: string): Packing {
    if |p.current| + |sentence| + 1 > maxSize then Packing(Flushed(p), sentence)
    else Packing(p.chunks, p.current + (if p.current != [] then " " else "") + sentence)
  }

  function PackSentences(maxSize: nat, p: Packing, sentences: seq<string>): Packing
    decreases |sentences|
  {
    if sentences == [] then p
    else PackSentence(maxSize, PackSentences(maxSize, p, sentences[..|sentences| - 1]), sentences[|sentences| - 1])
  }

  /**
   * One paragraph: appended after a blank line while it fits; otherwise the chunk being built
   * is pushed and the paragraph starts the next one, or, when it alone exceeds the chunk size,
   * is packed sentence by sentence.
   */
  function PackParagraph(maxSize: nat, p: Packing, para: string): Packing {
    if |p.current| + |para| + 2 > maxSize then
      if |para| > maxSize then PackSentences(maxSize, Packing(Flushed(p), ""), Sentences(para))
      else Packing(Flushed(p), para)
    else Packing(p.chunks, p.current + (if p.current != [] then "\n\n" else "") + para)
  }

  function PackParagraphs(maxSize: nat, p: Packing, paras: seq<string>): Packing
    decreases |paras|
  {
    if paras == [] then p
    else PackParagraph(maxSize, PackParagraphs(maxSize, p, paras[..|paras| - 1]), paras[|paras| - 1])
  }

  /** `chunkContent(content, maxSize)`: a short document is its own single chunk, untrimmed. */
  function Chunks(content: string, maxSize: nat): (r: seq<string>)
    ensures |content| <= maxSize ==> r == [content]
  {
    if |content| <= maxSize then [content]
    else Flushed(PackParagraphs(maxSize, Packing([], ""), Paragraphs(content)))
  }

  /** The sentence loop of `chunkContent`, continuing from the chunks and chunk given. */
  method PackSentenceLoop(maxSize: nat, chunks0: seq<string>, current0: string, sentences: seq<string>)
    returns (chunks: seq<string>, current: string)
    ensures Packing(chunks, current) == PackSentences(maxSize, Packing(chunks0, current0), sentences)
  {
    chunks, current := chunks0, current0;
    for j := 0 to |sentences|
      invariant Packing(chunks, current) == PackSentences(maxSize, Packing(chunks0, current0), sentences[..j])
    {
      var sentence := sentences[j];
      assert sentences[..j + 1][..j] == sentences[..j];
      if |current| + |sentence| + 1 > maxSize {
        if current != [] {
          chunks := chunks + [Trim(current)];
        }
        current := sentence;
      } else {
        current := current + (if current != [] then " " else "") + sentence;
      }
    }
    assert sentences[..|sentences|] == sentences;
  }

  /** `chunkContent`, with its loops. */
  method ChunkContent(content: string, maxSize: nat) returns (chunks: seq<string>)
    ensures chunks == Chunks(content, maxSize)
  {
    if |content| <= maxSize {
      return [content];
    }
    chunks := [];
    var paragraphs := Paragraphs(content);
    var current := "";
    for i := 0 to |paragraphs|
      invariant Packing(chunks, current) == PackParagraphs(maxSize, Packing([], ""), paragraphs[..i])
    {
      var para := paragraphs[i];
      assert paragraphs[..i + 1][..i] == paragraphs[..i];
      if |current| + |para| + 2 > maxSize {
        if current != [] {
          chunks := chunks + [Trim(current)];
        }
        if |para| > maxSize {
          chunks, current := PackSentenceLoop(maxSize, chunks, "", Sentences(para));
        } else {
          current := para;
        }
      } else {
        current := current + (if current != [] then "\n\n" else "") + para;
      }
    }
    assert paragraphs[..|paragraphs|] == paragraphs;
    if current != [] {
      chunks := chunks + [Trim(current)];
    }
  }

  // ---------------------------------------------------------------------------------------
  // Every chunk of a split document is trimmed
  // ---------------------------------------------------------------------------------------

  ghost predicate AllTrimmed(chunks: seq<string>) {
    forall k :: 0 <= k < |chunks| ==> IsTrimmed(chunks[k])
  }

  lemma {:induction false} AppendTrimmed(chunks: seq<string>, c: string)
    requires AllTrimmed(chunks) && IsTrimmed(c)
    ensures AllTrimmed(chunks + [c])
  {
    var r := chunks + [c];
    forall k | 0 <= k < |r| ensures IsTrimmed(r[k]) {
      if k < |chunks| {
        assert r[k] == chunks[k];
      }
    }
  }

  lemma {:induction false} FlushedTrimmed(p: Packing)
    requires AllTrimmed(p.chunks)
    ensures AllTrimmed(Flushed(p))
  {
    if p.current != [] {
      TrimIdempotent(p.current);
      AppendTrimmed(p.chunks, Trim(p.current));
    }
  }

  lemma {:induction false} PackSentencesTrimmed(maxSize: nat, p: Packing, sentences: seq<string>)
    requires AllTrimmed(p.chunks)
    ensures AllTrimmed(PackSentences(maxSize, p, sentences).chunks)
    decreases |sentences|
  {
    if sentences != [] {
      var prefix, s := sentences[..|sentences| - 1], sentences[|sentences| - 1];
      var q := PackSentences(maxSize, p, prefix);
      PackSentencesTrimmed(maxSize, p, prefix);
      FlushedTrimmed(q);
      var r := PackSentence(maxSize, q, s);
      assert r.chunks == q.chunks || r.chunks == Flushed(q);
    }
  }

  lemma {:induction false} PackParagraphsTrimmed(maxSize: nat, p: Packing, paras: seq<string>)
    requires AllTrimmed(p.chunks)
    ensures AllTrimmed(PackParagraphs(maxSize, p, paras).chunks)
    decreases |paras|
  {
    if paras != [] {
      var prefix, para := paras[..|paras| - 1], paras[|paras| - 1];
      var q := PackParagraphs(maxSize, p, prefix);
      PackParagraphsTrimmed(maxSize, p, prefix);
      FlushedTrimmed(q);
      var r := PackParagraph(maxSize, q, para);
      if |q.current| + |para| + 2 > maxSize {
        if |para| > maxSize {
          PackSentencesTrimmed(maxSize, Packing(Flushed(q), ""), Sentences(para));
        } else {
          assert r.chunks == Flushed(q);
        }
      } else {
        assert r.chunks == q.chunks;
      }
    }
  }

  /** When a document is split, every chunk it gives is trimmed. */
  lemma {:induction false} ChunksTrimmed(content: string, maxSize: nat)
    requires |content| > maxSize
    ensures AllTrimmed(Chunks(content, maxSize))
  {
    var q := PackParagraphs(maxSize, Packing([], ""), Paragraphs(content));
    PackParagraphsTrimmed(maxSize, Packing([], ""), Paragraphs(content));
    if q.current != [] {
      TrimIdempotent(q.current);
    }
  }

  // ---------------------------------------------------------------------------------------
  // Chunk sizes
  // ---------------------------------------------------------------------------------------

  /** A chunk within the size, or the trimmed form of one of the `allowed` sentences. */
  ghost predicate Fits(maxSize: nat, c: string, allowed: set<string>) {
    |c| <= maxSize || exists s :: s in allowed && c == Trim(s)
  }

  ghost predicate PackingFits(maxSize: nat, p: Packing, allowed: set<string>) {
    && (|p.current| <= maxSize || p.current in allowed)
    && forall k :: 0 <= k < |p.chunks| ==> Fits(maxSize, p.chunks[k], allowed)
  }

  /** Every sentence is within the size or allowed to exceed it. */
  ghost predicate SentencesFit(maxSize: nat, sentences: seq<string>, allowed: set<string>) {
    forall k :: 0 <= k < |sentences| ==> |sentences[k]| <= maxSize || sentences[k] in allowed
  }

  ghost predicate ParagraphsFit(maxSize: nat, paras: seq<string>, allowed: set<string>) {
    forall k :: 0 <= k < |paras| && |paras[k]| > maxSize ==> SentencesFit(maxSize, Sentences(paras[k]), allowed)
  }

  lemma {:induction false} FlushedFits(maxSize: nat, p: Packing, allowed: set<string>)
    requires PackingFits(maxSize, p, allowed)
    ensures forall k :: 0 <= k < |Flushed(p)| ==> Fits(maxSize, Flushed(p)[k], allowed)
  {
    if p.current != [] && |p.current| > maxSize {
      assert Fits(maxSize, Trim(p.current), allowed);
    }
  }

  lemma {:induction false} PackSentencesFit(maxSize: nat, p: Packing, sentences: seq<string>, allowed: set<string>)
    requires PackingFits(maxSize, p, allowed) && SentencesFit(maxSize, sentences, allowed)
    ensures PackingFits(maxSize, PackSentences(maxSize, p, sentences), allowed)
    decreases |sentences|
  {
    if sentences != [] {
      var prefix := sentences[..|sentences| - 1];
      assert SentencesFit(maxSize, prefix, allowed);
      PackSentencesFit(maxSize, p, prefix, allowed);
      FlushedFits(maxSize, PackSentences(maxSize, p, prefix), allowed);
    }
  }

  lemma {:induction false} PackParagraphsFit(maxSize: nat, p: Packing, paras: seq<string>, allowed: set<string>)
    requires PackingFits(maxSize, p, allowed) && ParagraphsFit(maxSize, paras, allowed)
    ensures PackingFits(maxSize, PackParagraphs(maxSize, p, paras), allowed)
    decreases |paras|
  {
    if paras != [] {
      var prefix := paras[..|paras| - 1];
      var para := paras[|paras| - 1];
      assert ParagraphsFit(maxSize, prefix, allowed);
      PackParagraphsFit(maxSize, p, prefix, allowed);
      var q := PackParagraphs(maxSize, p, prefix);
      FlushedFits(maxSize, q, allowed);
      if |q.current| + |para| + 2 > maxSize && |para| > maxSize {
        PackSentencesFit(maxSize, Packing(Flushed(q), ""), Sentences(para), allowed);
      }
    }
  }

  /**
   * A chunk longer than the size can only be a trimmed sentence, from a paragraph that was
   * itself too long, that is longer than the size: whatever sentences such paragraphs hold,
   * every chunk is within the size or one of them.
   */
  lemma {:induction false} ChunksWithin(content: string, maxSize: nat, allowed: set<string>)
    requires ParagraphsFit(maxSize, Paragraphs(content), allowed)
    ensures forall k :: 0 <= k < |Chunks(content, maxSize)| ==> Fits(maxSize, Chunks(content, maxSize)[k], allowed)
  {
    if |content| > maxSize {
      var q := PackParagraphs(maxSize, Packing([], ""), Paragraphs(content));
      PackParagraphsFit(maxSize, Packing([], ""), Paragraphs(content), allowed);
      FlushedFits(maxSize, q, allowed);
    }
  }

  /** When no over-long paragraph holds an over-long sentence, no chunk exceeds the size. */
  lemma {:induction false} ChunksBounded(content: string, maxSize: nat)
    requires forall k :: 0 <= k < |Paragraphs(content)| && |Paragraphs(content)[k]| > maxSize ==>
      forall j :: 0 <= j < |Sentences(Paragraphs(content)[k])| ==> |Sentences(Paragraphs(content)[k])[j]| <= maxSize
    ensures forall k :: 0 <= k < |Chunks(content, maxSize)| ==> |Chunks(content, maxSize)[k]| <= maxSize
  {
    ChunksWithin(content, maxSize, {});
  }

  // ---------------------------------------------------------------------------------------
  // Nothing but whitespace is lost or reordered
  // ---------------------------------------------------------------------------------------

  /** The non-whitespace characters of `s`, in order. */
  function Squeeze(s: string): string {
    if s == [] then []
    else (if IsWhitespace(s[0]) then [] else [s[0]]) + Squeeze(s[1..])
  }

  /** The chunks laid end to end. */
  function Concat(ss: seq<string>): string {
    if ss == [] then [] else ss[0] + Concat(ss[1..])
  }

  lemma {:induction false} SqueezeAppend(a: string, b: string)
    ensures Squeeze(a + b) == Squeeze(a) + Squeeze(b)
  {
    if a == [] {
      assert a + b == b;
    } else {
      assert (a + b)[1..] == a[1..] + b;
      SqueezeAppend(a[1..], b);
    }
  }

  lemma {:induction false} SqueezeBlank(w: string)
    requires Blank(w)
    ensures Squeeze(w) == []
  {
    if w != [] {
      SqueezeBlank(w[1..]);
    }
  }

  lemma {:induction false} SqueezeTrimStart(s: string)
    ensures Squeeze(TrimStart(s)) == Squeeze(s)
  {
    var t := TrimStart(s);
    var w := s[..|s| - |t|];
    assert s == w + t;
    assert Blank(w);
    SqueezeBlank(w);
    SqueezeAppend(w, t);
  }

  lemma {:induction false} SqueezeTrimEnd(s: string)
    ensures Squeeze(TrimEnd(s)) == Squeeze(s)
  {
    var r := TrimEnd(s);
    var w := s[|r|..];
    assert s == r + w;
    assert Blank(w);
    SqueezeBlank(w);
    SqueezeAppend(r, w);
  }

  lemma {:induction false} SqueezeTrim(s: string)
    ensures Squeeze(Trim(s)) == Squeeze(s)
  {
    SqueezeTrimStart(s);
    SqueezeTrimEnd(TrimStart(s));
  }

  lemma {:induction false} ConcatSnoc(ss: seq<string>, s: string)
    ensures Concat(ss + [s]) == Concat(ss) + s
  {
    if ss == [] {
      assert Concat([s]) == s + Concat([]);
    } else {
      assert (ss + [s])[1..] == ss[1..] + [s];
      ConcatSnoc(ss[1..], s);
    }
  }

  /** The separators dropped by a split are whitespace. */
  lemma {:induction false} ConcatCons(x: string, rest: seq<string>)
    ensures Concat([x] + rest) == x + Concat(rest)
  {
    assert ([x] + rest)[1..] == rest;
  }

  /** A piece, a dropped whitespace separator, then the pieces of the rest. */
  lemma {:induction false} GapStep(piece: string, gap: string, tail: string, rest: seq<string>)
    requires Blank(gap)
    requires Squeeze(Concat(rest)) == Squeeze(tail)
    ensures Squeeze(Concat([piece] + rest)) == Squeeze(piece + gap + tail)
  {
    ConcatCons(piece, rest);
    SqueezeAppend(piece, Concat(rest));
    GlueWords(piece, gap, tail);
  }

  lemma {:induction false} SplitAtBreak(b: Break, s: string, start: nat, i: nat)
    requires start <= i < |s| && BreakAt(b, s, i) > 0
    ensures var n := BreakAt(b, s, i); SplitFrom(b, s, start, i) == [s[start..i]] + SplitFrom(b, s, i + n, i + n)
  {
  }

  lemma {:induction false} SliceThree(s: string, start: nat, i: nat, j: nat)
    requires start <= i <= j <= |s|
    ensures s[start..] == s[start..i] + s[i..j] + s[j..]
  {
  }

  /** Whitespace only. */
  ghost predicate Blank(w: string) {
    forall k :: 0 <= k < |w| ==> IsWhitespace(w[k])
  }

  /** A match at `i` closes the piece begun at `start`; the separator's text is dropped. */
  lemma {:induction false} BreakStep(b: Break, s: string, start: nat, i: nat)
    requires start <= i < |s| && BreakAt(b, s, i) > 0
    requires var n := BreakAt(b, s, i); Squeeze(Concat(SplitFrom(b, s, i + n, i + n))) == Squeeze(s[i + n..])
    ensures Squeeze(Concat(SplitFrom(b, s, start, i))) == Squeeze(s[start..])
  {
    var n := BreakAt(b, s, i);
    var piece, gap, tail, rest := s[start..i], s[i..i + n], s[i + n..], SplitFrom(b, s, i + n, i + n);
    SplitAtBreak(b, s, start, i);
    assert SplitFrom(b, s, start, i) == [piece] + rest;
    SliceThree(s, start, i, i + n);
    assert s[start..] == piece + gap + tail;
    GapStep(piece, gap, tail, rest);
  }

  lemma {:induction false} SplitAtEnd(b: Break, s: string, start: nat)
    requires start <= |s|
    ensures Squeeze(Concat(SplitFrom(b, s, start, |s|))) == Squeeze(s[start..])
  {
    var x := s[start..];
    assert SplitFrom(b, s, start, |s|) == [x] + [];
    ConcatCons(x, []);
    assert x + Concat([]) == x;
  }

  lemma {:induction false} SplitSkip(b: Break, s: string, start: nat, i: nat)
    requires start <= i < |s| && BreakAt(b, s, i) == 0
    ensures SplitFrom(b, s, start, i) == SplitFrom(b, s, start, i + 1)
  {
  }

  lemma {:induction false} SplitKeepsText(b: Break, s: string, start: nat, i: nat)
    requires start <= i <= |s|
    ensures Squeeze(Concat(SplitFrom(b, s, start, i))) == Squeeze(s[start..])
    decreases |s| - i
  {
    if i == |s| {
      SplitAtEnd(b, s, start);
    } else if BreakAt(b, s, i) > 0 {
      var n := BreakAt(b, s, i);
      SplitKeepsText(b, s, i + n, i + n);
      BreakStep(b, s, start, i);
    } else {
      SplitKeepsText(b, s, start, i + 1);
      SplitSkip(b, s, start, i);
    }
  }

  /** The text of a packing: what its chunks and the chunk being built hold, whitespace aside. */
  function Words(p: Packing): string {
    Squeeze(Concat(p.chunks)) + Squeeze(p.current)
  }

  lemma {:induction false} FlushedWords(p: Packing)
    ensures Squeeze(Concat(Flushed(p))) == Words(p)
  {
    if p.current != [] {
      ConcatSnoc(p.chunks, Trim(p.current));
      SqueezeAppend(Concat(p.chunks), Trim(p.current));
      SqueezeTrim(p.current);
    }
  }

  /** Gluing two pieces with a whitespace separator keeps their text. */
  lemma {:induction false} GlueWords(a: string, sep: string, b: string)
    requires Blank(sep)
    ensures Squeeze(a + sep + b) == Squeeze(a) + Squeeze(b)
  {
    SqueezeBlank(sep);
    SqueezeAppend(a + sep, b);
    SqueezeAppend(a, sep);
  }

  lemma {:induction false} SnocWords(prefix: seq<string>, x: string)
    ensures Squeeze(Concat(prefix + [x])) == Squeeze(Concat(prefix)) + Squeeze(x)
  {
    ConcatSnoc(prefix, x);
    SqueezeAppend(Concat(prefix), x);
  }

  lemma {:induction false} PackSentenceWords(maxSize: nat, p: Packing, sentence: string)
    ensures Words(PackSentence(maxSize, p, sentence)) == Words(p) + Squeeze(sentence)
  {
    if |p.current| + |sentence| + 1 > maxSize {
      FlushedWords(p);
    } else {
      GlueWords(p.current, if p.current != [] then " " else "", sentence);
    }
  }

  lemma {:induction false} PackSentencesWords(maxSize: nat, p: Packing, sentences: seq<string>)
    ensures Words(PackSentences(maxSize, p, sentences)) == Words(p) + Squeeze(Concat(sentences))
    decreases |sentences|
  {
    if sentences == [] {
      assert Concat(sentences) == [];
    } else {
      var prefix, x := sentences[..|sentences| - 1], sentences[|sentences| - 1];
      assert sentences == prefix + [x];
      PackSentencesWords(maxSize, p, prefix);
      PackSentenceWords(maxSize, PackSentences(maxSize, p, prefix), x);
      SnocWords(prefix, x);
    }
  }

  lemma {:induction false} SplitWords(b: Break, s: string)
    ensures Squeeze(Concat(SplitFrom(b, s, 0, 0))) == Squeeze(s)
  {
    SplitKeepsText(b, s, 0, 0);
    assert s[0..] == s;
  }

  /** An over-long paragraph flushes the chunk being built and is packed sentence by sentence. */
  lemma {:induction false} SentencePackingWords(maxSize: nat, p: Packing, para: string, sentences: seq<string>)
    requires Squeeze(Concat(sentences)) == Squeeze(para)
    ensures Words(PackSentences(maxSize, Packing(Flushed(p), ""), sentences)) == Words(p) + Squeeze(para)
  {
    var start := Packing(Flushed(p), "");
    PackSentencesWords(maxSize, start, sentences);
    FlushedWords(p);
    assert Squeeze(start.current) == [];
    assert Words(start) == Words(p);
  }

  lemma {:induction false} PackParagraphWords(maxSize: nat, p: Packing, para: string)
    ensures Words(PackParagraph(maxSize, p, para)) == Words(p) + Squeeze(para)
  {
    if |p.current| + |para| + 2 > maxSize {
      if |para| > maxSize {
        SplitWords(SentenceBreak, para);
        SentencePackingWords(maxSize, p, para, Sentences(para));
      } else {
        FlushedWords(p);
      }
    } else {
      GlueWords(p.current, if p.current != [] then "\n\n" else "", para);
    }
  }

  lemma {:induction false} PackParagraphsWords(maxSize: nat, p: Packing, paras: seq<string>)
    ensures Words(PackParagraphs(maxSize, p, paras)) == Words(p) + Squeeze(Concat(paras))
    decreases |paras|
  {
    if paras == [] {
      assert Concat(paras) == [];
    } else {
      var prefix, x := paras[..|paras| - 1], paras[|paras| - 1];
      assert paras == prefix + [x];
      PackParagraphsWords(maxSize, p, prefix);
      PackParagraphWords(maxSize, PackParagraphs(maxSize, p, prefix), x);
      SnocWords(prefix, x);
    }
  }

  /**
   * Chunking loses and reorders nothing but whitespace: the chunks laid end to end hold the
   * document's non-whitespace characters in their original order.
   */
  lemma {:induction false} ChunksKeepText(content: string, maxSize: nat)
    ensures Squeeze(Concat(Chunks(content, maxSize))) == Squeeze(content)
  {
    if |content| <= maxSize {
      ConcatCons(content, []);
      assert [content] + [] == [content];
      assert content + Concat([]) == content;
    } else {
      var q := PackParagraphs(maxSize, Packing([], ""), Paragraphs(content));
      FlushedWords(q);
      PackParagraphsWords(maxSize, Packing([], ""), Paragraphs(content));
      SplitWords(ParagraphBreak, content);
    }
  }
}
