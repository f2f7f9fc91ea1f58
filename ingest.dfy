/**
 * The ingestion script's bookkeeping: how a chunk is escaped into the JSON argument of the
 * `memories:processDocument` command and quoted for the shell, how chunks are named, how
 * the per-chunk reports of one file are summed, and how the files' outcomes are tallied.
 * Reading files, running the command and parsing its output are outside the model: the
 * command's report is the parameter `run`, a function of the command line.
 */
module Ingest {
  import opened Wrappers
  import opened JsText
  import opened Chunking

  // ---------------------------------------------------------------------------------------
  // Escaping for JSON
  // ---------------------------------------------------------------------------------------

  /** `s.replace(/c/g, rep)`: every occurrence of `c` becomes `rep`. */
  function ReplaceAll(s: string, c: char, rep: string): (r: string)
    ensures c !in rep ==> c !in r
  {
    if s == [] then []
    else (if s[0] == c then rep else [s[0]]) + ReplaceAll(s[1..], c, rep)
  }

  /** The chain of replacements in `processChunk`, backslash first. */
  function Escape(s: string): string {
    var backslashes := ReplaceAll(s, '\\', "\\\\");
    var quotes := ReplaceAll(backslashes, '"', "\\\"");
    var newlines := ReplaceAll(quotes, '\n', "\\n");
    var carriages := ReplaceAll(newlines, '\r', "\\r");
    ReplaceAll(carriages, '\t', "\\t")
  }

  /** What the chain does to one character. */
  function EscapeChar(c: char): (r: string)
    ensures |r| >= 1 && (|r| == 1 <==> r == [c])
  {
    match c
    case '\\' => "\\\\"
    case '"' => "\\\""
    case '\n' => "\\n"
    case '\r' => "\\r"
    case '\t' => "\\t"
    case _ => [c]
  }

  /** The escape sequences a JSON string reader turns back into characters. */
  function Unescaped(e: char): char {
    match e
    case 'n' => '\n'
    case 'r' => '\r'
    case 't' => '\t'
    case _ => e
  }

  /** Reading the body of a JSON string: a backslash and the next character stand for one character. */
  function Unescape(t: string): string {
    if t == [] then []
    else if t[0] == '\\' && |t| >= 2 then [Unescaped(t[1])] + Unescape(t[2..])
    else [t[0]] + Unescape(t[1..])
  }

  lemma {:induction false} ReplaceAllAppend(a: string, b: string, c: char, rep: string)
    ensures ReplaceAll(a + b, c, rep) == ReplaceAll(a, c, rep) + ReplaceAll(b, c, rep)
  {
    if a == [] {
      assert a + b == b;
    } else {
      assert (a + b)[1..] == a[1..] + b;
      ReplaceAllAppend(a[1..], b, c, rep);
    }
  }

  lemma {:induction false} ReplaceAllChar(c: char, x: char, rep: string)
    ensures ReplaceAll([c], x, rep) == if c == x then rep else [c]
  {
    assert [c][1..] == [];
  }

  lemma {:induction false} ReplaceAllMissing(s: string, x: char, rep: string)
    requires x !in s
    ensures ReplaceAll(s, x, rep) == s
  {
    if s != [] {
      ReplaceAllMissing(s[1..], x, rep);
    }
  }

  /** The chain applied to a single character gives that character's escape. */
  lemma {:induction false} EscapeOne(c: char)
    ensures Escape([c]) == EscapeChar(c)
  {
    var b := ReplaceAll([c], '\\', "\\\\");
    ReplaceAllChar(c, '\\', "\\\\");
    var q := ReplaceAll(b, '"', "\\\"");
    if c == '\\' {
      ReplaceAllMissing(b, '"', "\\\"");
      ReplaceAllMissing(q, '\n', "\\n");
      ReplaceAllMissing(q, '\r', "\\r");
      ReplaceAllMissing(q, '\t', "\\t");
    } else {
      ReplaceAllChar(c, '"', "\\\"");
      var n := ReplaceAll(q, '\n', "\\n");
      if c == '"' {
        ReplaceAllMissing(q, '\n', "\\n");
        ReplaceAllMissing(q, '\r', "\\r");
        ReplaceAllMissing(q, '\t', "\\t");
      } else {
        ReplaceAllChar(c, '\n', "\\n");
        var r := ReplaceAll(n, '\r', "\\r");
        if c == '\n' {
          ReplaceAllMissing(n, '\r', "\\r");
          ReplaceAllMissing(n, '\t', "\\t");
        } else {
          ReplaceAllChar(c, '\r', "\\r");
          if c == '\r' {
            ReplaceAllMissing(r, '\t', "\\t");
          } else {
            ReplaceAllChar(c, '\t', "\\t");
          }
        }
      }
    }
  }

  /** Each replacement works character by character, so the chain does too. */
  lemma {:induction false} EscapeAppend(a: string, b: string)
    ensures Escape(a + b) == Escape(a) + Escape(b)
  {
    var a1, b1 := ReplaceAll(a, '\\', "\\\\"), ReplaceAll(b, '\\', "\\\\");
    ReplaceAllAppend(a, b, '\\', "\\\\");
    var a2, b2 := ReplaceAll(a1, '"', "\\\""), ReplaceAll(b1, '"', "\\\"");
    ReplaceAllAppend(a1, b1, '"', "\\\"");
    var a3, b3 := ReplaceAll(a2, '\n', "\\n"), ReplaceAll(b2, '\n', "\\n");
    ReplaceAllAppend(a2, b2, '\n', "\\n");
    var a4, b4 := ReplaceAll(a3, '\r', "\\r"), ReplaceAll(b3, '\r', "\\r");
    ReplaceAllAppend(a3, b3, '\r', "\\r");
    ReplaceAllAppend(a4, b4, '\t', "\\t");
  }

  lemma {:induction false} EscapeCons(c: char, rest: string)
    ensures Escape([c] + rest) == EscapeChar(c) + Escape(rest)
  {
    EscapeAppend([c], rest);
    EscapeOne(c);
  }

  lemma {:induction false} UnescapeStep(c: char, t: string)
    ensures Unescape(EscapeChar(c) + t) == [c] + Unescape(t)
  {
    var e := EscapeChar(c) + t;
    if |EscapeChar(c)| == 2 {
      assert e[2..] == t;
    } else {
      assert e[1..] == t;
    }
  }

  /** Reading the escaped text as a JSON string gives back the chunk. */
  lemma {:induction false} EscapeRoundTrip(s: string)
    ensures Unescape(Escape(s)) == s
  {
    if s != [] {
      assert s == [s[0]] + s[1..];
      EscapeCons(s[0], s[1..]);
      UnescapeStep(s[0], Escape(s[1..]));
      EscapeRoundTrip(s[1..]);
    }
  }

  /**
   * A well-formed JSON string body for the characters the chain handles: no raw quote,
   * newline, carriage return or tab, and every backslash starts a two-character escape.
   */
  predicate JsonBody(t: string)
    decreases |t|
  {
    if t == [] then true
    else if t[0] == '\\' then |t| >= 2 && JsonBody(t[2..])
    else t[0] != '"' && t[0] != '\n' && t[0] != '\r' && t[0] != '\t' && JsonBody(t[1..])
  }

  lemma {:induction false} JsonBodyStep(c: char, t: string)
    requires JsonBody(t)
    ensures JsonBody(EscapeChar(c) + t)
  {
    var e := EscapeChar(c) + t;
    if |EscapeChar(c)| == 2 {
      assert e[2..] == t;
    } else {
      assert e[1..] == t;
    }
  }

  /** The escaped chunk cannot end the JSON string early and holds no raw line break or tab. */
  lemma {:induction false} EscapedIsJsonBody(s: string)
    ensures JsonBody(Escape(s))
  {
    if s != [] {
      assert s == [s[0]] + s[1..];
      EscapeCons(s[0], s[1..]);
      EscapedIsJsonBody(s[1..]);
      JsonBodyStep(s[0], Escape(s[1..]));
    }
  }

  // ---------------------------------------------------------------------------------------
  // Quoting for the shell
  // ---------------------------------------------------------------------------------------

  /** `'<arg with each ' written as '\''>'`: the JSON argument as one single-quoted shell word. */
  function ShellQuoted(arg: string): string {
    "'" + ReplaceAll(arg, '\'', "'\\''") + "'"
  }

  /**
   * How a POSIX shell reads a word: inside single quotes every character is literal up to the
   * closing quote; outside them a quote opens a quoted part and a backslash makes the next
   * character literal.
   */
  function ShellWord(t: string, quoted: bool): string {
    if t == [] then []
    else if quoted then
      (if t[0] == '\'' then ShellWord(t[1..], false) else [t[0]] + ShellWord(t[1..], true))
    else if t[0] == '\'' then ShellWord(t[1..], true)
    else if t[0] == '\\' && |t| >= 2 then [t[1]] + ShellWord(t[2..], false)
    else [t[0]] + ShellWord(t[1..], false)
  }

  /** `'\''` inside a quoted part: close the quotes, an escaped quote, reopen them. */
  lemma {:induction false} QuoteInQuotes(rest: string)
    ensures ShellWord("'\\''" + rest, true) == "'" + ShellWord(rest, true)
  {
    var t := "'\\''" + rest;
    var t1 := "\\''" + rest;
    var t2 := "'" + rest;
    assert t[1..] == t1 && t1[2..] == t2 && t2[1..] == rest;
    assert ShellWord(t, true) == ShellWord(t1, false);
    assert ShellWord(t1, false) == "'" + ShellWord(t2, false);
  }

  lemma {:induction false} ShellWordQuoted(arg: string)
    ensures ShellWord(ReplaceAll(arg, '\'', "'\\''") + "'", true) == arg
  {
    if arg == [] {
      assert ReplaceAll(arg, '\'', "'\\''") + "'" == "'";
    } else {
      var rest := ReplaceAll(arg[1..], '\'', "'\\''") + "'";
      assert ReplaceAll(arg, '\'', "'\\''") + "'" == (if arg[0] == '\'' then "'\\''" else [arg[0]]) + rest;
      ShellWordQuoted(arg[1..]);
      if arg[0] == '\'' {
        QuoteInQuotes(rest);
        assert arg == "'" + arg[1..];
      } else {
        assert ([arg[0]] + rest)[1..] == rest;
      }
    }
  }

  /** The shell hands the command the JSON argument unchanged, whatever quotes it holds. */
  lemma ShellQuoteRoundTrip(arg: string)
    ensures ShellWord(ShellQuoted(arg), false) == arg
  {
    var body := ReplaceAll(arg, '\'', "'\\''") + "'";
    assert ShellQuoted(arg) == "'" + body;
    assert ("'" + body)[1..] == body;
    ShellWordQuoted(arg);
  }

  // ---------------------------------------------------------------------------------------
  // One chunk
  // ---------------------------------------------------------------------------------------

  /** `chunkName`: `name (Part i/n)` when the file has several chunks, the file name otherwise. */
  function ChunkName(fileName: string, chunkNum: nat, totalChunks: nat): (r: string)
    ensures totalChunks <= 1 ==> r == fileName
  {
    if totalChunks > 1 then fileName + " (Part " + Decimal(chunkNum) + "/" + Decimal(totalChunks) + ")"
    else fileName
  }

  /** The parts of a file with several chunks have distinct names. */
  lemma ChunkNamesDistinct(fileName: string, i: nat, j: nat, totalChunks: nat)
    requires totalChunks > 1 && i != j
    ensures ChunkName(fileName, i, totalChunks) != ChunkName(fileName, j, totalChunks)
  {
    var head := fileName + " (Part ";
    var tail := "/" + Decimal(totalChunks) + ")";
    var a, b := Decimal(i), Decimal(j);
    assert ChunkName(fileName, i, totalChunks) == head + a + tail;
    assert ChunkName(fileName, j, totalChunks) == head + b + tail;
    if head + a + tail == head + b + tail {
      assert |a| == |b|;
      assert a == (head + a + tail)[|head|..|head| + |a|];
      assert b == (head + b + tail)[|head|..|head| + |b|];
      NatToStringInjective(i, j, 10);
    }
  }

  /** The JSON argument of `memories:processDocument` for one chunk. */
  function JsonArg(content: string, chunkName: string, docType: string): string {
    "{\"content\": \"" + Escape(content) + "\", \"documentName\": \"" + chunkName
    + "\", \"documentType\": \"" + docType + "\", \"autoStore\": true}"
  }

  /** What one run of `memories:processDocument` is asked to do. */
  datatype Request = Request(content: string, documentName: string, documentType: string)

  /** The request `processChunk` makes for chunk `chunkNum` of `totalChunks`. */
  function ChunkRequest(content: string, fileName: string, chunkNum: nat, totalChunks: nat, docType: string): Request {
    Request(content, ChunkName(fileName, chunkNum, totalChunks), docType)
  }

  /** The command line `processChunk` runs for a request. */
  function CommandLine(req: Request): string {
    "npx convex run memories:processDocument " + ShellQuoted(JsonArg(req.content, req.documentName, req.documentType))
  }

  /**
   * The command line carries its request intact: the shell hands the processor the JSON
   * argument unchanged, and the content field of that argument reads back as the chunk.
   */
  lemma CommandCarriesContent(req: Request)
    ensures var arg := JsonArg(req.content, req.documentName, req.documentType);
      && CommandLine(req) == "npx convex run memories:processDocument " + ShellQuoted(arg)
      && ShellWord(ShellQuoted(arg), false) == arg
      && arg == "{\"content\": \"" + Escape(req.content) + "\", \"documentName\": \"" + req.documentName
                + "\", \"documentType\": \"" + req.documentType + "\", \"autoStore\": true}"
      && Unescape(Escape(req.content)) == req.content && JsonBody(Escape(req.content))
  {
    ShellQuoteRoundTrip(JsonArg(req.content, req.documentName, req.documentType));
    EscapeRoundTrip(req.content);
    EscapedIsJsonBody(req.content);
  }

  /** A suggested update to the core documents, as the processor reports it. */
  datatype Suggestion = Suggestion(targetFile: string, section: string)

  /**
   * What `processChunk` returns: the parsed output of the command, or `success: false` when
   * the command failed or its output was not JSON. Absent counts read as 0.
   */
  datatype ChunkReport = ChunkReport(success: bool, memoriesExtracted: Option<nat>, linksExtracted: Option<nat>,
                                     tokensUsed: Option<nat>, suggestedCoreUpdates: seq<Suggestion>)

  // ---------------------------------------------------------------------------------------
  // One file
  // ---------------------------------------------------------------------------------------

  /** The sums `processFile` keeps over a file's chunks. */
  datatype Totals = Totals(memories: nat, links: nat, tokens: nat, suggestions: seq<Suggestion>, failed: bool)

  /** The reports of the first `n` chunks, in order. */
  function Reports(chunks: seq<string>, fileName: string, docType: string, run: Request -> ChunkReport, n: nat)
    : (r: seq<ChunkReport>)
    requires n <= |chunks|
    ensures |r| == n
    ensures forall k :: 0 <= k < n ==> r[k] == run(ChunkRequest(chunks[k], fileName, k + 1, |chunks|, docType))
  {
    if n == 0 then []
    else Reports(chunks, fileName, docType, run, n - 1) + [run(ChunkRequest(chunks[n - 1], fileName, n, |chunks|, docType))]
  }

  /** A successful report adds its counts and suggestions; a failed one only marks the file. */
  function Add(t: Totals, r: ChunkReport): Totals {
    if r.success then
      Totals(t.memories + r.memoriesExtracted.GetOr(0), t.links + r.linksExtracted.GetOr(0),
             t.tokens + r.tokensUsed.GetOr(0), t.suggestions + r.suggestedCoreUpdates, t.failed)
    else t.(failed := true)
  }

  /** The totals over a file's chunk reports, in order. */
  function Tally(reports: seq<ChunkReport>): Totals {
    if reports == [] then Totals(0, 0, 0, [], false)
    else Add(Tally(reports[..|reports| - 1]), reports[|reports| - 1])
  }

  lemma {:induction false} TallyStep(reports: seq<ChunkReport>, i: nat)
    requires i < |reports|
    ensures Tally(reports[..i + 1]) == Add(Tally(reports[..i]), reports[i])
  {
    assert reports[..i + 1][..i] == reports[..i];
  }

  /** The file is marked failed exactly when one of its chunks failed. */
  lemma {:induction false} TallyFailed(reports: seq<ChunkReport>)
    ensures Tally(reports).failed <==> exists k :: 0 <= k < |reports| && !reports[k].success
  {
    if reports != [] {
      var prefix := reports[..|reports| - 1];
      TallyFailed(prefix);
      assert forall k :: 0 <= k < |prefix| ==> prefix[k] == reports[k];
    }
  }

  /** No memory is counted exactly when no successful chunk reported one. */
  lemma {:induction false} TallyNoMemories(reports: seq<ChunkReport>)
    ensures Tally(reports).memories == 0 <==>
      forall k :: 0 <= k < |reports| && reports[k].success ==> reports[k].memoriesExtracted.GetOr(0) == 0
  {
    if reports != [] {
      var prefix := reports[..|reports| - 1];
      TallyNoMemories(prefix);
      assert forall k :: 0 <= k < |prefix| ==> prefix[k] == reports[k];
    }
  }

  /** What `processFile` returns. */
  datatype FileResult =
    | Unprocessed                                         // `null`: unsupported, unreadable or failed
    | Previewed(fileName: string, contentLength: nat)     // a dry run: `skipped: true`
    | Processed(memoriesExtracted: nat, linksExtracted: nat, tokensUsed: nat, suggestedCoreUpdates: seq<Suggestion>)

  /** The extensions the script reads: `.docx` through the document reader, `.md` and `.txt` as text. */
  predicate Supported(ext: string) {
    ext == ".docx" || ext == ".md" || ext == ".txt"
  }

  /** The outcome of the chunks of one file, once its totals are known. */
  function Outcome(t: Totals): FileResult {
    if t.failed && t.memories == 0 then Unprocessed
    else Processed(t.memories, t.links, t.tokens, t.suggestions)
  }

  /**
   * `processFile` for a file whose lower-cased extension is `ext` and whose text, when it
   * could be read, is `read`.
   */
  function FileOutcome(fileName: string, ext: string, read: Option<string>, dryRun: bool, docType: string,
                       run: Request -> ChunkReport): FileResult
  {
    if !Supported(ext) then Unprocessed
    else match read
      case None => Unprocessed
      case Some(content) =>
        if dryRun then Previewed(fileName, |content|)
        else
          var chunks := Chunks(content, MaxChunkSize);
          Outcome(Tally(Reports(chunks, fileName, docType, run, |chunks|)))
  }

  /**
   * A file comes back as `null` exactly when it is unsupported or unreadable, or, outside a
   * dry run, when some chunk failed and no successful chunk reported a memory.
   */
  lemma FileUnprocessedIff(fileName: string, ext: string, read: Option<string>, dryRun: bool, docType: string,
                           run: Request -> ChunkReport)
    ensures FileOutcome(fileName, ext, read, dryRun, docType, run) == Unprocessed <==>
      || !Supported(ext) || read.None?
      || (&& !dryRun
          && var chunks := Chunks(read.value, MaxChunkSize);
             var reports := Reports(chunks, fileName, docType, run, |chunks|);
             && (exists k :: 0 <= k < |reports| && !reports[k].success)
             && (forall k :: 0 <= k < |reports| && reports[k].success ==> reports[k].memoriesExtracted.GetOr(0) == 0))
  {
    if Supported(ext) && read.Some? && !dryRun {
      var chunks := Chunks(read.value, MaxChunkSize);
      var reports := Reports(chunks, fileName, docType, run, |chunks|);
      TallyFailed(reports);
      TallyNoMemories(reports);
    }
  }

  /** The body of the chunk loop of `processFile`: one report is added to the running sums. */
  method AddReport(totalMemories: nat, totalLinks: nat, totalTokens: nat, allSuggestions: seq<Suggestion>,
                   failed: bool, result: ChunkReport)
    returns (memories: nat, links: nat, tokens: nat, suggestions: seq<Suggestion>, failedNow: bool)
    ensures Totals(memories, links, tokens, suggestions, failedNow)
         == Add(Totals(totalMemories, totalLinks, totalTokens, allSuggestions, failed), result)
  {
    memories, links, tokens, suggestions, failedNow := totalMemories, totalLinks, totalTokens, allSuggestions, failed;
    if result.success {
      memories := memories + result.memoriesExtracted.GetOr(0);
      links := links + result.linksExtracted.GetOr(0);
      tokens := tokens + result.tokensUsed.GetOr(0);
      suggestions := suggestions + result.suggestedCoreUpdates;
    } else {
      failedNow := true;
    }
  }

  /** The chunk loop of `processFile`. */
  method ProcessChunks(chunks: seq<string>, fileName: string, docType: string, run: Request -> ChunkReport)
    returns (totals: Totals)
    ensures totals == Tally(Reports(chunks, fileName, docType, run, |chunks|))
  {
    var totalMemories: nat, totalLinks: nat, totalTokens: nat := 0, 0, 0;
    var allSuggestions: seq<Suggestion> := [];
    var failed := false;
    ghost var reports := Reports(chunks, fileName, docType, run, |chunks|);
    for i := 0 to |chunks|
      invariant Totals(totalMemories, totalLinks, totalTokens, allSuggestions, failed) == Tally(reports[..i])
    {
      var result := run(ChunkRequest(chunks[i], fileName, i + 1, |chunks|, docType));
      assert result == reports[i];
      TallyStep(reports, i);
      totalMemories, totalLinks, totalTokens, allSuggestions, failed :=
        AddReport(totalMemories, totalLinks, totalTokens, allSuggestions, failed, result);
    }
    assert reports[..|chunks|] == reports;
    totals := Totals(totalMemories, totalLinks, totalTokens, allSuggestions, failed);
  }

  /** `processFile`. */
  method ProcessFile(fileName: string, ext: string, read: Option<string>, dryRun: bool, docType: string,
                     run: Request -> ChunkReport)
    returns (r: FileResult)
    ensures r == FileOutcome(fileName, ext, read, dryRun, docType, run)
  {
    if !Supported(ext) || read.None? {
      return Unprocessed;
    }
    var content := read.value;
    if dryRun {
      return Previewed(fileName, |content|);
    }
    var chunks := ChunkContent(content, MaxChunkSize);
    var totals := ProcessChunks(chunks, fileName, docType, run);
    if totals.failed && totals.memories == 0 {
      return Unprocessed;
    }
    r := Processed(totals.memories, totals.links, totals.tokens, totals.suggestions);
  }

  // ---------------------------------------------------------------------------------------
  // All files
  // ---------------------------------------------------------------------------------------

  /** A file to ingest: its base name, its lower-cased extension and its text when readable. */
  datatype FileInput = FileInput(name: string, ext: string, read: Option<string>)

  /** The counters `main` prints. */
  datatype Summary = Summary(processed: nat, failed: nat, skipped: nat, totalMemories: nat, totalLinks: nat, totalTokens: nat)

  /** Each file's outcome moves exactly one of the three counters. */
  function Count(s: Summary, r: FileResult): Summary {
    match r
    case Unprocessed => s.(failed := s.failed + 1)
    case Previewed(_, _) => s.(skipped := s.skipped + 1)
    case Processed(m, l, t, _) =>
      s.(processed := s.processed + 1, totalMemories := s.totalMemories + m,
         totalLinks := s.totalLinks + l, totalTokens := s.totalTokens + t)
  }

  /** The summary `main` prints after counting the outcomes given, in order. */
  function SummaryOf(outcomes: seq<FileResult>): Summary {
    if outcomes == [] then Summary(0, 0, 0, 0, 0, 0)
    else Count(SummaryOf(outcomes[..|outcomes| - 1]), outcomes[|outcomes| - 1])
  }

  /** The outcomes of the first `n` files, in order. */
  function Outcomes(files: seq<FileInput>, n: nat, dryRun: bool, docType: string, run: Request -> ChunkReport)
    : (r: seq<FileResult>)
    requires n <= |files|
    ensures |r| == n
  {
    if n == 0 then []
    else
      var f := files[n - 1];
      Outcomes(files, n - 1, dryRun, docType, run) + [FileOutcome(f.name, f.ext, f.read, dryRun, docType, run)]
  }

  lemma {:induction false} SummarySnoc(outcomes: seq<FileResult>, r: FileResult)
    ensures SummaryOf(outcomes + [r]) == Count(SummaryOf(outcomes), r)
  {
    assert (outcomes + [r])[..|outcomes|] == outcomes;
  }

  /** The file loop of `main`. */
  method IngestAll(files: seq<FileInput>, dryRun: bool, docType: string, run: Request -> ChunkReport)
    returns (results: Summary)
    ensures results == SummaryOf(Outcomes(files, |files|, dryRun, docType, run))
  {
    results := Summary(0, 0, 0, 0, 0, 0);
    for i := 0 to |files|
      invariant results == SummaryOf(Outcomes(files, i, dryRun, docType, run))
    {
      var f := files[i];
      var result := ProcessFile(f.name, f.ext, f.read, dryRun, docType, run);
      SummarySnoc(Outcomes(files, i, dryRun, docType, run), result);
      results := Count(results, result);
    }
  }

  /** Every file is counted once: processed, failed and skipped add up to the number of files. */
  lemma {:induction false} EveryFileCounted(outcomes: seq<FileResult>)
    ensures var s := SummaryOf(outcomes); s.processed + s.failed + s.skipped == |outcomes|
  {
    if outcomes != [] {
      EveryFileCounted(outcomes[..|outcomes| - 1]);
    }
  }

  /** When no file was processed, nothing is counted as created. */
  lemma {:induction false} NothingProcessedNothingCounted(outcomes: seq<FileResult>)
    requires forall k :: 0 <= k < |outcomes| ==> !outcomes[k].Processed?
    ensures var s := SummaryOf(outcomes);
      s.processed == 0 && s.totalMemories == 0 && s.totalLinks == 0 && s.totalTokens == 0
  {
    if outcomes != [] {
      NothingProcessedNothingCounted(outcomes[..|outcomes| - 1]);
    }
  }

  /** A dry run processes no file: each is skipped or, when unsupported or unreadable, failed. */
  lemma {:induction false} DryRunProcessesNothing(files: seq<FileInput>, n: nat, docType: string, run: Request -> ChunkReport)
    requires n <= |files|
    ensures forall k :: 0 <= k < n ==> !Outcomes(files, n, true, docType, run)[k].Processed?
  {
    if n > 0 {
      DryRunProcessesNothing(files, n - 1, docType, run);
      var f := files[n - 1];
      assert !FileOutcome(f.name, f.ext, f.read, true, docType, run).Processed?;
      assert forall k :: 0 <= k < n - 1 ==>
        Outcomes(files, n, true, docType, run)[k] == Outcomes(files, n - 1, true, docType, run)[k];
    }
  }

  /** A dry run stores nothing: the summary counts no processed file, memory, link or token. */
  lemma DryRunStoresNothing(files: seq<FileInput>, docType: string, run: Request -> ChunkReport)
    ensures var s := SummaryOf(Outcomes(files, |files|, true, docType, run));
      s.processed == 0 && s.totalMemories == 0 && s.totalLinks == 0 && s.totalTokens == 0
  {
    DryRunProcessesNothing(files, |files|, docType, run);
    NothingProcessedNothingCounted(Outcomes(files, |files|, true, docType, run));
  }
}
