/**
 * `generateWeeklySummary`: the command's run over one vault. The vault and the
 * model service are inputs: the files that exist, the markdown files in the
 * order the host enumerates them with the outcome of reading each, the chat
 * service as a function from request to reply, and whether `create` succeeds.
 */
module Summary {
  import opened Wrappers
  import opened JsString
  import opened Decimal
  import opened Settings
  import opened Output
  import opened Replies

  /** One entry of `perDocSummaries`. */
  datatype DocSummary = DocSummary(content: string, filePath: string)

  /** The outcome of `vault.read(file)`: the text, or a thrown error. */
  datatype ReadResult = ReadOk(content: string) | ReadFailed

  datatype MarkdownFile = MarkdownFile(path: string, read: ReadResult)

  /**
   * `files`: the paths at which `getAbstractFileByPath` finds a file (not a folder);
   * `markdownFiles`: what `getMarkdownFiles` returns, in its order.
   */
  datatype Vault = Vault(files: set<string>, markdownFiles: seq<MarkdownFile>)

  /** The one `vault.create(path, text)` call of a run. */
  datatype CreateCall = CreateCall(path: string, text: string)

  /** Which notice the run ends with. */
  datatype Outcome = AlreadyExists | Generated | WriteFailed

  /** What a run did: the path it computed, the documents it read, the summaries it kept, the chat calls it made in order, and the file it asked to create. */
  datatype RunResult = RunResult(
    outputPath: string,
    outcome: Outcome,
    documentsRead: seq<string>,
    summaries: seq<DocSummary>,
    chatCalls: seq<ChatRequest>,
    created: Option<CreateCall>)

  // ---------------------------------------------------------------------------
  // Prompts and the bullet list
  // ---------------------------------------------------------------------------

  const ShortPromptIntro := "Please summarize the following content in one or two concise sentences:\n\n"

  function ShortPrompt(text: string): string {
    ShortPromptIntro + text
  }

  /** The request `generateShortSummary(text)` sends. */
  function ShortRequest(model: string, text: string): ChatRequest {
    ChatRequest(model, ShortPrompt(text))
  }

  /** What `generateShortSummary(text)` returns. */
  function ShortSummary(chat: Chat, model: string, text: string): string {
    ShortSummaryText(chat(ShortRequest(model, text)))
  }

  /** The line `- {content} ([Link to document]({filePath}))` of one summary. */
  function Bullet(s: DocSummary): string {
    "- " + s.content + " ([Link to document](" + s.filePath + "))"
  }

  function Bullets(ss: seq<DocSummary>): (lines: seq<string>)
    ensures |lines| == |ss| && forall i :: 0 <= i < |ss| ==> lines[i] == Bullet(ss[i])
  {
    seq(|ss|, i requires 0 <= i < |ss| => Bullet(ss[i]))
  }

  /** `summaries.map(...).join('\n')`. */
  function BulletList(ss: seq<DocSummary>): string {
    JoinLines(Bullets(ss))
  }

  const ReviewPromptOpening := "Based on the following content, write a two-paragraph weekly review for week "

  const ReviewPromptInstructions :=
    ". \n"
    + "Focus on what was worked on, what was completed, what still needs attention, "
    + "and any recurring themes or notable patterns.\n"
    + "Include relevant links in Markdown format where applicable "
    + "(links should have this structure [[link]], no escape characters).\n"
    + "\n"
    + "Content with links:\n\n"

  function FinalPrompt(weekNumber: nat, contentWithLinks: string): string {
    ReviewPromptOpening + NatToString(weekNumber) + ReviewPromptInstructions + contentWithLinks
  }

  /** The request `generateFinalReview(summaries, weekNumber)` sends. */
  function FinalRequest(model: string, weekNumber: nat, ss: seq<DocSummary>): ChatRequest {
    ChatRequest(model, FinalPrompt(weekNumber, BulletList(ss)))
  }

  /** What `generateFinalReview(summaries, weekNumber)` returns. */
  function FinalReview(chat: Chat, model: string, weekNumber: nat, ss: seq<DocSummary>): string {
    FinalReviewText(chat(FinalRequest(model, weekNumber, ss)))
  }

  /** Equal short prompts carry the same document text. */
  lemma ShortPromptDetermines(t1: string, t2: string)
    requires ShortPrompt(t1) == ShortPrompt(t2)
    ensures t1 == t2
  {
    assert t1 == ShortPrompt(t1)[|ShortPromptIntro|..];
    assert t2 == ShortPrompt(t2)[|ShortPromptIntro|..];
  }

  lemma InstructionsOpenWithPeriod()
    ensures |ReviewPromptInstructions| > 0 && ReviewPromptInstructions[0] == '.'
  {
  }

  /**
   * The final prompt is the opening, the week's numeral, the fixed instructions,
   * and then exactly the content with links, which it ends with.
   */
  lemma FinalPromptParts(weekNumber: nat, contentWithLinks: string)
    ensures var p, o, n := FinalPrompt(weekNumber, contentWithLinks), |ReviewPromptOpening|, NatToString(weekNumber);
      && p[..o] == ReviewPromptOpening
      && AllDigits(p[o..o + |n|]) && Value(p[o..o + |n|]) == weekNumber
      && p[o + |n|..|p| - |contentWithLinks|] == ReviewPromptInstructions
      && p[|p| - |contentWithLinks|..] == contentWithLinks
  {
    var p, o, n := FinalPrompt(weekNumber, contentWithLinks), |ReviewPromptOpening|, NatToString(weekNumber);
    assert p[o..o + |n|] == n;
    ValueOfNatToString(weekNumber);
  }

  /**
   * The final prompt determines the week and the content: the numeral ends where
   * the instructions' leading '.' begins, so different weeks or different bullet
   * lists never produce the same prompt.
   */
  lemma FinalPromptDetermines(w1: nat, c1: string, w2: nat, c2: string)
    requires FinalPrompt(w1, c1) == FinalPrompt(w2, c2)
    ensures w1 == w2 && c1 == c2
  {
    InstructionsOpenWithPeriod();
    NumeralThenText(ReviewPromptOpening, ReviewPromptInstructions,
                    NatToString(w1), c1, NatToString(w2), c2);
    ValueOfNatToString(w1);
    ValueOfNatToString(w2);
  }

  /** Text around a numeral: a fixed prefix, the numeral, a fixed text opening with a non-digit, a tail. */
  lemma NumeralThenText(prefix: string, middle: string, n1: string, c1: string, n2: string, c2: string)
    requires AllDigits(n1) && AllDigits(n2) && middle != [] && !IsDigit(middle[0])
    requires prefix + n1 + middle + c1 == prefix + n2 + middle + c2
    ensures n1 == n2 && c1 == c2
  {
    var p, o := prefix + n1 + middle + c1, |prefix|;
    assert p[o..] == n1 + (middle + c1);
    assert p[o..] == n2 + (middle + c2);
    LeadingDigitsOf(n1, middle + c1);
    LeadingDigitsOf(n2, middle + c2);
    assert n1 == p[o..o + |n1|] == n2;
    assert c1 == p[|p| - |c1|..] == c2;
  }

  lemma BulletHasNoNewline(s: DocSummary)
    requires NoNewline(s.content) && NoNewline(s.filePath)
    ensures NoNewline(Bullet(s))
  {
  }

  /** No summaries give an empty list. */
  lemma BulletListOfNone()
    ensures BulletList([]) == ""
  {
  }

  /**
   * When no summary text or path holds a newline, the list splits back into
   * exactly one bullet line per summary, in order.
   */
  lemma BulletListLines(ss: seq<DocSummary>)
    requires ss != []
    requires forall i :: 0 <= i < |ss| ==> NoNewline(ss[i].content) && NoNewline(ss[i].filePath)
    ensures SplitLines(BulletList(ss)) == Bullets(ss)
    ensures |SplitLines(BulletList(ss))| == |ss|
  {
    var lines := Bullets(ss);
    forall i | 0 <= i < |lines| ensures NoNewline(lines[i]) {
      BulletHasNoNewline(ss[i]);
    }
    SplitJoinLines(lines);
  }

  lemma {:induction false} JoinLinesEndsWithLast(lines: seq<string>)
    requires lines != []
    ensures var j, last := JoinLines(lines), lines[|lines| - 1];
      |last| <= |j| && j[|j| - |last|..] == last
    decreases |lines|
  {
    if |lines| > 1 {
      JoinLinesEndsWithLast(lines[1..]);
      var j, rest := JoinLines(lines), JoinLines(lines[1..]);
      assert j == lines[0] + "\n" + rest;
      assert j[|j| - |rest|..] == rest;
    }
  }

  /** A non-empty list ends with the last summary's link: there is no trailing newline. */
  lemma BulletListEndsWithLastLink(ss: seq<DocSummary>)
    requires ss != []
    ensures var b := BulletList(ss); b != [] && b[|b| - 1] == ')'
    ensures var b, last := BulletList(ss), Bullet(ss[|ss| - 1]);
      |last| <= |b| && b[|b| - |last|..] == last
  {
    var lines := Bullets(ss);
    JoinLinesEndsWithLast(lines);
    var last := Bullet(ss[|ss| - 1]);
    assert last[|last| - 1] == ')';
  }

  // ---------------------------------------------------------------------------
  // The documents a run keeps
  // ---------------------------------------------------------------------------

  /** The files whose read succeeds, in enumeration order. */
  function Readable(fs: seq<MarkdownFile>): (rs: seq<MarkdownFile>)
    ensures |rs| <= |fs|
    ensures forall k :: 0 <= k < |rs| ==> rs[k].read.ReadOk?
    decreases |fs|
  {
    if fs == [] then []
    else
      var init := Readable(fs[..|fs| - 1]);
      if fs[|fs| - 1].read.ReadOk? then init + [fs[|fs| - 1]] else init
  }

  /** The summaries a run keeps: one per readable file, in order, with that file's path. */
  function PerDocSummaries(chat: Chat, model: string, fs: seq<MarkdownFile>): seq<DocSummary> {
    var rs := Readable(fs);
    seq(|rs|, k requires 0 <= k < |rs| => DocSummary(ShortSummary(chat, model, rs[k].read.content), rs[k].path))
  }

  /** The per-document chat requests of a run: one per readable file, in order. */
  function ShortCalls(model: string, fs: seq<MarkdownFile>): seq<ChatRequest> {
    var rs := Readable(fs);
    seq(|rs|, k requires 0 <= k < |rs| => ShortRequest(model, rs[k].read.content))
  }

  /** `xs` is `ys` with some elements left out, the order kept. */
  ghost predicate IsSubsequence<T>(xs: seq<T>, ys: seq<T>)
    decreases |ys|
  {
    if xs == [] then true
    else if ys == [] then false
    else (xs[|xs| - 1] == ys[|ys| - 1] && IsSubsequence(xs[..|xs| - 1], ys[..|ys| - 1]))
         || IsSubsequence(xs, ys[..|ys| - 1])
  }

  /** Only read failures drop a file: the kept files are exactly the readable ones. */
  lemma {:induction false} ReadableMembers(fs: seq<MarkdownFile>, f: MarkdownFile)
    ensures f in Readable(fs) <==> f in fs && f.read.ReadOk?
    decreases |fs|
  {
    if fs != [] {
      var init := fs[..|fs| - 1];
      ReadableMembers(init, f);
      assert fs == init + [fs[|fs| - 1]];
    }
  }

  /** The kept files keep the enumeration order. */
  lemma {:induction false} ReadableIsSubsequence(fs: seq<MarkdownFile>)
    ensures IsSubsequence(Readable(fs), fs)
    decreases |fs|
  {
    if fs != [] {
      var init := fs[..|fs| - 1];
      ReadableIsSubsequence(init);
      var rs := Readable(fs);
      if fs[|fs| - 1].read.ReadOk? {
        assert rs[..|rs| - 1] == Readable(init);
      }
    }
  }

  /** When every read succeeds nothing is dropped. */
  lemma {:induction false} ReadableWhenAllRead(fs: seq<MarkdownFile>)
    requires forall k :: 0 <= k < |fs| ==> fs[k].read.ReadOk?
    ensures Readable(fs) == fs
    decreases |fs|
  {
    if fs != [] {
      var init := fs[..|fs| - 1];
      ReadableWhenAllRead(init);
      assert fs == init + [fs[|fs| - 1]];
    }
  }

  /** Each kept summary is the short summary of a file that was read, under that file's path. */
  lemma SummariesComeFromReadFiles(chat: Chat, model: string, fs: seq<MarkdownFile>, k: nat)
    requires k < |PerDocSummaries(chat, model, fs)|
    ensures exists f :: (f in fs && f.read.ReadOk?
      && PerDocSummaries(chat, model, fs)[k] == DocSummary(ShortSummary(chat, model, f.read.content), f.path))
  {
    var f := Readable(fs)[k];
    ReadableMembers(fs, f);
  }

  // ---------------------------------------------------------------------------
  // The run
  // ---------------------------------------------------------------------------

  lemma ReadableStep(fs: seq<MarkdownFile>, i: nat)
    requires i < |fs|
    ensures Readable(fs[..i + 1]) ==
      if fs[i].read.ReadOk? then Readable(fs[..i]) + [fs[i]] else Readable(fs[..i])
  {
    assert fs[..i + 1][..i] == fs[..i];
  }

  /** One more file adds its summary exactly when its read succeeds. */
  lemma PerDocSummariesStep(chat: Chat, model: string, fs: seq<MarkdownFile>, i: nat)
    requires i < |fs|
    ensures PerDocSummaries(chat, model, fs[..i + 1]) ==
      PerDocSummaries(chat, model, fs[..i])
      + (if fs[i].read.ReadOk?
         then [DocSummary(ShortSummary(chat, model, fs[i].read.content), fs[i].path)]
         else [])
  {
    ReadableStep(fs, i);
  }

  /** One more file adds its request exactly when its read succeeds. */
  lemma ShortCallsStep(model: string, fs: seq<MarkdownFile>, i: nat)
    requires i < |fs|
    ensures ShortCalls(model, fs[..i + 1]) ==
      ShortCalls(model, fs[..i])
      + (if fs[i].read.ReadOk? then [ShortRequest(model, fs[i].read.content)] else [])
  {
    ReadableStep(fs, i);
  }

  /** The k-th kept summary is the text of the reply to the k-th per-document request. */
  lemma SummariesAnswerCalls(chat: Chat, model: string, fs: seq<MarkdownFile>)
    ensures |PerDocSummaries(chat, model, fs)| == |ShortCalls(model, fs)| == |Readable(fs)|
    ensures forall k :: 0 <= k < |ShortCalls(model, fs)| ==>
      PerDocSummaries(chat, model, fs)[k].content == ShortSummaryText(chat(ShortCalls(model, fs)[k]))
    ensures forall k :: 0 <= k < |ShortCalls(model, fs)| ==> ShortCalls(model, fs)[k].model == model
  {
  }

  /**
   * `generateWeeklySummary` for a given week and year: render the path, stop if a
   * file is already there, otherwise summarize every readable document in turn,
   * ask once more for the review and create the output file with it.
   */
  method GenerateWeeklySummary(settings: Settings, weekNumber: nat, year: int, vault: Vault,
                               chat: Chat, createSucceeds: bool)
    returns (r: RunResult)
    ensures r.outputPath ==
      OutputPath(settings.outputFolder, RenderFileName(settings.outputPathTemplate, weekNumber, year))
    ensures r.outcome == AlreadyExists <==> r.outputPath in vault.files
    ensures r.outputPath in vault.files ==>
      r.documentsRead == [] && r.summaries == [] && r.chatCalls == [] && r.created == None
    ensures r.outputPath !in vault.files ==>
      && |r.documentsRead| == |vault.markdownFiles|
      && (forall k :: 0 <= k < |r.documentsRead| ==> r.documentsRead[k] == vault.markdownFiles[k].path)
      && r.summaries == PerDocSummaries(chat, settings.model, vault.markdownFiles)
      && r.chatCalls == ShortCalls(settings.model, vault.markdownFiles)
                        + [FinalRequest(settings.model, weekNumber, r.summaries)]
      && |r.chatCalls| == |Readable(vault.markdownFiles)| + 1
      && |r.summaries| <= |vault.markdownFiles|
      && (forall k :: 0 <= k < |r.summaries| ==>
            r.summaries[k].content == ShortSummaryText(chat(r.chatCalls[k])))
      && r.created == Some(CreateCall(r.outputPath, FinalReviewText(chat(r.chatCalls[|r.chatCalls| - 1]))))
      && r.outcome == (if createSucceeds then Generated else WriteFailed)
    ensures forall k :: 0 <= k < |r.chatCalls| ==> r.chatCalls[k].model == settings.model
  {
    var fileName := RenderFileName(settings.outputPathTemplate, weekNumber, year);
    var outputPath := OutputPath(settings.outputFolder, fileName);

    if outputPath in vault.files {
      return RunResult(outputPath, AlreadyExists, [], [], [], None);
    }

    var files := vault.markdownFiles;
    var documentsRead: seq<string> := [];
    var perDocSummaries: seq<DocSummary> := [];
    var calls: seq<ChatRequest> := [];
    var i := 0;
    while i < |files|
      invariant 0 <= i <= |files|
      invariant |documentsRead| == i
      invariant forall k :: 0 <= k < i ==> documentsRead[k] == files[k].path
      invariant perDocSummaries == PerDocSummaries(chat, settings.model, files[..i])
      invariant calls == ShortCalls(settings.model, files[..i])
    {
      var file := files[i];
      documentsRead := documentsRead + [file.path];
      PerDocSummariesStep(chat, settings.model, files, i);
      ShortCallsStep(settings.model, files, i);
      match file.read {
        case ReadOk(content) =>
          var request := ShortRequest(settings.model, content);
          calls := calls + [request];
          var shortSummary := ShortSummaryText(chat(request));
          perDocSummaries := perDocSummaries + [DocSummary(shortSummary, file.path)];
        case ReadFailed =>
      }
      i := i + 1;
    }
    assert files[..i] == files;
    SummariesAnswerCalls(chat, settings.model, files);

    var finalRequest := FinalRequest(settings.model, weekNumber, perDocSummaries);
    assert calls == ShortCalls(settings.model, files);
    ghost var shortCalls := calls;
    calls := calls + [finalRequest];
    assert forall k :: 0 <= k < |shortCalls| ==> calls[k] == shortCalls[k];
    assert calls[|calls| - 1] == finalRequest;
    assert forall k :: 0 <= k < |calls| ==> calls[k].model == settings.model;
    var finalSummary := FinalReviewText(chat(finalRequest));
    var outcome := if createSucceeds then Generated else WriteFailed;
    r := RunResult(outputPath, outcome, documentsRead, perDocSummaries, calls,
                   Some(CreateCall(outputPath, finalSummary)));
  }

  /**
   * A run over a vault with two readable documents and no existing summary reads
   * both, keeps one summary per document in order, asks the model three times and
   * creates the note.
   */
  method TwoDocumentRun(settings: Settings, weekNumber: nat, year: int, chat: Chat)
    returns (r: RunResult)
    ensures r.documentsRead == ["A", "B"]
    ensures |r.summaries| == 2 && r.summaries[0].filePath == "A" && r.summaries[1].filePath == "B"
    ensures |r.chatCalls| == 3
    ensures r.outcome == Generated && r.created.Some?
  {
    var fs := [MarkdownFile("A", ReadOk("Did X")), MarkdownFile("B", ReadOk("Did Y"))];
    ReadableWhenAllRead(fs);
    r := GenerateWeeklySummary(settings, weekNumber, year, Vault({}, fs), chat, true);
    assert r.documentsRead == [fs[0].path, fs[1].path];
  }
}
