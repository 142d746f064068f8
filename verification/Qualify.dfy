/** The parts of the qualification harness: outcomes, options, the outside world, the
    evidence directory, the bindings and the artifacts. */
module Qualify {
  import opened Text
  import opened Json
  import PollJob

  // ---- outcomes -------------------------------------------------------------------------------------

  datatype Outcome =
    | Pass | PassWithWarnings | QualificationIncomplete | RegressionFailed | ChatToolNotTriggered
    | ChatFailedDirectFallbackSucceeded | JobFailed | JobCancelled | JobExpired | JobLost | Timeout
    | ArtifactInvalid | BindingMismatch | ConfigurationError | InfrastructureError

  function ExitCode(o: Outcome): nat
  {
    match o
    case Pass => 0
    case PassWithWarnings => 0
    case QualificationIncomplete => 1
    case RegressionFailed => 1
    case ChatToolNotTriggered => 2
    case JobFailed => 3
    case JobCancelled => 3
    case JobExpired => 3
    case JobLost => 3
    case Timeout => 4
    case ArtifactInvalid => 5
    case ConfigurationError => 6
    case BindingMismatch => 7
    case InfrastructureError => 8
    case ChatFailedDirectFallbackSucceeded => 9
  }

  /** The documented table. */
  lemma ExitCodeIs(o: Outcome)
    ensures o in {Pass, PassWithWarnings} <==> ExitCode(o) == 0
    ensures o in {QualificationIncomplete, RegressionFailed} <==> ExitCode(o) == 1
    ensures o == ChatToolNotTriggered <==> ExitCode(o) == 2
    ensures o in {JobFailed, JobCancelled, JobExpired, JobLost} <==> ExitCode(o) == 3
    ensures o == Timeout <==> ExitCode(o) == 4
    ensures o == ArtifactInvalid <==> ExitCode(o) == 5
    ensures o == ConfigurationError <==> ExitCode(o) == 6
    ensures o == BindingMismatch <==> ExitCode(o) == 7
    ensures o == InfrastructureError <==> ExitCode(o) == 8
    ensures o == ChatFailedDirectFallbackSucceeded <==> ExitCode(o) == 9
  {
  }

  /** A phase hands a value on, ends the run with an outcome, or raises. */
  datatype Phase<+T> = Next(value: T) | End(outcome: Outcome) | Raises

  // ---- the outside world ----------------------------------------------------------------------------

  /** One call to the gateway: its value, an HTTP status that is an error, a URLError, or
      an exception nobody catches. */
  datatype Call<+T> = Good(value: T) | HttpStatus(code: int) | UrlFailed | Uncaught

  datatype Artifact = Artifact(filename: string, mediaType: string, data: Bytes)

  datatype Criteria = Criteria(minResults: int, requireXlsx: bool, requireMarkdown: bool, requireInvariant: bool)

  const DEFAULT_ACCEPTANCE: Criteria := Criteria(1, true, true, true)

  /** The command line as parsed; an option that is absent or empty is "". */
  datatype Args = Args(chatMode: bool, chatPrompt: string, chatPromptFile: string, strictChat: bool,
                       allowFallback: bool, contextKb: string, chatContextKb: string)

  datatype ArgError =
    | NotOnePrompt | FallbackAndStrict | PromptInDirectMode | ChatContextInDirectMode | ContextInChatMode

  /** Chat mode takes exactly one prompt, no direct context, and not both of strict and
      fallback; direct mode takes nothing of chat's. */
  predicate ArgsValid(args: Args)
  {
    if args.chatMode then
      (args.chatPrompt == "" <==> args.chatPromptFile != "") && args.contextKb == ""
      && !(args.allowFallback && args.strictChat)
    else
      args.chatPrompt == "" && args.chatPromptFile == "" && args.chatContextKb == ""
  }

  method ValidateArgs(args: Args) returns (r: Option<ArgError>)
    ensures r.None? <==> ArgsValid(args)
  {
    if args.chatMode {
      if (args.chatPrompt != "") == (args.chatPromptFile != "") {
        return Some(NotOnePrompt);
      }
      if args.allowFallback && args.strictChat {
        return Some(FallbackAndStrict);
      }
    }
    if !args.chatMode && (args.chatPrompt != "" || args.chatPromptFile != "") {
      return Some(PromptInDirectMode);
    }
    if !args.chatMode && args.chatContextKb != "" {
      return Some(ChatContextInDirectMode);
    }
    if args.chatMode && args.contextKb != "" {
      return Some(ContextInChatMode);
    }
    r := None;
  }

  /** Everything the run reads, and whether the evidence directory can be made. The criteria
      are the defaults updated from the acceptance file; None is a file that cannot be used.
      The validators return their problems. */
  datatype World = World(
    dirCreated: bool, sessionId: string, prompt: Option<Bytes>, promptIsText: bool, workbook: Option<Bytes>,
    upload: Call<Json>, chatCalledTool: Call<bool>, sessionJob: Call<Option<PollJob.Job>>, direct: Call<Json>,
    poll: PollJob.Trace, results: Call<Json>, artifacts: Call<seq<Artifact>>, criteria: Option<Criteria>,
    validateXlsx: (Bytes, Json) -> seq<string>, validateMarkdown: (Bytes, Json) -> seq<string>)

  // ---- the evidence directory -----------------------------------------------------------------------

  datatype EvidenceFile =
    | RunManifest | InputWorkbook | InputWorkbookHash | Prompt | PromptHash | ChatRequest | ChatResponse
    | ToolCall | UploadResponse | JobStatus | Results | ReportMarkdown | ReportXlsx | ArtifactHashes
    | AcceptanceResult | ExecutionLog

  datatype Evidence = Raw(bytes: Bytes) | Document(json: Json) | Verdict(passed: bool) | Derived

  class EvidenceDir {
    var files: map<EvidenceFile, Evidence>

    constructor ()
      ensures files.Keys == {ExecutionLog}
    {
      files := map[ExecutionLog := Raw([])];
    }

    /** Refuses to write a file twice; nothing already written ever changes. */
    method Write(name: EvidenceFile, data: Evidence) returns (ok: bool)
      modifies this
      ensures ok <==> name !in old(files)
      ensures files == if ok then old(files)[name := data] else old(files)
    {
      if name in files {
        return false;
      }
      files := files[name := data];
      ok := true;
    }
  }

  // ---- bindings -------------------------------------------------------------------------------------

  datatype Problem = SessionMismatch | AttachmentMismatch | MissingAcp | MissingCco | CcoMismatch | ResultsWithoutCco

  /** `d.get(key) or {}`, which must be an object. */
  function ObjectField(fields: map<string, Json>, key: string): Option<map<string, Json>>
  {
    var v := Field(fields, key);
    if !Truthy(v) then Some(map[]) else if v.Obj? then Some(v.fields) else None
  }

  /** The results list, as far as its items can be asked for fields. */
  function ResultItems(results: map<string, Json>): Option<seq<map<string, Json>>>
  {
    var v := Field(results, "results");
    if !Truthy(v) then Some([])
    else if v.Arr? && forall j | j in v.items :: j.Obj? then
      Some(seq(|v.items|, i requires 0 <= i < |v.items| && v.items[i].Obj? => v.items[i].fields))
    else None
  }

  /** Results of a shape that `verify_bindings` gets through without an exception. */
  predicate Readable(results: Json)
  {
    results.Obj? && ObjectField(results.fields, "global_cco").Some? && ResultItems(results.fields).Some?
  }

  /** A key that is missing, or holds something false, gives an empty object; anything else
      must be one. */
  lemma ObjectFieldIs(fields: map<string, Json>, key: string)
    ensures key !in fields || fields[key] == Null ==> ObjectField(fields, key) == Some(map[])
    ensures key in fields && fields[key].Obj? ==> ObjectField(fields, key) == Some(fields[key].fields)
    ensures key in fields && fields[key] in {Bool(true), Num(1)} ==> ObjectField(fields, key) == None
  {
  }

  /** The results are the objects of the list, in order. */
  lemma ResultItemsAre(results: map<string, Json>, list: seq<Json>)
    requires Field(results, "results") == Arr(list) && forall j | j in list :: j.Obj?
    ensures ResultItems(results).Some? && |ResultItems(results).value| == |list|
    ensures forall i | 0 <= i < |list| :: Obj(ResultItems(results).value[i]) == list[i]
  {
    forall i | 0 <= i < |list| ensures list[i].Obj? { assert list[i] in list; }
  }

  /** What "the bindings have no problems" means. */
  predicate BindingsHold(sessionId: string, attachmentId: Json, job: PollJob.Job, results: map<string, Json>)
    requires Readable(Obj(results))
  {
    var jobCco := Field(job, "portfolio_id");
    var resultCco := Field(ObjectField(results, "global_cco").value, "global_cco_id");
    && Field(job, "session_id") in {Null, Text(sessionId)}
    && Field(job, "attachment_id") in {Null, attachmentId}
    && Truthy(Field(job, "acp_id")) && Field(job, "acp_version") != Null
    && Truthy(jobCco) && (Truthy(resultCco) ==> resultCco == jobCco)
    && forall i | 0 <= i < |ResultItems(results).value| :: Truthy(Field(ResultItems(results).value[i], "global_cco_id"))
  }

  /** What the problems of the job mean. */
  predicate JobProblem(p: Problem, sessionId: string, attachmentId: Json, job: PollJob.Job)
  {
    match p
    case SessionMismatch => Field(job, "session_id") !in {Null, Text(sessionId)}
    case AttachmentMismatch => Field(job, "attachment_id") !in {Null, attachmentId}
    case MissingAcp => !Truthy(Field(job, "acp_id")) || Field(job, "acp_version") == Null
    case _ => false
  }

  predicate CcoProblem(p: Problem, jobCco: Json, resultCco: Json)
  {
    match p
    case MissingCco => !Truthy(jobCco)
    case CcoMismatch => Truthy(jobCco) && Truthy(resultCco) && resultCco != jobCco
    case _ => false
  }

  predicate ResultsProblem(p: Problem, items: seq<map<string, Json>>)
  {
    p == ResultsWithoutCco && exists i | 0 <= i < |items| :: !Truthy(Field(items[i], "global_cco_id"))
  }

  predicate HasProblem(p: Problem, sessionId: string, attachmentId: Json, job: PollJob.Job, results: map<string, Json>)
    requires Readable(Obj(results))
  {
    || JobProblem(p, sessionId, attachmentId, job)
    || CcoProblem(p, Field(job, "portfolio_id"), Field(ObjectField(results, "global_cco").value, "global_cco_id"))
    || ResultsProblem(p, ResultItems(results).value)
  }

  method JobProblems(sessionId: string, attachmentId: Json, job: PollJob.Job) returns (problems: seq<Problem>)
    ensures forall p :: p in problems <==> JobProblem(p, sessionId, attachmentId, job)
  {
    problems := [];
    if Field(job, "session_id") != Null && Field(job, "session_id") != Text(sessionId) {
      problems := problems + [SessionMismatch];
    }
    if Field(job, "attachment_id") != Null && Field(job, "attachment_id") != attachmentId {
      problems := problems + [AttachmentMismatch];
    }
    if !Truthy(Field(job, "acp_id")) || Field(job, "acp_version") == Null {
      problems := problems + [MissingAcp];
    }
  }

  method CcoProblems(jobCco: Json, resultCco: Json) returns (problems: seq<Problem>)
    ensures forall p :: p in problems <==> CcoProblem(p, jobCco, resultCco)
  {
    problems := [];
    if !Truthy(jobCco) {
      problems := problems + [MissingCco];
    } else if Truthy(resultCco) && resultCco != jobCco {
      problems := problems + [CcoMismatch];
    }
  }

  method ResultsProblems(items: seq<map<string, Json>>) returns (problems: seq<Problem>)
    ensures forall p :: p in problems <==> ResultsProblem(p, items)
  {
    var bad, i := 0, 0;
    while i < |items|
      invariant 0 <= i <= |items|
      invariant bad == 0 <==> forall k | 0 <= k < i :: Truthy(Field(items[k], "global_cco_id"))
      invariant bad >= 0
    {
      if !Truthy(Field(items[i], "global_cco_id")) {
        bad := bad + 1;
      }
      i := i + 1;
    }
    problems := if bad > 0 then [ResultsWithoutCco] else [];
  }

  /** The binding checks, problem by problem; None is an exception. */
  method VerifyBindings(sessionId: string, attachmentId: Json, job: PollJob.Job, results: Json)
    returns (r: Option<seq<Problem>>)
    ensures r.Some? <==> Readable(results)
    ensures r.Some? ==> forall p :: p in r.value <==> HasProblem(p, sessionId, attachmentId, job, results.fields)
    ensures r.Some? ==> (r.value == [] <==> BindingsHold(sessionId, attachmentId, job, results.fields))
  {
    if !results.Obj? {
      return None;
    }
    var ofJob := JobProblems(sessionId, attachmentId, job);
    var globalCco := ObjectField(results.fields, "global_cco");
    if globalCco.None? {
      return None;
    }
    var ofCco := CcoProblems(Field(job, "portfolio_id"), Field(globalCco.value, "global_cco_id"));
    var items := ResultItems(results.fields);
    if items.None? {
      return None;
    }
    var ofResults := ResultsProblems(items.value);
    r := Some(ofJob + ofCco + ofResults);
    NoProblemIff(sessionId, attachmentId, job, results.fields);
    assert r.value != [] ==> r.value[0] in r.value;
  }

  /** Bindings hold when there is no problem. */
  lemma NoProblemIff(sessionId: string, attachmentId: Json, job: PollJob.Job, results: map<string, Json>)
    requires Readable(Obj(results))
    ensures BindingsHold(sessionId, attachmentId, job, results)
       <==> forall p :: !HasProblem(p, sessionId, attachmentId, job, results)
  {
    forall p ensures HasProblem(p, sessionId, attachmentId, job, results) ==>
        p in {SessionMismatch, AttachmentMismatch, MissingAcp, MissingCco, CcoMismatch, ResultsWithoutCco} {}
    if !BindingsHold(sessionId, attachmentId, job, results) {
      var p := BrokenBinding(sessionId, attachmentId, job, results);
    }
  }

  lemma BrokenBinding(sessionId: string, attachmentId: Json, job: PollJob.Job, results: map<string, Json>)
    returns (p: Problem)
    requires Readable(Obj(results)) && !BindingsHold(sessionId, attachmentId, job, results)
    ensures HasProblem(p, sessionId, attachmentId, job, results)
  {
    p := if JobProblem(SessionMismatch, sessionId, attachmentId, job) then SessionMismatch
         else if JobProblem(AttachmentMismatch, sessionId, attachmentId, job) then AttachmentMismatch
         else if JobProblem(MissingAcp, sessionId, attachmentId, job) then MissingAcp
         else if HasProblem(MissingCco, sessionId, attachmentId, job, results) then MissingCco
         else if HasProblem(CcoMismatch, sessionId, attachmentId, job, results) then CcoMismatch
         else ResultsWithoutCco;
  }

  // ---- artifacts ------------------------------------------------------------------------------------

  predicate TakesXlsxBranch(a: Artifact)
  {
    Contains(a.mediaType, "spreadsheetml") || EndsWith(a.filename, ".xlsx")
  }

  predicate IsMarkdown(a: Artifact)
  {
    EndsWith(a.filename, ".md") || Contains(a.mediaType, "markdown")
  }

  predicate TakesMarkdownBranch(a: Artifact)
  {
    !TakesXlsxBranch(a) && IsMarkdown(a)
  }

  /** A workbook by its type or its ending, otherwise Markdown by either. */
  lemma BranchesAre(a: Artifact)
    ensures TakesXlsxBranch(a) <==>
              HasWord(a.mediaType, "spreadsheetml") || exists p: Bytes :: a.filename == p + ".xlsx"
    ensures TakesMarkdownBranch(a) <==>
              && !TakesXlsxBranch(a)
              && (HasWord(a.mediaType, "markdown") || exists p: Bytes :: a.filename == p + ".md")
  {
    ContainsIff(a.mediaType, "spreadsheetml");
    EndsWithIff(a.filename, ".xlsx");
    ContainsIff(a.mediaType, "markdown");
    EndsWithIff(a.filename, ".md");
  }

  ghost predicate AtMostOne(artifacts: seq<Artifact>, branch: Artifact -> bool)
  {
    forall i, j | 0 <= i < |artifacts| && 0 <= j < |artifacts| && branch(artifacts[i]) && branch(artifacts[j]) :: i == j
  }

  type Validator = (Bytes, Json) -> seq<string>

  /** The problems of the last artifact that took a branch. */
  function LastProblems(artifacts: seq<Artifact>, branch: Artifact -> bool, validate: Validator, results: Json)
    : seq<string>
  {
    if artifacts == [] then []
    else
      var last := artifacts[|artifacts| - 1];
      if branch(last) then validate(last.data, results)
      else LastProblems(artifacts[..|artifacts| - 1], branch, validate, results)
  }

  ghost predicate AllClean(artifacts: seq<Artifact>, branch: Artifact -> bool, validate: Validator, results: Json)
  {
    forall i | 0 <= i < |artifacts| && branch(artifacts[i]) :: validate(artifacts[i].data, results) == []
  }

  /** With at most one report of a kind, the last one's problems are all there are. */
  lemma {:induction false} LastIsAll(artifacts: seq<Artifact>, branch: Artifact -> bool, validate: Validator,
                                     results: Json)
    requires AtMostOne(artifacts, branch)
    ensures LastProblems(artifacts, branch, validate, results) == [] <==> AllClean(artifacts, branch, validate, results)
  {
    if artifacts != [] {
      var n := |artifacts| - 1;
      if !branch(artifacts[n]) {
        LastIsAll(artifacts[..n], branch, validate, results);
        assert forall i | 0 <= i < n :: artifacts[..n][i] == artifacts[i];
      }
    }
  }

  ghost predicate Took(artifacts: seq<Artifact>, branch: Artifact -> bool)
  {
    exists i | 0 <= i < |artifacts| :: branch(artifacts[i])
  }

  lemma TookOneMore(done: seq<Artifact>, a: Artifact, branch: Artifact -> bool)
    ensures Took(done + [a], branch) <==> Took(done, branch) || branch(a)
    ensures AtMostOne(done + [a], branch) <==> AtMostOne(done, branch) && !(Took(done, branch) && branch(a))
  {
    var longer := done + [a];
    assert longer[|done|] == a;
    assert forall i | 0 <= i < |done| :: longer[i] == done[i];
    if Took(done, branch) && branch(a) {
      var i :| 0 <= i < |done| && branch(done[i]);
      assert branch(longer[i]) && branch(longer[|done|]);
    }
  }

  /** What is known of one kind of report after the artifacts `done`. */
  ghost predicate Checked(done: seq<Artifact>, branch: Artifact -> bool, validate: Validator, results: Json,
                          kept: bool, problems: seq<string>)
  {
    && (kept <==> Took(done, branch)) && AtMostOne(done, branch)
    && problems == LastProblems(done, branch, validate, results)
  }

  lemma OneMore(done: seq<Artifact>, a: Artifact, branch: Artifact -> bool, validate: Validator, results: Json,
                kept: bool, problems: seq<string>)
    requires Checked(done, branch, validate, results, kept, problems)
    ensures branch(a) && kept ==> !AtMostOne(done + [a], branch)
    ensures !(branch(a) && kept) ==>
              Checked(done + [a], branch, validate, results, kept || branch(a),
                      if branch(a) then validate(a.data, results) else problems)
  {
    TookOneMore(done, a, branch);
    assert (done + [a])[..|done|] == done;
  }

  lemma {:induction false} PrefixAtMostOne(artifacts: seq<Artifact>, i: nat, branch: Artifact -> bool)
    requires i <= |artifacts| && AtMostOne(artifacts, branch)
    ensures AtMostOne(artifacts[..i], branch)
  {
    assert forall k | 0 <= k < i :: artifacts[..i][k] == artifacts[k];
  }

  /** The artifact loop: the problems of the XLSX and of the Markdown report, or None when
      a second report of a kind meets the write-once directory. */
  method CheckArtifacts(w: World, ev: EvidenceDir, artifacts: seq<Artifact>, results: Json)
    returns (r: Option<(seq<string>, seq<string>)>)
    requires ReportXlsx !in ev.files && ReportMarkdown !in ev.files
    requires w.artifacts == Good(artifacts) && Recorded(w, ev.files)
    modifies ev
    ensures Recorded(w, ev.files)
    ensures r.Some? <==> AtMostOne(artifacts, TakesXlsxBranch) && AtMostOne(artifacts, TakesMarkdownBranch)
    ensures r.Some? ==>
              && r.value.0 == LastProblems(artifacts, TakesXlsxBranch, w.validateXlsx, results)
              && r.value.1 == LastProblems(artifacts, TakesMarkdownBranch, w.validateMarkdown, results)
    ensures Grown(old(ev.files), ev.files, {ReportXlsx, ReportMarkdown})
  {
    var xlsx: seq<string>, markdown: seq<string>, i := [], [], 0;
    while i < |artifacts|
      invariant 0 <= i <= |artifacts|
      invariant Checked(artifacts[..i], TakesXlsxBranch, w.validateXlsx, results, ReportXlsx in ev.files, xlsx)
      invariant Checked(artifacts[..i], TakesMarkdownBranch, w.validateMarkdown, results, ReportMarkdown in ev.files,
                        markdown)
      invariant Grown(old(ev.files), ev.files, {ReportXlsx, ReportMarkdown}) && Recorded(w, ev.files)
    {
      assert artifacts[..i + 1] == artifacts[..i] + [artifacts[i]];
      var ok;
      ok, xlsx, markdown := CheckArtifact(w, ev, artifacts[..i], artifacts[i], results, xlsx, markdown);
      if !ok {
        NotEvenPrefix(artifacts, i + 1);
        return None;
      }
      i := i + 1;
    }
    assert artifacts[..|artifacts|] == artifacts;
    r := Some((xlsx, markdown));
  }

  method CheckArtifact(w: World, ev: EvidenceDir, ghost done: seq<Artifact>, a: Artifact, results: Json,
                       xlsxBefore: seq<string>, markdownBefore: seq<string>)
    returns (ok: bool, xlsx: seq<string>, markdown: seq<string>)
    requires w.artifacts.Good? && a in w.artifacts.value && Recorded(w, ev.files)
    requires Checked(done, TakesXlsxBranch, w.validateXlsx, results, ReportXlsx in ev.files, xlsxBefore)
    requires Checked(done, TakesMarkdownBranch, w.validateMarkdown, results, ReportMarkdown in ev.files, markdownBefore)
    modifies ev
    ensures Grown(old(ev.files), ev.files, {ReportXlsx, ReportMarkdown}) && Recorded(w, ev.files)
    ensures !ok ==> !AtMostOne(done + [a], TakesXlsxBranch) || !AtMostOne(done + [a], TakesMarkdownBranch)
    ensures ok ==>
              && Checked(done + [a], TakesXlsxBranch, w.validateXlsx, results, ReportXlsx in ev.files, xlsx)
              && Checked(done + [a], TakesMarkdownBranch, w.validateMarkdown, results, ReportMarkdown in ev.files,
                         markdown)
  {
    OneMore(done, a, TakesXlsxBranch, w.validateXlsx, results, ReportXlsx in ev.files, xlsxBefore);
    OneMore(done, a, TakesMarkdownBranch, w.validateMarkdown, results, ReportMarkdown in ev.files, markdownBefore);
    xlsx, markdown := xlsxBefore, markdownBefore;
    ghost var before := ev.files;
    ok := KeepReport(ev, a);
    ReportRecorded(w, before, ev.files, a);
    if ok && TakesXlsxBranch(a) {
      xlsx := w.validateXlsx(a.data, results);
    } else if ok && TakesMarkdownBranch(a) {
      markdown := w.validateMarkdown(a.data, results);
    }
  }

  lemma ReportRecorded(w: World, before: map<EvidenceFile, Evidence>, after: map<EvidenceFile, Evidence>, a: Artifact)
    requires Recorded(w, before) && Grown(before, after, {ReportXlsx, ReportMarkdown})
    requires w.artifacts.Good? && a in w.artifacts.value
    requires ReportXlsx in after && ReportXlsx !in before ==> TakesXlsxBranch(a) && after[ReportXlsx] == Raw(a.data)
    requires ReportMarkdown in after && ReportMarkdown !in before ==>
               TakesMarkdownBranch(a) && after[ReportMarkdown] == Raw(a.data)
    ensures Recorded(w, after)
  {
    var artifacts := w.artifacts.value;
    var i :| 0 <= i < |artifacts| && artifacts[i] == a;
    forall f | f in after ensures Right(w, f, after[f]) {
      assert f in before || f == ReportXlsx || f == ReportMarkdown;
    }
  }

  lemma NotEvenPrefix(artifacts: seq<Artifact>, i: nat)
    requires i <= |artifacts|
    requires !AtMostOne(artifacts[..i], TakesXlsxBranch) || !AtMostOne(artifacts[..i], TakesMarkdownBranch)
    ensures !AtMostOne(artifacts, TakesXlsxBranch) || !AtMostOne(artifacts, TakesMarkdownBranch)
  {
    if AtMostOne(artifacts, TakesXlsxBranch) { PrefixAtMostOne(artifacts, i, TakesXlsxBranch); }
    if AtMostOne(artifacts, TakesMarkdownBranch) { PrefixAtMostOne(artifacts, i, TakesMarkdownBranch); }
  }

  /** Files have been added, among the given ones, and none changed. */
  ghost predicate Grown(before: map<EvidenceFile, Evidence>, after: map<EvidenceFile, Evidence>,
                        added: set<EvidenceFile>)
  {
    && after.Keys <= before.Keys + added
    && forall f | f in before :: f in after && after[f] == before[f]
  }

  /** What is written into a file is what was sent or received. */
  ghost predicate Right(w: World, name: EvidenceFile, data: Evidence)
  {
    match name
    case Prompt => w.prompt.Some? && data == Raw(w.prompt.value)
    case InputWorkbook => w.workbook.Some? && data == Raw(w.workbook.value)
    case UploadResponse => w.upload.Good? && data == Document(w.upload.value)
    case Results => w.results.Good? && data == Document(w.results.value)
    case ReportXlsx => w.artifacts.Good? && IsReport(w.artifacts.value, TakesXlsxBranch, data)
    case ReportMarkdown => w.artifacts.Good? && IsReport(w.artifacts.value, TakesMarkdownBranch, data)
    case _ => true
  }

  /** So it is with every evidence file there is. */
  ghost predicate Recorded(w: World, files: map<EvidenceFile, Evidence>)
  {
    forall f | f in files :: Right(w, f, files[f])
  }

  ghost predicate IsReport(artifacts: seq<Artifact>, branch: Artifact -> bool, e: Evidence)
  {
    exists i | 0 <= i < |artifacts| :: branch(artifacts[i]) && e == Raw(artifacts[i].data)
  }

  const RECORDS: set<EvidenceFile> := {Prompt, InputWorkbook, UploadResponse, Results, ReportXlsx, ReportMarkdown}

  lemma RecordedGrows(w: World, before: map<EvidenceFile, Evidence>, after: map<EvidenceFile, Evidence>,
                      added: set<EvidenceFile>)
    requires Recorded(w, before) && Grown(before, after, added) && added !! RECORDS
    ensures Recorded(w, after)
  {
    forall f | f in after ensures Right(w, f, after[f]) {
      if f !in before { assert f in added && f !in RECORDS; }
    }
  }

  method KeepReport(ev: EvidenceDir, a: Artifact) returns (ok: bool)
    modifies ev
    ensures ok <==> && !(TakesXlsxBranch(a) && ReportXlsx in old(ev.files))
                    && !(TakesMarkdownBranch(a) && ReportMarkdown in old(ev.files))
    ensures Grown(old(ev.files), ev.files, {ReportXlsx, ReportMarkdown})
    ensures ReportXlsx in ev.files <==> ReportXlsx in old(ev.files) || TakesXlsxBranch(a)
    ensures ReportMarkdown in ev.files <==> ReportMarkdown in old(ev.files) || TakesMarkdownBranch(a)
    ensures ReportXlsx in ev.files && ReportXlsx !in old(ev.files) ==> ev.files[ReportXlsx] == Raw(a.data)
    ensures ReportMarkdown in ev.files && ReportMarkdown !in old(ev.files) ==> ev.files[ReportMarkdown] == Raw(a.data)
  {
    if TakesXlsxBranch(a) {
      ok := ev.Write(ReportXlsx, Raw(a.data));
    } else if TakesMarkdownBranch(a) {
      ok := ev.Write(ReportMarkdown, Raw(a.data));
    } else {
      ok := true;
    }
  }
}
