/** The decision pipeline from the prompt to the exit code, and what exit code 0 certifies. */
module Pipeline {
  import opened Text
  import opened Json
  import opened PollJob
  import opened Qualify

  const COMPLETED: Json := Text("COMPLETED")
  const COMPLETED_WITH_WARNINGS: Json := Text("COMPLETED_WITH_WARNINGS")

  // ---- acceptance -----------------------------------------------------------------------------------

  datatype Check =
    | TerminalStateCompleted | MinResults | XlsxArtifactPresent | MarkdownArtifactPresent
    | XlsxStructure | MarkdownStructure | ReconciliationInvariant | BindingsCheck

  /** `len(results.get("results") or [])`. */
  function ResultCount(results: map<string, Json>): Option<nat>
  {
    var v := Field(results, "results");
    if !Truthy(v) then Some(0)
    else match v
      case Arr(items) => Some(|items|)
      case Text(s) => Some(|s|)
      case Obj(fields) => Some(|fields|)
      case _ => None
  }

  /** `{filename: media type}`; a later artifact hides an earlier one of the same name. */
  function Kinds(artifacts: seq<Artifact>): map<string, string>
  {
    if artifacts == [] then map[]
    else
      var last := artifacts[|artifacts| - 1];
      Kinds(artifacts[..|artifacts| - 1])[last.filename := last.mediaType]
  }

  predicate HasXlsx(artifacts: seq<Artifact>)
  {
    exists name | name in Kinds(artifacts) :: Contains(Kinds(artifacts)[name], "spreadsheetml")
  }

  predicate HasMarkdown(artifacts: seq<Artifact>)
  {
    exists name | name in Kinds(artifacts) :: Contains(Kinds(artifacts)[name], "markdown") || EndsWith(name, ".md")
  }

  /** `i` is the last artifact of its name. */
  predicate LastOfName(artifacts: seq<Artifact>, i: nat)
    requires i < |artifacts|
  {
    forall j | i < j < |artifacts| :: artifacts[j].filename != artifacts[i].filename
  }

  lemma {:induction false} KindOfLast(artifacts: seq<Artifact>, i: nat)
    requires i < |artifacts| && LastOfName(artifacts, i)
    ensures artifacts[i].filename in Kinds(artifacts)
    ensures Kinds(artifacts)[artifacts[i].filename] == artifacts[i].mediaType
    decreases |artifacts|
  {
    var n := |artifacts| - 1;
    if i < n {
      assert forall j | i < j < n :: artifacts[..n][j].filename == artifacts[j].filename;
      KindOfLast(artifacts[..n], i);
    }
  }

  lemma {:induction false} KindHasLast(artifacts: seq<Artifact>, name: string) returns (i: nat)
    requires name in Kinds(artifacts)
    ensures i < |artifacts| && LastOfName(artifacts, i) && artifacts[i].filename == name
    ensures artifacts[i].mediaType == Kinds(artifacts)[name]
    decreases |artifacts|
  {
    var n := |artifacts| - 1;
    if artifacts[n].filename == name {
      i := n;
    } else {
      i := KindHasLast(artifacts[..n], name);
      forall j | i < j < |artifacts| ensures artifacts[j].filename != name {
        assert j < n ==> artifacts[..n][j] == artifacts[j];
      }
    }
  }

  /** There is a workbook, or a Markdown report, if one of the artifacts last of their names
      is one: the workbook by its type alone. */
  lemma PresentIff(artifacts: seq<Artifact>)
    ensures HasXlsx(artifacts) <==>
              exists i | 0 <= i < |artifacts| ::
                LastOfName(artifacts, i) && HasWord(artifacts[i].mediaType, "spreadsheetml")
    ensures HasMarkdown(artifacts) <==>
              exists i | 0 <= i < |artifacts| :: LastOfName(artifacts, i) && IsMarkdown(artifacts[i])
  {
    forall i: nat | i < |artifacts| && LastOfName(artifacts, i)
      ensures artifacts[i].filename in Kinds(artifacts)
      ensures Kinds(artifacts)[artifacts[i].filename] == artifacts[i].mediaType
    {
      KindOfLast(artifacts, i);
    }
    forall text: Bytes ensures Contains(text, "spreadsheetml") <==> HasWord(text, "spreadsheetml") {
      ContainsIff(text, "spreadsheetml");
    }
    if HasXlsx(artifacts) {
      var name :| name in Kinds(artifacts) && Contains(Kinds(artifacts)[name], "spreadsheetml");
      var i := KindHasLast(artifacts, name);
    }
    if HasMarkdown(artifacts) {
      var name :| name in Kinds(artifacts) && (Contains(Kinds(artifacts)[name], "markdown") || EndsWith(name, ".md"));
      var i := KindHasLast(artifacts, name);
    }
  }

  predicate IsCompleted(job: Job)
  {
    Field(job, "state") == COMPLETED || Field(job, "state") == COMPLETED_WITH_WARNINGS
  }

  predicate InvariantOk(results: map<string, Json>)
  {
    ObjectField(results, "source_reconciliation").Some?
    && Field(ObjectField(results, "source_reconciliation").value, "invariant_ok") == Bool(true)
  }

  /** The invariant is an object's field, and True itself. */
  lemma InvariantIff(results: map<string, Json>)
    ensures InvariantOk(results) <==>
              && Field(results, "source_reconciliation").Obj?
              && Field(Field(results, "source_reconciliation").fields, "invariant_ok") == Bool(true)
  {
    FalsyIff(Field(results, "source_reconciliation"));
  }

  /** The acceptance criteria, said outright. */
  predicate Accepted(job: Job, results: map<string, Json>, artifacts: seq<Artifact>, c: Criteria)
  {
    && IsCompleted(job)
    && ResultCount(results).Some? && ResultCount(results).value >= c.minResults
    && (c.requireXlsx ==> HasXlsx(artifacts))
    && (c.requireMarkdown ==> HasMarkdown(artifacts))
    && (c.requireInvariant ==> InvariantOk(results))
  }

  /** None is an exception on results of the wrong shape. */
  method EvaluateAcceptance(job: Job, results: map<string, Json>, artifacts: seq<Artifact>,
                            xlsxProblems: seq<string>, markdownProblems: seq<string>, bindingProblems: seq<Problem>,
                            criteria: Criteria) returns (r: Option<bool>)
    ensures r.None? <==> !Judgeable(results, criteria)
    ensures r.Some? ==> (r.value <==> (&& Accepted(job, results, artifacts, criteria)
                                       && xlsxProblems == [] && markdownProblems == [] && bindingProblems == []))
  {
    var checks := With([], TerminalStateCompleted, IsCompleted(job));
    var count := ResultCount(results);
    if count.None? {
      return None;
    }
    checks := With(checks, MinResults, count.value >= criteria.minResults);
    if criteria.requireXlsx {
      checks := With(checks, XlsxArtifactPresent, HasXlsx(artifacts));
    }
    if criteria.requireMarkdown {
      checks := With(checks, MarkdownArtifactPresent, HasMarkdown(artifacts));
    }
    if xlsxProblems != [] {
      checks := With(checks, XlsxStructure, false);
    }
    if markdownProblems != [] {
      checks := With(checks, MarkdownStructure, false);
    }
    if criteria.requireInvariant {
      if ObjectField(results, "source_reconciliation").None? {
        return None;
      }
      checks := With(checks, ReconciliationInvariant, InvariantOk(results));
    }
    if bindingProblems != [] {
      checks := With(checks, BindingsCheck, false);
    }
    r := Some(AllPassed(checks));
  }

  /** Results that the checks can be evaluated on. */
  predicate Judgeable(results: map<string, Json>, criteria: Criteria)
  {
    ResultCount(results).Some? && (criteria.requireInvariant ==> ObjectField(results, "source_reconciliation").Some?)
  }

  function With(checks: seq<(Check, bool)>, check: Check, passed: bool): (r: seq<(Check, bool)>)
    ensures AllPassed(r) <==> AllPassed(checks) && passed
  {
    var r := checks + [(check, passed)];
    assert r[|checks|].1 == passed;
    assert forall i | 0 <= i < |checks| :: r[i] == checks[i];
    r
  }

  predicate AllPassed(checks: seq<(Check, bool)>)
  {
    forall i | 0 <= i < |checks| :: checks[i].1
  }

  // ---- the trigger ----------------------------------------------------------------------------------

  /** The job polled, and whether it took the fallback to get it. */
  function Triggered(w: World, args: Args): Phase<(Json, bool)>
  {
    if !args.chatMode then StartDirect(w, false)
    else if !w.promptIsText then Raises
    else match w.chatCalledTool
      case Uncaught => Raises
      case HttpStatus(_) => End(InfrastructureError)
      case UrlFailed => End(InfrastructureError)
      case Good(called) =>
        if called && !w.sessionJob.Good? then Raises
        else
          var id := if called then SessionJobId(w.sessionJob.value) else Null;
          if Truthy(id) then Next((id, false))
          else if !args.allowFallback then End(ChatToolNotTriggered)
          else if id == Null then StartDirect(w, true)
          else Next((id, true))
  }

  function SessionJobId(job: Option<Job>): Json
  {
    match job
    case None => Null
    case Some(fields) => Field(fields, "job_id")
  }

  function StartDirect(w: World, fallback: bool): Phase<(Json, bool)>
  {
    match w.direct
    case Uncaught => Raises
    case HttpStatus(_) => End(InfrastructureError)
    case UrlFailed => End(InfrastructureError)
    case Good(response) =>
      if !response.Obj? then Raises
      else if !Truthy(Field(response.fields, "job_id")) then End(InfrastructureError)
      else Next((Field(response.fields, "job_id"), fallback))
  }

  /** The job id the agent's chat turn led to. */
  function AgentJobId(w: World): Json
  {
    if w.chatCalledTool.Good? && w.chatCalledTool.value && w.sessionJob.Good? then SessionJobId(w.sessionJob.value)
    else Null
  }

  /** It is the `job_id` of the session's job, if the agent called the tool and there is one. */
  lemma AgentJobIdIs(w: World, job: Job)
    ensures w.chatCalledTool == Good(true) && w.sessionJob == Good(Some(job)) ==> AgentJobId(w) == Field(job, "job_id")
    ensures w.chatCalledTool != Good(true) || w.sessionJob == Good(None) ==> AgentJobId(w) == Null
  {
  }

  /** The chat turn went through and left the harness to fall back. */
  predicate FallsBack(w: World, args: Args)
  {
    && args.chatMode && w.promptIsText && w.chatCalledTool.Good? && (w.chatCalledTool.value ==> w.sessionJob.Good?)
    && args.allowFallback && !Truthy(AgentJobId(w))
  }

  /** The direct call is made, its answer deciding how the run goes on, in direct mode and
      by a fallback that has no job id at all. */
  lemma DirectCallIff(w: World, args: Args)
    ensures (exists d: Call<Json> :: Triggered(w.(direct := d), args) != Triggered(w, args))
       <==> !args.chatMode || (FallsBack(w, args) && AgentJobId(w) == Null)
  {
    var raised, failed := w.(direct := Uncaught), w.(direct := UrlFailed);
    if !args.chatMode || (FallsBack(w, args) && AgentJobId(w) == Null) {
      assert Triggered(raised, args) == Raises && Triggered(failed, args) == End(InfrastructureError);
    }
  }

  /** A fallback whose job id is empty but not null polls that id instead; no other run
      polls an empty one. */
  lemma EmptyIdPolledIff(w: World, args: Args)
    ensures Triggered(w, args).Next? && !Truthy(Triggered(w, args).value.0)
       <==> FallsBack(w, args) && AgentJobId(w) != Null
    ensures FallsBack(w, args) && AgentJobId(w) != Null ==> Triggered(w, args) == Next((AgentJobId(w), true))
  {
  }

  // ---- what exit code 0 certifies -------------------------------------------------------------------

  /** `run_qualification` is called at all. */
  predicate Started(w: World, args: Args)
  {
    w.dirCreated && ArgsValid(args)
  }

  /** Prompt and workbook could be read and the workbook was uploaded. */
  predicate Uploaded(w: World)
  {
    && w.prompt.Some? && w.workbook.Some? && w.upload.Good? && w.upload.value.Obj?
    && Truthy(Field(w.upload.value.fields, "attachment_id"))
  }

  /** The results could be fetched, and their bindings have no problems. */
  predicate ResultsInOrder(w: World, attachmentId: Json, job: Job)
  {
    && w.results.Good? && Readable(w.results.value)
    && BindingsHold(w.sessionId, attachmentId, job, w.results.value.fields)
  }

  /** There are artifacts, at most one report of each kind, and every report is clean. */
  ghost predicate ArtifactsInOrder(w: World, results: Json)
  {
    && w.artifacts.Good? && w.artifacts.value != []
    && AtMostOne(w.artifacts.value, TakesXlsxBranch) && AtMostOne(w.artifacts.value, TakesMarkdownBranch)
    && AllClean(w.artifacts.value, TakesXlsxBranch, w.validateXlsx, results)
    && AllClean(w.artifacts.value, TakesMarkdownBranch, w.validateMarkdown, results)
  }

  /** Everything behind the polling. */
  ghost predicate InOrder(w: World, attachmentId: Json, job: Job)
  {
    && ResultsInOrder(w, attachmentId, job) && ArtifactsInOrder(w, w.results.value)
    && w.criteria.Some? && Accepted(job, w.results.value.fields, w.artifacts.value, w.criteria.value)
  }

  function AttachmentId(w: World): Json
  {
    if Uploaded(w) then Field(w.upload.value.fields, "attachment_id") else Null
  }

  /** The facts behind a passed run, established in as many different functions. */
  ghost predicate Certified(w: World, args: Args, job: Job, requests: nat)
  {
    && Started(w, args) && Uploaded(w) && Triggered(w, args).Next?
    && PollSpec(w.poll, Triggered(w, args).value.0, Returned(job), requests) && IsCompleted(job)
    && InOrder(w, AttachmentId(w), job)
  }

  /** A fallback counts as a pass only when the job finished with warnings. */
  ghost predicate Passes(w: World, args: Args)
  {
    exists job: Job, requests: nat :: Certified(w, args, job, requests)
      && (Triggered(w, args).value.1 ==> Field(job, "state") == COMPLETED_WITH_WARNINGS)
  }

  ghost predicate FallbackOnly(w: World, args: Args)
  {
    exists job: Job, requests: nat :: Certified(w, args, job, requests)
      && Triggered(w, args).value.1 && Field(job, "state") == COMPLETED
  }

  // ---- the other exit codes -------------------------------------------------------------------------

  /** The code a phase ends the process with; an exception is an infrastructure error. */
  function Code<T>(p: Phase<T>): nat
    requires !p.Next?
  {
    if p.End? then ExitCode(p.outcome) else ExitCode(InfrastructureError)
  }

  const LOST_STATES: set<Json> := {Text("JOB_LOST"), Text("FAILED"), Text("CANCELLED"), Text("EXPIRED")}

  /** The results are gone, by the status of the answer. */
  predicate ResultsGone(w: World)
  {
    w.results.HttpStatus? && w.results.code in {409, 410}
  }

  ghost predicate OneReportOfAKind(artifacts: seq<Artifact>)
  {
    AtMostOne(artifacts, TakesXlsxBranch) && AtMostOne(artifacts, TakesMarkdownBranch)
  }

  /** The code of a run whose polling ended that way. */
  ghost function PollFinding(w: World, attachmentId: Json, end: PollEnd, fallback: bool): nat
  {
    match end
    case TimedOut => 4
    case Crashed => 8
    case Returned(job) =>
      if IsCompleted(job) then JobFinding(w, attachmentId, job, fallback)
      else if Field(job, "state") in LOST_STATES then 3 else 8
  }

  /** What is wrong with results that are not in order. */
  ghost function ResultsFinding(w: World): nat
  {
    if ResultsGone(w) then 3 else if w.results.Good? && Readable(w.results.value) then 7 else 8
  }

  /** The code of a run behind results that are in order. */
  ghost function ArtifactsFinding(w: World, job: Job, results: map<string, Json>, fallback: bool): nat
  {
    if !ArtifactsInOrder(w, Obj(results)) then
      (if w.artifacts.Good? && (w.artifacts.value == [] || OneReportOfAKind(w.artifacts.value)) then 5 else 8)
    else
      Judgement(w, job, results, w.artifacts.value, fallback)
  }

  /** The code of a run whose job completed. */
  ghost function JobFinding(w: World, attachmentId: Json, job: Job, fallback: bool): nat
  {
    if !ResultsInOrder(w, attachmentId, job) then ResultsFinding(w)
    else ArtifactsFinding(w, job, w.results.value.fields, fallback)
  }

  function Judgement(w: World, job: Job, results: map<string, Json>, artifacts: seq<Artifact>, fallback: bool): nat
  {
    if w.criteria.None? || !Judgeable(results, w.criteria.value) then 8
    else if !Accepted(job, results, artifacts, w.criteria.value) then 1
    else if fallback && Field(job, "state") != COMPLETED_WITH_WARNINGS then 9
    else 0
  }

  /** Polling the triggered job ends that way, after so many requests. */
  ghost predicate Polled(w: World, args: Args, end: PollEnd, requests: nat)
  {
    && Started(w, args) && Uploaded(w) && Triggered(w, args).Next?
    && PollSpec(w.poll, Triggered(w, args).value.0, end, requests)
  }

  ghost predicate ExitsWith(w: World, args: Args, code: nat)
  {
    if !w.dirCreated then code == 8
    else if !ArgsValid(args) then code == 6
    else if !Uploaded(w) then code == if w.prompt.Some? && w.workbook.None? then 6 else 8
    else if !Triggered(w, args).Next? then code == Code(Triggered(w, args))
    else exists end: PollEnd, requests: nat :: Polled(w, args, end, requests)
           && code == PollFinding(w, AttachmentId(w), end, Triggered(w, args).value.1)
  }

  // ---- the phases -----------------------------------------------------------------------------------

  const EARLY: set<EvidenceFile> := {Prompt, PromptHash, InputWorkbook, InputWorkbookHash, UploadResponse}
  const TRIGGER: set<EvidenceFile> := {ChatRequest, ChatResponse, ToolCall}
  const REPORTS: set<EvidenceFile> := {ReportXlsx, ReportMarkdown}
  const JUDGED: set<EvidenceFile> := REPORTS + {ArtifactHashes, AcceptanceResult}
  const CONCLUSION: set<EvidenceFile> := {Results} + JUDGED
  const LATE: set<EvidenceFile> := {JobStatus} + CONCLUSION

  method Upload(w: World, ev: EvidenceDir) returns (r: Phase<Json>)
    requires ev.files.Keys !! EARLY && Recorded(w, ev.files)
    modifies ev
    ensures Grown(old(ev.files), ev.files, EARLY) && Recorded(w, ev.files)
    ensures r.Next? ==> {Prompt, InputWorkbook, UploadResponse} <= ev.files.Keys
    ensures r.Next? <==> Uploaded(w)
    ensures r.Next? ==> r.value == AttachmentId(w)
    ensures !r.Next? ==> Code(r) == if w.prompt.Some? && w.workbook.None? then 6 else 8
  {
    if w.prompt.None? {
      return Raises;
    }
    var ok := ev.Write(Prompt, Raw(w.prompt.value));
    ok := ev.Write(PromptHash, Derived);
    if w.workbook.None? {
      return End(ConfigurationError);
    }
    ok := ev.Write(InputWorkbook, Raw(w.workbook.value));
    ok := ev.Write(InputWorkbookHash, Derived);
    if w.upload.Uncaught? {
      return Raises;
    }
    if !w.upload.Good? {
      return End(InfrastructureError);
    }
    ok := ev.Write(UploadResponse, Document(w.upload.value));
    if !w.upload.value.Obj? {
      return Raises;
    }
    var attachment := Field(w.upload.value.fields, "attachment_id");
    r := if Truthy(attachment) then Next(attachment) else End(InfrastructureError);
  }

  method Trigger(w: World, args: Args, ev: EvidenceDir) returns (r: Phase<(Json, bool)>)
    requires ev.files.Keys !! TRIGGER
    modifies ev
    ensures Grown(old(ev.files), ev.files, TRIGGER)
    ensures r == Triggered(w, args)
  {
    var jobId, fallback := Null, false;
    if args.chatMode {
      if !w.promptIsText {
        return Raises;
      }
      var ok := ev.Write(ChatRequest, Derived);
      if w.chatCalledTool.Uncaught? {
        return Raises;
      }
      if !w.chatCalledTool.Good? {
        return End(InfrastructureError);
      }
      ok := ev.Write(ChatResponse, Derived);
      if w.chatCalledTool.value {
        ok := ev.Write(ToolCall, Derived);
        if !w.sessionJob.Good? {
          return Raises;
        }
        jobId := SessionJobId(w.sessionJob.value);
      }
      if !Truthy(jobId) {
        if !args.allowFallback {
          return End(ChatToolNotTriggered);
        }
        fallback := true;
      }
    }
    if jobId != Null {
      return Next((jobId, fallback));
    }
    if w.direct.Uncaught? {
      return Raises;
    }
    if !w.direct.Good? {
      return End(InfrastructureError);
    }
    if !w.direct.value.Obj? {
      return Raises;
    }
    jobId := Field(w.direct.value.fields, "job_id");
    r := if Truthy(jobId) then Next((jobId, fallback)) else End(InfrastructureError);
  }

  /** The job in the end, if it completed. */
  method Poll(w: World, jobId: Json, ev: EvidenceDir) returns (r: Phase<Job>, ghost end: PollEnd, ghost requests: nat)
    requires Ticks(w.poll) && JobStatus !in ev.files
    modifies ev
    ensures Grown(old(ev.files), ev.files, {JobStatus})
    ensures r.Next? ==> JobStatus in ev.files
    ensures JobStatus in ev.files ==> end.Returned? && ev.files[JobStatus] == Document(Obj(end.job))
    ensures PollSpec(w.poll, jobId, end, requests)
    ensures r.Next? <==> end.Returned? && IsCompleted(end.job)
    ensures r.Next? ==> r.value == end.job
    ensures !r.Next? ==> forall attachmentId, fallback :: Code(r) == PollFinding(w, attachmentId, end, fallback)
  {
    var polled, n, sleeps := PollJob.PollJob(w.poll, jobId);
    end, requests := polled, n;
    if polled.TimedOut? {
      r := End(Timeout);
      return;
    }
    if polled.Crashed? {
      r := Raises;
      return;
    }
    var job := polled.job;
    var ok := ev.Write(JobStatus, Document(Obj(job)));
    var state := Field(job, "state");
    if IsCompleted(job) {
      r := Next(job);
    } else if state == Text("JOB_LOST") {
      r := End(JobLost);
    } else if state == Text("FAILED") {
      r := End(JobFailed);
    } else if state == Text("CANCELLED") {
      r := End(JobCancelled);
    } else if state == Text("EXPIRED") {
      r := End(JobExpired);
    } else {
      r := End(InfrastructureError);
    }
  }

  method ReceiveResults(w: World, ev: EvidenceDir) returns (r: Phase<Json>)
    requires Results !in ev.files && Recorded(w, ev.files)
    modifies ev
    ensures Grown(old(ev.files), ev.files, {Results}) && Recorded(w, ev.files)
    ensures r.Next? <==> w.results.Good?
    ensures r.Next? ==> r.value == w.results.value && Results in ev.files
    ensures !r.Next? ==> Code(r) == if ResultsGone(w) then 3 else 8
  {
    match w.results
    case UrlFailed => return Raises;
    case Uncaught => return Raises;
    case HttpStatus(code) =>
      return End(if code == 409 || code == 410 then JobExpired else InfrastructureError);
    case Good(results) =>
      var ok := ev.Write(Results, Document(results));
      r := Next(results);
  }

  method CheckBindings(w: World, attachmentId: Json, job: Job, results: Json, ev: EvidenceDir)
    returns (r: Phase<map<string, Json>>)
    requires AcceptanceResult !in ev.files
    modifies ev
    ensures Grown(old(ev.files), ev.files, {AcceptanceResult})
    ensures r.Next? ==> ev.files == old(ev.files) && results == Obj(r.value)
    ensures AcceptanceResult in ev.files ==> !r.Next? && ev.files[AcceptanceResult] == Verdict(false)
    ensures r.Next? <==> Readable(results) && BindingsHold(w.sessionId, attachmentId, job, results.fields)
    ensures !r.Next? ==> Code(r) == if Readable(results) then 7 else 8
  {
    var problems := VerifyBindings(w.sessionId, attachmentId, job, results);
    if problems.None? {
      return Raises;
    }
    if problems.value != [] {
      var ok := ev.Write(AcceptanceResult, Verdict(false));
      return End(BindingMismatch);
    }
    r := Next(results.fields);
  }

  /** Results and bindings. */
  method FetchResults(w: World, attachmentId: Json, job: Job, ev: EvidenceDir) returns (r: Phase<map<string, Json>>)
    requires Results !in ev.files && AcceptanceResult !in ev.files && Recorded(w, ev.files)
    modifies ev
    ensures Recorded(w, ev.files) && (r.Next? ==> Results in ev.files)
    ensures AcceptanceResult in ev.files ==> !r.Next? && ev.files[AcceptanceResult] == Verdict(false)
    ensures Grown(old(ev.files), ev.files, {Results, AcceptanceResult})
    ensures r.Next? ==> Grown(old(ev.files), ev.files, {Results})
    ensures r.Next? <==> ResultsInOrder(w, attachmentId, job)
    ensures r.Next? ==> w.results.value == Obj(r.value)
    ensures !r.Next? ==> Code(r) == ResultsFinding(w)
  {
    var received := ReceiveResults(w, ev);
    if !received.Next? {
      return match received case End(outcome) => End(outcome) case Raises => Raises;
    }
    ghost var before := ev.files;
    r := CheckBindings(w, attachmentId, job, received.value, ev);
    RecordedGrows(w, before, ev.files, {AcceptanceResult});
  }

  /** The artifacts, downloaded and validated clean. */
  lemma AllCleanIff(w: World, results: Json, problems: (seq<string>, seq<string>))
    requires w.artifacts.Good? && w.artifacts.value != [] && OneReportOfAKind(w.artifacts.value)
    requires problems.0 == LastProblems(w.artifacts.value, TakesXlsxBranch, w.validateXlsx, results)
    requires problems.1 == LastProblems(w.artifacts.value, TakesMarkdownBranch, w.validateMarkdown, results)
    ensures problems == ([], []) <==> ArtifactsInOrder(w, results)
  {
    LastIsAll(w.artifacts.value, TakesXlsxBranch, w.validateXlsx, results);
    LastIsAll(w.artifacts.value, TakesMarkdownBranch, w.validateMarkdown, results);
  }

  method FetchArtifacts(w: World, results: Json, ev: EvidenceDir) returns (r: Phase<seq<Artifact>>)
    requires ev.files.Keys !! JUDGED && Recorded(w, ev.files)
    modifies ev
    ensures Recorded(w, ev.files) && (r.Next? ==> ArtifactHashes in ev.files)
    ensures AcceptanceResult in ev.files ==> !r.Next? && ev.files[AcceptanceResult] == Verdict(false)
    ensures Grown(old(ev.files), ev.files, JUDGED)
    ensures r.Next? ==> AcceptanceResult !in ev.files && w.artifacts == Good(r.value)
    ensures r.Next? <==> ArtifactsInOrder(w, results)
    ensures !r.Next? ==>
              Code(r) == if w.artifacts.Good? && (w.artifacts.value == [] || OneReportOfAKind(w.artifacts.value)) then 5
                         else 8
  {
    if w.artifacts.Uncaught? {
      return Raises;
    }
    if !w.artifacts.Good? {
      return End(InfrastructureError);
    }
    if w.artifacts.value == [] {
      return End(ArtifactInvalid);
    }
    ghost var before := ev.files;
    var clean := CheckReports(w, w.artifacts.value, results, ev);
    if clean.None? {
      return Raises;
    }
    StillFree(before, ev.files, REPORTS, {ArtifactHashes, AcceptanceResult});
    ghost var checked := ev.files;
    r := RecordReports(w, clean.value, ev);
    GrownOn(before, checked, ev.files, REPORTS, {ArtifactHashes, AcceptanceResult});
  }

  method CheckReports(w: World, artifacts: seq<Artifact>, results: Json, ev: EvidenceDir)
    returns (clean: Option<bool>)
    requires ev.files.Keys !! REPORTS && Recorded(w, ev.files) && w.artifacts == Good(artifacts) && artifacts != []
    modifies ev
    ensures Recorded(w, ev.files) && Grown(old(ev.files), ev.files, REPORTS)
    ensures clean.Some? <==> OneReportOfAKind(artifacts)
    ensures clean == Some(true) <==> ArtifactsInOrder(w, results)
  {
    var problems := CheckArtifacts(w, ev, artifacts, results);
    if problems.None? {
      return None;
    }
    AllCleanIff(w, results, problems.value);
    clean := Some(problems.value.0 == [] && problems.value.1 == []);
  }

  method RecordReports(w: World, clean: bool, ev: EvidenceDir) returns (r: Phase<seq<Artifact>>)
    requires w.artifacts.Good? && ev.files.Keys !! {ArtifactHashes, AcceptanceResult} && Recorded(w, ev.files)
    modifies ev
    ensures r == if clean then Next(w.artifacts.value) else End(ArtifactInvalid)
    ensures Recorded(w, ev.files) && Grown(old(ev.files), ev.files, {ArtifactHashes, AcceptanceResult})
    ensures ArtifactHashes in ev.files && (AcceptanceResult in ev.files <==> !clean)
    ensures !clean ==> ev.files[AcceptanceResult] == Verdict(false)
  {
    var ok := ev.Write(ArtifactHashes, Derived);
    if !clean {
      ok := ev.Write(AcceptanceResult, Verdict(false));
      return End(ArtifactInvalid);
    }
    r := Next(w.artifacts.value);
  }

  lemma GrownOn(before: map<EvidenceFile, Evidence>, between: map<EvidenceFile, Evidence>,
                after: map<EvidenceFile, Evidence>, first: set<EvidenceFile>, second: set<EvidenceFile>)
    requires Grown(before, between, first) && Grown(between, after, second)
    ensures Grown(before, after, first + second)
  {
  }

  /** The verdict on a completed job whose bindings and artifacts are in order. */
  method Judge(w: World, job: Job, results: map<string, Json>, artifacts: seq<Artifact>, fallback: bool,
               ev: EvidenceDir)
    returns (r: Phase<()>)
    requires AcceptanceResult !in ev.files
    modifies ev
    ensures !r.Next? && Grown(old(ev.files), ev.files, {AcceptanceResult})
    ensures VerdictRecorded(ev.files, Code(r))
    ensures Code(r) in {0, 9} ==> AcceptanceResult in ev.files
    ensures Code(r) == Judgement(w, job, results, artifacts, fallback)
  {
    if w.criteria.None? {
      return Raises;
    }
    var accepted := EvaluateAcceptance(job, results, artifacts, [], [], [], w.criteria.value);
    if accepted.None? {
      return Raises;
    }
    var ok := ev.Write(AcceptanceResult, Verdict(accepted.value));
    if !accepted.value {
      return End(QualificationIncomplete);
    }
    if Field(job, "state") == COMPLETED_WITH_WARNINGS {
      return End(PassWithWarnings);
    }
    r := End(if fallback then ChatFailedDirectFallbackSucceeded else Pass);
  }

  // ---- the run --------------------------------------------------------------------------------------

  lemma PhasesApart()
    ensures {ExecutionLog} !! EARLY && {ExecutionLog} !! TRIGGER && {ExecutionLog} !! LATE
    ensures EARLY !! TRIGGER && EARLY !! LATE && TRIGGER !! LATE
  {
  }

  method RunQualification(w: World, args: Args, ev: EvidenceDir) returns (r: Phase<()>)
    requires Ticks(w.poll) && Started(w, args) && ev.files.Keys == {ExecutionLog}
    modifies ev
    ensures !r.Next? && ExitsWith(w, args, Code(r))
    ensures forall f | f in old(ev.files) :: f in ev.files && ev.files[f] == old(ev.files)[f]
    ensures Recorded(w, ev.files) && JobRecorded(w, args, ev.files)
    ensures VerdictRecorded(ev.files, Code(r))
    ensures Code(r) in {0, 9} ==>
              {Prompt, InputWorkbook, UploadResponse, JobStatus, Results, ArtifactHashes, AcceptanceResult}
              <= ev.files.Keys
  {
    PhasesApart();
    var attachment := Upload(w, ev);
    if !attachment.Next? {
      return Ended(attachment);
    }
    ghost var uploaded := ev.files;
    var trigger := Trigger(w, args, ev);
    RecordedGrows(w, uploaded, ev.files, TRIGGER);
    if !trigger.Next? {
      TriggerEnds(w, args);
      return Ended(trigger);
    }
    r := Follow(w, args, ev);
  }

  /** The job status on record is that of a job that polling returned. */
  ghost predicate JobRecorded(w: World, args: Args, files: map<EvidenceFile, Evidence>)
  {
    JobStatus in files ==>
      exists job: Job, n: nat :: Polled(w, args, Returned(job), n) && files[JobStatus] == Document(Obj(job))
  }

  /** From the polling on. */
  method Follow(w: World, args: Args, ev: EvidenceDir) returns (r: Phase<()>)
    requires Ticks(w.poll) && Started(w, args) && Uploaded(w) && Triggered(w, args).Next?
    requires ev.files.Keys !! LATE && Recorded(w, ev.files)
    modifies ev
    ensures !r.Next? && ExitsWith(w, args, Code(r)) && JobRecorded(w, args, ev.files)
    ensures Left(w, old(ev.files), ev.files, LATE, {JobStatus, Results, ArtifactHashes, AcceptanceResult}, Code(r))
  {
    var trigger := Triggered(w, args).value;
    ghost var end, requests;
    r, end, requests := Finish(w, AttachmentId(w), trigger.0, trigger.1, ev);
    assert Polled(w, args, end, requests);
  }

  method Finish(w: World, attachmentId: Json, jobId: Json, fallback: bool, ev: EvidenceDir)
    returns (r: Phase<()>, ghost end: PollEnd, ghost requests: nat)
    requires Ticks(w.poll) && ev.files.Keys !! LATE && Recorded(w, ev.files)
    modifies ev
    ensures PollSpec(w.poll, jobId, end, requests)
    ensures !r.Next? && Code(r) == PollFinding(w, attachmentId, end, fallback)
    ensures JobStatus in ev.files ==> end.Returned? && ev.files[JobStatus] == Document(Obj(end.job))
    ensures Left(w, old(ev.files), ev.files, LATE, {JobStatus, Results, ArtifactHashes, AcceptanceResult}, Code(r))
  {
    ghost var before := ev.files;
    var job;
    job, end, requests := Poll(w, jobId, ev);
    ghost var polled := ev.files;
    RecordedGrows(w, before, polled, {JobStatus});
    if !job.Next? {
      r := Ended(job);
      NoJobEnds(w, attachmentId, end, fallback);
      return;
    }
    StillFree(before, polled, {JobStatus}, CONCLUSION);
    r := Conclude(w, attachmentId, job.value, fallback, ev);
    LeftBehind(w, before, polled, ev.files, {JobStatus}, CONCLUSION, {Results, ArtifactHashes, AcceptanceResult},
               Code(r));
  }

  lemma NoJobEnds(w: World, attachmentId: Json, end: PollEnd, fallback: bool)
    requires end.Returned? ==> !IsCompleted(end.job)
    ensures PollFinding(w, attachmentId, end, fallback) !in {0, 9}
  {
  }

  /** What a part of the run that exits with `code` leaves in the evidence directory: it
      wrote files of `mine` only, with the right contents, all of `needed` on success. */
  ghost predicate Left(w: World, before: map<EvidenceFile, Evidence>, after: map<EvidenceFile, Evidence>,
                       mine: set<EvidenceFile>, needed: set<EvidenceFile>, code: nat)
  {
    && Grown(before, after, mine) && Recorded(w, after)
    && VerdictRecorded(after, code) && (code in {0, 9} ==> needed <= after.Keys)
  }

  lemma StillFree(before: map<EvidenceFile, Evidence>, after: map<EvidenceFile, Evidence>,
                  added: set<EvidenceFile>, later: set<EvidenceFile>)
    requires Grown(before, after, added) && before.Keys !! later && added !! later
    ensures after.Keys !! later
  {
  }

  /** One part behind another. */
  lemma LeftBehind(w: World, before: map<EvidenceFile, Evidence>, between: map<EvidenceFile, Evidence>,
                   after: map<EvidenceFile, Evidence>, mine: set<EvidenceFile>, later: set<EvidenceFile>,
                   needed: set<EvidenceFile>, code: nat)
    requires Grown(before, between, mine) && mine <= between.Keys && Left(w, between, after, later, needed, code)
    ensures Left(w, before, after, mine + later, mine + needed, code)
  {
  }

  method Conclude(w: World, attachmentId: Json, job: Job, fallback: bool, ev: EvidenceDir) returns (r: Phase<()>)
    requires ev.files.Keys !! CONCLUSION && Recorded(w, ev.files) && IsCompleted(job)
    modifies ev
    ensures !r.Next? && Code(r) == JobFinding(w, attachmentId, job, fallback)
    ensures Left(w, old(ev.files), ev.files, CONCLUSION, {Results, ArtifactHashes, AcceptanceResult}, Code(r))
  {
    ghost var before := ev.files;
    var results := FetchResults(w, attachmentId, job, ev);
    if !results.Next? {
      return Ended(results);
    }
    ghost var fetched := ev.files;
    StillFree(before, fetched, {Results}, JUDGED);
    r := ConcludeArtifacts(w, job, results.value, fallback, ev);
    LeftBehind(w, before, fetched, ev.files, {Results}, JUDGED, {ArtifactHashes, AcceptanceResult}, Code(r));
  }

  /** The verdict on record, if any, is whether the run passed. */
  ghost predicate VerdictRecorded(files: map<EvidenceFile, Evidence>, code: nat)
  {
    AcceptanceResult in files ==> files[AcceptanceResult] == Verdict(code in {0, 9})
  }

  method ConcludeArtifacts(w: World, job: Job, results: map<string, Json>, fallback: bool, ev: EvidenceDir)
    returns (r: Phase<()>)
    requires ev.files.Keys !! JUDGED && Recorded(w, ev.files)
    modifies ev
    ensures !r.Next? && Code(r) == ArtifactsFinding(w, job, results, fallback)
    ensures Left(w, old(ev.files), ev.files, JUDGED, {ArtifactHashes, AcceptanceResult}, Code(r))
  {
    var artifacts := FetchArtifacts(w, Obj(results), ev);
    if !artifacts.Next? {
      return Ended(artifacts);
    }
    ghost var before := ev.files;
    r := Judge(w, job, results, artifacts.value, fallback, ev);
    RecordedGrows(w, before, ev.files, {AcceptanceResult});
  }

  function Ended<T>(p: Phase<T>): (r: Phase<()>)
    requires !p.Next?
    ensures !r.Next? && Code(r) == Code(p)
  {
    match p
    case End(outcome) => End(outcome)
    case Raises => Raises
  }

  /** The process exit code: an exception anywhere is an infrastructure error. */
  method RunMain(w: World, args: Args) returns (code: nat)
    requires Ticks(w.poll)
    ensures forall c: nat :: code == c <==> ExitsWith(w, args, c)
    ensures code == 0 <==> Passes(w, args)
    ensures code == 9 <==> FallbackOnly(w, args)
  {
    code := ExitCode(InfrastructureError);
    if w.dirCreated {
      var ev := new EvidenceDir();
      var error := ValidateArgs(args);
      if error.Some? {
        code := ExitCode(ConfigurationError);
      } else {
        var r := RunQualification(w, args, ev);
        code := ExitCode(if r.End? then r.outcome else InfrastructureError);
      }
    }
    OneExitCode(w, args, code);
    PassIff(w, args);
  }

  /** Everything read determines the exit code. */
  lemma OneExitCode(w: World, args: Args, code: nat)
    requires ExitsWith(w, args, code)
    ensures forall c: nat | ExitsWith(w, args, c) :: c == code
  {
    forall c: nat | ExitsWith(w, args, c) ensures c == code {
      if Started(w, args) && Uploaded(w) && Triggered(w, args).Next? {
        var end: PollEnd, n: nat :| Polled(w, args, end, n)
          && code == PollFinding(w, AttachmentId(w), end, Triggered(w, args).value.1);
        PolledOnce(w, args, end, n);
      }
    }
  }

  lemma PolledOnce(w: World, args: Args, end: PollEnd, requests: nat)
    requires Polled(w, args, end, requests)
    ensures forall other: PollEnd, n: nat | Polled(w, args, other, n) :: other == end && n == requests
  {
    forall other: PollEnd, n: nat | Polled(w, args, other, n) ensures other == end && n == requests {
      PollSpecUnique(w.poll, Triggered(w, args).value.0, other, n, end, requests);
    }
  }

  /** Only the job that polling returned can be certified. */
  lemma CertifiedJobUnique(w: World, args: Args, job: Job, requests: nat)
    requires Certified(w, args, job, requests)
    ensures forall other: Job, n: nat | Certified(w, args, other, n) :: other == job && n == requests
  {
    assert Polled(w, args, Returned(job), requests);
    PolledOnce(w, args, Returned(job), requests);
    forall other: Job, n: nat | Certified(w, args, other, n) ensures other == job && n == requests {
      assert Polled(w, args, Returned(other), n);
    }
  }

  // ---- what that means ------------------------------------------------------------------------------

  lemma TriggerEnds(w: World, args: Args)
    requires !Triggered(w, args).Next?
    ensures Code(Triggered(w, args)) in {2, 8}
    ensures Code(Triggered(w, args)) == 2 <==> Triggered(w, args) == End(ChatToolNotTriggered)
  {
  }

  /** The two codes of a certified run, and the one other outcome it can have. */
  lemma JobFindingIff(w: World, attachmentId: Json, job: Job, fallback: bool)
    requires IsCompleted(job)
    ensures JobFinding(w, attachmentId, job, fallback) == 0 <==>
              InOrder(w, attachmentId, job) && (fallback ==> Field(job, "state") == COMPLETED_WITH_WARNINGS)
    ensures JobFinding(w, attachmentId, job, fallback) == 9 <==>
              InOrder(w, attachmentId, job) && fallback && Field(job, "state") == COMPLETED
  {
  }

  lemma PassIff(w: World, args: Args)
    ensures ExitsWith(w, args, 0) <==> Passes(w, args)
    ensures ExitsWith(w, args, 9) <==> FallbackOnly(w, args)
  {
    if Started(w, args) && Uploaded(w) && Triggered(w, args).Next? {
      var attachmentId, fallback := AttachmentId(w), Triggered(w, args).value.1;
      forall job: Job, n: nat ensures Certified(w, args, job, n)
          <==> Polled(w, args, Returned(job), n) && IsCompleted(job) && InOrder(w, attachmentId, job) {}
      forall job: Job | IsCompleted(job)
        ensures PollFinding(w, attachmentId, Returned(job), fallback) == JobFinding(w, attachmentId, job, fallback)
      {
        JobFindingIff(w, attachmentId, job, fallback);
      }
    } else if Started(w, args) && Uploaded(w) {
      TriggerEnds(w, args);
    }
  }

  // ---- the documented exit codes --------------------------------------------------------------------

  /** The strict chat mode found no job of the agent's. */
  predicate ToolNotTriggered(w: World, args: Args)
  {
    && args.chatMode && !args.allowFallback && w.promptIsText && w.chatCalledTool.Good?
    && (w.chatCalledTool.value ==> w.sessionJob.Good? && !Truthy(SessionJobId(w.sessionJob.value)))
  }

  ghost predicate Completed(w: World, args: Args, job: Job, requests: nat)
  {
    Polled(w, args, Returned(job), requests) && IsCompleted(job)
  }

  /** No artifacts at all, or a report that is not clean. */
  ghost predicate ArtifactsInvalid(w: World, results: Json)
  {
    && w.artifacts.Good?
    && (w.artifacts.value == []
        || (&& OneReportOfAKind(w.artifacts.value)
            && !(&& AllClean(w.artifacts.value, TakesXlsxBranch, w.validateXlsx, results)
                 && AllClean(w.artifacts.value, TakesMarkdownBranch, w.validateMarkdown, results))))
  }

  ghost predicate NotAccepted(w: World, job: Job)
    requires ResultsInOrder(w, AttachmentId(w), job) && ArtifactsInOrder(w, w.results.value)
  {
    && w.criteria.Some? && Judgeable(w.results.value.fields, w.criteria.value)
    && !Accepted(job, w.results.value.fields, w.artifacts.value, w.criteria.value)
  }

  lemma JobFindingMeans(w: World, job: Job, fallback: bool)
    ensures var code := JobFinding(w, AttachmentId(w), job, fallback);
            && (code == 3 <==> ResultsGone(w))
            && (code == 7 <==> w.results.Good? && Readable(w.results.value) && !ResultsInOrder(w, AttachmentId(w), job))
            && (code == 5 <==> ResultsInOrder(w, AttachmentId(w), job) && ArtifactsInvalid(w, w.results.value))
            && (code == 1 <==> && ResultsInOrder(w, AttachmentId(w), job) && ArtifactsInOrder(w, w.results.value)
                               && NotAccepted(w, job))
            && code !in {2, 4, 6}
  {
  }

  lemma EarlyExit(w: World, args: Args)
    requires !(Started(w, args) && Uploaded(w) && Triggered(w, args).Next?)
    ensures forall code: nat | ExitsWith(w, args, code) :: code in {2, 6, 8}
    ensures ExitsWith(w, args, 6) <==> w.dirCreated && (!ArgsValid(args) || (w.prompt.Some? && w.workbook.None?))
    ensures ExitsWith(w, args, 2)
       <==> Started(w, args) && Uploaded(w) && Triggered(w, args) == End(ChatToolNotTriggered)
  {
    if Started(w, args) && Uploaded(w) { TriggerEnds(w, args); }
  }

  lemma LostIsNotCompleted(job: Job)
    ensures Field(job, "state") in LOST_STATES ==> !IsCompleted(job)
  {
    assert "COMPLETED"[1] == 'O' && "CANCELLED"[1] == 'A' && |"JOB_LOST"| == 8;
  }

  /** Every job that polling returns is completed or lost, one way or the other: no state is
      left over for the last branch. */
  lemma ReturnedJobsEnd(t: Trace, jobId: Json, job: Job, requests: nat)
    requires PollSpec(t, jobId, Returned(job), requests)
    ensures IsCompleted(job) <==> Field(job, "state") !in LOST_STATES
  {
    LostIsNotCompleted(job);
    var r := t.responses(requests - 1);
    assert DecidedAfter(t, requests) && ResultAt(t, jobId, requests - 1) == Returned(job);
    if r.Body? {
      assert EndsWindow(t, requests - 1) ==> IsError(r);
      StatesCovered(Field(job, "state"));
    } else {
      var error := if IsNotFound(r) then None else Some(ErrorText(r));
      LostKeepsFields(LastJob(t, requests - 1), jobId, error, "state");
    }
  }

  lemma StatesCovered(state: Json)
    requires state.Text? && state.s in TERMINAL_STATES
    ensures state in {COMPLETED, COMPLETED_WITH_WARNINGS} || state in LOST_STATES
  {
  }

  lemma PollFindingMeans(w: World, job: Job, fallback: bool)
    ensures var code := PollFinding(w, AttachmentId(w), Returned(job), fallback);
            && (code == 3 <==> Field(job, "state") in LOST_STATES || (IsCompleted(job) && ResultsGone(w)))
            && (code in {7, 5, 1} ==> IsCompleted(job))
            && (IsCompleted(job) ==> code == JobFinding(w, AttachmentId(w), job, fallback))
            && code !in {2, 4, 6}
  {
    LostIsNotCompleted(job);
    JobFindingMeans(w, job, fallback);
  }

  /** A run that got to the polling exits as its end says. */
  lemma ExitsAsPolled(w: World, args: Args, end: PollEnd, requests: nat, code: nat)
    requires Polled(w, args, end, requests)
    ensures ExitsWith(w, args, code) <==> code == PollFinding(w, AttachmentId(w), end, Triggered(w, args).value.1)
  {
    PolledOnce(w, args, end, requests);
  }

  lemma LostIff(w: World, args: Args)
    ensures ExitsWith(w, args, 3) <==>
              exists job: Job, n: nat :: Polled(w, args, Returned(job), n)
                && (Field(job, "state") in LOST_STATES || (IsCompleted(job) && ResultsGone(w)))
  {
    if Started(w, args) && Uploaded(w) && Triggered(w, args).Next? {
      forall job: Job, n: nat | Polled(w, args, Returned(job), n)
        ensures ExitsWith(w, args, 3) <==> Field(job, "state") in LOST_STATES || (IsCompleted(job) && ResultsGone(w))
      {
        ExitsAsPolled(w, args, Returned(job), n, 3);
        PollFindingMeans(w, job, Triggered(w, args).value.1);
      }
    } else {
      EarlyExit(w, args);
    }
  }

  /** Polling ends without a decisive answer in time, or with a read timeout. */
  ghost predicate RanOutOfTime(w: World, args: Args, end: PollEnd, requests: nat)
  {
    && Polled(w, args, end, requests)
    && (!DecidedAfter(w.poll, requests) || w.poll.responses(requests - 1).ReadTimeout?)
  }

  lemma RanOutOfTimeIff(w: World, args: Args, end: PollEnd, requests: nat)
    requires Polled(w, args, end, requests)
    ensures RanOutOfTime(w, args, end, requests) <==> end == TimedOut
  {
    TimedOutIff(w.poll, Triggered(w, args).value.0, end, requests);
  }

  lemma TimeoutIff(w: World, args: Args)
    ensures ExitsWith(w, args, 4) <==> exists n: nat :: Polled(w, args, TimedOut, n)
    ensures ExitsWith(w, args, 4) <==> exists end: PollEnd, n: nat :: RanOutOfTime(w, args, end, n)
  {
    forall end: PollEnd, n: nat | Polled(w, args, end, n) ensures RanOutOfTime(w, args, end, n) <==> end == TimedOut {
      RanOutOfTimeIff(w, args, end, n);
    }
    if Started(w, args) && Uploaded(w) && Triggered(w, args).Next? {
      forall job: Job ensures PollFinding(w, AttachmentId(w), Returned(job), Triggered(w, args).value.1) != 4 {
        PollFindingMeans(w, job, Triggered(w, args).value.1);
      }
    } else {
      EarlyExit(w, args);
    }
  }

  lemma ConfigurationIff(w: World, args: Args)
    ensures ExitsWith(w, args, 6) <==> w.dirCreated && (!ArgsValid(args) || (w.prompt.Some? && w.workbook.None?))
    ensures ExitsWith(w, args, 2) <==> Started(w, args) && Uploaded(w) && ToolNotTriggered(w, args)
  {
    if Started(w, args) && Uploaded(w) && Triggered(w, args).Next? {
      forall job: Job ensures PollFinding(w, AttachmentId(w), Returned(job), Triggered(w, args).value.1) !in {2, 6} {
        PollFindingMeans(w, job, Triggered(w, args).value.1);
      }
    } else {
      EarlyExit(w, args);
    }
  }

  lemma CompletedFinding(w: World, args: Args, job: Job, requests: nat, code: nat)
    requires Completed(w, args, job, requests)
    ensures ExitsWith(w, args, code) <==> code == JobFinding(w, AttachmentId(w), job, Triggered(w, args).value.1)
  {
    ExitsAsPolled(w, args, Returned(job), requests, code);
  }

  lemma NeedsCompletedJob(w: World, args: Args, code: nat)
    requires ExitsWith(w, args, code) && code in {7, 5, 1}
    ensures exists job: Job, n: nat :: Completed(w, args, job, n)
  {
    if Started(w, args) && Uploaded(w) && Triggered(w, args).Next? {
      var end: PollEnd, n: nat :| Polled(w, args, end, n)
        && code == PollFinding(w, AttachmentId(w), end, Triggered(w, args).value.1);
      PollFindingMeans(w, end.job, Triggered(w, args).value.1);
      assert Completed(w, args, end.job, n);
    } else {
      EarlyExit(w, args);
    }
  }

  /** Codes 7, 5 and 1, for a job that completed: each names the first thing wrong. */
  lemma FaultIff(w: World, args: Args)
    ensures ExitsWith(w, args, 7) <==>
              exists job: Job, n: nat :: Completed(w, args, job, n)
                && w.results.Good? && Readable(w.results.value) && !ResultsInOrder(w, AttachmentId(w), job)
    ensures ExitsWith(w, args, 5) <==>
              exists job: Job, n: nat :: Completed(w, args, job, n)
                && ResultsInOrder(w, AttachmentId(w), job) && ArtifactsInvalid(w, w.results.value)
    ensures ExitsWith(w, args, 1) <==>
              exists job: Job, n: nat :: Completed(w, args, job, n)
                && ResultsInOrder(w, AttachmentId(w), job) && ArtifactsInOrder(w, w.results.value)
                && NotAccepted(w, job)
  {
    forall job: Job, n: nat, code: nat | Completed(w, args, job, n)
      ensures ExitsWith(w, args, code) <==> code == JobFinding(w, AttachmentId(w), job, Triggered(w, args).value.1)
    {
      CompletedFinding(w, args, job, n, code);
    }
    forall job: Job, n: nat | Completed(w, args, job, n) ensures FaultOf(w, args, job) {
      JobFindingMeans(w, job, Triggered(w, args).value.1);
    }
    forall code: nat | ExitsWith(w, args, code) && code in {7, 5, 1}
      ensures exists job: Job, n: nat :: Completed(w, args, job, n)
    {
      NeedsCompletedJob(w, args, code);
    }
  }

  ghost predicate FaultOf(w: World, args: Args, job: Job)
  {
    && (ExitsWith(w, args, 7) <==> && w.results.Good? && Readable(w.results.value)
                                   && !ResultsInOrder(w, AttachmentId(w), job))
    && (ExitsWith(w, args, 5) <==> ResultsInOrder(w, AttachmentId(w), job) && ArtifactsInvalid(w, w.results.value))
    && (ExitsWith(w, args, 1) <==> && ResultsInOrder(w, AttachmentId(w), job) && ArtifactsInOrder(w, w.results.value)
                                   && NotAccepted(w, job))
  }

  lemma {:induction false} KindComesFromArtifact(artifacts: seq<Artifact>, name: string)
    requires name in Kinds(artifacts)
    ensures exists i | 0 <= i < |artifacts| ::
              artifacts[i].filename == name && artifacts[i].mediaType == Kinds(artifacts)[name]
  {
    var n := |artifacts| - 1;
    if artifacts[n].filename != name {
      KindComesFromArtifact(artifacts[..n], name);
      var i :| 0 <= i < n && artifacts[..n][i].filename == name
               && artifacts[..n][i].mediaType == Kinds(artifacts[..n])[name];
      assert artifacts[i].filename == name;
    }
  }

  /** There are at least so many results, in a list. */
  predicate Enough(results: map<string, Json>, min: int)
  {
    var v := Field(results, "results");
    min <= 0 || (v.Arr? && |v.items| >= min)
  }

  /** Where the bindings could be checked, meeting the minimum means that. */
  lemma MinimumIff(results: map<string, Json>, min: int)
    requires Readable(Obj(results))
    ensures ResultCount(results).Some? && (ResultCount(results).value >= min <==> Enough(results, min))
  {
    var v := Field(results, "results");
    if v.Arr? && v.items == [] { assert !Truthy(v); }
  }

  /** For any criteria, a run that passes has a list of at least the minimum of results. */
  lemma PassHasEnough(w: World, args: Args)
    requires Passes(w, args)
    ensures w.criteria.Some? && w.results.Good? && w.results.value.Obj?
    ensures Enough(w.results.value.fields, w.criteria.value.minResults)
  {
    MinimumIff(w.results.value.fields, w.criteria.value.minResults);
  }

  /** All of the acceptance criteria but the minimum. */
  predicate AcceptedButForMinimum(job: Job, results: map<string, Json>, artifacts: seq<Artifact>, c: Criteria)
  {
    && IsCompleted(job)
    && (c.requireXlsx ==> HasXlsx(artifacts)) && (c.requireMarkdown ==> HasMarkdown(artifacts))
    && (c.requireInvariant ==> InvariantOk(results))
  }

  /** When all else holds, the run exits with 1 exactly if the list is too short. */
  lemma TooFewResultsIff(w: World, args: Args, job: Job, requests: nat)
    requires Completed(w, args, job, requests)
    requires ResultsInOrder(w, AttachmentId(w), job) && ArtifactsInOrder(w, w.results.value) && w.criteria.Some?
    requires AcceptedButForMinimum(job, w.results.value.fields, w.artifacts.value, w.criteria.value)
    ensures ExitsWith(w, args, 1) <==> !Enough(w.results.value.fields, w.criteria.value.minResults)
  {
    var results, c := w.results.value.fields, w.criteria.value;
    MinimumIff(results, c.minResults);
    CompletedFinding(w, args, job, requests, 1);
    assert Accepted(job, results, w.artifacts.value, c) <==> Enough(results, c.minResults);
  }

  /** With the default criteria exit code 0 means: the job completed, its bindings hold,
      exactly one artifact took the XLSX branch and validated clean, whatever took the
      Markdown branch validated clean, there is a result, and the reconciliation
      invariant is True. */
  lemma ExitZeroCertifies(w: World, args: Args)
    requires Passes(w, args) && w.criteria == Some(DEFAULT_ACCEPTANCE)
    ensures exists job: Job, requests: nat ::
              && Certified(w, args, job, requests)
              && Field(job, "state") in {Text("COMPLETED"), Text("COMPLETED_WITH_WARNINGS")}
              && BindingsHold(w.sessionId, AttachmentId(w), job, w.results.value.fields)
    ensures w.results.Good? && w.results.value.Obj? && w.artifacts.Good?
    ensures var list := Field(w.results.value.fields, "results"); list.Arr? && list.items != []
    ensures var rec := Field(w.results.value.fields, "source_reconciliation");
            rec.Obj? && Field(rec.fields, "invariant_ok") == Bool(true)
    ensures exists i | 0 <= i < |w.artifacts.value| ::
              && TakesXlsxBranch(w.artifacts.value[i])
              && w.validateXlsx(w.artifacts.value[i].data, w.results.value) == []
              && forall j | 0 <= j < |w.artifacts.value| && TakesXlsxBranch(w.artifacts.value[j]) :: j == i
    ensures AllClean(w.artifacts.value, TakesMarkdownBranch, w.validateMarkdown, w.results.value)
  {
    var job: Job, requests: nat :| Certified(w, args, job, requests)
      && (Triggered(w, args).value.1 ==> Field(job, "state") == COMPLETED_WITH_WARNINGS);
    XlsxTaken(w.artifacts.value);
    PassHasEnough(w, args);
    InvariantIff(w.results.value.fields);
  }

  lemma XlsxTaken(artifacts: seq<Artifact>)
    requires HasXlsx(artifacts)
    ensures Took(artifacts, TakesXlsxBranch)
  {
    var name :| name in Kinds(artifacts) && Contains(Kinds(artifacts)[name], "spreadsheetml");
    KindComesFromArtifact(artifacts, name);
    var i :| 0 <= i < |artifacts| && artifacts[i].filename == name && artifacts[i].mediaType == Kinds(artifacts)[name];
    assert TakesXlsxBranch(artifacts[i]);
  }

  /** The two codes exclude each other: a fallback whose job finished with warnings is a
      plain pass, and only one that finished without them is reported as a fallback. */
  lemma FallbackWithWarningsPasses(w: World, args: Args, job: Job, requests: nat)
    requires Certified(w, args, job, requests) && Triggered(w, args).value.1
    ensures Passes(w, args) <==> Field(job, "state") == Text("COMPLETED_WITH_WARNINGS")
    ensures FallbackOnly(w, args) <==> Field(job, "state") == Text("COMPLETED")
  {
    CertifiedJobUnique(w, args, job, requests);
  }
}
