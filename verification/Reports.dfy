/** When a required Markdown report is validated, and when a run passes without that. */
module Reports {
  import opened Text
  import opened Json
  import opened PollJob
  import opened Qualify
  import opened Pipeline

  /** One report is of both kinds, takes the XLSX branch, and is the only report at all. */
  ghost predicate OnlyDoubleReport(artifacts: seq<Artifact>)
  {
    exists i | 0 <= i < |artifacts| ::
      SoleReport(artifacts, i) && TakesXlsxBranch(artifacts[i]) && IsMarkdown(artifacts[i])
  }

  ghost predicate SoleReport(artifacts: seq<Artifact>, i: nat)
  {
    forall j | 0 <= j < |artifacts| && (TakesXlsxBranch(artifacts[j]) || IsMarkdown(artifacts[j])) :: j == i
  }

  lemma MarkdownPresent(artifacts: seq<Artifact>) returns (j: nat)
    requires HasMarkdown(artifacts)
    ensures j < |artifacts| && IsMarkdown(artifacts[j])
  {
    var kinds := Kinds(artifacts);
    var name :| name in kinds && (Contains(kinds[name], "markdown") || EndsWith(name, ".md"));
    KindComesFromArtifact(artifacts, name);
    var i :| 0 <= i < |artifacts| && artifacts[i].filename == name && artifacts[i].mediaType == kinds[name];
    j := i;
  }

  /** Reports of both kinds are there, at most one for each branch: nothing took the
      Markdown branch exactly when one report serves as both. */
  lemma NoneTookMarkdownIff(artifacts: seq<Artifact>)
    requires OneReportOfAKind(artifacts) && HasXlsx(artifacts) && HasMarkdown(artifacts)
    ensures !Took(artifacts, TakesMarkdownBranch) <==> OnlyDoubleReport(artifacts)
  {
    var j := MarkdownPresent(artifacts);
    if !Took(artifacts, TakesMarkdownBranch) {
      forall i | 0 <= i < |artifacts| && IsMarkdown(artifacts[i]) ensures TakesXlsxBranch(artifacts[i]) {
        assert !TakesMarkdownBranch(artifacts[i]);
      }
      assert SoleReport(artifacts, j);
    } else {
      var i :| 0 <= i < |artifacts| && TakesMarkdownBranch(artifacts[i]);
      assert forall k | 0 <= k < |artifacts| && SoleReport(artifacts, k) :: k == i;
    }
  }

  /** Nothing is asked of the Markdown validator when nothing took its branch. */
  lemma ValidatorIgnored(w: World, v: Validator, attachmentId: Json, job: Job)
    requires w.artifacts.Good? && !Took(w.artifacts.value, TakesMarkdownBranch)
    ensures InOrder(w, attachmentId, job) <==> InOrder(w.(validateMarkdown := v), attachmentId, job)
  {
    var artifacts := w.artifacts.value;
    forall i | 0 <= i < |artifacts| ensures !TakesMarkdownBranch(artifacts[i]) {}
  }

  lemma SamePolling(w: World, args: Args, v: Validator, job: Job, requests: nat)
    ensures Certified(w.(validateMarkdown := v), args, job, requests)
       <==> && Polled(w, args, Returned(job), requests) && IsCompleted(job)
            && InOrder(w.(validateMarkdown := v), AttachmentId(w), job)
    ensures Triggered(w.(validateMarkdown := v), args) == Triggered(w, args)
  {
  }

  lemma ReportsOfPass(w: World, args: Args)
    requires Passes(w, args) && w.criteria == Some(DEFAULT_ACCEPTANCE)
    ensures w.artifacts.Good? && OneReportOfAKind(w.artifacts.value)
    ensures HasXlsx(w.artifacts.value) && HasMarkdown(w.artifacts.value)
  {
  }

  lemma PassesAnyway(w: World, args: Args, v: Validator)
    requires Passes(w, args) && w.artifacts.Good? && !Took(w.artifacts.value, TakesMarkdownBranch)
    ensures Passes(w.(validateMarkdown := v), args)
  {
    var job: Job, n: nat :| Certified(w, args, job, n)
      && (Triggered(w, args).value.1 ==> Field(job, "state") == COMPLETED_WITH_WARNINGS);
    ValidatorIgnored(w, v, AttachmentId(w), job);
    SamePolling(w, args, v, job, n);
  }

  /** The run passes whatever the Markdown validator says. */
  ghost predicate PassesWithAny(w: World, args: Args)
  {
    forall v: Validator :: Passes(w.(validateMarkdown := v), args)
  }

  lemma SomeRejects(w: World, args: Args)
    requires w.artifacts.Good? && Took(w.artifacts.value, TakesMarkdownBranch)
    ensures !PassesWithAny(w, args)
  {
    var reject: Validator := (data, results) => ["rejected"];
    NotPassedBy(w, args, reject);
  }

  /** A run that passes with the default criteria passes whatever the Markdown validator
      says, exactly when one report served as both kinds, and otherwise it was asked. */
  lemma MarkdownUnvalidatedIff(w: World, args: Args)
    requires Passes(w, args) && w.criteria == Some(DEFAULT_ACCEPTANCE)
    ensures w.artifacts.Good?
    ensures OnlyDoubleReport(w.artifacts.value) <==> !Took(w.artifacts.value, TakesMarkdownBranch)
    ensures OnlyDoubleReport(w.artifacts.value) <==> PassesWithAny(w, args)
  {
    ReportsOfPass(w, args);
    NoneTookMarkdownIff(w.artifacts.value);
    if Took(w.artifacts.value, TakesMarkdownBranch) {
      SomeRejects(w, args);
    } else {
      forall v: Validator ensures Passes(w.(validateMarkdown := v), args) {
        PassesAnyway(w, args, v);
      }
    }
  }

  lemma NotPassedBy(w: World, args: Args, reject: Validator)
    requires w.artifacts.Good? && Took(w.artifacts.value, TakesMarkdownBranch)
    requires forall data, results :: reject(data, results) != []
    ensures !Passes(w.(validateMarkdown := reject), args)
  {
    var i :| 0 <= i < |w.artifacts.value| && TakesMarkdownBranch(w.artifacts.value[i]);
    forall job: Job, n: nat ensures !Certified(w.(validateMarkdown := reject), args, job, n) {
      SamePolling(w, args, reject, job, n);
    }
  }

  lemma SingleKinds(a: Artifact)
    ensures Kinds([a]) == map[a.filename := a.mediaType]
  {
    assert [a][..0] == [];
  }

  lemma DoubleReportInOrder(w: World, results: map<string, Json>, a: Artifact, v: Validator, job: Job)
    requires Contains(a.mediaType, "spreadsheetml") && IsMarkdown(a)
    requires w.validateXlsx(a.data, Obj(results)) == []
    requires IsCompleted(job) && ResultCount(results).Some? && ResultCount(results).value >= 1 && InvariantOk(results)
    ensures ArtifactsInOrder(w.(artifacts := Good([a]), validateMarkdown := v), Obj(results))
    ensures Accepted(job, results, [a], DEFAULT_ACCEPTANCE)
  {
    SingleKinds(a);
    assert a.filename in Kinds([a]);
    assert TakesXlsxBranch(a);
  }

  /** Any run that passes with the default criteria goes on passing when all its artifacts
      are replaced by one of both kinds whose workbook is clean, whatever the Markdown
      validator would say to it. */
  lemma DoubleReportSuffices(w: World, args: Args, a: Artifact, v: Validator)
    requires Passes(w, args) && w.criteria == Some(DEFAULT_ACCEPTANCE)
    requires Contains(a.mediaType, "spreadsheetml") && IsMarkdown(a) && w.validateXlsx(a.data, w.results.value) == []
    ensures Passes(w.(artifacts := Good([a]), validateMarkdown := v), args)
  {
    var job: Job, n: nat :| Certified(w, args, job, n)
      && (Triggered(w, args).value.1 ==> Field(job, "state") == COMPLETED_WITH_WARNINGS);
    var w' := w.(artifacts := Good([a]), validateMarkdown := v);
    DoubleReportInOrder(w, w.results.value.fields, a, v, job);
    ArtifactsReplaced(w, args, a, v, job, n);
    assert Certified(w', args, job, n);
  }

  lemma ArtifactsReplaced(w: World, args: Args, a: Artifact, v: Validator, job: Job, requests: nat)
    ensures var w' := w.(artifacts := Good([a]), validateMarkdown := v);
            && Triggered(w', args) == Triggered(w, args) && AttachmentId(w') == AttachmentId(w)
            && (Polled(w', args, Returned(job), requests) <==> Polled(w, args, Returned(job), requests))
            && (ResultsInOrder(w', AttachmentId(w), job) <==> ResultsInOrder(w, AttachmentId(w), job))
  {
  }

  // ---- such a run exists ----------------------------------------------------------------------------

  const DIRECT: Args := Args(false, "", "", false, false, "", "")

  const DONE_JOB: Job := map[
    "state" := COMPLETED, "acp_id" := Text("acp"), "acp_version" := Num(1), "portfolio_id" := Text("cco")]

  const ONE_RESULT: map<string, Json> := map[
    "results" := Arr([Obj(map["global_cco_id" := Text("cco")])]),
    "source_reconciliation" := Obj(map["invariant_ok" := Bool(true), "reported_records" := Num(1)])]

  /** A job that is done at the first request. */
  const DONE_AT_ONCE: Trace := Trace((n: nat) => n as real, (n: nat) => Body(Obj(DONE_JOB)), 2.0, 1.0, 3)

  function OneReportWorld(a: Artifact, validateXlsx: Validator, validateMarkdown: Validator): World
  {
    World(true, "session", Some(""), true, Some(""),
          Good(Obj(map["attachment_id" := Text("attachment")])), Good(false), Good(None),
          Good(Obj(map["job_id" := Text("job")])),
          DONE_AT_ONCE, Good(Obj(ONE_RESULT)), Good([a]), Some(DEFAULT_ACCEPTANCE), validateXlsx, validateMarkdown)
  }

  lemma DoneAtOnce()
    ensures Ticks(DONE_AT_ONCE)
    ensures PollSpec(DONE_AT_ONCE, Text("job"), Returned(DONE_JOB), 1) && IsCompleted(DONE_JOB)
  {
    var t := DONE_AT_ONCE;
    assert Field(DONE_JOB, "state") == COMPLETED && "COMPLETED" in TERMINAL_STATES;
    assert Decisive(t, 0) && DecidedAfter(t, 1);
    assert InTime(t, 0);
  }

  lemma OneResultReads()
    ensures Readable(Obj(ONE_RESULT)) && ResultCount(ONE_RESULT) == Some(1) && InvariantOk(ONE_RESULT)
    ensures BindingsHold("session", Text("attachment"), DONE_JOB, ONE_RESULT)
  {
    assert "source_reconciliation" != "results" && "global_cco" !in ONE_RESULT;
  }

  /** For every artifact of both kinds, whatever the Markdown validator says to it. */
  lemma UnvalidatedRunExists(a: Artifact, validateXlsx: Validator, validateMarkdown: Validator)
    requires Contains(a.mediaType, "spreadsheetml") && IsMarkdown(a) && validateXlsx(a.data, Obj(ONE_RESULT)) == []
    ensures var w := OneReportWorld(a, validateXlsx, validateMarkdown);
            Ticks(w.poll) && w.criteria == Some(DEFAULT_ACCEPTANCE) && ExitsWith(w, DIRECT, 0)
            && OnlyDoubleReport(w.artifacts.value)
  {
    var w := OneReportWorld(a, validateXlsx, validateMarkdown);
    DoneAtOnce();
    OneResultReads();
    DoubleReportInOrder(w, ONE_RESULT, a, validateMarkdown, DONE_JOB);
    assert Triggered(w, DIRECT) == Phase.Next((Text("job"), false));
    assert Certified(w, DIRECT, DONE_JOB, 1);
    PassIff(w, DIRECT);
    MarkdownUnvalidatedIff(w, DIRECT);
  }
}
