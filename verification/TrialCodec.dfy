/** The JSON codec of evaluation trials, with their nested case and grader results.

    The decoder takes the values it would use for missing keys as a parameter, so that a statement
    for all of them says that none is ever used. */
module TrialCodec {
  import opened Basics
  import opened JsonTree

  datatype GraderStatus = Pass | Fail | Unknown | Invalid

  datatype GraderKind = Deterministic | Outcome | Trajectory | Llm | Human

  datatype TrialStatus = Pending | Running | Passed | Failed | InvalidTrial

  datatype GraderResult = GraderResult(
    trial: Uuid, grader: string, version: string, score: Option<real>, passed: Option<bool>, rationale: string,
    evidence: seq<string>, status: Option<GraderStatus>, kind: GraderKind)

  datatype CaseResult = CaseResult(
    case_: string, input: map<string, Json>, output: Option<map<string, Json>>, executed: bool,
    graders: seq<GraderResult>, evidence: seq<string>, executor: Option<string>, environment: Option<string>,
    model: Option<string>, tools: seq<string>, seed: Option<int>, cost: int, failure: Option<string>)

  datatype Trial = Trial(
    tenant: Uuid, suite: string, suiteVersion: string, subject: Uuid, harness: string, id: Uuid,
    status: TrialStatus, seed: Option<int>, cases: seq<CaseResult>, cost: int, failure: Option<string>,
    started: Option<int>, completed: Option<int>, candidate: Option<Uuid>)

  /** The columns of a stored trial. */
  datatype TrialRow = TrialRow(
    id: Json, tenant: Json, suite: Json, suiteVersion: Json, subject: Json, harness: Json, candidate: Json,
    status: Json, result: Json)

  // ---------------------------------------------------------------- construction checks

  predicate Blank(t: Option<string>) {
    t.None? || t.value == ""
  }

  function Inferred(passed: Option<bool>): GraderStatus {
    if passed == Some(true) then Pass else if passed == Some(false) then Fail else Unknown
  }

  /** What constructing a grader result makes of its fields. */
  function NewGrader(g: GraderResult): Option<GraderResult> {
    if g.score.Some? && !(0.0 <= g.score.value <= 1.0) then None
    else if g.score.None? && g.passed.Some? then None
    else if g.status.None? then Some(g.(status := Some(Inferred(g.passed))))
    else if (g.status == Some(Pass) || g.status == Some(Fail)) && g.status.value != Inferred(g.passed) then None
    else if g.status == Some(Invalid) && g.passed.Some? then None
    else Some(g)
  }

  function NewCase(c: CaseResult): Option<CaseResult> {
    if c.cost < 0 then None
    else if c.executed && (c.output.None? || Blank(c.executor) || c.evidence == [] || Blank(c.environment)) then None
    else if !c.executed && Blank(c.failure) then None
    else Some(c)
  }

  function NewTrial(t: Trial): Option<Trial> {
    if t.cost < 0 then None
    else if (t.status == Passed || t.status == Failed) && (t.cases == [] || exists c <- t.cases :: !c.executed) then None
    else if exists c <- t.cases, g <- c.graders :: g.trial != t.id then None
    else if t.status == InvalidTrial && Blank(t.failure) then None
    else Some(t)
  }

  /** A trial that could be constructed, with everything inside it. */
  predicate Admitted(t: Trial) {
    && NewTrial(t) == Some(t)
    && (forall c <- t.cases :: NewCase(c) == Some(c))
    && (forall c <- t.cases, g <- c.graders :: NewGrader(g) == Some(g))
  }

  // ---------------------------------------------------------------- enumerations

  function StatusText(s: GraderStatus): string {
    match s
    case Pass => "pass"
    case Fail => "fail"
    case Unknown => "unknown"
    case Invalid => "invalid"
  }

  function ReadStatus(j: Json): Option<GraderStatus> {
    if j == Text("pass") then Some(Pass)
    else if j == Text("fail") then Some(Fail)
    else if j == Text("unknown") then Some(Unknown)
    else if j == Text("invalid") then Some(Invalid)
    else None
  }

  function KindText(k: GraderKind): string {
    match k
    case Deterministic => "deterministic"
    case Outcome => "outcome"
    case Trajectory => "trajectory"
    case Llm => "llm"
    case Human => "human"
  }

  function ReadKind(j: Json): Option<GraderKind> {
    if j == Text("deterministic") then Some(Deterministic)
    else if j == Text("outcome") then Some(Outcome)
    else if j == Text("trajectory") then Some(Trajectory)
    else if j == Text("llm") then Some(Llm)
    else if j == Text("human") then Some(Human)
    else None
  }

  function TrialStatusText(s: TrialStatus): string {
    match s
    case Pending => "pending"
    case Running => "running"
    case Passed => "passed"
    case Failed => "failed"
    case InvalidTrial => "invalid"
  }

  function ReadTrialStatus(j: Json): Option<TrialStatus> {
    if j == Text("pending") then Some(Pending)
    else if j == Text("running") then Some(Running)
    else if j == Text("passed") then Some(Passed)
    else if j == Text("failed") then Some(Failed)
    else if j == Text("invalid") then Some(InvalidTrial)
    else None
  }

  // ---------------------------------------------------------------- encoding

  function EncodeGrader(g: GraderResult): Json {
    Object(map[
      "trial_id" := Text(g.trial),
      "grader_id" := Text(g.grader),
      "grader_version" := Text(g.version),
      "score" := OrNull(g.score, r => Float(r)),
      "passed" := OrNull(g.passed, b => Bool(b)),
      "rationale" := Text(g.rationale),
      "evidence_refs" := Texts(g.evidence),
      "status" := OrNull(g.status, s => Text(StatusText(s))),
      "kind" := Text(KindText(g.kind))
    ])
  }

  function EncodeCase(c: CaseResult): Json {
    Object(map[
      "case_id" := Text(c.case_),
      "input_payload" := Object(c.input),
      "output_payload" := OrNull(c.output, o => Object(o)),
      "subject_executed" := Bool(c.executed),
      "evidence_refs" := Texts(c.evidence),
      "executor_id" := OrNull(c.executor, s => Text(s)),
      "environment_ref" := OrNull(c.environment, s => Text(s)),
      "model_ref" := OrNull(c.model, s => Text(s)),
      "tool_refs" := Texts(c.tools),
      "random_seed" := OrNull(c.seed, i => Int(i)),
      "cost_microunits" := Int(c.cost),
      "failure_reason" := OrNull(c.failure, s => Text(s)),
      "grader_results" := List(EncodeEach(c.graders, EncodeGrader))
    ])
  }

  /** `trial_payload`. */
  function EncodePayload(clock: Clock, t: Trial): Json {
    Object(map[
      "random_seed" := OrNull(t.seed, i => Int(i)),
      "total_cost_microunits" := Int(t.cost),
      "failure_reason" := OrNull(t.failure, s => Text(s)),
      "started_at" := OrNull(t.started, i => Text(clock.write(i))),
      "completed_at" := OrNull(t.completed, i => Text(clock.write(i))),
      "case_results" := List(EncodeEach(t.cases, EncodeCase))
    ])
  }

  /** The row that `add_trial` inserts. */
  function Encode(clock: Clock, t: Trial): TrialRow {
    TrialRow(Text(t.id), Text(t.tenant), Text(t.suite), Text(t.suiteVersion), Text(t.subject), Text(t.harness),
             OrNull(t.candidate, (u: Uuid) => Text(u)), Text(TrialStatusText(t.status)), EncodePayload(clock, t))
  }

  // ---------------------------------------------------------------- decoding

  /** What `get` falls back to. */
  datatype Defaults = Defaults(absent: Json, texts: Json, kind: Json, cost: Json, list: Json)

  const PROGRAM_DEFAULTS := Defaults(Null, List([]), Text("deterministic"), Int(0), List([]))

  function DecodeGrader(d: Defaults, j: Json): Option<GraderResult> {
    var trialJ :- At(j, "trial_id");
    var trial :- AsUuid(trialJ);
    var graderJ :- At(j, "grader_id");
    var grader :- AsText(graderJ);
    var versionJ :- At(j, "grader_version");
    var version :- AsText(versionJ);
    var scoreJ :- Get(j, "score", d.absent);
    var score :- Nullable(scoreJ, AsReal);
    var passedJ :- Get(j, "passed", d.absent);
    var passed :- Nullable(passedJ, AsBool);
    var rationaleJ :- At(j, "rationale");
    var rationale :- AsText(rationaleJ);
    var evidenceJ :- Get(j, "evidence_refs", d.texts);
    var evidence :- AsTexts(evidenceJ);
    var statusJ :- Get(j, "status", d.absent);
    var status :- Nullable(statusJ, ReadStatus);
    var kindJ :- Get(j, "kind", d.kind);
    var kind :- ReadKind(kindJ);
    NewGrader(GraderResult(trial, grader, version, score, passed, rationale, evidence, status, kind))
  }

  function DecodeCase(d: Defaults, j: Json): Option<CaseResult> {
    var caseJ :- At(j, "case_id");
    var case_ :- AsText(caseJ);
    var inputJ :- At(j, "input_payload");
    var input :- AsObject(inputJ);
    var outputJ :- Get(j, "output_payload", d.absent);
    var output :- Nullable(outputJ, AsObject);
    var executedJ :- At(j, "subject_executed");
    var executed :- AsBool(executedJ);
    var gradersJ :- Get(j, "grader_results", d.list);
    var graders :- AsList(gradersJ, g => DecodeGrader(d, g));
    var evidenceJ :- Get(j, "evidence_refs", d.texts);
    var evidence :- AsTexts(evidenceJ);
    var executorJ :- Get(j, "executor_id", d.absent);
    var executor :- Nullable(executorJ, AsText);
    var environmentJ :- Get(j, "environment_ref", d.absent);
    var environment :- Nullable(environmentJ, AsText);
    var modelJ :- Get(j, "model_ref", d.absent);
    var model :- Nullable(modelJ, AsText);
    var toolsJ :- Get(j, "tool_refs", d.texts);
    var tools :- AsTexts(toolsJ);
    var seedJ :- Get(j, "random_seed", d.absent);
    var seed :- Nullable(seedJ, AsInt);
    var costJ :- Get(j, "cost_microunits", d.cost);
    var cost :- AsInt(costJ);
    var failureJ :- Get(j, "failure_reason", d.absent);
    var failure :- Nullable(failureJ, AsText);
    NewCase(CaseResult(case_, input, output, executed, graders, evidence, executor, environment, model, tools, seed,
                       cost, failure))
  }

  /** A timestamp, or none where the text is missing or empty. */
  function DecodeTime(clock: Clock, j: Json): Option<Option<int>> {
    if !Truthy(j) then Some(None)
    else
      var t :- AsTime(clock, j);
      Some(Some(t))
  }

  /** `trial_from_row`. */
  function Decode(clock: Clock, d: Defaults, row: TrialRow): Option<Trial> {
    var payload := if Truthy(row.result) then row.result else Object(map[]);
    var tenant :- AsUuid(row.tenant);
    var suite :- AsText(row.suite);
    var suiteVersion :- AsText(row.suiteVersion);
    var subject :- AsUuid(row.subject);
    var harness :- AsText(row.harness);
    var id :- AsUuid(row.id);
    var candidate :- if Truthy(row.candidate) then Nullable(row.candidate, AsUuid) else Some(None);
    var status :- ReadTrialStatus(row.status);
    var seedJ :- Get(payload, "random_seed", d.absent);
    var seed :- Nullable(seedJ, AsInt);
    var casesJ :- Get(payload, "case_results", d.list);
    var cases :- AsList(casesJ, c => DecodeCase(d, c));
    var costJ :- Get(payload, "total_cost_microunits", d.cost);
    var cost :- AsInt(costJ);
    var failureJ :- Get(payload, "failure_reason", d.absent);
    var failure :- Nullable(failureJ, AsText);
    var startedJ :- Get(payload, "started_at", d.absent);
    var started :- DecodeTime(clock, startedJ);
    var completedJ :- Get(payload, "completed_at", d.absent);
    var completed :- DecodeTime(clock, completedJ);
    NewTrial(Trial(tenant, suite, suiteVersion, subject, harness, id, status, seed, cases, cost, failure, started,
                   completed, candidate))
  }

  // ---------------------------------------------------------------- round trip

  lemma EnumerationsInvert(s: GraderStatus, k: GraderKind, t: TrialStatus)
    ensures ReadStatus(Text(StatusText(s))) == Some(s)
    ensures ReadKind(Text(KindText(k))) == Some(k)
    ensures ReadTrialStatus(Text(TrialStatusText(t))) == Some(t)
  {
  }

  predicate GraderStored(j: Json, g: GraderResult) {
    && j.Object?
    && At(j, "trial_id") == Some(Text(g.trial))
    && At(j, "grader_id") == Some(Text(g.grader))
    && At(j, "grader_version") == Some(Text(g.version))
    && At(j, "score") == Some(OrNull(g.score, r => Float(r)))
    && At(j, "passed") == Some(OrNull(g.passed, b => Bool(b)))
    && At(j, "rationale") == Some(Text(g.rationale))
    && At(j, "evidence_refs") == Some(Texts(g.evidence))
    && At(j, "status") == Some(OrNull(g.status, s => Text(StatusText(s))))
    && At(j, "kind") == Some(Text(KindText(g.kind)))
  }

  lemma EncodedGraderStart(g: GraderResult)
    ensures At(EncodeGrader(g), "trial_id") == Some(Text(g.trial))
    ensures At(EncodeGrader(g), "grader_id") == Some(Text(g.grader))
    ensures At(EncodeGrader(g), "grader_version") == Some(Text(g.version))
    ensures At(EncodeGrader(g), "score") == Some(OrNull(g.score, r => Float(r)))
  {
  }

  lemma EncodedGraderEnd(g: GraderResult)
    ensures At(EncodeGrader(g), "passed") == Some(OrNull(g.passed, b => Bool(b)))
    ensures At(EncodeGrader(g), "rationale") == Some(Text(g.rationale))
    ensures At(EncodeGrader(g), "evidence_refs") == Some(Texts(g.evidence))
    ensures At(EncodeGrader(g), "status") == Some(OrNull(g.status, s => Text(StatusText(s))))
    ensures At(EncodeGrader(g), "kind") == Some(Text(KindText(g.kind)))
  {
  }

  lemma StoredGraderDecodes(d: Defaults, j: Json, g: GraderResult)
    requires NewGrader(g) == Some(g) && GraderStored(j, g)
    ensures DecodeGrader(d, j) == Some(g)
  {
    TextsInvert(g.evidence);
    EnumerationsInvert(if g.status.Some? then g.status.value else Pass, g.kind, Pending);
  }

  lemma GraderInverts(d: Defaults, g: GraderResult)
    requires NewGrader(g) == Some(g)
    ensures DecodeGrader(d, EncodeGrader(g)) == Some(g)
  {
    EncodedGraderStart(g);
    EncodedGraderEnd(g);
    StoredGraderDecodes(d, EncodeGrader(g), g);
  }

  lemma GradersInvert(d: Defaults, graders: seq<GraderResult>)
    requires forall g <- graders :: NewGrader(g) == Some(g)
    ensures AsList(List(EncodeEach(graders, EncodeGrader)), g => DecodeGrader(d, g)) == Some(graders)
  {
    var decode := g => DecodeGrader(d, g);
    forall i | 0 <= i < |graders| ensures decode(EncodeGrader(graders[i])) == Some(graders[i]) {
      GraderInverts(d, graders[i]);
    }
    EachInverts(graders, EncodeGrader, decode);
  }

  /** The object has these entries; more of them would change nothing. */
  predicate CaseStored(j: Json, c: CaseResult) {
    && j.Object?
    && At(j, "case_id") == Some(Text(c.case_))
    && At(j, "input_payload") == Some(Object(c.input))
    && At(j, "output_payload") == Some(OrNull(c.output, o => Object(o)))
    && At(j, "subject_executed") == Some(Bool(c.executed))
    && At(j, "grader_results") == Some(List(EncodeEach(c.graders, EncodeGrader)))
    && At(j, "evidence_refs") == Some(Texts(c.evidence))
    && At(j, "executor_id") == Some(OrNull(c.executor, s => Text(s)))
    && At(j, "environment_ref") == Some(OrNull(c.environment, s => Text(s)))
    && At(j, "model_ref") == Some(OrNull(c.model, s => Text(s)))
    && At(j, "tool_refs") == Some(Texts(c.tools))
    && At(j, "random_seed") == Some(OrNull(c.seed, i => Int(i)))
    && At(j, "cost_microunits") == Some(Int(c.cost))
    && At(j, "failure_reason") == Some(OrNull(c.failure, s => Text(s)))
  }

  lemma EncodedCaseStart(c: CaseResult)
    ensures At(EncodeCase(c), "case_id") == Some(Text(c.case_))
    ensures At(EncodeCase(c), "input_payload") == Some(Object(c.input))
    ensures At(EncodeCase(c), "output_payload") == Some(OrNull(c.output, o => Object(o)))
  {
  }

  lemma EncodedCaseEvidence(c: CaseResult)
    ensures At(EncodeCase(c), "subject_executed") == Some(Bool(c.executed))
    ensures At(EncodeCase(c), "evidence_refs") == Some(Texts(c.evidence))
    ensures At(EncodeCase(c), "executor_id") == Some(OrNull(c.executor, s => Text(s)))
  {
  }

  lemma EncodedCaseSubject(c: CaseResult)
    ensures At(EncodeCase(c), "environment_ref") == Some(OrNull(c.environment, s => Text(s)))
    ensures At(EncodeCase(c), "model_ref") == Some(OrNull(c.model, s => Text(s)))
    ensures At(EncodeCase(c), "tool_refs") == Some(Texts(c.tools))
  {
  }

  lemma EncodedCaseEnd(c: CaseResult)
    ensures At(EncodeCase(c), "random_seed") == Some(OrNull(c.seed, i => Int(i)))
    ensures At(EncodeCase(c), "cost_microunits") == Some(Int(c.cost))
    ensures At(EncodeCase(c), "failure_reason") == Some(OrNull(c.failure, s => Text(s)))
    ensures At(EncodeCase(c), "grader_results") == Some(List(EncodeEach(c.graders, EncodeGrader)))
  {
  }

  lemma EncodedCaseStored(c: CaseResult)
    ensures CaseStored(EncodeCase(c), c)
  {
    EncodedCaseStart(c);
    EncodedCaseEvidence(c);
    EncodedCaseSubject(c);
    EncodedCaseEnd(c);
  }

  lemma StoredCaseDecodes(d: Defaults, j: Json, c: CaseResult)
    requires CaseStored(j, c)
    requires NewCase(c) == Some(c) && forall g <- c.graders :: NewGrader(g) == Some(g)
    ensures DecodeCase(d, j) == Some(c)
  {
    TextsInvert(c.evidence);
    TextsInvert(c.tools);
    GradersInvert(d, c.graders);
  }

  predicate PayloadStored(clock: Clock, j: Json, t: Trial) {
    && j.Object? && Truthy(j)
    && At(j, "random_seed") == Some(OrNull(t.seed, i => Int(i)))
    && At(j, "total_cost_microunits") == Some(Int(t.cost))
    && At(j, "failure_reason") == Some(OrNull(t.failure, s => Text(s)))
    && At(j, "started_at") == Some(OrNull(t.started, i => Text(clock.write(i))))
    && At(j, "completed_at") == Some(OrNull(t.completed, i => Text(clock.write(i))))
    && At(j, "case_results") == Some(List(EncodeEach(t.cases, EncodeCase)))
  }

  lemma EncodedPayloadStored(clock: Clock, t: Trial)
    ensures PayloadStored(clock, EncodePayload(clock, t), t)
  {
    assert "case_results" in EncodePayload(clock, t).fields;
  }

  lemma TimeInverts(clock: Clock, t: Option<int>)
    requires Faithful(clock)
    ensures DecodeTime(clock, OrNull(t, i => Text(clock.write(i)))) == Some(t)
  {
    if t.Some? { assert ReadsBack(clock, t.value); }
  }

  predicate ColumnsStored(row: TrialRow, t: Trial) {
    && row.id == Text(t.id) && row.tenant == Text(t.tenant) && row.suite == Text(t.suite)
    && row.suiteVersion == Text(t.suiteVersion) && row.subject == Text(t.subject) && row.harness == Text(t.harness)
    && row.candidate == OrNull(t.candidate, (u: Uuid) => Text(u)) && row.status == Text(TrialStatusText(t.status))
  }

  lemma CasesInvert(d: Defaults, cases: seq<CaseResult>)
    requires forall c <- cases :: NewCase(c) == Some(c)
    requires forall c <- cases, g <- c.graders :: NewGrader(g) == Some(g)
    ensures AsList(List(EncodeEach(cases, EncodeCase)), c => DecodeCase(d, c)) == Some(cases)
  {
    var decode := c => DecodeCase(d, c);
    forall i | 0 <= i < |cases| ensures decode(EncodeCase(cases[i])) == Some(cases[i]) {
      CaseInverts(d, cases[i]);
    }
    EachInverts(cases, EncodeCase, decode);
  }

  lemma CaseInverts(d: Defaults, c: CaseResult)
    requires NewCase(c) == Some(c) && forall g <- c.graders :: NewGrader(g) == Some(g)
    ensures DecodeCase(d, EncodeCase(c)) == Some(c)
  {
    EncodedCaseStored(c);
    StoredCaseDecodes(d, EncodeCase(c), c);
  }

  lemma StoredTrialDecodes(clock: Clock, d: Defaults, row: TrialRow, t: Trial)
    requires Faithful(clock) && Admitted(t)
    requires ColumnsStored(row, t) && PayloadStored(clock, row.result, t)
    ensures Decode(clock, d, row) == Some(t)
  {
    CasesInvert(d, t.cases);
    EnumerationsInvert(Pass, Deterministic, t.status);
    TimeInverts(clock, t.started);
    TimeInverts(clock, t.completed);
  }

  /** Decoding the stored form of any trial gives the trial back, whatever the defaults are. */
  lemma TrialRoundTrip(clock: Clock, d: Defaults, t: Trial)
    requires Faithful(clock) && Admitted(t)
    ensures Decode(clock, d, Encode(clock, t)) == Some(t)
  {
    EncodedPayloadStored(clock, t);
    StoredTrialDecodes(clock, d, Encode(clock, t), t);
  }

  /** The program itself reads every stored trial back, so different trials are stored differently. */
  lemma StoredTrialsDiffer(clock: Clock, t: Trial, u: Trial)
    requires Faithful(clock) && Admitted(t) && Admitted(u)
    ensures Decode(clock, PROGRAM_DEFAULTS, Encode(clock, t)) == Some(t)
    ensures Encode(clock, t) == Encode(clock, u) ==> t == u
  {
    TrialRoundTrip(clock, PROGRAM_DEFAULTS, t);
    TrialRoundTrip(clock, PROGRAM_DEFAULTS, u);
  }

  // ---------------------------------------------------------------- rows from before a key was written

  /** The keys a stored grader result may lack, and what the result must then be like. */
  predicate MayLack(g: GraderResult, key: string) {
    || (key == "score" && g.score.None?)
    || (key == "passed" && g.passed.None?)
    || (key == "evidence_refs" && g.evidence == [])
    || (key == "status" && g.status == Some(Inferred(g.passed)))
    || (key == "kind" && g.kind == Deterministic)
  }

  /** A grader result stored without some of the later keys is read as deterministic, without score,
      verdict or evidence, its status following from the verdict. */
  lemma OlderGraderDecodes(j: Json, g: GraderResult, lacking: set<string>)
    requires NewGrader(g) == Some(g) && GraderStored(j, g) && forall key <- lacking :: MayLack(g, key)
    ensures DecodeGrader(PROGRAM_DEFAULTS, Object(j.fields - lacking)) == Some(g)
  {
    var older := Object(j.fields - lacking);
    assert Texts([]) == List([]);
    GetWithout(j, lacking, "score", Null, OrNull(g.score, r => Float(r)));
    GetWithout(j, lacking, "passed", Null, OrNull(g.passed, b => Bool(b)));
    GetWithout(j, lacking, "evidence_refs", List([]), Texts(g.evidence));
    GetWithout(j, lacking, "kind", Text("deterministic"), Text(KindText(g.kind)));
    AtWithout(j, lacking, "trial_id");
    AtWithout(j, lacking, "grader_id");
    AtWithout(j, lacking, "grader_version");
    AtWithout(j, lacking, "rationale");
    var status := if "status" in lacking then None else g.status;
    assert Get(older, "status", Null) == Some(OrNull(status, s => Text(StatusText(s))));
    GraderReads(older, g.(status := status));
  }

  lemma GraderReads(j: Json, g: GraderResult)
    requires j.Object? && NewGrader(g).Some?
    requires At(j, "trial_id") == Some(Text(g.trial)) && At(j, "grader_id") == Some(Text(g.grader))
    requires At(j, "grader_version") == Some(Text(g.version)) && At(j, "rationale") == Some(Text(g.rationale))
    requires Get(j, "score", Null) == Some(OrNull(g.score, r => Float(r)))
    requires Get(j, "passed", Null) == Some(OrNull(g.passed, b => Bool(b)))
    requires Get(j, "evidence_refs", List([])) == Some(Texts(g.evidence))
    requires Get(j, "status", Null) == Some(OrNull(g.status, s => Text(StatusText(s))))
    requires Get(j, "kind", Text("deterministic")) == Some(Text(KindText(g.kind)))
    ensures DecodeGrader(PROGRAM_DEFAULTS, j) == NewGrader(g)
  {
    TextsInvert(g.evidence);
    EnumerationsInvert(if g.status.Some? then g.status.value else Pass, g.kind, Pending);
  }
}
