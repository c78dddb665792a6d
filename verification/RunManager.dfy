/** The export pipeline: a state machine with many exits over an audit log and the exported file. */
module RunManager {
  import opened Options
  import EvalGates

  datatype RunState =
    CREATED | INGESTING | READY | EXECUTING | EVALUATING | EXPORTING | COMPLETED | FAILED | CANCELLED

  /** `valid_transition`. */
  predicate ValidTransition(source: RunState, to: RunState) {
    match (source, to)
    case (CREATED, INGESTING) => true
    case (CREATED, READY) => true
    case (READY, EXECUTING) => true
    case (EXECUTING, EVALUATING) => true
    case (READY, EVALUATING) => true
    case (EVALUATING, EXPORTING) => true
    case (EVALUATING, FAILED) => true
    case (EXPORTING, COMPLETED) => true
    case (EXPORTING, FAILED) => true
    case (_, CANCELLED) => true
    case _ => false
  }

  /** Where a run can go from a state. */
  function Successors(s: RunState): set<RunState> {
    match s
    case CREATED => {INGESTING, READY, CANCELLED}
    case INGESTING => {CANCELLED}
    case READY => {EXECUTING, EVALUATING, CANCELLED}
    case EXECUTING => {EVALUATING, CANCELLED}
    case EVALUATING => {EXPORTING, FAILED, CANCELLED}
    case EXPORTING => {COMPLETED, FAILED, CANCELLED}
    case COMPLETED => {CANCELLED}
    case FAILED => {CANCELLED}
    case CANCELLED => {CANCELLED}
  }

  lemma SuccessorsExactly(source: RunState, to: RunState)
    ensures ValidTransition(source, to) <==> to in Successors(source)
  {
  }

  function Rank(s: RunState): nat {
    match s
    case CREATED => 0
    case INGESTING => 1
    case READY => 1
    case EXECUTING => 2
    case EVALUATING => 3
    case EXPORTING => 4
    case COMPLETED => 5
    case FAILED => 5
    case CANCELLED => 6
  }

  /** Every edge climbs, except the one from CANCELLED to itself. */
  lemma TransitionsClimb(source: RunState, to: RunState)
    requires ValidTransition(source, to)
    ensures Rank(source) < Rank(to) || source == to == CANCELLED
  {
  }

  // ----- The policy gate -----

  datatype PinningLevel = CRYPTO_PINNED | VERSION_PINNED | NAME_ONLY

  datatype NetworkMode = OFFLINE | ONLINE_ALLOWLISTED

  datatype ProofLevel =
    OFFLINE_STRICT | ONLINE_ALLOWLIST_CORE_ONLY | ONLINE_ALLOWLIST_WITH_OS_FIREWALL_PROFILE

  datatype BlockReason =
    | EVAL_FAILED
    | MISSING_CITATIONS
    | MISSING_REDACTIONS
    | INSUFFICIENT_PINNING
    | OFFLINE_PROOF_INSUFFICIENT
    | DETERMINISM_FAILED

  datatype Request = Request(policy: EvalGates.PolicyMode, network: NetworkMode, proof: ProofLevel)

  /** The caller's bundle inputs; `content` stands for all that the export passes on untouched. */
  datatype Inputs = Inputs(content: string, packId: string, pinning: Option<PinningLevel>)

  /** The three gates the policy asks for by name. */
  const CITATIONS := "CITATIONS.STRICT_ENFORCED_V1"
  const REDACTIONS := "REDACTION.REQUIRED_APPLIED_V1"
  const DETERMINISM := "DETERMINISM.ZIP_PACKAGING_V1"

  /** `evaluate_export_gate`; no reason means the export may go on. */
  function ExportGate(req: Request, pinning: Option<PinningLevel>, citationsOk: bool, redactionsOk: bool,
                      blockers: seq<string>, determinismOk: bool): Option<BlockReason>
  {
    if blockers != [] then Some(EVAL_FAILED)
    else if !determinismOk then Some(DETERMINISM_FAILED)
    else if pinning == Some(NAME_ONLY) && !req.policy.DRAFT_ONLY? then Some(INSUFFICIENT_PINNING)
    else if req.policy.STRICT? && !citationsOk then Some(MISSING_CITATIONS)
    else if !req.policy.DRAFT_ONLY? && !redactionsOk then Some(MISSING_REDACTIONS)
    else if req.policy.STRICT? && (req.network != OFFLINE || req.proof != OFFLINE_STRICT) then
      Some(OFFLINE_PROOF_INSUFFICIENT)
    else None
  }

  // ----- Events -----

  datatype Reason =
    | BUNDLE_GENERATION_ERROR
    | BUNDLE_VALIDATION_ERROR
    | BUNDLE_VALIDATION_FAILED
    | FINAL_BUNDLE_REWRITE_ERROR
    | FINAL_BUNDLE_VALIDATION_ERROR
    | FINAL_BUNDLE_VALIDATION_FAILED

  datatype Event =
    | ExportRequested(policy: EvalGates.PolicyMode)
    | RunStateChanged(source: RunState, to: RunState)
    | EvalStarted
    | GateResult(gate: EvalGates.GateRunResult)
    | EvalCompleted(executed: nat, failedBlocker: nat, failedTotal: nat)
    | ExportBlocked(reason: BlockReason, failedGates: seq<string>)
    | BundleGenerationStarted
    | BundleGenerationCompleted
    | BundleValidationStarted
    | BundleValidationResult(overall: EvalGates.Status, finalBytes: bool)
    | ExportFailed(why: Reason)
    | ExportCompleted(sha256: string)

  /** What one bundle is made from. */
  datatype Bundle = Bundle(inputs: Inputs, gateStatus: EvalGates.Status, report: EvalGates.EvalReport,
                           auditLog: seq<Event>)

  // ----- The outside world -----

  datatype AppendOutcome = Persisted | Refused | PersistedButFailed

  /** A failed ZIP generation leaves an old file, a torn one, or none. */
  datatype ZipOutcome = Written | Broken(left: Option<string>)

  /** How each call to the outside goes; calls are numbered. */
  datatype Oracle = Oracle(append: nat -> AppendOutcome, read: nat -> bool, dir: nat -> bool,
                           zip: nat -> ZipOutcome, check: nat -> bool, remove: nat -> bool)

  datatype Setup = Setup(oracle: Oracle, archive: Bundle -> string, sha256: string -> string,
                         validator: (string, EvalGates.PolicyMode) -> EvalGates.Status,
                         tables: EvalGates.Tables, registry: EvalGates.Registry)

  /** Every append, every audit read and every removal succeeds. */
  ghost predicate Reliable(o: Oracle) {
    forall k :: o.append(k) == Persisted && o.read(k) && o.remove(k)
  }

  /** Every bundle generation and every validation runs to its end. */
  ghost predicate Working(o: Oracle) {
    forall k :: o.dir(k) && o.zip(k).Written? && o.check(k)
  }

  /** Every append persists and succeeds, or fails and leaves no record. */
  ghost predicate Atomic(o: Oracle) {
    forall k :: o.append(k) != PersistedButFailed
  }

  // ----- What a log says about the run -----

  /** Where the state changes among the first records of a log lead from READY; nowhere if they do
      not link up. */
  function WalkTo(log: seq<Event>, n: nat): Option<RunState>
    requires n <= |log|
  {
    if n == 0 then Some(READY)
    else
      var s := WalkTo(log, n - 1);
      var e := log[n - 1];
      if s.None? || !e.RunStateChanged? then s
      else if s.value == e.source && ValidTransition(e.source, e.to) then Some(e.to)
      else None
  }

  function Walk(log: seq<Event>): Option<RunState> {
    WalkTo(log, |log|)
  }

  function CompletionsTo(log: seq<Event>, n: nat): nat
    requires n <= |log|
  {
    if n == 0 then 0 else CompletionsTo(log, n - 1) + if log[n - 1].ExportCompleted? then 1 else 0
  }

  /** How many completed exports a log records. */
  function Completions(log: seq<Event>): nat {
    CompletionsTo(log, |log|)
  }

  lemma {:induction false} SamePrefix(log: seq<Event>, more: seq<Event>, n: nat)
    requires n <= |log| <= |more| && forall i :: 0 <= i < n ==> log[i] == more[i]
    ensures WalkTo(log, n) == WalkTo(more, n) && CompletionsTo(log, n) == CompletionsTo(more, n)
  {
    if n > 0 {
      SamePrefix(log, more, n - 1);
    }
  }

  lemma WalkAppend(log: seq<Event>, e: Event)
    ensures Completions(log + [e]) == Completions(log) + if e.ExportCompleted? then 1 else 0
    ensures !e.RunStateChanged? ==> Walk(log + [e]) == Walk(log)
    ensures e.RunStateChanged? && Walk(log) == Some(e.source) && ValidTransition(e.source, e.to)
      ==> Walk(log + [e]) == Some(e.to)
  {
    SamePrefix(log, log + [e], |log|);
  }

  /** At most one export is completed, and only once the run has reached EXPORTING. */
  ghost predicate Once(log: seq<Event>, state: RunState) {
    Completions(log) <= 1 && (Completions(log) == 1 ==> Rank(state) >= Rank(EXPORTING))
  }

  ghost predicate Consistent(o: Oracle, log: seq<Event>, state: RunState) {
    Once(log, state) && (Atomic(o) ==> Walk(log) == Some(state))
  }

  // ----- Trails: what the phases of an export append -----

  function GateEvents(results: seq<EvalGates.GateRunResult>): seq<Event> {
    if results == [] then []
    else GateEvents(results[..|results| - 1]) + [GateResult(results[|results| - 1])]
  }

  function FailedGates(results: seq<EvalGates.GateRunResult>, blockersOnly: bool): seq<string> {
    if results == [] then []
    else
      var r := results[|results| - 1];
      FailedGates(results[..|results| - 1], blockersOnly)
      + if r.result == EvalGates.FAIL && (blockersOnly ==> r.severity == EvalGates.BLOCKER) then [r.gateId] else []
  }

  function EvalBegin(req: Request, source: RunState): seq<Event> {
    [ExportRequested(req.policy), RunStateChanged(source, EVALUATING), EvalStarted]
  }

  function EvalEnd(results: seq<EvalGates.GateRunResult>): seq<Event> {
    GateEvents(results)
    + [EvalCompleted(|results|, |FailedGates(results, true)|, |FailedGates(results, false)|)]
  }

  function EvalTrail(req: Request, source: RunState, results: seq<EvalGates.GateRunResult>): seq<Event> {
    EvalBegin(req, source) + EvalEnd(results)
  }

  lemma Chain(log: seq<Event>, first: seq<Event>, second: seq<Event>)
    ensures (log + first) + second == log + (first + second)
  {
  }

  function ReportOf(setup: Setup, req: Request, inputs: Inputs, results: seq<EvalGates.GateRunResult>)
    : Result<EvalGates.EvalReport, EvalGates.ReportError>
  {
    EvalGates.Report(setup.tables, setup.registry, EvalGates.PolicyName(req.policy), inputs.packId, results)
  }

  /** `export_run`'s decision on evaluated gates. */
  function Decision(setup: Setup, req: Request, inputs: Inputs, results: seq<EvalGates.GateRunResult>,
                    report: EvalGates.EvalReport): Option<BlockReason>
  {
    var policy := EvalGates.PolicyName(req.policy);
    ExportGate(req, inputs.pinning,
               EvalGates.GateSatisfied(setup.registry, report, CITATIONS, policy),
               EvalGates.GateSatisfied(setup.registry, report, REDACTIONS, policy),
               FailedGates(results, true),
               EvalGates.GateSatisfied(setup.registry, report, DETERMINISM, policy))
  }

  datatype Evaluation =
    | EvaluationError
    | Verdict(results: seq<EvalGates.GateRunResult>, report: EvalGates.EvalReport, block: Option<BlockReason>)

  /** Where a failing export stops after it has cleaned up. */
  datatype Stage =
    | Generation
    | InitialCheckError
    | InitialCheckFailed(overall: EvalGates.Status)
    | Rewrite
    | FinalCheckError
    | FinalCheckFailed(overall: EvalGates.Status)

  const STARTED: seq<Event> := [RunStateChanged(EVALUATING, EXPORTING), BundleGenerationStarted]
  const BUILT: seq<Event> := [BundleGenerationCompleted, BundleValidationStarted]

  function CheckResult(overall: EvalGates.Status, finalBytes: bool): seq<Event> {
    [BundleValidationResult(overall, finalBytes)]
  }

  function Abandoned(why: Reason): seq<Event> {
    [ExportFailed(why), RunStateChanged(EXPORTING, FAILED)]
  }

  function ErrorWhy(finalBytes: bool): Reason {
    if finalBytes then FINAL_BUNDLE_VALIDATION_ERROR else BUNDLE_VALIDATION_ERROR
  }

  function FailedWhy(finalBytes: bool): Reason {
    if finalBytes then FINAL_BUNDLE_VALIDATION_FAILED else BUNDLE_VALIDATION_FAILED
  }

  function ErrorStage(finalBytes: bool): Stage {
    if finalBytes then FinalCheckError else InitialCheckError
  }

  function FailedStage(overall: EvalGates.Status, finalBytes: bool): Stage {
    if finalBytes then FinalCheckFailed(overall) else InitialCheckFailed(overall)
  }

  /** What a failed check appends. */
  function CheckTrail(stage: Stage, finalBytes: bool): seq<Event> {
    match stage
    case InitialCheckFailed(overall) => CheckResult(overall, finalBytes) + Abandoned(FailedWhy(finalBytes))
    case FinalCheckFailed(overall) => CheckResult(overall, finalBytes) + Abandoned(FailedWhy(finalBytes))
    case _ => Abandoned(ErrorWhy(finalBytes))
  }

  /** What the file at the export path is when an append, a read or a removal fails. */
  datatype Left = Untouched | NotRemoved | Gone | InitialArchive | FinalArchive

  datatype Phase = Go | Stop(stage: Stage) | Cut(left: Left)

  datatype Generated = Built(sha256: string) | NotBuilt | Stuck

  datatype Production = Ready(sha256: string) | Dropped | Lost(left: Left)

  /** The files an interrupted export leaves, given the archives it may have made. */
  predicate Leaves(left: Left, before: map<string, string>, files: map<string, string>, path: string,
                   initial: string, final: string)
  {
    match left
    case Untouched => files == before
    case NotRemoved => files - {path} == before - {path}
    case Gone => files == before - {path}
    case InitialArchive => files == before[path := initial]
    case FinalArchive => files == before[path := final]
  }

  function BlockedTrail(reason: BlockReason, failed: seq<string>): seq<Event> {
    [ExportBlocked(reason, failed), RunStateChanged(EVALUATING, FAILED)]
  }

  datatype Job = Job(req: Request, inputs: Inputs, path: string, preflight: Option<seq<EvalGates.GateRunResult>>)

  /** How an export that left EVALUATING for EXPORTING, or never did, returns. */
  datatype Exit = NotExporting | Stopped(stage: Stage) | Interrupted(left: Left) | Finished

  datatype ExportResult =
    | ExportError
    | Blocked(reason: BlockReason)
    | ValidationFailed
    | Completed(path: string, sha256: string)

  /** The result of a cleaned-up failure: a failed check is an outcome, everything else an error. */
  function StageResult(stage: Stage): ExportResult {
    if Refuted(stage) then ValidationFailed else ExportError
  }

  /** The export stopped because a validation ran and did not pass. */
  predicate Refuted(stage: Stage) {
    stage.InitialCheckFailed? || stage.FinalCheckFailed?
  }

  /** What an export appends behind STARTED when it stops before the final bytes are made. */
  function InitialTrail(stage: Stage): seq<Event> {
    if stage.Generation? then Abandoned(BUNDLE_GENERATION_ERROR) else BUILT + CheckTrail(stage, false)
  }

  /** What it appends behind EMBEDDED when it stops later. */
  function FinalTrail(stage: Stage): seq<Event> {
    if stage.Rewrite? then Abandoned(FINAL_BUNDLE_REWRITE_ERROR) else CheckTrail(stage, true)
  }

  predicate StopsEarly(stage: Stage) {
    stage.Generation? || stage.InitialCheckError? || stage.InitialCheckFailed?
  }

  /** What an export appends behind the evaluation when it stops at a stage. */
  function StageTrail(stage: Stage): seq<Event> {
    if StopsEarly(stage) then STARTED + InitialTrail(stage) else EMBEDDED + FinalTrail(stage)
  }

  /** What the embedded audit log of the exported bytes ends with. */
  const EMBEDDED: seq<Event> := STARTED + (BUILT + CheckResult(EvalGates.PASS, false))

  /** A stage that reports a failed check reports what the validator said of the bytes. */
  predicate Verdicts(setup: Setup, req: Request, stage: Stage, initial: string, final: string) {
    match stage
    case InitialCheckFailed(overall) => overall == setup.validator(initial, req.policy) != EvalGates.PASS
    case FinalCheckFailed(overall) => overall == setup.validator(final, req.policy) != EvalGates.PASS
    case _ => true
  }

  lemma Replaced(files: map<string, string>, path: string, a: string, b: string)
    ensures files[path := a] - {path} == files - {path}
    ensures files[path := a][path := b] == files[path := b]
  {
  }

  function Completing(sha256: string): seq<Event> {
    CheckResult(EvalGates.PASS, true) + [ExportCompleted(sha256), RunStateChanged(EXPORTING, COMPLETED)]
  }

  /** What a completed export appends behind the evaluation. */
  function CompletedTrail(sha256: string): seq<Event> {
    EMBEDDED + Completing(sha256)
  }

  /** The bundle made from an evaluated export and the log read at this moment. */
  function BundleAt(inputs: Inputs, report: EvalGates.EvalReport, text: seq<Event>): Bundle {
    Bundle(inputs, report.overall, report, text)
  }

  /** What an export is asked to do and the log it starts from, once the gates are evaluated. */
  datatype Task = Task(req: Request, inputs: Inputs, report: EvalGates.EvalReport, path: string,
                       prior: seq<Event>, base: seq<Event>)

  /** The bytes of the first archive. */
  function InitialBytes(setup: Setup, task: Task): string {
    setup.archive(BundleAt(task.inputs, task.report, task.prior + (task.base + STARTED)))
  }

  /** The bytes that are exported: their log ends with the result of the first validation. */
  function FinalBytes(setup: Setup, task: Task): string {
    setup.archive(BundleAt(task.inputs, task.report, task.prior + (task.base + EMBEDDED)))
  }

  /** What each way to leave the export means for its result, the state, the log and the files.
      Finished: the file is the archive whose embedded log ends with the first validation result, its
        hash is returned, and the validator passed both archives;
      Stopped: one of the failure exits was taken to its end, and no file is left;
      Interrupted: the files are what the point of interruption leaves. */
  predicate Ended(setup: Setup, task: Task, before: map<string, string>, exit: Exit, r: ExportResult,
                  state: RunState, log: seq<Event>, files: map<string, string>)
  {
    match exit
    case NotExporting => files == before
    case Finished =>
      var bytes := FinalBytes(setup, task);
      && r == Completed(task.path, setup.sha256(bytes)) && state == COMPLETED && files == before[task.path := bytes]
      && log == task.base + CompletedTrail(setup.sha256(bytes))
      && setup.validator(InitialBytes(setup, task), task.req.policy) == EvalGates.PASS
      && setup.validator(bytes, task.req.policy) == EvalGates.PASS
    case Stopped(stage) =>
      && r == StageResult(stage) && state == FAILED && files == before - {task.path}
      && log == task.base + StageTrail(stage)
      && Verdicts(setup, task.req, stage, InitialBytes(setup, task), FinalBytes(setup, task))
    case Interrupted(left) =>
      && r == ExportError
      && Leaves(left, before, files, task.path, InitialBytes(setup, task), FinalBytes(setup, task))
  }

  /** At most one of the exports has returned that it has completed. */
  predicate OneCompleted(results: seq<ExportResult>) {
    forall i, j :: 0 <= i < j < |results| ==> !(results[i].Completed? && results[j].Completed?)
  }

  // ----- Why an export is blocked, and what it records -----

  predicate Under(policy: EvalGates.PolicyMode, g: EvalGates.GateDef) {
    match policy
    case STRICT => "STRICT" in g.policies
    case BALANCED => "BALANCED" in g.policies
    case DRAFT_ONLY => "DRAFT_ONLY" in g.policies
  }

  /** The registry knows the gate, and it is not one of the policy's or has a result other than FAIL. */
  ghost predicate Satisfied(gates: seq<EvalGates.GateDef>, policy: EvalGates.PolicyMode,
                            results: seq<EvalGates.GateRunResult>, id: string)
  {
    exists i :: EvalGates.FirstGate(gates, id, i) && (Under(policy, gates[i]) ==> EvalGates.HasNotFailed(results, id))
  }

  /** The condition behind a reason is broken. */
  ghost predicate Broken(gates: seq<EvalGates.GateDef>, req: Request, inputs: Inputs,
                         results: seq<EvalGates.GateRunResult>, reason: BlockReason)
  {
    match reason
    case EVAL_FAILED =>
      exists r :: r in results && r.result == EvalGates.FAIL && r.severity == EvalGates.BLOCKER
    case DETERMINISM_FAILED => !Satisfied(gates, req.policy, results, "DETERMINISM.ZIP_PACKAGING_V1")
    case INSUFFICIENT_PINNING =>
      (req.policy.STRICT? || req.policy.BALANCED?) && inputs.pinning == Some(NAME_ONLY)
    case MISSING_CITATIONS =>
      req.policy.STRICT? && !Satisfied(gates, req.policy, results, "CITATIONS.STRICT_ENFORCED_V1")
    case MISSING_REDACTIONS =>
      && (req.policy.STRICT? || req.policy.BALANCED?)
      && !Satisfied(gates, req.policy, results, "REDACTION.REQUIRED_APPLIED_V1")
    case OFFLINE_PROOF_INSUFFICIENT =>
      req.policy.STRICT? && !(req.network == OFFLINE && req.proof == OFFLINE_STRICT)
  }

  /** The order in which the conditions are asked. */
  const ASKED := [EVAL_FAILED, DETERMINISM_FAILED, INSUFFICIENT_PINNING, MISSING_CITATIONS, MISSING_REDACTIONS,
                  OFFLINE_PROOF_INSUFFICIENT]

  /** No condition is broken, or this is the first. */
  ghost predicate Decided(gates: seq<EvalGates.GateDef>, req: Request, inputs: Inputs,
                          results: seq<EvalGates.GateRunResult>, block: Option<BlockReason>)
  {
    match block
    case None => forall reason :: !Broken(gates, req, inputs, results, reason)
    case Some(first) =>
      && Broken(gates, req, inputs, results, first)
      && forall i, j :: 0 <= i < j < |ASKED| && ASKED[j] == first ==> !Broken(gates, req, inputs, results, ASKED[i])
  }

  lemma UnderIsNamed(gates: seq<EvalGates.GateDef>, policy: EvalGates.PolicyMode,
                     results: seq<EvalGates.GateRunResult>, id: string)
    ensures Satisfied(gates, policy, results, id)
      <==> EvalGates.LetsPass(gates, EvalGates.PolicyName(policy), results, id)
  {
  }

  lemma {:induction false} BlockersFailed(results: seq<EvalGates.GateRunResult>)
    ensures FailedGates(results, true) != []
      <==> exists r :: r in results && r.result == EvalGates.FAIL && r.severity == EvalGates.BLOCKER
  {
    if results != [] {
      BlockersFailed(results[..|results| - 1]);
      assert results == results[..|results| - 1] + [results[|results| - 1]];
    }
  }

  /** `gate_satisfied_for_export` on the report of the evaluation. */
  lemma SatisfiedInReport(setup: Setup, req: Request, inputs: Inputs, results: seq<EvalGates.GateRunResult>, id: string)
    requires ReportOf(setup, req, inputs, results).Ok?
    ensures EvalGates.GateSatisfied(setup.registry, ReportOf(setup, req, inputs, results).value, id,
                                    EvalGates.PolicyName(req.policy))
      <==> Satisfied(setup.registry.gates, req.policy, results, id)
  {
    EvalGates.SatisfiedExactly(setup.tables, setup.registry, EvalGates.PolicyName(req.policy), inputs.packId,
                               results, id);
    UnderIsNamed(setup.registry.gates, req.policy, results, id);
  }

  /** The gate's decision, in the order of its conditions. */
  lemma GateDecides(gates: seq<EvalGates.GateDef>, req: Request, inputs: Inputs,
                    results: seq<EvalGates.GateRunResult>, blockers: seq<string>, block: Option<BlockReason>)
    requires blockers != [] <==> Broken(gates, req, inputs, results, EVAL_FAILED)
    requires block == ExportGate(req, inputs.pinning, Satisfied(gates, req.policy, results, CITATIONS),
                                 Satisfied(gates, req.policy, results, REDACTIONS), blockers,
                                 Satisfied(gates, req.policy, results, DETERMINISM))
    ensures Decided(gates, req, inputs, results, block)
  {
  }

  lemma DecisionDecides(setup: Setup, req: Request, inputs: Inputs, results: seq<EvalGates.GateRunResult>)
    requires ReportOf(setup, req, inputs, results).Ok?
    ensures Decided(setup.registry.gates, req, inputs, results,
                    Decision(setup, req, inputs, results, ReportOf(setup, req, inputs, results).value))
  {
    SatisfiedInReport(setup, req, inputs, results, CITATIONS);
    SatisfiedInReport(setup, req, inputs, results, REDACTIONS);
    SatisfiedInReport(setup, req, inputs, results, DETERMINISM);
    BlockersFailed(results);
    GateDecides(setup.registry.gates, req, inputs, results, FailedGates(results, true),
                Decision(setup, req, inputs, results, ReportOf(setup, req, inputs, results).value));
  }

  ghost predicate Counts(r: EvalGates.GateRunResult, blockersOnly: bool) {
    r.result == EvalGates.FAIL && (blockersOnly ==> r.severity == EvalGates.BLOCKER)
  }

  /** These are the places of the failed gates, in order. */
  ghost predicate FailedAt(results: seq<EvalGates.GateRunResult>, blockersOnly: bool, at: seq<nat>) {
    && (forall j, k :: 0 <= j < k < |at| ==> at[j] < at[k])
    && (forall k :: 0 <= k < |at| ==> at[k] < |results| && Counts(results[at[k]], blockersOnly))
    && (forall i :: 0 <= i < |results| && Counts(results[i], blockersOnly) ==> i in at)
  }

  ghost predicate NamesAt(results: seq<EvalGates.GateRunResult>, at: seq<nat>, ids: seq<string>) {
    |ids| == |at| && forall k :: 0 <= k < |at| ==> at[k] < |results| && ids[k] == results[at[k]].gateId
  }

  /** The ids of the failed gates, or of the failed blockers, in the order of the results. */
  ghost predicate ListsFailed(results: seq<EvalGates.GateRunResult>, blockersOnly: bool, ids: seq<string>) {
    exists at: seq<nat> :: FailedAt(results, blockersOnly, at) && NamesAt(results, at, ids)
  }

  lemma {:induction false} FailedGatesListed(results: seq<EvalGates.GateRunResult>, blockersOnly: bool)
    ensures ListsFailed(results, blockersOnly, FailedGates(results, blockersOnly))
  {
    if results == [] {
      assert FailedAt(results, blockersOnly, []) && NamesAt(results, [], []);
    } else {
      var n := |results| - 1;
      var front := results[..n];
      FailedGatesListed(front, blockersOnly);
      var at: seq<nat> :| FailedAt(front, blockersOnly, at) && NamesAt(front, at, FailedGates(front, blockersOnly));
      ListedMore(results, blockersOnly, at, FailedGates(front, blockersOnly));
    }
  }

  lemma ListedMore(results: seq<EvalGates.GateRunResult>, blockersOnly: bool, at: seq<nat>, ids: seq<string>)
    requires results != []
    requires var front := results[..|results| - 1]; FailedAt(front, blockersOnly, at) && NamesAt(front, at, ids)
    ensures var last := results[|results| - 1];
      ListsFailed(results, blockersOnly, ids + if Counts(last, blockersOnly) then [last.gateId] else [])
  {
    var n := |results| - 1;
    var last := results[n];
    var all: seq<nat> := at + if Counts(last, blockersOnly) then [n] else [];
    assert forall i :: 0 <= i < n ==> results[..n][i] == results[i];
    forall i | 0 <= i < |results| && Counts(results[i], blockersOnly) ensures i in all {
      if i < n {
        assert Counts(results[..n][i], blockersOnly);
      }
    }
    assert FailedAt(results, blockersOnly, all);
    assert NamesAt(results, all, ids + if Counts(last, blockersOnly) then [last.gateId] else []);
  }

  /** An evaluation has been recorded behind a log: the request, the change of state, the start, a record
      for every result, and the counts of the results and of the failures among them. */
  ghost predicate Evaluated(before: seq<Event>, req: Request, source: RunState,
                            results: seq<EvalGates.GateRunResult>, log: seq<Event>)
  {
    var n := |before|;
    && |log| == n + 3 + |results| + 1 && log[..n] == before
    && log[n] == ExportRequested(req.policy) && log[n + 1] == RunStateChanged(source, EVALUATING)
    && log[n + 2] == EvalStarted
    && (forall i :: 0 <= i < |results| ==> log[n + 3 + i] == GateResult(results[i]))
    && CountsRecorded(results, log[n + 3 + |results|])
  }

  ghost predicate CountsRecorded(results: seq<EvalGates.GateRunResult>, e: Event) {
    exists blockers, fails ::
      && ListsFailed(results, true, blockers) && ListsFailed(results, false, fails)
      && e == EvalCompleted(|results|, |blockers|, |fails|)
  }

  lemma {:induction false} GateEventsAre(results: seq<EvalGates.GateRunResult>)
    ensures |GateEvents(results)| == |results|
    ensures forall i :: 0 <= i < |results| ==> GateEvents(results)[i] == GateResult(results[i])
  {
    if results != [] {
      GateEventsAre(results[..|results| - 1]);
    }
  }

  lemma Five(before: seq<Event>, a: Event, b: Event, c: Event, events: seq<Event>, last: Event)
    ensures var log := before + ([a, b, c] + (events + [last]));
      var n := |before|;
      && |log| == n + 3 + |events| + 1 && log[..n] == before
      && log[n] == a && log[n + 1] == b && log[n + 2] == c && log[n + 3 + |events|] == last
      && forall i :: 0 <= i < |events| ==> log[n + 3 + i] == events[i]
  {
  }

  lemma CountsAre(results: seq<EvalGates.GateRunResult>)
    ensures CountsRecorded(results, EvalCompleted(|results|, |FailedGates(results, true)|,
                                                  |FailedGates(results, false)|))
  {
    FailedGatesListed(results, true);
    FailedGatesListed(results, false);
  }

  lemma TrailEvaluates(before: seq<Event>, req: Request, source: RunState, results: seq<EvalGates.GateRunResult>)
    ensures Evaluated(before, req, source, results, before + EvalTrail(req, source, results))
  {
    GateEventsAre(results);
    CountsAre(results);
    Five(before, ExportRequested(req.policy), RunStateChanged(source, EVALUATING), EvalStarted, GateEvents(results),
         EvalCompleted(|results|, |FailedGates(results, true)|, |FailedGates(results, false)|));
  }

  /** A blocked export: evaluated, recorded with its reason and the failed blockers, and FAILED. */
  ghost predicate BlockedAs(before: seq<Event>, req: Request, source: RunState, results: seq<EvalGates.GateRunResult>,
                            reason: BlockReason, state: RunState, log: seq<Event>)
  {
    var n := |log| - 2;
    && state == FAILED && n >= 0 && Evaluated(before, req, source, results, log[..n])
    && log[n].ExportBlocked? && log[n].reason == reason && ListsFailed(results, true, log[n].failedGates)
    && log[n + 1] == RunStateChanged(EVALUATING, FAILED)
  }

  lemma BlockedSo(before: seq<Event>, req: Request, source: RunState, results: seq<EvalGates.GateRunResult>,
                  reason: BlockReason, log: seq<Event>)
    requires log == (before + EvalTrail(req, source, results)) + BlockedTrail(reason, FailedGates(results, true))
    ensures BlockedAs(before, req, source, results, reason, FAILED, log)
  {
    TrailEvaluates(before, req, source, results);
    FailedGatesListed(results, true);
    assert log[..|log| - 2] == before + EvalTrail(req, source, results);
  }

  /** The archive of a bundle whose manifest repeats the report's overall status. */
  function ArchiveOf(setup: Setup, inputs: Inputs, report: EvalGates.EvalReport, text: seq<Event>): string {
    setup.archive(Bundle(inputs, report.overall, report, text))
  }

  /** One file has changed, to the archive with the second text as its log; the validator passed it, and
      before it the archive with the first. */
  ghost predicate Exported(setup: Setup, job: Job, report: EvalGates.EvalReport, firstText: seq<Event>,
                           finalText: seq<Event>, sha256: string,
                           filesBefore: map<string, string>, files: map<string, string>)
  {
    var final := ArchiveOf(setup, job.inputs, report, finalText);
    && setup.validator(ArchiveOf(setup, job.inputs, report, firstText), job.req.policy) == EvalGates.PASS
    && setup.validator(final, job.req.policy) == EvalGates.PASS
    && files == filesBefore[job.path := final] && sha256 == setup.sha256(final)
  }

  predicate EightRecords(sha256: string, trail: seq<Event>) {
    trail == [RunStateChanged(EVALUATING, EXPORTING), BundleGenerationStarted, BundleGenerationCompleted,
              BundleValidationStarted, BundleValidationResult(EvalGates.PASS, false),
              BundleValidationResult(EvalGates.PASS, true), ExportCompleted(sha256),
              RunStateChanged(EXPORTING, COMPLETED)]
  }

  /** A completed export: evaluated, its eight records behind that, and in the exported archive the
      report and everything recorded before the last three records; in the first archive everything
      before the last six. */
  ghost predicate CompletedAs(setup: Setup, prior: seq<Event>, before: seq<Event>, job: Job, source: RunState,
                              results: seq<EvalGates.GateRunResult>, report: EvalGates.EvalReport, sha256: string,
                              log: seq<Event>, filesBefore: map<string, string>, files: map<string, string>)
  {
    var n := |log| - 8;
    && n >= 0 && Evaluated(before, job.req, source, results, log[..n]) && EightRecords(sha256, log[n..])
    && EvalGates.Reports(setup.registry, EvalGates.PolicyName(job.req.policy), results, report)
    && Exported(setup, job, report, prior + log[..n + 2], prior + log[..n + 5], sha256, filesBefore, files)
  }

  lemma CompletedRecords(base: seq<Event>, sha256: string, log: seq<Event>)
    requires log == base + CompletedTrail(sha256)
    ensures var n := |base|;
      && |log| == n + 8 && log[..n] == base && log[..n + 2] == base + STARTED && log[..n + 5] == base + EMBEDDED
      && EightRecords(sha256, log[n..])
  {
    CompletedTrailIs(sha256);
    Cut2(base, STARTED, CompletedTrail(sha256));
    Cut2(base, EMBEDDED, CompletedTrail(sha256));
  }

  lemma CompletedTrailIs(sha256: string)
    ensures EightRecords(sha256, CompletedTrail(sha256)) && |CompletedTrail(sha256)| == 8
    ensures STARTED <= CompletedTrail(sha256) && EMBEDDED <= CompletedTrail(sha256)
    ensures |STARTED| == 2 && |EMBEDDED| == 5
  {
  }

  lemma Cut2(base: seq<Event>, head: seq<Event>, trail: seq<Event>)
    requires head <= trail
    ensures (base + trail)[..|base|] == base && (base + trail)[..|base| + |head|] == base + head
    ensures (base + trail)[|base|..] == trail
  {
  }

  lemma EndedExports(setup: Setup, job: Job, task: Task, filesBefore: map<string, string>, r: ExportResult,
                     state: RunState, log: seq<Event>, files: map<string, string>)
    requires task.req == job.req && task.inputs == job.inputs && task.path == job.path
    requires Ended(setup, task, filesBefore, Finished, r, state, log, files)
    ensures r.Completed? && r.path == job.path && state == COMPLETED && log == task.base + CompletedTrail(r.sha256)
    ensures Exported(setup, job, task.report, task.prior + (task.base + STARTED), task.prior + (task.base + EMBEDDED),
                     r.sha256, filesBefore, files)
  {
  }

  lemma CompletedOf(setup: Setup, prior: seq<Event>, before: seq<Event>, job: Job, source: RunState,
                    results: seq<EvalGates.GateRunResult>, report: EvalGates.EvalReport, sha256: string,
                    log: seq<Event>, filesBefore: map<string, string>, files: map<string, string>,
                    base: seq<Event>, first: seq<Event>, final: seq<Event>)
    requires |log| == |base| + 8 && log[..|base|] == base
    requires log[..|base| + 2] == first && log[..|base| + 5] == final && EightRecords(sha256, log[|base|..])
    requires Evaluated(before, job.req, source, results, base)
    requires EvalGates.Reports(setup.registry, EvalGates.PolicyName(job.req.policy), results, report)
    requires Exported(setup, job, report, prior + first, prior + final, sha256, filesBefore, files)
    ensures CompletedAs(setup, prior, before, job, source, results, report, sha256, log, filesBefore, files)
  {
  }

  lemma CompletedSo(setup: Setup, prior: seq<Event>, before: seq<Event>, job: Job, source: RunState,
                    results: seq<EvalGates.GateRunResult>, report: EvalGates.EvalReport, sha256: string,
                    log: seq<Event>, filesBefore: map<string, string>, files: map<string, string>)
    requires ReportOf(setup, job.req, job.inputs, results) == Ok(report)
    requires var base := before + EvalTrail(job.req, source, results);
      && log == base + CompletedTrail(sha256)
      && Exported(setup, job, report, prior + (base + STARTED), prior + (base + EMBEDDED), sha256, filesBefore, files)
    ensures CompletedAs(setup, prior, before, job, source, results, report, sha256, log, filesBefore, files)
  {
    var base := before + EvalTrail(job.req, source, results);
    TrailEvaluates(before, job.req, source, results);
    EvalGates.ReportReports(setup.tables, setup.registry, EvalGates.PolicyName(job.req.policy), job.inputs.packId,
                            results);
    CompletedRecords(base, sha256, log);
    CompletedOf(setup, prior, before, job, source, results, report, sha256, log, filesBefore, files,
                base, base + STARTED, base + EMBEDDED);
  }

  /** The gates were evaluated, the report could be made, and the policy gate has decided this. */
  ghost predicate GateSays(setup: Setup, job: Job, block: Option<BlockReason>) {
    && job.preflight.Some? && ReportOf(setup, job.req, job.inputs, job.preflight.value).Ok?
    && Decided(setup.registry.gates, job.req, job.inputs, job.preflight.value, block)
  }

  /** What an export has done that was not blocked. */
  ghost predicate Exports(setup: Setup, prior: seq<Event>, before: seq<Event>, source: RunState, job: Job,
                          filesBefore: map<string, string>, exit: Exit, r: ExportResult, state: RunState,
                          log: seq<Event>, files: map<string, string>)
    requires GateSays(setup, job, None)
  {
    var results := job.preflight.value;
    var report := ReportOf(setup, job.req, job.inputs, results).value;
    && Ended(setup, Task(job.req, job.inputs, report, job.path, prior, before + EvalTrail(job.req, source, results)),
             filesBefore, exit, r, state, log, files)
    && (r.Completed? ==>
          && exit == Finished && r.path == job.path && state == COMPLETED
          && CompletedAs(setup, prior, before, job, source, results, report, r.sha256, log, filesBefore, files))
  }

  /** The result and the records of each way to fail: only a failed check is no error. */
  lemma StageRecords(stage: Stage)
    ensures StageResult(stage) == match stage
      case InitialCheckFailed(_) => ValidationFailed
      case FinalCheckFailed(_) => ValidationFailed
      case _ => ExportError
    ensures StageTrail(stage) == match stage
      case Generation =>
        [RunStateChanged(EVALUATING, EXPORTING), BundleGenerationStarted,
         ExportFailed(BUNDLE_GENERATION_ERROR), RunStateChanged(EXPORTING, FAILED)]
      case InitialCheckError =>
        [RunStateChanged(EVALUATING, EXPORTING), BundleGenerationStarted, BundleGenerationCompleted,
         BundleValidationStarted, ExportFailed(BUNDLE_VALIDATION_ERROR), RunStateChanged(EXPORTING, FAILED)]
      case InitialCheckFailed(overall) =>
        [RunStateChanged(EVALUATING, EXPORTING), BundleGenerationStarted, BundleGenerationCompleted,
         BundleValidationStarted, BundleValidationResult(overall, false),
         ExportFailed(BUNDLE_VALIDATION_FAILED), RunStateChanged(EXPORTING, FAILED)]
      case Rewrite =>
        [RunStateChanged(EVALUATING, EXPORTING), BundleGenerationStarted, BundleGenerationCompleted,
         BundleValidationStarted, BundleValidationResult(EvalGates.PASS, false),
         ExportFailed(FINAL_BUNDLE_REWRITE_ERROR), RunStateChanged(EXPORTING, FAILED)]
      case FinalCheckError =>
        [RunStateChanged(EVALUATING, EXPORTING), BundleGenerationStarted, BundleGenerationCompleted,
         BundleValidationStarted, BundleValidationResult(EvalGates.PASS, false),
         ExportFailed(FINAL_BUNDLE_VALIDATION_ERROR), RunStateChanged(EXPORTING, FAILED)]
      case FinalCheckFailed(overall) =>
        [RunStateChanged(EVALUATING, EXPORTING), BundleGenerationStarted, BundleGenerationCompleted,
         BundleValidationStarted, BundleValidationResult(EvalGates.PASS, false),
         BundleValidationResult(overall, true),
         ExportFailed(FINAL_BUNDLE_VALIDATION_FAILED), RunStateChanged(EXPORTING, FAILED)]
  {
  }

  class RunManager {
    const setup: Setup
    const prior: seq<Event>
    var log: seq<Event>
    var state: RunState
    var files: map<string, string>
    var calls: nat
    /** How many appends, audit reads and removals have failed so far. */
    ghost var failures: nat
    /** How many bundle generations and validations have failed to run to their end. */
    ghost var faults: nat

    ghost predicate Valid()
      reads this`log, this`state, this`failures, this`faults
    {
      && Consistent(setup.oracle, log, state)
      && (Reliable(setup.oracle) ==> failures == 0) && (Working(setup.oracle) ==> faults == 0)
    }

    /** `RunManager::new` over an audit log with earlier records. */
    constructor (setup: Setup, prior: seq<Event>, files: map<string, string>)
      ensures Valid() && this.setup == setup && this.prior == prior && this.files == files
      ensures log == [] && state == READY
    {
      this.setup := setup;
      this.prior := prior;
      this.log := [];
      this.state := READY;
      this.files := files;
      this.calls := 0;
      this.failures := 0;
      this.faults := 0;
    }

    method Append(e: Event) returns (ok: bool)
      requires Valid() && !e.RunStateChanged?
      requires e.ExportCompleted? ==> Completions(log) == 0 && Rank(state) >= Rank(EXPORTING)
      modifies this`log, this`calls, this`failures
      ensures Valid()
      ensures failures == old(failures) + if ok then 0 else 1
      ensures ok ==> log == old(log) + [e]
      ensures !ok ==> log == old(log) || log == old(log) + [e]
      ensures !e.ExportCompleted? ==> Completions(log) == Completions(old(log))
    {
      WalkAppend(log, e);
      var outcome := setup.oracle.append(calls);
      calls := calls + 1;
      if outcome != Refused {
        log := log + [e];
      }
      ok := outcome == Persisted;
      failures := failures + if ok then 0 else 1;
    }

    /** `transition`. */
    method Transition(to: RunState) returns (ok: bool)
      requires Valid()
      modifies this`log, this`state, this`calls, this`failures
      ensures Valid()
      ensures failures >= old(failures) && (ok ==> failures == old(failures))
      ensures ok ==> state == to && to in Successors(old(state))
                     && log == old(log) + [RunStateChanged(old(state), to)]
      ensures !ok ==> state == old(state)
                      && (log == old(log) || log == old(log) + [RunStateChanged(old(state), to)])
      ensures !ok && to in Successors(old(state)) ==> failures > old(failures)
      ensures Completions(log) == Completions(old(log))
    {
      SuccessorsExactly(state, to);
      if !ValidTransition(state, to) {
        return false;
      }
      var e := RunStateChanged(state, to);
      WalkAppend(log, e);
      TransitionsClimb(state, to);
      var outcome := setup.oracle.append(calls);
      calls := calls + 1;
      if outcome != Refused {
        log := log + [e];
      }
      if outcome != Persisted {
        failures := failures + 1;
        return false;
      }
      state := to;
      ok := true;
    }

    /** `remove_exported_bytes`: what is gone counts as removed, any other error does not. */
    method RemoveExportedBytes(path: string) returns (ok: bool)
      requires Valid()
      modifies this`files, this`calls, this`failures
      ensures Valid()
      ensures failures == old(failures) + if ok then 0 else 1
      ensures files == if ok then old(files) - {path} else old(files)
    {
      ok := setup.oracle.remove(calls);
      calls := calls + 1;
      if ok {
        files := files - {path};
      }
      failures := failures + if ok then 0 else 1;
    }

    /** `read_all_ndjson` of the run's log. */
    method ReadLog() returns (text: Option<seq<Event>>)
      requires Valid()
      modifies this`calls, this`failures
      ensures Valid()
      ensures text.Some? ==> text.value == prior + log
      ensures failures == old(failures) + if text.Some? then 0 else 1
    {
      var ok := setup.oracle.read(calls);
      calls := calls + 1;
      text := if ok then Some(prior + log) else None;
      failures := failures + if ok then 0 else 1;
    }

    /** The loop over the gate results. */
    method RecordGates(results: seq<EvalGates.GateRunResult>)
      returns (ok: bool, blockers: seq<string>, fails: seq<string>)
      requires Valid()
      modifies this`log, this`calls, this`failures
      ensures Valid() && Completions(log) == Completions(old(log))
      ensures failures >= old(failures) && (ok ==> failures == old(failures))
      ensures ok ==> log == old(log) + GateEvents(results)
      ensures ok ==> blockers == FailedGates(results, true) && fails == FailedGates(results, false)
      ensures !ok ==> failures > old(failures)
    {
      blockers := [];
      fails := [];
      var i := 0;
      while i < |results|
        invariant 0 <= i <= |results| && Valid()
        invariant log == old(log) + GateEvents(results[..i]) && failures == old(failures)
        invariant Completions(log) == Completions(old(log))
        invariant blockers == FailedGates(results[..i], true) && fails == FailedGates(results[..i], false)
      {
        var r := results[i];
        assert results[..i + 1][..i] == results[..i];
        ok := Append(GateResult(r));
        if !ok {
          return;
        }
        if r.severity == EvalGates.BLOCKER && r.result == EvalGates.FAIL {
          blockers := blockers + [r.gateId];
        }
        if r.result == EvalGates.FAIL {
          fails := fails + [r.gateId];
        }
        i := i + 1;
      }
      assert results[..i] == results;
      ok := true;
    }

    method BeginEvaluation(req: Request) returns (ok: bool)
      requires Valid()
      modifies this`log, this`state, this`calls, this`failures
      ensures Valid() && Completions(log) == Completions(old(log))
      ensures failures >= old(failures) && (ok ==> failures == old(failures))
      ensures ok ==>
        && state == EVALUATING && EVALUATING in Successors(old(state))
        && log == old(log) + EvalBegin(req, old(state))
      ensures !ok ==> failures > old(failures) || EVALUATING !in Successors(old(state))
    {
      ok := Append(ExportRequested(req.policy));
      if ok {
        ok := Transition(EVALUATING);
        if ok {
          ok := Append(EvalStarted);
        }
      }
    }

    method RecordEvaluation(results: seq<EvalGates.GateRunResult>) returns (ok: bool)
      requires Valid()
      modifies this`log, this`calls, this`failures
      ensures Valid() && Completions(log) == Completions(old(log))
      ensures failures >= old(failures) && (ok ==> failures == old(failures))
      ensures ok ==> log == old(log) + EvalEnd(results)
      ensures !ok ==> failures > old(failures)
    {
      var blockers, fails;
      ok, blockers, fails := RecordGates(results);
      if ok {
        ok := Append(EvalCompleted(|results|, |blockers|, |fails|));
      }
    }

    /** The first half of `export_run`, up to the decision of the policy gate. The job's `preflight` is
        what the evaluator returned on the preflight bundle, if it could be built and evaluated. */
    method Evaluate(job: Job) returns (v: Evaluation)
      requires Valid()
      modifies this`log, this`state, this`calls, this`failures
      ensures Valid() && Completions(log) == Completions(old(log))
      ensures failures >= old(failures) && (v.Verdict? ==> failures == old(failures))
      ensures v.Verdict? ==>
        && state == EVALUATING && EVALUATING in Successors(old(state))
        && log == old(log) + EvalTrail(job.req, old(state), v.results)
        && job.preflight == Some(v.results)
        && ReportOf(setup, job.req, job.inputs, v.results) == Ok(v.report)
        && GateSays(setup, job, v.block)
      ensures v.EvaluationError? ==>
        || failures > old(failures) || EVALUATING !in Successors(old(state))
        || job.preflight.None? || ReportOf(setup, job.req, job.inputs, job.preflight.value).Err?
    {
      var ok := BeginEvaluation(job.req);
      if !ok || job.preflight.None? {
        return EvaluationError;
      }
      var results := job.preflight.value;
      var report := EvalGates.ReportFromResults(setup.tables, setup.registry, EvalGates.PolicyName(job.req.policy),
                                                job.inputs.packId, results);
      if report.Err? {
        return EvaluationError;
      }
      ok := RecordEvaluation(results);
      if !ok {
        return EvaluationError;
      }
      Chain(old(log), EvalBegin(job.req, old(state)), EvalEnd(results));
      DecisionDecides(setup, job.req, job.inputs, results);
      v := Verdict(results, report.value, Decision(setup, job.req, job.inputs, results, report.value));
    }

    /** What every failure exit does last: EXPORT_FAILED, then the transition to FAILED. */
    method Abandon(why: Reason) returns (ok: bool)
      requires Valid() && state == EXPORTING
      modifies this`log, this`state, this`calls, this`failures
      ensures Valid() && Completions(log) == Completions(old(log))
      ensures failures >= old(failures) && (ok ==> failures == old(failures))
      ensures ok ==> state == FAILED && log == old(log) + Abandoned(why)
      ensures !ok ==> failures > old(failures)
    {
      ok := Append(ExportFailed(why));
      if ok {
        ok := Transition(FAILED);
      }
    }

    /** `build_dir` and `build_zip`, each with `remove_stale_export_on_error`. */
    method Generate(path: string, bundle: Bundle) returns (g: Generated)
      requires Valid()
      modifies this`files, this`calls, this`failures, this`faults
      ensures Valid()
      ensures failures >= old(failures) && (!g.Stuck? ==> failures == old(failures))
      ensures match g
        case Built(sha256) => files == old(files)[path := setup.archive(bundle)]
                              && sha256 == setup.sha256(setup.archive(bundle))
        case NotBuilt => files == old(files) - {path}
        case Stuck => files - {path} == old(files) - {path} && failures > old(failures)
      ensures faults == old(faults) + if g.Built? then 0 else 1
    {
      var dirOk := setup.oracle.dir(calls);
      calls := calls + 1;
      if !dirOk {
        faults := faults + 1;
        var removed := RemoveExportedBytes(path);
        return if removed then NotBuilt else Stuck;
      }
      var outcome := setup.oracle.zip(calls);
      calls := calls + 1;
      match outcome
      case Written =>
        files := files[path := setup.archive(bundle)];
        g := Built(setup.sha256(setup.archive(bundle)));
      case Broken(left) =>
        faults := faults + 1;
        files := if left.None? then files - {path} else files[path := left.value];
        assert files - {path} == old(files) - {path};
        var removed := RemoveExportedBytes(path);
        g := if removed then NotBuilt else Stuck;
    }

    /** Reads the log and makes the archive from it; a failure is abandoned with this reason. */
    method Produce(inputs: Inputs, report: EvalGates.EvalReport, path: string, why: Reason)
      returns (p: Production)
      requires Valid() && state == EXPORTING
      modifies this
      ensures Valid() && Completions(log) == Completions(old(log))
      ensures failures >= old(failures) && (!p.Lost? ==> failures == old(failures))
      ensures match p
        case Ready(sha256) =>
          var bytes := setup.archive(BundleAt(inputs, report, prior + log));
          && state == EXPORTING && log == old(log)
          && files == old(files)[path := bytes] && sha256 == setup.sha256(bytes)
        case Dropped =>
          state == FAILED && files == old(files) - {path} && log == old(log) + Abandoned(why)
        case Lost(left) =>
          && failures > old(failures) && (left == Untouched || left == NotRemoved || left == Gone)
          && Leaves(left, old(files), files, path, "", "")
      ensures faults >= old(faults) && (p.Dropped? ==> faults > old(faults))
    {
      var text := ReadLog();
      if text.None? {
        return Lost(Untouched);
      }
      var g := Generate(path, BundleAt(inputs, report, text.value));
      match g
      case Stuck =>
        p := Lost(NotRemoved);
      case NotBuilt =>
        var ok := Abandon(why);
        p := if ok then Dropped else Lost(Gone);
      case Built(sha256) =>
        p := Ready(sha256);
    }

    /** Into EXPORTING. */
    method Enter() returns (ok: bool, ghost entered: bool)
      requires Valid() && state == EVALUATING
      modifies this`log, this`state, this`calls, this`failures
      ensures Valid() && Completions(log) == Completions(old(log))
      ensures failures >= old(failures) && (ok ==> failures == old(failures))
      ensures state == if entered then EXPORTING else EVALUATING
      ensures ok ==> entered && log == old(log) + STARTED
      ensures !ok ==> failures > old(failures)
    {
      ok := Transition(EXPORTING);
      entered := ok;
      if ok {
        ok := Append(BundleGenerationStarted);
      }
    }

    /** The two records between the first archive and its validation. */
    method Announce() returns (ok: bool)
      requires Valid()
      modifies this`log, this`calls, this`failures
      ensures Valid() && Completions(log) == Completions(old(log))
      ensures failures >= old(failures) && (ok ==> failures == old(failures))
      ensures ok ==> log == old(log) + BUILT
      ensures !ok ==> failures > old(failures)
    {
      ok := Append(BundleGenerationCompleted);
      if ok {
        ok := Append(BundleValidationStarted);
      }
    }

    /** Removes the exported bytes and abandons the export. */
    method Discard(path: string, why: Reason) returns (p: Production)
      requires Valid() && state == EXPORTING
      modifies this
      ensures Valid() && Completions(log) == Completions(old(log))
      ensures failures >= old(failures) && (!p.Lost? ==> failures == old(failures))
      ensures match p
        case Ready(_) => false
        case Dropped => state == FAILED && files == old(files) - {path} && log == old(log) + Abandoned(why)
        case Lost(left) => failures > old(failures) && files == if left == Gone then old(files) - {path} else old(files)
      ensures faults == old(faults)
    {
      var removed := RemoveExportedBytes(path);
      if !removed {
        return Lost(NotRemoved);
      }
      var ok := Abandon(why);
      p := if ok then Dropped else Lost(Gone);
    }

    /** Acts on the verdict of a validation. */
    method Judge(path: string, overall: EvalGates.Status, finalBytes: bool) returns (p: Phase)
      requires Valid() && state == EXPORTING
      modifies this
      ensures Valid() && Completions(log) == Completions(old(log))
      ensures failures >= old(failures) && (!p.Cut? ==> failures == old(failures))
      ensures match p
        case Go =>
          && overall == EvalGates.PASS && state == EXPORTING && files == old(files)
          && log == old(log) + CheckResult(overall, finalBytes)
        case Stop(stage) =>
          && overall != EvalGates.PASS && stage == FailedStage(overall, finalBytes)
          && state == FAILED && files == old(files) - {path}
          && log == old(log) + (CheckResult(overall, finalBytes) + Abandoned(FailedWhy(finalBytes)))
        case Cut(left) => failures > old(failures) && files == if left == Gone then old(files) - {path} else old(files)
      ensures faults == old(faults)
    {
      var ok := Append(BundleValidationResult(overall, finalBytes));
      if !ok {
        return Cut(NotRemoved);
      }
      if overall == EvalGates.PASS {
        return Go;
      }
      var discarded := Discard(path, FailedWhy(finalBytes));
      if discarded.Lost? {
        return Cut(discarded.left);
      }
      Chain(old(log), CheckResult(overall, finalBytes), Abandoned(FailedWhy(finalBytes)));
      p := Stop(FailedStage(overall, finalBytes));
    }

    /** Validates the file at the path: the first time the initial bytes, then the final ones. */
    method Check(req: Request, path: string, finalBytes: bool) returns (p: Phase)
      requires Valid() && state == EXPORTING && path in files
      modifies this
      ensures Valid() && Completions(log) == Completions(old(log))
      ensures failures >= old(failures) && (!p.Cut? ==> failures == old(failures))
      ensures match p
        case Go =>
          && state == EXPORTING && files == old(files)
          && log == old(log) + CheckResult(EvalGates.PASS, finalBytes)
          && setup.validator(files[path], req.policy) == EvalGates.PASS
        case Stop(stage) =>
          && state == FAILED && files == old(files) - {path} && log == old(log) + CheckTrail(stage, finalBytes)
          && (stage == ErrorStage(finalBytes)
              || (setup.validator(old(files)[path], req.policy) != EvalGates.PASS
                  && stage == FailedStage(setup.validator(old(files)[path], req.policy), finalBytes)))
        case Cut(left) => failures > old(failures) && files == if left == Gone then old(files) - {path} else old(files)
      ensures faults >= old(faults) && (p == Stop(ErrorStage(finalBytes)) ==> faults > old(faults))
    {
      var checked := setup.oracle.check(calls);
      calls := calls + 1;
      if checked {
        var overall := setup.validator(files[path], req.policy);
        p := Judge(path, overall, finalBytes);
      } else {
        faults := faults + 1;
        var discarded := Discard(path, ErrorWhy(finalBytes));
        p := if discarded.Lost? then Cut(discarded.left) else Stop(ErrorStage(finalBytes));
      }
    }

    /** EXPORT_COMPLETED and the transition behind it. */
    method Complete(sha256: string) returns (ok: bool)
      requires Valid() && state == EXPORTING && Completions(log) == 0
      modifies this`log, this`state, this`calls, this`failures
      ensures Valid()
      ensures failures >= old(failures) && (ok ==> failures == old(failures))
      ensures ok ==> state == COMPLETED
                     && log == old(log) + [ExportCompleted(sha256), RunStateChanged(EXPORTING, COMPLETED)]
      ensures !ok ==> failures > old(failures)
    {
      ok := Append(ExportCompleted(sha256));
      if ok {
        ok := Transition(COMPLETED);
      }
    }

    /** Up to the verdict on the initial bytes. */
    method ExportInitial(req: Request, inputs: Inputs, report: EvalGates.EvalReport, path: string)
      returns (p: Phase)
      requires Valid() && state == EXPORTING
      modifies this
      ensures Valid() && Completions(log) == Completions(old(log))
      ensures failures >= old(failures) && (!p.Cut? ==> failures == old(failures))
      ensures var initial := setup.archive(BundleAt(inputs, report, prior + old(log)));
        match p
        case Go =>
          && state == EXPORTING && files == old(files)[path := initial]
          && log == old(log) + (BUILT + CheckResult(EvalGates.PASS, false))
          && setup.validator(initial, req.policy) == EvalGates.PASS
        case Stop(stage) =>
          && state == FAILED && files == old(files) - {path} && log == old(log) + InitialTrail(stage)
          && (stage == Generation || stage == InitialCheckError
              || (setup.validator(initial, req.policy) != EvalGates.PASS
                  && stage == InitialCheckFailed(setup.validator(initial, req.policy))))
        case Cut(left) =>
          failures > old(failures) && left != FinalArchive && Leaves(left, old(files), files, path, initial, "")
      ensures faults >= old(faults) && (p.Stop? && !Refuted(p.stage) ==> faults > old(faults))
    {
      var made := Produce(inputs, report, path, BUNDLE_GENERATION_ERROR);
      match made
      case Dropped =>
        p := Stop(Generation);
      case Lost(left) =>
        p := Cut(left);
      case Ready(_) =>
        var ok := Announce();
        if !ok {
          return Cut(InitialArchive);
        }
        p := Check(req, path, false);
        match p
        case Go => Chain(old(log), BUILT, CheckResult(EvalGates.PASS, false));
        case Stop(stage) => Chain(old(log), BUILT, CheckTrail(stage, false));
        case Cut(left) => p := Cut(if left == Gone then Gone else InitialArchive);
    }

    /** From the verdict on the initial bytes to the end. */
    method ExportFinal(req: Request, inputs: Inputs, report: EvalGates.EvalReport, path: string)
      returns (p: Phase, sha256: string)
      requires Valid() && state == EXPORTING && Completions(log) == 0
      modifies this
      ensures Valid()
      ensures failures >= old(failures) && (!p.Cut? ==> failures == old(failures))
      ensures var final := setup.archive(BundleAt(inputs, report, prior + old(log)));
        match p
        case Go =>
          && state == COMPLETED && files == old(files)[path := final] && sha256 == setup.sha256(final)
          && log == old(log) + Completing(sha256)
          && setup.validator(final, req.policy) == EvalGates.PASS
        case Stop(stage) =>
          && state == FAILED && files == old(files) - {path} && log == old(log) + FinalTrail(stage)
          && (stage == Rewrite || stage == FinalCheckError
              || (setup.validator(final, req.policy) != EvalGates.PASS
                  && stage == FinalCheckFailed(setup.validator(final, req.policy))))
        case Cut(left) =>
          failures > old(failures) && left != InitialArchive && Leaves(left, old(files), files, path, "", final)
      ensures faults >= old(faults) && (p.Stop? && !Refuted(p.stage) ==> faults > old(faults))
    {
      sha256 := "";
      var made := Produce(inputs, report, path, FINAL_BUNDLE_REWRITE_ERROR);
      match made
      case Dropped =>
        p := Stop(Rewrite);
      case Lost(left) =>
        p := Cut(left);
      case Ready(digest) =>
        sha256 := digest;
        p := Check(req, path, true);
        match p
        case Go =>
          var ok := Complete(sha256);
          if !ok {
            return Cut(FinalArchive), sha256;
          }
          Chain(old(log), CheckResult(EvalGates.PASS, true),
                [ExportCompleted(sha256), RunStateChanged(EXPORTING, COMPLETED)]);
        case Stop(stage) =>
        case Cut(left) => p := Cut(if left == Gone then Gone else FinalArchive);
    }

    /** The rest of an export whose initial bytes have passed. */
    method Rewritten(req: Request, inputs: Inputs, report: EvalGates.EvalReport, path: string,
                     ghost task: Task, ghost before: map<string, string>)
      returns (r: ExportResult, ghost exit: Exit)
      requires Valid() && state == EXPORTING && Completions(log) == 0
      requires task == Task(req, inputs, report, path, prior, task.base) && log == task.base + EMBEDDED
      requires files == before[path := InitialBytes(setup, task)]
      requires setup.validator(InitialBytes(setup, task), req.policy) == EvalGates.PASS
      modifies this
      ensures Valid()
      ensures failures >= old(failures) && (exit.Finished? || exit.Stopped? ==> failures == old(failures))
      ensures Ended(setup, task, before, exit, r, state, log, files)
      ensures exit != NotExporting && (exit.Interrupted? ==> failures > old(failures))
      ensures faults >= old(faults) && (exit.Stopped? && !Refuted(exit.stage) ==> faults > old(faults))
    {
      Replaced(before, path, InitialBytes(setup, task), FinalBytes(setup, task));
      var p, sha256 := ExportFinal(req, inputs, report, path);
      match p
      case Cut(left) =>
        r, exit := ExportError, Interrupted(if left == Untouched then InitialArchive else left);
      case Stop(stage) =>
        Chain(task.base, EMBEDDED, FinalTrail(stage));
        r, exit := StageResult(stage), Stopped(stage);
      case Go =>
        Chain(task.base, EMBEDDED, Completing(sha256));
        r, exit := Completed(path, sha256), Finished;
    }

    /** The second half of `export_run`. */
    method Export(req: Request, inputs: Inputs, report: EvalGates.EvalReport, path: string)
      returns (r: ExportResult, ghost exit: Exit)
      requires Valid() && state == EVALUATING && Completions(log) == 0
      modifies this
      ensures Valid()
      ensures failures >= old(failures) && (exit.Finished? || exit.Stopped? ==> failures == old(failures))
      ensures Ended(setup, Task(req, inputs, report, path, prior, old(log)), old(files), exit, r, state, log, files)
      ensures exit == NotExporting ==> r == ExportError
      ensures exit == NotExporting || exit.Interrupted? ==> failures > old(failures)
      ensures faults >= old(faults) && (exit.Stopped? && !Refuted(exit.stage) ==> faults > old(faults))
    {
      var ok; ghost var entered;
      ok, entered := Enter();
      if !ok {
        return ExportError, if entered then Interrupted(Untouched) else NotExporting;
      }
      ghost var task := Task(req, inputs, report, path, prior, old(log));
      var p := ExportInitial(req, inputs, report, path);
      match p
      case Cut(left) =>
        r, exit := ExportError, Interrupted(left);
      case Stop(stage) =>
        Chain(old(log), STARTED, InitialTrail(stage));
        r, exit := StageResult(stage), Stopped(stage);
      case Go =>
        Chain(old(log), STARTED, BUILT + CheckResult(EvalGates.PASS, false));
        r, exit := Rewritten(req, inputs, report, path, task, old(files));
    }

    /** `export_run`, for any behaviour of the outside. An interrupted export met an append, a read or
        a removal that failed; a blocked one, or one that failed before EXPORTING, touches no file. */
    method ExportRun(req: Request, inputs: Inputs, path: string, preflight: Option<seq<EvalGates.GateRunResult>>)
      returns (r: ExportResult, ghost exit: Exit)
      requires Valid()
      modifies this
      ensures Valid()
      ensures exit == NotExporting ==> files == old(files) && (r == ExportError || r.Blocked?)
      ensures exit != NotExporting ==> (exit.Interrupted? <==> failures > old(failures))
      ensures Reliable(setup.oracle) ==> !exit.Interrupted?
      ensures exit != NotExporting ==>
        && GateSays(setup, Job(req, inputs, path, preflight), None)
        && Exports(setup, prior, old(log), old(state), Job(req, inputs, path, preflight), old(files),
                   exit, r, state, log, files)
      ensures r.Blocked? ==>
        && GateSays(setup, Job(req, inputs, path, preflight), Some(r.reason))
        && BlockedAs(old(log), req, old(state), preflight.value, r.reason, state, log)
      ensures exit == NotExporting && r == ExportError ==>
        || failures > old(failures) || EVALUATING !in Successors(old(state))
        || preflight.None? || ReportOf(setup, req, inputs, preflight.value).Err?
      ensures exit.Stopped? && !Refuted(exit.stage) ==> faults > old(faults)
      ensures Completions(log) >= Completions(old(log))
      ensures r.Completed? ==> Completions(old(log)) == 0 && Completions(log) == 1
    {
      var v := Evaluate(Job(req, inputs, path, preflight));
      if v == EvaluationError {
        return ExportError, NotExporting;
      }
      if v.block.Some? {
        var ok := RecordBlock(req, v.results, v.block.value, old(log), old(state));
        return if ok then Blocked(v.block.value) else ExportError, NotExporting;
      }
      r, exit := Proceed(Job(req, inputs, path, preflight), v.report, old(log), old(state));
    }

    /** The export of an evaluated run that the policy gate has let pass. */
    method Proceed(job: Job, report: EvalGates.EvalReport, ghost before: seq<Event>, ghost source: RunState)
      returns (r: ExportResult, ghost exit: Exit)
      requires Valid() && state == EVALUATING && Completions(log) == 0
      requires GateSays(setup, job, None) && ReportOf(setup, job.req, job.inputs, job.preflight.value) == Ok(report)
      requires log == before + EvalTrail(job.req, source, job.preflight.value)
      modifies this
      ensures Valid()
      ensures failures >= old(failures) && (exit.Finished? || exit.Stopped? ==> failures == old(failures))
      ensures Exports(setup, prior, before, source, job, old(files), exit, r, state, log, files)
      ensures exit == NotExporting ==> r == ExportError && files == old(files)
      ensures exit == NotExporting || exit.Interrupted? ==> failures > old(failures)
      ensures faults >= old(faults) && (exit.Stopped? && !Refuted(exit.stage) ==> faults > old(faults))
      ensures !r.Blocked? && (r.Completed? ==> Completions(log) == 1)
    {
      r, exit := Export(job.req, job.inputs, report, job.path);
      if r.Completed? {
        ghost var task := Task(job.req, job.inputs, report, job.path, prior, old(log));
        EndedExports(setup, job, task, old(files), r, state, log, files);
        CompletedCounts(old(log), r.sha256, log);
        CompletedSo(setup, prior, before, job, source, job.preflight.value, report, r.sha256, log, old(files), files);
      }
    }

    /** The block of an evaluated export. */
    method RecordBlock(req: Request, results: seq<EvalGates.GateRunResult>, reason: BlockReason,
                       ghost before: seq<Event>, ghost source: RunState)
      returns (ok: bool)
      requires Valid() && state == EVALUATING
      requires log == before + EvalTrail(req, source, results)
      modifies this`log, this`state, this`calls, this`failures
      ensures Valid() && Completions(log) == Completions(old(log))
      ensures failures >= old(failures) && (ok ==> failures == old(failures))
      ensures ok ==> BlockedAs(before, req, source, results, reason, state, log)
      ensures !ok ==> failures > old(failures)
    {
      var failed := FailedGates(results, true);
      ok := Append(ExportBlocked(reason, failed));
      if ok {
        ok := Transition(FAILED);
        if ok {
          BlockedSo(before, req, source, results, reason, log);
        }
      }
    }

    /** Any sequence of exports on one manager completes at most one of them: at most one is recorded,
        at most one returns that it has completed, and none does if one was recorded before. */
    method ExportAll(jobs: seq<Job>) returns (results: seq<ExportResult>)
      requires Valid()
      modifies this
      ensures Valid() && |results| == |jobs|
      ensures Completions(old(log)) <= Completions(log) <= 1
      ensures forall i :: 0 <= i < |results| && results[i].Completed? ==> Completions(old(log)) < Completions(log)
      ensures OneCompleted(results)
      ensures Atomic(setup.oracle) ==> Walk(log) == Some(state)
    {
      results := [];
      var i := 0;
      while i < |jobs|
        invariant 0 <= i <= |jobs| && |results| == i && Valid()
        invariant Completions(old(log)) <= Completions(log)
        invariant forall k :: 0 <= k < i && results[k].Completed? ==> Completions(old(log)) < Completions(log)
        invariant OneCompleted(results)
      {
        var r, _ := ExportRun(jobs[i].req, jobs[i].inputs, jobs[i].path, jobs[i].preflight);
        results := results + [r];
        i := i + 1;
      }
    }
  }

  lemma CompletedCounts(base: seq<Event>, sha256: string, log: seq<Event>)
    requires log == base + CompletedTrail(sha256)
    ensures Completions(log) >= 1
  {
    assert log[|log| - 2] == ExportCompleted(sha256);
    CompletionCounts(log, |log| - 2, |log|);
  }

  // ----- What the trails and the histories mean -----

  /** A stopped export records exactly one failure, right before the last state change. */
  lemma OneFailure(stage: Stage)
    ensures var trail := StageTrail(stage);
      && |trail| >= 2 && trail[|trail| - 2].ExportFailed?
      && trail[|trail| - 1] == RunStateChanged(EXPORTING, FAILED)
      && forall i :: 0 <= i < |trail| ==>
        !trail[i].ExportCompleted? && (trail[i].ExportFailed? ==> i == |trail| - 2)
  {
  }

  /** In a completed export the embedded log is a strict prefix of the run's log and ends with the
      first validation result; the result for the final bytes precedes the completion, and both
      results are passes. */
  lemma CompletedOrder(base: seq<Event>, sha256: string)
    ensures var log := base + CompletedTrail(sha256);
      var embedded := base + EMBEDDED;
      && embedded < log
      && embedded[|embedded| - 1] == BundleValidationResult(EvalGates.PASS, false)
      && (forall i :: |base| <= i < |embedded| - 1 ==> !embedded[i].BundleValidationResult?)
      && log[|embedded|] == BundleValidationResult(EvalGates.PASS, true)
      && log[|embedded| + 1] == ExportCompleted(sha256)
      && forall i :: |base| <= i < |log| ==> !log[i].ExportFailed?
  {
  }

  // ----- Histories -----

  /** Two completions in a log would count twice. */
  lemma {:induction false} CompletionsCount(log: seq<Event>, i: nat, j: nat, n: nat)
    requires i < j < n <= |log| && log[i].ExportCompleted? && log[j].ExportCompleted?
    ensures CompletionsTo(log, n) >= 2
  {
    if j < n - 1 {
      CompletionsCount(log, i, j, n - 1);
    } else {
      CompletionCounts(log, i, n - 1);
    }
  }

  lemma {:induction false} CompletionCounts(log: seq<Event>, i: nat, n: nat)
    requires i < n <= |log| && log[i].ExportCompleted?
    ensures CompletionsTo(log, n) >= 1
  {
    if i < n - 1 {
      CompletionCounts(log, i, n - 1);
    }
  }

  /** A log that counts at most one completion holds at most one. */
  lemma CompletedAtMostOnce(log: seq<Event>, i: nat, j: nat)
    requires Completions(log) <= 1 && i < |log| && j < |log| && log[i].ExportCompleted? && log[j].ExportCompleted?
    ensures i == j
  {
    if i < j {
      CompletionsCount(log, i, j, |log|);
    } else if j < i {
      CompletionsCount(log, j, i, |log|);
    }
  }

  /** In a linked log every state change is a valid edge out of the state reached so far, and the rank
      never falls. */
  lemma {:induction false} WalkBack(log: seq<Event>, i: nat, n: nat)
    requires i <= n <= |log| && WalkTo(log, n).Some?
    ensures WalkTo(log, i).Some? && Rank(WalkTo(log, i).value) <= Rank(WalkTo(log, n).value)
  {
    if i < n {
      WalkBack(log, i, n - 1);
    }
  }

  /** Along a linked history every state change is a valid edge from the target of the one before, and
      the rank climbs strictly, except that CANCELLED may follow CANCELLED. */
  lemma HistoryClimbs(log: seq<Event>, i: nat, j: nat)
    requires Walk(log).Some? && i < j < |log| && log[i].RunStateChanged? && log[j].RunStateChanged?
    ensures ValidTransition(log[i].source, log[i].to) && ValidTransition(log[j].source, log[j].to)
    ensures Rank(READY) <= Rank(log[i].source)
    ensures Rank(log[i].to) <= Rank(log[j].source)
    ensures Rank(log[i].to) < Rank(log[j].to) || log[j].source == log[j].to == CANCELLED
    ensures (forall k :: i < k < j ==> !log[k].RunStateChanged?) ==> log[i].to == log[j].source
    ensures (forall k :: j < k < |log| ==> !log[k].RunStateChanged?) ==> Walk(log) == Some(log[j].to)
  {
    WalkBack(log, i + 1, |log|);
    WalkBack(log, j + 1, |log|);
    WalkBack(log, i + 1, j);
    WalkBack(log, 0, i);
    if forall k :: i < k < j ==> !log[k].RunStateChanged? {
      WalkStays(log, i + 1, j);
    }
    if forall k :: j < k < |log| ==> !log[k].RunStateChanged? {
      WalkStays(log, j + 1, |log|);
    }
  }

  lemma {:induction false} WalkStays(log: seq<Event>, i: nat, n: nat)
    requires i <= n <= |log| && forall k :: i <= k < n ==> !log[k].RunStateChanged?
    ensures WalkTo(log, n) == WalkTo(log, i)
  {
    if i < n {
      WalkStays(log, i, n - 1);
    }
  }

  // ----- The report of a passed gate -----

  /** If the policy gate lets an export pass, the report it embeds and the status it writes into the
      manifest pass the checker of the final bundle. */
  lemma PassedGateIsAccepted(setup: Setup, req: Request, inputs: Inputs, results: seq<EvalGates.GateRunResult>)
    requires EvalGates.NamedGates(setup.registry.gates) && setup.registry.version == EvalGates.VERSION_3
    requires results != [] && ReportOf(setup, req, inputs, results).Ok?
    requires Decided(setup.registry.gates, req, inputs, results, None)
    ensures var bundle := BundleAt(inputs, ReportOf(setup, req, inputs, results).value, []);
      EvalGates.Fault(setup.tables, setup.registry, bundle.report, bundle.gateStatus,
                      EvalGates.PolicyName(req.policy), inputs.packId) == None
  {
    assert !Broken(setup.registry.gates, req, inputs, results, EVAL_FAILED);
    EvalGates.CheckerAgrees(setup.tables, setup.registry, EvalGates.PolicyName(req.policy), inputs.packId,
                            results, ReportOf(setup, req, inputs, results).value.overall);
  }
}
