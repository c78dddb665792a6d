/** The evaluation report: its producer, and the checker the bundle validator runs on it. */
module EvalGates {
  import opened Options
  import opened Strings
  import opened SortedMap

  /** The texts a status field is compared with; any other text is kept as it is. */
  datatype Status = PASS | FAIL | WARN | NOT_APPLICABLE | OtherStatus(text: string)

  datatype Severity = MINOR | MAJOR | BLOCKER | OtherSeverity(text: string)

  datatype PolicyMode = STRICT | BALANCED | DRAFT_ONLY

  datatype GateDef = GateDef(gateId: string, category: string, severity: Severity,
                             policies: seq<string>, evidence: seq<string>)

  datatype Registry = Registry(version: string, gates: seq<GateDef>)

  datatype GateRunResult = GateRunResult(gateId: string, result: Status, severity: Severity,
                                         message: string, evidence: seq<string>)

  datatype EvalGateResult = EvalGateResult(gateId: string, category: string, status: Status,
                                           severity: Severity, message: string, evidence: seq<string>)

  datatype EvalReport = EvalReport(overall: Status, gates: seq<EvalGateResult>, version: string)

  datatype Check = Check(checkId: string, result: Status, message: string)

  /** How a gate id is evaluated. */
  datatype Evaluator =
    | ChecksWithPrefix(prefix: string)
    | OneCheck(checkId: string)
    | AllChecks(checkIds: seq<string>)
    | AllowlistMatch
    | OutputsPresent
    | MappingReviewPresent
    | PdfCapable
    | NoEvaluator

  datatype Outcome = Outcome(result: Status, message: string)

  /** The three gates that are evaluated on the bundle itself. */
  datatype BundleGates = BundleGates(allowlist: Outcome, outputs: Outcome, mappingReview: Outcome)

  const VERSION_3 := "gates_registry_v3"
  const EVIDENCEOS := "evidenceos"

  function PolicyName(policy: PolicyMode): string {
    match policy
    case STRICT => "STRICT"
    case BALANCED => "BALANCED"
    case DRAFT_ONLY => "DRAFT_ONLY"
  }

  /** The match in `map_validator_to_gates`: the table of evaluators. */
  function EvaluatorOf(gateId: string): Evaluator {
    var e := EvaluatorByChecks(gateId);
    if e.NoEvaluator? then EvaluatorWithoutChecks(gateId) else e
  }

  function EvaluatorByChecks(gateId: string): Evaluator {
    match gateId
    case "BUNDLE_FORMAT.REQUIRED_FILES_V1" => ChecksWithPrefix("CHK.BUNDLE.")
    case "AUDIT_HASH_CHAIN.VERIFY_V1" => OneCheck("CHK.AUDIT.REQUIRED_KEYS_AND_CHAIN")
    case "EVIDENCE_AUTHORITY.CONTRACT_V1" => OneCheck("CHK.EVIDENCE.AUTHORITY_CONTRACT")
    case "OFFLINE_ENFORCEMENT.MODE_PROOF_V1" =>
      AllChecks(["CHK.NETWORK.SNAPSHOT_PRESENT", "CHK.NETWORK.PROOF_SOURCE"])
    case "CITATIONS.STRICT_ENFORCED_V1" => OneCheck("CHK.CITATIONS.STRICT")
    case "REDACTION.REQUIRED_APPLIED_V1" => OneCheck("CHK.REDACTION.POLICY_GATE")
    case "MODEL_PINNING.MIN_LEVEL_V1" =>
      AllChecks(["CHK.MODEL.PINNING_LEVEL", "CHK.RUN.SNAPSHOT_CONSISTENCY"])
    case "VAULT_CRYPTO.ENCRYPTION_AT_REST_V1" => OneCheck("CHK.VAULT_CRYPTO.POLICY_SNAPSHOT")
    case "DETERMINISM.ZIP_PACKAGING_V1" => OneCheck("CHK.DETERMINISM.ZIP_RULES")
    case _ => NoEvaluator
  }

  function EvaluatorWithoutChecks(gateId: string): Evaluator {
    match gateId
    case "OFFLINE_ENFORCEMENT.ALLOWLIST_MATCH_V1" => AllowlistMatch
    case "DETERMINISM.PDF_CAPABLE_V1" => PdfCapable
    case "EVIDENCEOS.OUTPUTS_PRESENT_V1" => OutputsPresent
    case "EVIDENCEOS.MAPPING_REVIEW_PRESENT_V1" => MappingReviewPresent
    case _ => NoEvaluator
  }

  /** `not_applicable_allowed`: a table of its own, by gate id. */
  predicate NotApplicableAllowed(gateId: string, packId: string) {
    match gateId
    case "OFFLINE_ENFORCEMENT.ALLOWLIST_MATCH_V1" => true
    case "DETERMINISM.PDF_CAPABLE_V1" => true
    case "EVIDENCEOS.OUTPUTS_PRESENT_V1" => packId != EVIDENCEOS
    case "EVIDENCEOS.MAPPING_REVIEW_PRESENT_V1" => packId != EVIDENCEOS
    case _ => false
  }

  /** The two tables by gate id: who evaluates, and who may be not applicable. Most of the model holds
      for any two tables. */
  datatype Tables = Tables(evaluator: string -> Evaluator, allowed: (string, string) -> bool)

  const CORE_TABLES := Tables(EvaluatorOf, NotApplicableAllowed)

  function SeverityRank(s: Severity): Option<nat> {
    match s
    case MINOR => Some(1)
    case MAJOR => Some(2)
    case BLOCKER => Some(3)
    case OtherSeverity(_) => None
  }

  lemma Regroup<T>(out: seq<T>, keep: bool, x: T, rest: seq<T>)
    ensures out + ((if keep then [x] else []) + rest) == (if keep then out + [x] else out) + rest
  {
    if keep {
      assert out + ([x] + rest) == (out + [x]) + rest;
    } else {
      assert [] + rest == rest;
    }
  }

  // ----- Sorting by a text key -----

  function InsertBy<T(!new)>(key: T -> string, x: T, s: seq<T>): seq<T> {
    if s == [] then [x]
    else if Less(key(s[0]), key(x)) then [s[0]] + InsertBy(key, x, s[1..])
    else [x] + s
  }

  /** A stable sort by key. */
  function SortBy<T(!new)>(key: T -> string, s: seq<T>): seq<T> {
    if s == [] then [] else InsertBy(key, s[0], SortBy(key, s[1..]))
  }

  predicate SortedBy<T(!new)>(key: T -> string, s: seq<T>) {
    forall i, j :: 0 <= i < j < |s| ==> !Less(key(s[j]), key(s[i]))
  }

  lemma {:induction false} InsertMembers<T(!new)>(key: T -> string, x: T, s: seq<T>)
    ensures multiset(InsertBy(key, x, s)) == multiset{x} + multiset(s)
    ensures forall y :: y in InsertBy(key, x, s) <==> y == x || y in s
  {
    if s != [] && Less(key(s[0]), key(x)) {
      InsertMembers(key, x, s[1..]);
    }
    if s != [] {
      assert s == [s[0]] + s[1..];
    }
  }

  lemma NotLessTransitive(a: string, b: string, c: string)
    requires !Less(b, a) && !Less(c, b)
    ensures !Less(c, a)
  {
    if Less(c, a) {
      LessTotal(a, b);
      LessTotal(b, c);
      if a != b && b != c {
        LessTransitive(a, b, c);
        LessTransitive(a, c, a);
        LessIrreflexive(a);
      }
    }
  }

  lemma ConsSorted<T(!new)>(key: T -> string, x: T, s: seq<T>)
    requires SortedBy(key, s) && forall y :: y in s ==> !Less(key(y), key(x))
    ensures SortedBy(key, [x] + s)
  {
  }

  lemma HeadLeast<T(!new)>(key: T -> string, s: seq<T>, y: T)
    requires SortedBy(key, s) && y in s
    ensures !Less(key(y), key(s[0]))
  {
    LessIrreflexive(key(s[0]));
  }

  lemma {:induction false} InsertSortedBy<T(!new)>(key: T -> string, x: T, s: seq<T>)
    requires SortedBy(key, s)
    ensures SortedBy(key, InsertBy(key, x, s))
  {
    if s == [] {
    } else if Less(key(s[0]), key(x)) {
      InsertSortedBy(key, x, s[1..]);
      InsertMembers(key, x, s[1..]);
      LessAsymmetric(key(s[0]), key(x));
      forall y | y in InsertBy(key, x, s[1..]) ensures !Less(key(y), key(s[0])) {
        if y in s[1..] {
          HeadLeast(key, s, y);
        }
      }
      ConsSorted(key, s[0], InsertBy(key, x, s[1..]));
    } else {
      forall y | y in s ensures !Less(key(y), key(x)) {
        HeadLeast(key, s, y);
        NotLessTransitive(key(x), key(s[0]), key(y));
      }
      ConsSorted(key, x, s);
    }
  }

  /** The sort is a sort: a permutation in key order. */
  lemma {:induction false} SortByCorrect<T(!new)>(key: T -> string, s: seq<T>)
    ensures SortedBy(key, SortBy(key, s)) && multiset(SortBy(key, s)) == multiset(s)
    ensures forall y :: y in SortBy(key, s) <==> y in s
  {
    if s != [] {
      SortByCorrect(key, s[1..]);
      InsertSortedBy(key, s[0], SortBy(key, s[1..]));
      InsertMembers(key, s[0], SortBy(key, s[1..]));
      assert s == [s[0]] + s[1..];
    }
  }

  lemma {:induction false} SortedFixed<T(!new)>(key: T -> string, s: seq<T>)
    requires SortedBy(key, s)
    ensures SortBy(key, s) == s
  {
    if s != [] {
      SortedFixed(key, s[1..]);
      assert s == [s[0]] + s[1..];
      if |s| > 1 {
        assert !Less(key(s[1]), key(s[0]));
      }
    }
  }

  function Same(s: string): string { s }

  function SortedTexts(texts: seq<string>): seq<string> {
    SortBy(Same, texts)
  }

  lemma SortedTwice(texts: seq<string>)
    ensures SortedTexts(SortedTexts(texts)) == SortedTexts(texts)
  {
    SortByCorrect(Same, texts);
    SortedFixed(Same, SortedTexts(texts));
  }

  // ----- From validator checks to gate results -----

  function ResultForCheck(checks: seq<Check>, checkId: string): Outcome {
    if checks == [] then Outcome(FAIL, "missing check result for " + checkId)
    else if checks[0].checkId == checkId then Outcome(checks[0].result, checks[0].message)
    else ResultForCheck(checks[1..], checkId)
  }

  function Matching(checks: seq<Check>, prefix: string): seq<Check> {
    if checks == [] then []
    else (if prefix <= checks[0].checkId then [checks[0]] else []) + Matching(checks[1..], prefix)
  }

  function ResultForPrefix(checks: seq<Check>, prefix: string): Outcome {
    var m := Matching(checks, prefix);
    if m == [] then Outcome(FAIL, "missing check results for prefix " + prefix)
    else if exists c :: c in m && c.result != PASS then
      Outcome(FAIL, "one or more " + prefix + " checks failed")
    else Outcome(PASS, "ok")
  }

  function CombinedResult(checks: seq<Check>, checkIds: seq<string>): Outcome {
    if checkIds == [] then Outcome(PASS, "ok")
    else
      var r := ResultForCheck(checks, checkIds[0]);
      if r.result != PASS then Outcome(FAIL, checkIds[0] + ": " + r.message)
      else CombinedResult(checks, checkIds[1..])
  }

  function EvaluateGate(e: Evaluator, gateId: string, checks: seq<Check>, bundle: BundleGates): Outcome {
    match e
    case ChecksWithPrefix(prefix) => ResultForPrefix(checks, prefix)
    case OneCheck(checkId) => ResultForCheck(checks, checkId)
    case AllChecks(checkIds) => CombinedResult(checks, checkIds)
    case AllowlistMatch => bundle.allowlist
    case OutputsPresent => bundle.outputs
    case MappingReviewPresent => bundle.mappingReview
    case PdfCapable => Outcome(NOT_APPLICABLE, "No PDFs in self-audit bundle")
    case NoEvaluator => Outcome(FAIL, "Applicable gate has no evaluator implementation: " + gateId)
  }

  /** The result of one applicable gate; without an evaluator it is a blocker failure. */
  function GateResult(tables: Tables, g: GateDef, checks: seq<Check>, bundle: BundleGates)
    : GateRunResult
  {
    var e := tables.evaluator(g.gateId);
    var o := EvaluateGate(e, g.gateId, checks, bundle);
    GateRunResult(g.gateId, o.result, if e.NoEvaluator? then BLOCKER else g.severity, o.message,
                  SortedTexts(g.evidence))
  }

  predicate Applies(g: GateDef, policy: string) {
    policy in g.policies
  }

  function GateResults(tables: Tables, gates: seq<GateDef>, policy: string,
                       checks: seq<Check>, bundle: BundleGates): seq<GateRunResult>
  {
    if gates == [] then []
    else
      (if Applies(gates[0], policy) then [GateResult(tables, gates[0], checks, bundle)] else [])
      + GateResults(tables, gates[1..], policy, checks, bundle)
  }

  function ResultId(r: GateRunResult): string { r.gateId }

  /** `map_validator_to_gates`. */
  method MapValidatorToGates(tables: Tables, checks: seq<Check>, registry: Registry,
                             policy: string, bundle: BundleGates)
    returns (results: seq<GateRunResult>)
    ensures results == SortBy(ResultId, GateResults(tables, registry.gates, policy, checks, bundle))
    ensures Evaluates(tables, registry.gates, policy, checks, bundle, results)
  {
    EvaluatedEvaluates(tables, registry, policy, checks, bundle);
    results := [];
    var i := 0;
    while i < |registry.gates|
      invariant 0 <= i <= |registry.gates|
      invariant results + GateResults(tables, registry.gates[i..], policy, checks, bundle)
             == GateResults(tables, registry.gates, policy, checks, bundle)
    {
      var g := registry.gates[i];
      assert registry.gates[i..][1..] == registry.gates[i + 1..];
      Regroup(results, Applies(g, policy), GateResult(tables, g, checks, bundle),
              GateResults(tables, registry.gates[i + 1..], policy, checks, bundle));
      if Applies(g, policy) {
        var e := tables.evaluator(g.gateId);
        var severity := g.severity;
        var o := EvaluateGate(e, g.gateId, checks, bundle);
        if e.NoEvaluator? {
          severity := BLOCKER;
        }
        results := results + [GateRunResult(g.gateId, o.result, severity, o.message, SortedTexts(g.evidence))];
      }
      i := i + 1;
    }
    assert registry.gates[i..] == [] && results + [] == results;
    results := SortBy(ResultId, results);
  }

  // ----- The producer of the report -----

  /** The registry's gates by id, all of them or those of one policy; a later one replaces an earlier. */
  function Collect(gates: seq<GateDef>, policy: Option<string>): seq<Entry<GateDef>> {
    if gates == [] then []
    else
      var front, g := Collect(gates[..|gates| - 1], policy), gates[|gates| - 1];
      if policy.None? || Applies(g, policy.value) then Insert(front, g.gateId, g) else front
  }

  datatype ReportError =
    | BlankPack
    | Inapplicable(gateId: string)
    | Duplicate(gateId: string)
    | InvalidResult(gateId: string)
    | NotApplicableRefused(gateId: string)
    | InvalidSeverity(gateId: string)
    | InvalidRegistrySeverity(gateId: string)
    | SeverityDowngrade(gateId: string)
    | EvidenceMismatch(gateId: string)
    | MissingResults

  predicate ReportableStatus(s: Status) {
    s == PASS || s == FAIL || s == NOT_APPLICABLE
  }

  /** What the loop refuses a result for, given its registry entry. */
  function EntryFault(tables: Tables, g: GateDef, packId: string, r: GateRunResult): Option<ReportError> {
    if !ReportableStatus(r.result) then Some(InvalidResult(r.gateId))
    else if r.result == NOT_APPLICABLE && !tables.allowed(r.gateId, packId) then
      Some(NotApplicableRefused(r.gateId))
    else if SeverityRank(r.severity).None? then Some(InvalidSeverity(r.gateId))
    else if SeverityRank(g.severity).None? then Some(InvalidRegistrySeverity(r.gateId))
    else if SeverityRank(r.severity).value < SeverityRank(g.severity).value then Some(SeverityDowngrade(r.gateId))
    else if SortedTexts(r.evidence) != SortedTexts(g.evidence) then Some(EvidenceMismatch(r.gateId))
    else None
  }

  type Results = map<string, GateRunResult>

  function ResultFault(tables: Tables, applicable: seq<Entry<GateDef>>, packId: string,
                       r: GateRunResult, byId: Results): Option<ReportError>
  {
    var g := Get(applicable, r.gateId);
    if g.None? then Some(Inapplicable(r.gateId))
    else if r.gateId in byId then Some(Duplicate(r.gateId))
    else EntryFault(tables, g.value, packId, r)
  }

  /** The loop over the results: the map by id, or the first fault. */
  function Gather(tables: Tables, applicable: seq<Entry<GateDef>>, packId: string,
                  results: seq<GateRunResult>, byId: Results): Result<Results, ReportError>
  {
    if results == [] then Ok(byId)
    else
      var fault := ResultFault(tables, applicable, packId, results[0], byId);
      if fault.Some? then Err(fault.value)
      else Gather(tables, applicable, packId, results[1..], byId[results[0].gateId := results[0]])
  }

  function GateOf(g: GateDef, r: GateRunResult): EvalGateResult {
    EvalGateResult(r.gateId, g.category, r.result, r.severity, r.message, r.evidence)
  }

  /** The gates of the report, in the order of their ids. */
  function GatesOf(applicable: seq<Entry<GateDef>>, byId: Results): seq<EvalGateResult>
    requires forall i :: 0 <= i < |applicable| ==> applicable[i].key in byId
  {
    if applicable == [] then []
    else [GateOf(applicable[0].val, byId[applicable[0].key])] + GatesOf(applicable[1..], byId)
  }

  predicate BlockerFailed(gates: seq<EvalGateResult>) {
    exists g :: g in gates && g.status == FAIL && g.severity == BLOCKER
  }

  /** `overall_status_for_gates`. */
  function OverallStatus(gates: seq<EvalGateResult>): Status {
    if BlockerFailed(gates) then FAIL
    else if exists g :: g in gates && g.status == FAIL then WARN
    else PASS
  }

  predicate Covers(applicable: seq<Entry<GateDef>>, byId: Results) {
    forall i :: 0 <= i < |applicable| ==> applicable[i].key in byId
  }

  function Report(tables: Tables, registry: Registry, policy: string, packId: string,
                  results: seq<GateRunResult>): Result<EvalReport, ReportError>
  {
    if Blank(packId) then Err(BlankPack)
    else
      var applicable := Collect(registry.gates, Some(policy));
      var gathered := Gather(tables, applicable, packId, results, map[]);
      if gathered.Err? then Err(gathered.error)
      else if !Covers(applicable, gathered.value) then Err(MissingResults)
      else
        var gates := GatesOf(applicable, gathered.value);
        Ok(EvalReport(OverallStatus(gates), gates, registry.version))
  }

  /** `EvalRunner::report_from_results`. */
  method ReportFromResults(tables: Tables, registry: Registry, policy: string, packId: string,
                           results: seq<GateRunResult>)
    returns (report: Result<EvalReport, ReportError>)
    ensures report == Report(tables, registry, policy, packId, results)
    ensures report.Ok? <==> !Blank(packId) && Reportable(tables, registry, policy, packId, results)
    ensures report.Ok? ==> Reports(registry, policy, results, report.value)
    ensures report.Err? ==> ErrorHolds(tables, registry.gates, policy, packId, results, report.error)
  {
    ProducesExactly(tables, registry, policy, packId, results);
    if Report(tables, registry, policy, packId, results).Ok? {
      ReportReports(tables, registry, policy, packId, results);
    } else {
      ErrorsHold(tables, registry, policy, packId, results);
    }
    if Blank(packId) {
      return Err(BlankPack);
    }
    var applicable := Collect(registry.gates, Some(policy));
    var byId: Results := map[];
    var i := 0;
    while i < |results|
      invariant 0 <= i <= |results|
      invariant Gather(tables, applicable, packId, results[i..], byId)
             == Gather(tables, applicable, packId, results, map[])
    {
      var r := results[i];
      assert results[i..][0] == r && results[i..][1..] == results[i + 1..];
      var fault := ResultFault(tables, applicable, packId, r, byId);
      if fault.Some? {
        return Err(fault.value);
      }
      byId := byId[r.gateId := r];
      i := i + 1;
    }
    if !Covers(applicable, byId) {
      return Err(MissingResults);
    }
    var gates := GatesOf(applicable, byId);
    report := Ok(EvalReport(OverallStatus(gates), gates, registry.version));
  }

  // ----- The checker of the report -----

  datatype EvalError =
    | Unsupported(version: string)
    | InvalidOverall
    | NoGates
    | BlankGate
    | DuplicateGate(gateId: string)
    | UnknownGate(gateId: string)
    | BadStatus(gateId: string)
    | NotApplicableNotAllowed(gateId: string)
    | BadSeverity(gateId: string)
    | BadRegistrySeverity(gateId: string)
    | CategoryMismatch(gateId: string)
    | Downgrade(gateId: string)
    | EvidenceDiffers(gateId: string)
    | MissingGates
    | UnexpectedGates
    | OverallMismatch
    | ManifestMismatch
    | BlockerFailures

  function DefinitionFault(tables: Tables, definition: GateDef, packId: string, gate: EvalGateResult)
    : Option<EvalError>
  {
    if !ReportableStatus(gate.status) then Some(BadStatus(gate.gateId))
    else if gate.status == NOT_APPLICABLE && !tables.allowed(gate.gateId, packId) then
      Some(NotApplicableNotAllowed(gate.gateId))
    else if SeverityRank(gate.severity).None? then Some(BadSeverity(gate.gateId))
    else if SeverityRank(definition.severity).None? then Some(BadRegistrySeverity(gate.gateId))
    else if gate.category != definition.category then Some(CategoryMismatch(gate.gateId))
    else if SeverityRank(gate.severity).value < SeverityRank(definition.severity).value then
      Some(Downgrade(gate.gateId))
    else if SortedTexts(gate.evidence) != SortedTexts(definition.evidence) then Some(EvidenceDiffers(gate.gateId))
    else None
  }

  function GateFault(tables: Tables, known: seq<Entry<GateDef>>, packId: string,
                     gate: EvalGateResult, actual: set<string>): Option<EvalError>
  {
    if Blank(gate.gateId) then Some(BlankGate)
    else if gate.gateId in actual then Some(DuplicateGate(gate.gateId))
    else
      var definition := Get(known, gate.gateId);
      if definition.None? then Some(UnknownGate(gate.gateId))
      else DefinitionFault(tables, definition.value, packId, gate)
  }

  /** The loop over the gates: their ids, or the first fault. */
  function CheckGates(tables: Tables, known: seq<Entry<GateDef>>, packId: string,
                      gates: seq<EvalGateResult>, actual: set<string>): Result<set<string>, EvalError>
  {
    if gates == [] then Ok(actual)
    else
      var fault := GateFault(tables, known, packId, gates[0], actual);
      if fault.Some? then Err(fault.value)
      else CheckGates(tables, known, packId, gates[1..], actual + {gates[0].gateId})
  }

  function ExpectedIds(gates: seq<GateDef>, policy: string): set<string> {
    set g | g in gates && Applies(g, policy) :: g.gateId
  }

  /** `eval_overall_status`. */
  function ExpectedOverall(gates: seq<EvalGateResult>): Status {
    if BlockerFailed(gates) then FAIL
    else if exists g :: g in gates && (g.status == FAIL || g.status == WARN) then WARN
    else PASS
  }

  /** What is checked behind the loop. */
  function FinalFault(expected: set<string>, actual: set<string>, report: EvalReport, manifestStatus: Status)
    : Option<EvalError>
  {
    if !(expected <= actual) then Some(MissingGates)
    else if !(actual <= expected) then Some(UnexpectedGates)
    else if report.overall != ExpectedOverall(report.gates) then Some(OverallMismatch)
    else if manifestStatus != report.overall then Some(ManifestMismatch)
    else if report.overall == FAIL then Some(BlockerFailures)
    else None
  }

  function Fault(tables: Tables, registry: Registry, report: EvalReport,
                 manifestStatus: Status, policy: string, packId: string): Option<EvalError>
  {
    if report.version != VERSION_3 then Some(Unsupported(report.version))
    else if !(report.overall == PASS || report.overall == FAIL || report.overall == WARN) then Some(InvalidOverall)
    else if report.gates == [] then Some(NoGates)
    else
      var checked := CheckGates(tables, Collect(registry.gates, None), packId, report.gates, {});
      if checked.Err? then Some(checked.error)
      else FinalFault(ExpectedIds(registry.gates, policy), checked.value, report, manifestStatus)
  }

  /** The loop of `validate_eval_report`. */
  method CheckEveryGate(tables: Tables, known: seq<Entry<GateDef>>, packId: string,
                        gates: seq<EvalGateResult>)
    returns (checked: Result<set<string>, EvalError>)
    ensures checked == CheckGates(tables, known, packId, gates, {})
  {
    var actual: set<string> := {};
    var i := 0;
    while i < |gates|
      invariant 0 <= i <= |gates|
      invariant CheckGates(tables, known, packId, gates[i..], actual)
             == CheckGates(tables, known, packId, gates, {})
    {
      var gate := gates[i];
      assert gates[i..][0] == gate && gates[i..][1..] == gates[i + 1..];
      var fault := GateFault(tables, known, packId, gate, actual);
      if fault.Some? {
        return Err(fault.value);
      }
      actual := actual + {gate.gateId};
      i := i + 1;
    }
    checked := Ok(actual);
  }

  /** `validate_eval_report`; no fault means the report is accepted. */
  method ValidateEvalReport(tables: Tables, registry: Registry, report: EvalReport,
                            manifestStatus: Status, policy: string, packId: string)
    returns (fault: Option<EvalError>)
    ensures fault == Fault(tables, registry, report, manifestStatus, policy, packId)
    ensures fault.None? <==> ReportStands(tables, registry, report, manifestStatus, policy, packId)
    ensures fault.Some? ==> FaultHolds(tables, registry, report, manifestStatus, policy, packId, fault.value)
  {
    if Fault(tables, registry, report, manifestStatus, policy, packId).Some? {
      FaultsHold(tables, registry, report, manifestStatus, policy, packId);
    }
    AcceptsExactly(tables, registry, report, manifestStatus, policy, packId);
    if report.version != VERSION_3 {
      return Some(Unsupported(report.version));
    }
    if !(report.overall == PASS || report.overall == FAIL || report.overall == WARN) {
      return Some(InvalidOverall);
    }
    if report.gates == [] {
      return Some(NoGates);
    }
    var checked := CheckEveryGate(tables, Collect(registry.gates, None), packId, report.gates);
    if checked.Err? {
      return Some(checked.error);
    }
    fault := FinalFault(ExpectedIds(registry.gates, policy), checked.value, report, manifestStatus);
  }

  // ----- Collected registries -----

  ghost predicate DistinctGates(gates: seq<GateDef>) {
    forall i, j :: 0 <= i < j < |gates| ==> gates[i].gateId != gates[j].gateId
  }

  ghost predicate Kept(g: GateDef, policy: Option<string>) {
    policy.None? || Applies(g, policy.value)
  }

  lemma {:induction false} CollectSorted(gates: seq<GateDef>, policy: Option<string>)
    ensures SortedMap.Sorted(Collect(gates, policy))
  {
    if gates != [] {
      var front, g := gates[..|gates| - 1], gates[|gates| - 1];
      CollectSorted(front, policy);
      InsertSorted(Collect(front, policy), g.gateId, g);
    }
  }

  /** A collected registry holds kept gates only. */
  lemma {:induction false} CollectHolds(gates: seq<GateDef>, policy: Option<string>, id: string)
    requires Get(Collect(gates, policy), id).Some?
    ensures var g := Get(Collect(gates, policy), id).value; g in gates && g.gateId == id && Kept(g, policy)
  {
    var front, g := gates[..|gates| - 1], gates[|gates| - 1];
    GetInsert(Collect(front, policy), g.gateId, g, id);
    if !(Kept(g, policy) && id == g.gateId) {
      CollectHolds(front, policy, id);
    }
  }

  /** With distinct ids it holds every kept gate. */
  lemma {:induction false} CollectFinds(gates: seq<GateDef>, policy: Option<string>, i: nat)
    requires DistinctGates(gates) && i < |gates| && Kept(gates[i], policy)
    ensures Get(Collect(gates, policy), gates[i].gateId) == Some(gates[i])
  {
    var front, g := gates[..|gates| - 1], gates[|gates| - 1];
    GetInsert(Collect(front, policy), g.gateId, g, gates[i].gateId);
    if i < |front| {
      CollectFinds(front, policy, i);
      assert gates[i].gateId != g.gateId;
    }
  }

  // ----- The producer's loop -----

  ghost predicate Good(tables: Tables, applicable: seq<Entry<GateDef>>, packId: string,
                       r: GateRunResult)
  {
    var g := Get(applicable, r.gateId);
    g.Some? && EntryFault(tables, g.value, packId, r).None?
  }

  ghost predicate AllGood(tables: Tables, applicable: seq<Entry<GateDef>>, packId: string,
                          m: Results)
  {
    forall id :: id in m ==> m[id].gateId == id && Good(tables, applicable, packId, m[id])
  }

  ghost predicate Indexes(results: seq<GateRunResult>, byId: Results, m: Results) {
    && (forall id :: id in byId ==> id in m && m[id] == byId[id])
    && (forall r :: r in results ==> r.gateId in m && m[r.gateId] == r)
    && (forall id :: id in m ==> id in byId || m[id] in results)
  }

  lemma IndexesStep(results: seq<GateRunResult>, byId: Results, m: Results)
    requires results != [] && results[0].gateId !in byId
    requires Indexes(results[1..], byId[results[0].gateId := results[0]], m)
    ensures Indexes(results, byId, m)
  {
    assert results == [results[0]] + results[1..];
  }

  /** What a finished loop has established: the map indexes the results, and all are good. */
  lemma {:induction false} Gathered(tables: Tables, applicable: seq<Entry<GateDef>>, packId: string,
                                    results: seq<GateRunResult>, byId: Results)
    requires Gather(tables, applicable, packId, results, byId).Ok?
    requires AllGood(tables, applicable, packId, byId)
    ensures var m := Gather(tables, applicable, packId, results, byId).value;
      AllGood(tables, applicable, packId, m) && Indexes(results, byId, m)
    decreases |results|
  {
    if results != [] {
      var next := byId[results[0].gateId := results[0]];
      Gathered(tables, applicable, packId, results[1..], next);
      IndexesStep(results, byId, Gather(tables, applicable, packId, results, byId).value);
    }
  }

  ghost predicate DistinctIds(results: seq<GateRunResult>)
    decreases |results|
  {
    results == []
    || ((forall r :: r in results[1..] ==> r.gateId != results[0].gateId) && DistinctIds(results[1..]))
  }

  /** Good results with distinct ids pass the loop. */
  lemma {:induction false} GatherSucceeds(tables: Tables, applicable: seq<Entry<GateDef>>,
                                          packId: string, results: seq<GateRunResult>, byId: Results)
    requires forall r :: r in results ==> Good(tables, applicable, packId, r) && r.gateId !in byId
    requires DistinctIds(results)
    ensures Gather(tables, applicable, packId, results, byId).Ok?
    decreases |results|
  {
    if results != [] {
      assert results[0] in results;
      assert forall r :: r in results[1..] ==> r in results;
      GatherSucceeds(tables, applicable, packId, results[1..], byId[results[0].gateId := results[0]]);
    }
  }

  /** A finished loop has met good results only, and no id twice. */
  lemma {:induction false} GatherRefuses(tables: Tables, applicable: seq<Entry<GateDef>>,
                                         packId: string, results: seq<GateRunResult>, byId: Results)
    requires Gather(tables, applicable, packId, results, byId).Ok?
    ensures forall r :: r in results ==> Good(tables, applicable, packId, r) && r.gateId !in byId
    ensures DistinctIds(results)
    decreases |results|
  {
    if results != [] {
      GatherRefuses(tables, applicable, packId, results[1..], byId[results[0].gateId := results[0]]);
      assert results == [results[0]] + results[1..];
    }
  }

  /** Every gate of the policy has a result. */
  ghost predicate Complete(applicable: seq<Entry<GateDef>>, results: seq<GateRunResult>) {
    forall i :: 0 <= i < |applicable| ==> HasResult(results, applicable[i].key)
  }

  ghost predicate HasResult(results: seq<GateRunResult>, id: string) {
    exists r :: r in results && r.gateId == id
  }

  lemma CoversIffComplete(applicable: seq<Entry<GateDef>>, results: seq<GateRunResult>, m: Results)
    requires Indexes(results, map[], m) && forall id :: id in m ==> m[id].gateId == id
    ensures Covers(applicable, m) <==> Complete(applicable, results)
  {
    forall i | 0 <= i < |applicable|
      ensures applicable[i].key in m <==> HasResult(results, applicable[i].key)
    {
      if applicable[i].key in m {
        assert m[applicable[i].key] in results;
      }
    }
  }

  /** The producer makes a report exactly if a pack id is given, every result is good, no id comes
      twice, and no applicable gate is missing. */
  lemma ProducerAcceptsExactly(tables: Tables, registry: Registry, policy: string, packId: string,
                               results: seq<GateRunResult>)
    ensures var applicable := Collect(registry.gates, Some(policy));
      Report(tables, registry, policy, packId, results).Ok?
      <==> && !Blank(packId) && DistinctIds(results) && Complete(applicable, results)
           && forall r :: r in results ==> Good(tables, applicable, packId, r)
  {
    var applicable := Collect(registry.gates, Some(policy));
    if Gather(tables, applicable, packId, results, map[]).Ok? {
      Gathered(tables, applicable, packId, results, map[]);
      GatherRefuses(tables, applicable, packId, results, map[]);
      CoversIffComplete(applicable, results, Gather(tables, applicable, packId, results, map[]).value);
    } else if DistinctIds(results) && forall r :: r in results ==> Good(tables, applicable, packId, r) {
      GatherSucceeds(tables, applicable, packId, results, map[]);
    }
  }

  // ----- The checker accepts what the producer made -----

  ghost predicate KnownEntries(known: seq<Entry<GateDef>>, applicable: seq<Entry<GateDef>>) {
    forall i :: 0 <= i < |applicable| ==>
      !Blank(applicable[i].key) && Get(known, applicable[i].key) == Some(applicable[i].val)
  }

  ghost predicate GoodEntries(tables: Tables, applicable: seq<Entry<GateDef>>, packId: string,
                              m: Results)
  {
    forall i :: 0 <= i < |applicable| ==>
      && applicable[i].key in m && m[applicable[i].key].gateId == applicable[i].key
      && EntryFault(tables, applicable[i].val, packId, m[applicable[i].key]).None?
  }

  function Keys(applicable: seq<Entry<GateDef>>): set<string> {
    set i | 0 <= i < |applicable| :: applicable[i].key
  }

  lemma KeysCons(applicable: seq<Entry<GateDef>>)
    requires applicable != []
    ensures Keys(applicable) == {applicable[0].key} + Keys(applicable[1..])
  {
    forall id | id in Keys(applicable) ensures id in {applicable[0].key} + Keys(applicable[1..]) {
      var i :| 0 <= i < |applicable| && applicable[i].key == id;
      if i > 0 {
        assert applicable[1..][i - 1].key == id;
      }
    }
    forall id | id in Keys(applicable[1..]) ensures id in Keys(applicable) {
      var i :| 0 <= i < |applicable[1..]| && applicable[1..][i].key == id;
      assert applicable[i + 1].key == id;
    }
  }

  lemma NoGateFault(tables: Tables, known: seq<Entry<GateDef>>, packId: string,
                    g: GateDef, r: GateRunResult, actual: set<string>)
    requires !Blank(r.gateId) && r.gateId !in actual && Get(known, r.gateId) == Some(g)
    requires EntryFault(tables, g, packId, r).None?
    ensures GateFault(tables, known, packId, GateOf(g, r), actual).None?
  {
  }

  lemma {:induction false} GatesPass(tables: Tables, known: seq<Entry<GateDef>>, packId: string,
                                     applicable: seq<Entry<GateDef>>, m: Results, actual: set<string>)
    requires SortedMap.Sorted(applicable) && KnownEntries(known, applicable)
    requires GoodEntries(tables, applicable, packId, m)
    requires forall i :: 0 <= i < |applicable| ==> applicable[i].key !in actual
    ensures CheckGates(tables, known, packId, GatesOf(applicable, m), actual) == Ok(actual + Keys(applicable))
    decreases |applicable|
  {
    if applicable == [] {
      assert actual + Keys(applicable) == actual;
    } else {
      var e := applicable[0];
      NoGateFault(tables, known, packId, e.val, m[e.key], actual);
      forall i | 0 <= i < |applicable[1..]| ensures applicable[1..][i].key !in actual + {e.key} {
        LessAsymmetric(e.key, applicable[i + 1].key);
      }
      GatesPass(tables, known, packId, applicable[1..], m, actual + {e.key});
      KeysCons(applicable);
      assert (actual + {e.key}) + Keys(applicable[1..]) == actual + Keys(applicable);
    }
  }

  ghost predicate NamedGates(gates: seq<GateDef>) {
    DistinctGates(gates) && forall g :: g in gates ==> !Blank(g.gateId)
  }

  lemma ApplicableKnown(gates: seq<GateDef>, policy: string, i: nat)
    requires NamedGates(gates) && i < |Collect(gates, Some(policy))|
    ensures var e := Collect(gates, Some(policy))[i];
      && !Blank(e.key) && Get(Collect(gates, None), e.key) == Some(e.val)
      && e.val in gates && e.val.gateId == e.key && Applies(e.val, policy)
      && Get(Collect(gates, Some(policy)), e.key) == Some(e.val)
  {
    var applicable := Collect(gates, Some(policy));
    CollectSorted(gates, Some(policy));
    GetAt(applicable, i);
    CollectHolds(gates, Some(policy), applicable[i].key);
    var j :| 0 <= j < |gates| && gates[j] == applicable[i].val;
    CollectFinds(gates, None, j);
  }

  lemma KeysExpected(gates: seq<GateDef>, policy: string)
    requires NamedGates(gates)
    ensures Keys(Collect(gates, Some(policy))) == ExpectedIds(gates, policy)
  {
    var applicable := Collect(gates, Some(policy));
    forall id | id in Keys(applicable) ensures id in ExpectedIds(gates, policy) {
      var i :| 0 <= i < |applicable| && applicable[i].key == id;
      ApplicableKnown(gates, policy, i);
    }
    forall id | id in ExpectedIds(gates, policy) ensures id in Keys(applicable) {
      var g :| g in gates && Applies(g, policy) && g.gateId == id;
      var j :| 0 <= j < |gates| && gates[j] == g;
      CollectFinds(gates, Some(policy), j);
      GetFinds(applicable, id);
    }
  }

  lemma {:induction false} GateMembers(applicable: seq<Entry<GateDef>>, m: Results, g: EvalGateResult)
    requires Covers(applicable, m)
    ensures g in GatesOf(applicable, m)
      <==> exists i :: 0 <= i < |applicable| && g == GateOf(applicable[i].val, m[applicable[i].key])
    decreases |applicable|
  {
    if applicable != [] {
      GateMembers(applicable[1..], m, g);
      if i: nat :| i < |applicable[1..]| && g == GateOf(applicable[1..][i].val, m[applicable[1..][i].key]) {
        assert g == GateOf(applicable[i + 1].val, m[applicable[i + 1].key]);
      }
      if i: nat :| 0 < i < |applicable| && g == GateOf(applicable[i].val, m[applicable[i].key]) {
        assert g == GateOf(applicable[1..][i - 1].val, m[applicable[1..][i - 1].key]);
      }
    }
  }

  predicate Blocks(r: GateRunResult) {
    r.result == FAIL && r.severity == BLOCKER
  }

  /** A blocker fails in the report exactly if a blocker fails among the results. */
  lemma BlockersAgree(applicable: seq<Entry<GateDef>>, results: seq<GateRunResult>, m: Results)
    requires Covers(applicable, m) && Indexes(results, map[], m)
    requires forall id :: id in m ==> m[id].gateId == id && id in Keys(applicable)
    ensures BlockerFailed(GatesOf(applicable, m)) <==> exists r :: r in results && Blocks(r)
  {
    if BlockerFailed(GatesOf(applicable, m)) {
      var g :| g in GatesOf(applicable, m) && g.status == FAIL && g.severity == BLOCKER;
      GateMembers(applicable, m, g);
      var i :| 0 <= i < |applicable| && g == GateOf(applicable[i].val, m[applicable[i].key]);
      assert Blocks(m[applicable[i].key]);
    }
    if r :| r in results && Blocks(r) {
      var i :| 0 <= i < |applicable| && applicable[i].key == r.gateId;
      var g := GateOf(applicable[i].val, m[applicable[i].key]);
      GateMembers(applicable, m, g);
    }
  }

  lemma OverallAgree(tables: Tables, applicable: seq<Entry<GateDef>>, packId: string, m: Results)
    requires Covers(applicable, m) && GoodEntries(tables, applicable, packId, m)
    ensures ExpectedOverall(GatesOf(applicable, m)) == OverallStatus(GatesOf(applicable, m))
  {
    forall g | g in GatesOf(applicable, m) ensures g.status != WARN {
      GateMembers(applicable, m, g);
      var i :| 0 <= i < |applicable| && g == GateOf(applicable[i].val, m[applicable[i].key]);
    }
  }

  /** What an accepted set of results means for the two loops. */
  lemma Produced(tables: Tables, registry: Registry, policy: string, packId: string,
                 results: seq<GateRunResult>)
    requires NamedGates(registry.gates)
    requires Report(tables, registry, policy, packId, results).Ok?
    ensures var applicable := Collect(registry.gates, Some(policy));
      var gathered := Gather(tables, applicable, packId, results, map[]);
      && gathered.Ok? && Covers(applicable, gathered.value) && Indexes(results, map[], gathered.value)
      && GoodEntries(tables, applicable, packId, gathered.value)
      && forall id :: id in gathered.value ==>
        gathered.value[id].gateId == id && id in Keys(applicable)
  {
    var applicable := Collect(registry.gates, Some(policy));
    Gathered(tables, applicable, packId, results, map[]);
    var m := Gather(tables, applicable, packId, results, map[]).value;
    forall i | 0 <= i < |applicable|
      ensures EntryFault(tables, applicable[i].val, packId, m[applicable[i].key]).None?
    {
      ApplicableKnown(registry.gates, policy, i);
      assert Good(tables, applicable, packId, m[applicable[i].key]);
    }
    forall id | id in m ensures id in Keys(applicable) {
      assert Good(tables, applicable, packId, m[id]);
      GetFinds(applicable, id);
    }
  }

  lemma ApplicableEntries(gates: seq<GateDef>, policy: string)
    requires NamedGates(gates)
    ensures KnownEntries(Collect(gates, None), Collect(gates, Some(policy)))
    ensures SortedMap.Sorted(Collect(gates, Some(policy)))
  {
    forall i | 0 <= i < |Collect(gates, Some(policy))|
      ensures var e := Collect(gates, Some(policy))[i];
        !Blank(e.key) && Get(Collect(gates, None), e.key) == Some(e.val)
    {
      ApplicableKnown(gates, policy, i);
    }
    CollectSorted(gates, Some(policy));
  }

  lemma GatesAccepted(tables: Tables, gates: seq<GateDef>, policy: string, packId: string, m: Results)
    requires NamedGates(gates) && GoodEntries(tables, Collect(gates, Some(policy)), packId, m)
    ensures CheckGates(tables, Collect(gates, None), packId, GatesOf(Collect(gates, Some(policy)), m), {})
         == Ok(ExpectedIds(gates, policy))
  {
    ApplicableEntries(gates, policy);
    GatesPass(tables, Collect(gates, None), packId, Collect(gates, Some(policy)), m, {});
    KeysExpected(gates, policy);
    assert {} + ExpectedIds(gates, policy) == ExpectedIds(gates, policy);
  }

  lemma SomeGate(applicable: seq<Entry<GateDef>>, results: seq<GateRunResult>, m: Results)
    requires Covers(applicable, m) && Indexes(results, map[], m)
    requires forall id :: id in m ==> id in Keys(applicable)
    ensures GatesOf(applicable, m) == [] <==> results == []
  {
    if applicable != [] {
      assert m[applicable[0].key] in results;
    }
    if results != [] {
      assert results[0] in results;
    }
  }

  lemma LoopAccepts(tables: Tables, registry: Registry, policy: string, packId: string,
                    results: seq<GateRunResult>)
    requires NamedGates(registry.gates)
    requires Report(tables, registry, policy, packId, results).Ok?
    ensures var report := Report(tables, registry, policy, packId, results).value;
      && CheckGates(tables, Collect(registry.gates, None), packId, report.gates, {})
         == Ok(ExpectedIds(registry.gates, policy))
      && report.version == registry.version
      && report.overall == OverallStatus(report.gates) == ExpectedOverall(report.gates)
      && (BlockerFailed(report.gates) <==> exists r :: r in results && Blocks(r))
      && (report.gates == [] <==> results == [])
  {
    var applicable := Collect(registry.gates, Some(policy));
    Produced(tables, registry, policy, packId, results);
    var m := Gather(tables, applicable, packId, results, map[]).value;
    GatesAccepted(tables, registry.gates, policy, packId, m);
    OverallAgree(tables, applicable, packId, m);
    BlockersAgree(applicable, results, m);
    SomeGate(applicable, results, m);
  }

  /** The checker and the producer agree: for a registry with distinct non-blank ids, whatever
      results the producer takes, the checker accepts the report exactly if the registry is the
      third version, some gate was evaluated, no blocker failed, and the manifest says the same. */
  lemma CheckerAgrees(tables: Tables, registry: Registry, policy: string, packId: string,
                      results: seq<GateRunResult>, manifestStatus: Status)
    requires NamedGates(registry.gates)
    requires Report(tables, registry, policy, packId, results).Ok?
    ensures var report := Report(tables, registry, policy, packId, results).value;
      Fault(tables, registry, report, manifestStatus, policy, packId).None?
      <==> registry.version == VERSION_3 && results != [] && !(exists r :: r in results && Blocks(r))
           && manifestStatus == report.overall
  {
    LoopAccepts(tables, registry, policy, packId, results);
  }

  // ----- The producer accepts what the evaluator made -----

  ghost predicate PassOrFail(s: Status) {
    s == PASS || s == FAIL
  }

  /** Every check passed or failed. */
  ghost predicate ChecksDecided(checks: seq<Check>) {
    forall c :: c in checks ==> PassOrFail(c.result)
  }

  /** The bundle's own gates decide, and stand aside only for a pack that is not evidenceos. */
  ghost predicate BundleDecided(bundle: BundleGates, packId: string) {
    && ReportableStatus(bundle.allowlist.result)
    && (PassOrFail(bundle.outputs.result)
        || (bundle.outputs.result == NOT_APPLICABLE && packId != EVIDENCEOS))
    && (PassOrFail(bundle.mappingReview.result)
        || (bundle.mappingReview.result == NOT_APPLICABLE && packId != EVIDENCEOS))
  }

  lemma {:induction false} CheckDecided(checks: seq<Check>, checkId: string)
    requires ChecksDecided(checks)
    ensures PassOrFail(ResultForCheck(checks, checkId).result)
  {
    if checks != [] {
      assert checks[0] in checks;
      if checks[0].checkId != checkId {
        CheckDecided(checks[1..], checkId);
      }
    }
  }

  lemma {:induction false} CombinedDecided(checks: seq<Check>, checkIds: seq<string>)
    ensures PassOrFail(CombinedResult(checks, checkIds).result)
  {
    if checkIds != [] && ResultForCheck(checks, checkIds[0]).result == PASS {
      CombinedDecided(checks, checkIds[1..]);
    }
  }

  /** The evaluators that can find a gate not applicable. */
  predicate MayStandAside(e: Evaluator, packId: string) {
    e.AllowlistMatch? || e.PdfCapable? || ((e.OutputsPresent? || e.MappingReviewPresent?) && packId != EVIDENCEOS)
  }

  /** Where an evaluator can find a gate not applicable, the other table lets it. */
  ghost predicate TablesAgree(tables: Tables, packId: string) {
    forall id :: MayStandAside(tables.evaluator(id), packId) ==> tables.allowed(id, packId)
  }

  lemma AsideIsAllowed(gateId: string, packId: string)
    ensures MayStandAside(EvaluatorOf(gateId), packId) ==> NotApplicableAllowed(gateId, packId)
  {
  }

  lemma AllowedIsAside(gateId: string, packId: string)
    ensures NotApplicableAllowed(gateId, packId) ==> MayStandAside(EvaluatorOf(gateId), packId)
  {
  }

  /** The core's two tables agree, in both directions. */
  lemma CoreTablesAgree(packId: string)
    ensures forall id :: MayStandAside(EvaluatorOf(id), packId) <==> NotApplicableAllowed(id, packId)
    ensures TablesAgree(CORE_TABLES, packId)
  {
    forall id ensures MayStandAside(EvaluatorOf(id), packId) <==> NotApplicableAllowed(id, packId) {
      AsideIsAllowed(id, packId);
      AllowedIsAside(id, packId);
    }
  }

  lemma EvaluatedReportable(e: Evaluator, gateId: string, checks: seq<Check>, bundle: BundleGates, packId: string)
    requires ChecksDecided(checks) && BundleDecided(bundle, packId)
    ensures var s := EvaluateGate(e, gateId, checks, bundle).result;
      ReportableStatus(s) && (s == NOT_APPLICABLE ==> MayStandAside(e, packId))
  {
    match e
    case OneCheck(checkId) => CheckDecided(checks, checkId);
    case AllChecks(checkIds) => CombinedDecided(checks, checkIds);
    case _ =>
  }

  /** The evaluator's result passes the producer's checks against the same registry entry. */
  lemma ResultPasses(tables: Tables, g: GateDef, checks: seq<Check>, bundle: BundleGates, packId: string)
    requires ChecksDecided(checks) && BundleDecided(bundle, packId) && SeverityRank(g.severity).Some?
    requires TablesAgree(tables, packId)
    ensures EntryFault(tables, g, packId, GateResult(tables, g, checks, bundle)).None?
  {
    EvaluatedReportable(tables.evaluator(g.gateId), g.gateId, checks, bundle, packId);
    SortedTwice(g.evidence);
  }

  lemma {:induction false} ResultMembers(tables: Tables, gates: seq<GateDef>, policy: string,
                                         checks: seq<Check>, bundle: BundleGates, r: GateRunResult)
    ensures r in GateResults(tables, gates, policy, checks, bundle)
      <==> exists g :: g in gates && Applies(g, policy) && r == GateResult(tables, g, checks, bundle)
  {
    if gates != [] {
      ResultMembers(tables, gates[1..], policy, checks, bundle, r);
      assert gates == [gates[0]] + gates[1..];
    }
  }

  lemma {:induction false} ResultsDistinct(tables: Tables, gates: seq<GateDef>, policy: string,
                                           checks: seq<Check>, bundle: BundleGates)
    requires DistinctGates(gates)
    ensures DistinctIds(GateResults(tables, gates, policy, checks, bundle))
  {
    if gates != [] {
      var rest := GateResults(tables, gates[1..], policy, checks, bundle);
      ResultsDistinct(tables, gates[1..], policy, checks, bundle);
      forall r | r in rest ensures r.gateId != gates[0].gateId {
        ResultMembers(tables, gates[1..], policy, checks, bundle, r);
        var g :| g in gates[1..] && r == GateResult(tables, g, checks, bundle);
        var j :| 0 <= j < |gates[1..]| && gates[1..][j] == g;
        assert gates[0].gateId != gates[j + 1].gateId;
      }
      DistinctCons(GateResult(tables, gates[0], checks, bundle), rest);
      assert [] + rest == rest;
    }
  }

  lemma DistinctCons(r: GateRunResult, rest: seq<GateRunResult>)
    requires DistinctIds(rest) && forall x :: x in rest ==> x.gateId != r.gateId
    ensures DistinctIds([r] + rest)
  {
    assert ([r] + rest)[1..] == rest;
  }

  lemma {:induction false} InsertDistinct(r: GateRunResult, s: seq<GateRunResult>)
    requires DistinctIds(s) && forall x :: x in s ==> x.gateId != r.gateId
    ensures DistinctIds(InsertBy(ResultId, r, s))
  {
    if s != [] && Less(ResultId(s[0]), ResultId(r)) {
      InsertDistinct(r, s[1..]);
      InsertMembers(ResultId, r, s[1..]);
      DistinctCons(s[0], InsertBy(ResultId, r, s[1..]));
    } else {
      DistinctCons(r, s);
      assert s == [] ==> [r] + s == [r];
    }
  }

  lemma {:induction false} SortDistinct(s: seq<GateRunResult>)
    requires DistinctIds(s)
    ensures DistinctIds(SortBy(ResultId, s))
  {
    if s != [] {
      SortDistinct(s[1..]);
      SortByCorrect(ResultId, s[1..]);
      InsertDistinct(s[0], SortBy(ResultId, s[1..]));
    }
  }

  /** What `map_validator_to_gates` returns. */
  function Evaluated(tables: Tables, registry: Registry, policy: string,
                     checks: seq<Check>, bundle: BundleGates): seq<GateRunResult>
  {
    SortBy(ResultId, GateResults(tables, registry.gates, policy, checks, bundle))
  }

  lemma EvaluatedMember(tables: Tables, registry: Registry, policy: string,
                        checks: seq<Check>, bundle: BundleGates, r: GateRunResult)
    ensures r in Evaluated(tables, registry, policy, checks, bundle)
      <==> exists g :: g in registry.gates && Applies(g, policy) && r == GateResult(tables, g, checks, bundle)
  {
    SortByCorrect(ResultId, GateResults(tables, registry.gates, policy, checks, bundle));
    ResultMembers(tables, registry.gates, policy, checks, bundle, r);
  }

  /** The result of some gate of the policy. */
  ghost predicate OfSomeGate(tables: Tables, gates: seq<GateDef>, policy: string, checks: seq<Check>,
                             bundle: BundleGates, r: GateRunResult)
  {
    exists g :: g in gates && Applies(g, policy) && r == GateResult(tables, g, checks, bundle)
  }

  /** One result for every gate of the policy and no other, in the order of their ids; each id once,
      if it comes once in the registry; and a gate without an evaluator blocks. */
  ghost predicate OnePerGate(tables: Tables, registry: Registry, policy: string, checks: seq<Check>,
                             bundle: BundleGates, results: seq<GateRunResult>)
  {
    && SortedBy(ResultId, results) && (DistinctGates(registry.gates) ==> DistinctIds(results))
    && (forall r :: r in results <==> OfSomeGate(tables, registry.gates, policy, checks, bundle, r))
    && (forall r :: r in results && tables.evaluator(r.gateId).NoEvaluator? ==> Blocks(r))
  }

  lemma UnmappedBlocks(tables: Tables, gates: seq<GateDef>, policy: string, checks: seq<Check>,
                       bundle: BundleGates, r: GateRunResult)
    requires OfSomeGate(tables, gates, policy, checks, bundle, r) && tables.evaluator(r.gateId).NoEvaluator?
    ensures Blocks(r)
  {
  }

  lemma EvaluatedSorted(tables: Tables, registry: Registry, policy: string, checks: seq<Check>, bundle: BundleGates)
    ensures SortedBy(ResultId, Evaluated(tables, registry, policy, checks, bundle))
    ensures DistinctGates(registry.gates) ==> DistinctIds(Evaluated(tables, registry, policy, checks, bundle))
  {
    SortByCorrect(ResultId, GateResults(tables, registry.gates, policy, checks, bundle));
    if DistinctGates(registry.gates) {
      ResultsDistinct(tables, registry.gates, policy, checks, bundle);
      SortDistinct(GateResults(tables, registry.gates, policy, checks, bundle));
    }
  }

  lemma EvaluatedOnePerGate(tables: Tables, registry: Registry, policy: string, checks: seq<Check>,
                            bundle: BundleGates)
    ensures OnePerGate(tables, registry, policy, checks, bundle, Evaluated(tables, registry, policy, checks, bundle))
  {
    var results := Evaluated(tables, registry, policy, checks, bundle);
    EvaluatedSorted(tables, registry, policy, checks, bundle);
    forall r ensures r in results <==> OfSomeGate(tables, registry.gates, policy, checks, bundle, r) {
      EvaluatedMember(tables, registry, policy, checks, bundle, r);
    }
    forall r | r in results && tables.evaluator(r.gateId).NoEvaluator? ensures Blocks(r) {
      UnmappedBlocks(tables, registry.gates, policy, checks, bundle, r);
    }
  }

  /** `run_all_for_bundle`, on the checks and the bundle's own gates it has gathered. */
  method RunAllForBundle(registry: Registry, policy: PolicyMode, checks: seq<Check>, bundle: BundleGates)
    returns (results: seq<GateRunResult>)
    ensures results == Evaluated(CORE_TABLES, registry, PolicyName(policy), checks, bundle)
    ensures OnePerGate(CORE_TABLES, registry, PolicyName(policy), checks, bundle, results)
    ensures forall r :: r in results ==> CoreFinds(r.gateId, checks, bundle, r.result)
  {
    results := MapValidatorToGates(CORE_TABLES, checks, registry, PolicyName(policy), bundle);
    EvaluatedOnePerGate(CORE_TABLES, registry, PolicyName(policy), checks, bundle);
    CoreResults(registry.gates, PolicyName(policy), checks, bundle, results);
  }

  lemma CoreResults(gates: seq<GateDef>, policy: string, checks: seq<Check>, bundle: BundleGates,
                    results: seq<GateRunResult>)
    requires Evaluates(CORE_TABLES, gates, policy, checks, bundle, results)
    ensures forall r :: r in results ==> CoreFinds(r.gateId, checks, bundle, r.result)
  {
    forall r | r in results ensures CoreFinds(r.gateId, checks, bundle, r.result) {
      assert OfGate(CORE_TABLES, gates, policy, checks, bundle, r);
      CoreUses(r.gateId);
    }
  }

  ghost predicate KnownSeverities(gates: seq<GateDef>) {
    forall g :: g in gates ==> SeverityRank(g.severity).Some?
  }

  lemma EvaluatedGood(tables: Tables, registry: Registry, policy: string, packId: string,
                      checks: seq<Check>, bundle: BundleGates, r: GateRunResult)
    requires DistinctGates(registry.gates) && KnownSeverities(registry.gates)
    requires ChecksDecided(checks) && BundleDecided(bundle, packId) && TablesAgree(tables, packId)
    requires r in Evaluated(tables, registry, policy, checks, bundle)
    ensures Good(tables, Collect(registry.gates, Some(policy)), packId, r)
  {
    EvaluatedMember(tables, registry, policy, checks, bundle, r);
    var g :| g in registry.gates && Applies(g, policy) && r == GateResult(tables, g, checks, bundle);
    var i :| 0 <= i < |registry.gates| && registry.gates[i] == g;
    CollectFinds(registry.gates, Some(policy), i);
    ResultPasses(tables, g, checks, bundle, packId);
  }

  lemma EvaluatedCovers(tables: Tables, registry: Registry, policy: string,
                        checks: seq<Check>, bundle: BundleGates, m: Results)
    requires NamedGates(registry.gates)
    requires Indexes(Evaluated(tables, registry, policy, checks, bundle), map[], m)
    ensures Covers(Collect(registry.gates, Some(policy)), m)
  {
    var applicable := Collect(registry.gates, Some(policy));
    forall i | 0 <= i < |applicable| ensures applicable[i].key in m {
      ApplicableKnown(registry.gates, policy, i);
      EvaluatedMember(tables, registry, policy, checks, bundle,
                      GateResult(tables, applicable[i].val, checks, bundle));
    }
  }

  /** The producer takes whatever the evaluator made, for any two tables that agree. */
  lemma ProducerSucceeds(tables: Tables, registry: Registry, policy: string, packId: string,
                         checks: seq<Check>, bundle: BundleGates)
    requires NamedGates(registry.gates) && KnownSeverities(registry.gates) && !Blank(packId)
    requires ChecksDecided(checks) && BundleDecided(bundle, packId) && TablesAgree(tables, packId)
    ensures Report(tables, registry, policy, packId,
                   Evaluated(tables, registry, policy, checks, bundle)).Ok?
  {
    var applicable := Collect(registry.gates, Some(policy));
    var results := Evaluated(tables, registry, policy, checks, bundle);
    forall r | r in results ensures Good(tables, applicable, packId, r) {
      EvaluatedGood(tables, registry, policy, packId, checks, bundle, r);
    }
    ResultsDistinct(tables, registry.gates, policy, checks, bundle);
    SortDistinct(GateResults(tables, registry.gates, policy, checks, bundle));
    GatherSucceeds(tables, applicable, packId, results, map[]);
    Gathered(tables, applicable, packId, results, map[]);
    EvaluatedCovers(tables, registry, policy, checks, bundle,
                    Gather(tables, applicable, packId, results, map[]).value);
  }

  lemma EvaluatesSome(tables: Tables, registry: Registry, policy: string,
                      checks: seq<Check>, bundle: BundleGates)
    ensures Evaluated(tables, registry, policy, checks, bundle) != []
      <==> exists g :: g in registry.gates && Applies(g, policy)
  {
    var results := Evaluated(tables, registry, policy, checks, bundle);
    if results != [] {
      EvaluatedMember(tables, registry, policy, checks, bundle, results[0]);
    }
    if g :| g in registry.gates && Applies(g, policy) {
      EvaluatedMember(tables, registry, policy, checks, bundle, GateResult(tables, g, checks, bundle));
    }
  }

  /** A bundle whose own gates stand aside wherever they may. */
  function Aside(packId: string): BundleGates {
    var o := Outcome(if packId == EVIDENCEOS then PASS else NOT_APPLICABLE, "");
    BundleGates(Outcome(NOT_APPLICABLE, ""), o, o)
  }

  /** The agreement is needed: where the tables disagree about a gate, there is a bundle on which the
      producer refuses what the evaluator made. */
  lemma DisagreementRefused(tables: Tables, registry: Registry, policy: string, packId: string,
                            checks: seq<Check>, g: GateDef)
    requires NamedGates(registry.gates) && g in registry.gates && Applies(g, policy)
    requires MayStandAside(tables.evaluator(g.gateId), packId) && !tables.allowed(g.gateId, packId)
    ensures BundleDecided(Aside(packId), packId)
    ensures Report(tables, registry, policy, packId,
                   Evaluated(tables, registry, policy, checks, Aside(packId))).Err?
  {
    var r := GateResult(tables, g, checks, Aside(packId));
    var results := Evaluated(tables, registry, policy, checks, Aside(packId));
    EvaluatedMember(tables, registry, policy, checks, Aside(packId), r);
    ProducerAcceptsExactly(tables, registry, policy, packId, results);
    var i :| 0 <= i < |registry.gates| && registry.gates[i] == g;
    CollectFinds(registry.gates, Some(policy), i);
    assert !Good(tables, Collect(registry.gates, Some(policy)), packId, r);
  }

  /** From the validator's checks to the final verdict, with the core's own tables: the producer takes
      the evaluated gates, and the checker accepts the report with its own status exactly if no
      blocker gate failed. So an export whose gate evaluation lists no failed blocker never fails this
      check at the end. */
  lemma ProducerAndCheckerAgree(registry: Registry, policy: PolicyMode, packId: string, checks: seq<Check>,
                                bundle: BundleGates)
    requires registry.version == VERSION_3
    requires NamedGates(registry.gates) && KnownSeverities(registry.gates) && !Blank(packId)
    requires exists g :: g in registry.gates && Applies(g, PolicyName(policy))
    requires ChecksDecided(checks) && BundleDecided(bundle, packId)
    ensures var results := Evaluated(CORE_TABLES, registry, PolicyName(policy), checks, bundle);
      var produced := Report(CORE_TABLES, registry, PolicyName(policy), packId, results);
      && produced.Ok?
      && (Fault(CORE_TABLES, registry, produced.value, produced.value.overall, PolicyName(policy), packId).None?
          <==> !(exists r :: r in results && Blocks(r)))
  {
    var results := Evaluated(CORE_TABLES, registry, PolicyName(policy), checks, bundle);
    CoreTablesAgree(packId);
    ProducerSucceeds(CORE_TABLES, registry, PolicyName(policy), packId, checks, bundle);
    EvaluatesSome(CORE_TABLES, registry, PolicyName(policy), checks, bundle);
    CheckerAgrees(CORE_TABLES, registry, PolicyName(policy), packId, results,
                  Report(CORE_TABLES, registry, PolicyName(policy), packId, results).value.overall);
  }

  // ----- Single gates -----

  function FindGate(gates: seq<GateDef>, id: string): Option<GateDef> {
    if gates == [] then None
    else if gates[0].gateId == id then Some(gates[0])
    else FindGate(gates[1..], id)
  }

  function MatchesOf(gates: seq<EvalGateResult>, id: string): seq<EvalGateResult> {
    if gates == [] then []
    else (if gates[0].gateId == id then [gates[0]] else []) + MatchesOf(gates[1..], id)
  }

  /** `gate_satisfied_for_export`. */
  predicate GateSatisfied(registry: Registry, report: EvalReport, id: string, policy: string) {
    var definition := FindGate(registry.gates, id);
    if definition.None? then false
    else if !Applies(definition.value, policy) then true
    else
      var matches := MatchesOf(report.gates, id);
      |matches| == 1 && (matches[0].status == PASS || matches[0].status == NOT_APPLICABLE)
  }

  lemma {:induction false} OneMatch(applicable: seq<Entry<GateDef>>, m: Results, id: string)
    requires Covers(applicable, m) && SortedMap.Sorted(applicable)
    requires forall i :: 0 <= i < |applicable| ==> m[applicable[i].key].gateId == applicable[i].key
    ensures var d := Get(applicable, id);
      if d.None? then MatchesOf(GatesOf(applicable, m), id) == []
      else id in m && MatchesOf(GatesOf(applicable, m), id) == [GateOf(d.value, m[id])]
    decreases |applicable|
  {
    if applicable != [] {
      OneMatch(applicable[1..], m, id);
      if applicable[0].key == id && Get(applicable[1..], id).Some? {
        GetFinds(applicable[1..], id);
        var i :| 0 <= i < |applicable[1..]| && applicable[1..][i].key == id;
        LessAsymmetric(applicable[0].key, applicable[i + 1].key);
      }
    }
  }

  /** The first gate of the registry with this id. */
  ghost predicate FirstGate(gates: seq<GateDef>, id: string, i: int) {
    0 <= i < |gates| && gates[i].gateId == id && forall j :: 0 <= j < i ==> gates[j].gateId != id
  }

  lemma {:induction false} FindGateExactly(gates: seq<GateDef>, id: string)
    ensures FindGate(gates, id).None? <==> forall g :: g in gates ==> g.gateId != id
    ensures forall i :: FirstGate(gates, id, i) ==> FindGate(gates, id) == Some(gates[i])
    ensures FindGate(gates, id).Some? ==> exists i :: FirstGate(gates, id, i)
  {
    if gates != [] {
      FindGateExactly(gates[1..], id);
      assert gates == [gates[0]] + gates[1..];
      if gates[0].gateId == id {
        assert FirstGate(gates, id, 0);
      } else {
        forall i | FirstGate(gates, id, i) ensures FirstGate(gates[1..], id, i - 1) {
          assert forall j :: 0 <= j < i - 1 ==> gates[1..][j] == gates[j + 1];
        }
        if i :| FirstGate(gates[1..], id, i) {
          assert forall j :: 0 < j < i + 1 ==> gates[j] == gates[1..][j - 1];
          assert FirstGate(gates, id, i + 1);
        }
      }
    }
  }

  ghost predicate HasNotFailed(results: seq<GateRunResult>, id: string) {
    exists r :: r in results && r.gateId == id && r.result != FAIL
  }

  ghost predicate LetsPass(gates: seq<GateDef>, policy: string, results: seq<GateRunResult>, id: string) {
    exists i :: FirstGate(gates, id, i) && (policy in gates[i].policies ==> HasNotFailed(results, id))
  }

  /** On a produced report a gate lets the export pass exactly if the registry knows it, and it
      either does not apply or has a result other than a failure. */
  lemma SatisfiedExactly(tables: Tables, registry: Registry, policy: string, packId: string,
                         results: seq<GateRunResult>, id: string)
    requires Report(tables, registry, policy, packId, results).Ok?
    ensures GateSatisfied(registry, Report(tables, registry, policy, packId, results).value, id, policy)
      <==> LetsPass(registry.gates, policy, results, id)
  {
    FindGateExactly(registry.gates, id);
    if i: nat :| FirstGate(registry.gates, id, i) {
      if Applies(registry.gates[i], policy) {
        SatisfiedApplicable(tables, registry, policy, packId, results, i);
      }
    }
  }

  lemma {:induction false} CollectHas(gates: seq<GateDef>, policy: Option<string>, i: nat)
    requires i < |gates| && Kept(gates[i], policy)
    ensures Get(Collect(gates, policy), gates[i].gateId).Some?
  {
    var front, g := gates[..|gates| - 1], gates[|gates| - 1];
    GetInsert(Collect(front, policy), g.gateId, g, gates[i].gateId);
    if i < |front| {
      CollectHas(front, policy, i);
    }
  }

  lemma SatisfiedApplicable(tables: Tables, registry: Registry, policy: string, packId: string,
                            results: seq<GateRunResult>, i: nat)
    requires Report(tables, registry, policy, packId, results).Ok?
    requires i < |registry.gates| && Applies(registry.gates[i], policy)
    ensures var id := registry.gates[i].gateId;
      var matches := MatchesOf(Report(tables, registry, policy, packId, results).value.gates, id);
      && |matches| == 1 && ReportableStatus(matches[0].status)
      && (matches[0].status != FAIL <==> HasNotFailed(results, id))
  {
    var applicable := Collect(registry.gates, Some(policy));
    var id := registry.gates[i].gateId;
    Gathered(tables, applicable, packId, results, map[]);
    var m := Gather(tables, applicable, packId, results, map[]).value;
    CollectSorted(registry.gates, Some(policy));
    CollectHas(registry.gates, Some(policy), i);
    OneMatch(applicable, m, id);
    assert Good(tables, applicable, packId, m[id]);
  }

  // ----- Sorted texts -----

  lemma {:induction false} SortedUnique(a: seq<string>, b: seq<string>)
    requires SortedBy(Same, a) && SortedBy(Same, b) && multiset(a) == multiset(b)
    ensures a == b
    decreases |a|
  {
    assert |a| == |multiset(a)| == |multiset(b)| == |b|;
    if a != [] {
      SameHead(a, b);
      TailMultiset(a);
      TailMultiset(b);
      SortedUnique(a[1..], b[1..]);
      assert a == [a[0]] + a[1..] && b == [b[0]] + b[1..];
    }
  }

  lemma TailMultiset(a: seq<string>)
    requires a != []
    ensures multiset(a[1..]) == multiset(a) - multiset{a[0]}
  {
    assert a == [a[0]] + a[1..];
  }

  lemma SameHead(a: seq<string>, b: seq<string>)
    requires SortedBy(Same, a) && SortedBy(Same, b) && multiset(a) == multiset(b) && a != [] && b != []
    ensures a[0] == b[0]
  {
    assert a[0] in multiset(a) && b[0] in multiset(b);
    HeadLeast(Same, a, b[0]);
    HeadLeast(Same, b, a[0]);
    LessTotal(a[0], b[0]);
  }

  /** Sorted texts are equal exactly if the texts are, in any order. */
  lemma SortedTextsEqual(a: seq<string>, b: seq<string>)
    ensures SortedTexts(a) == SortedTexts(b) <==> multiset(a) == multiset(b)
  {
    SortByCorrect(Same, a);
    SortByCorrect(Same, b);
    if multiset(a) == multiset(b) {
      SortedUnique(SortedTexts(a), SortedTexts(b));
    }
  }

  // ----- What the checker accepts -----

  /** The gate that defines an id: the last one of the registry, or of a policy's part of it, with it. */
  ghost predicate Defines(gates: seq<GateDef>, policy: Option<string>, g: GateDef, id: string) {
    exists j :: LastAt(gates, policy, g, id, j)
  }

  ghost predicate LastAt(gates: seq<GateDef>, policy: Option<string>, g: GateDef, id: string, j: int) {
    && 0 <= j < |gates| && gates[j] == g && g.gateId == id && (policy.Some? ==> policy.value in g.policies)
    && forall k :: j < k < |gates| && gates[k].gateId == id ==> policy.Some? && policy.value !in gates[k].policies
  }

  /** A last gate that counts defines its id, and only its own. */
  lemma DefinesBehind(gates: seq<GateDef>, policy: Option<string>, g: GateDef, id: string)
    requires gates != []
    ensures var last, front := gates[|gates| - 1], gates[..|gates| - 1];
      Defines(gates, policy, g, id)
      <==> if last.gateId == id && Kept(last, policy) then g == last else Defines(front, policy, g, id)
  {
    var n := |gates| - 1;
    if gates[n].gateId == id && Kept(gates[n], policy) {
      assert g == gates[n] ==> LastAt(gates, policy, g, id, n);
      if j :| LastAt(gates, policy, g, id, j) { assert j == n; }
    } else {
      if j :| LastAt(gates[..n], policy, g, id, j) { assert LastAt(gates, policy, g, id, j); }
      if j :| LastAt(gates, policy, g, id, j) { assert j < n && LastAt(gates[..n], policy, g, id, j); }
    }
  }

  lemma {:induction false} CollectDefines(gates: seq<GateDef>, policy: Option<string>, g: GateDef, id: string)
    ensures Get(Collect(gates, policy), id) == Some(g) <==> Defines(gates, policy, g, id)
  {
    if gates != [] {
      var n := |gates| - 1;
      GetInsert(Collect(gates[..n], policy), gates[n].gateId, gates[n], id);
      CollectDefines(gates[..n], policy, g, id);
      DefinesBehind(gates, policy, g, id);
    }
  }

  /** Severities ascend from MINOR over MAJOR to BLOCKER; no other text is one. */
  predicate NotBelow(s: Severity, least: Severity) {
    match least
    case MINOR => s == MINOR || s == MAJOR || s == BLOCKER
    case MAJOR => s == MAJOR || s == BLOCKER
    case BLOCKER => s == BLOCKER
    case OtherSeverity(_) => false
  }

  /** What the report may say of a gate that this definition defines. */
  ghost predicate MaySay(tables: Tables, packId: string, g: GateDef, id: string, status: Status, severity: Severity,
                         evidence: seq<string>)
  {
    && (status == PASS || status == FAIL || (status == NOT_APPLICABLE && tables.allowed(id, packId)))
    && NotBelow(severity, g.severity) && multiset(evidence) == multiset(g.evidence)
  }

  ghost predicate GateStands(tables: Tables, gates: seq<GateDef>, packId: string, gate: EvalGateResult) {
    !Blank(gate.gateId) && exists g :: Defines(gates, None, g, gate.gateId) && GateMatches(tables, packId, g, gate)
  }

  ghost predicate GateMatches(tables: Tables, packId: string, g: GateDef, gate: EvalGateResult) {
    gate.category == g.category
    && MaySay(tables, packId, g, gate.gateId, gate.status, gate.severity, gate.evidence)
  }

  /** A report that stands: of the third version, with the gates of the policy and no others, each once
      and as its definition allows, none of them a failed blocker, and with an overall status, repeated
      by the manifest, that warns of the other failures. */
  ghost predicate ReportStands(tables: Tables, registry: Registry, report: EvalReport, manifestStatus: Status,
                               policy: string, packId: string)
  {
    && report.version == "gates_registry_v3" && report.gates != []
    && (forall i, j :: 0 <= i < j < |report.gates| ==> report.gates[i].gateId != report.gates[j].gateId)
    && AllStand(tables, registry.gates, packId, report.gates)
    && SameIds(report.gates, registry.gates, policy)
    && OverallSays(report.gates, report.overall)
    && manifestStatus == report.overall
  }

  /** What each fault says of the report. */
  ghost predicate FaultHolds(tables: Tables, registry: Registry, report: EvalReport, manifestStatus: Status,
                             policy: string, packId: string, fault: EvalError)
  {
    match fault
    case Unsupported(version) => version == report.version && version != "gates_registry_v3"
    case InvalidOverall => report.overall != PASS && report.overall != FAIL && report.overall != WARN
    case NoGates => report.gates == []
    case MissingGates => exists id :: Wanted(registry.gates, policy, id) && !Reported(report.gates, id)
    case UnexpectedGates => exists id :: Reported(report.gates, id) && !Wanted(registry.gates, policy, id)
    case OverallMismatch => !OverallIs(report.gates, report.overall)
    case ManifestMismatch => manifestStatus != report.overall
    case BlockerFailures => exists gate :: gate in report.gates && gate.status == FAIL && gate.severity == BLOCKER
    case _ =>
      exists i :: 0 <= i < |report.gates| && GateFaultHolds(tables, registry.gates, packId, report.gates, i, fault)
  }

  /** Overall FAIL for a failed blocker, WARN for other failures, PASS for none. */
  ghost predicate OverallIs(gates: seq<EvalGateResult>, overall: Status) {
    overall ==
      if exists gate :: gate in gates && gate.status == FAIL && gate.severity == BLOCKER then FAIL
      else if exists gate :: gate in gates && gate.status == FAIL then WARN else PASS
  }

  ghost predicate GateFaultHolds(tables: Tables, defs: seq<GateDef>, packId: string, gates: seq<EvalGateResult>,
                                 i: nat, fault: EvalError)
    requires i < |gates|
  {
    var gate := gates[i];
    match fault
    case BlankGate => Blank(gate.gateId)
    case DuplicateGate(id) => gate.gateId == id && exists j :: 0 <= j < i && gates[j].gateId == id
    case UnknownGate(id) => gate.gateId == id && forall g :: g in defs ==> g.gateId != id
    case _ => exists g :: Defines(defs, None, g, gate.gateId) && DefinitionFaultHolds(tables, g, packId, gate, fault)
  }

  ghost predicate DefinitionFaultHolds(tables: Tables, g: GateDef, packId: string, gate: EvalGateResult,
                                       fault: EvalError)
  {
    match fault
    case BadStatus(id) =>
      gate.gateId == id && gate.status != PASS && gate.status != FAIL && gate.status != NOT_APPLICABLE
    case NotApplicableNotAllowed(id) =>
      gate.gateId == id && gate.status == NOT_APPLICABLE && !tables.allowed(id, packId)
    case BadSeverity(id) => gate.gateId == id && gate.severity.OtherSeverity?
    case BadRegistrySeverity(id) => gate.gateId == id && g.severity.OtherSeverity?
    case CategoryMismatch(id) => gate.gateId == id && gate.category != g.category
    case Downgrade(id) =>
      && gate.gateId == id && !gate.severity.OtherSeverity? && !g.severity.OtherSeverity?
      && !NotBelow(gate.severity, g.severity)
    case EvidenceDiffers(id) => gate.gateId == id && multiset(gate.evidence) != multiset(g.evidence)
    case _ => false
  }

  lemma DefinitionFaultsHold(tables: Tables, g: GateDef, packId: string, gate: EvalGateResult)
    requires DefinitionFault(tables, g, packId, gate).Some?
    ensures DefinitionFaultHolds(tables, g, packId, gate, DefinitionFault(tables, g, packId, gate).value)
  {
    SortedTextsEqual(gate.evidence, g.evidence);
  }

  lemma GateFaultsHold(tables: Tables, defs: seq<GateDef>, packId: string, gates: seq<EvalGateResult>, i: nat,
                       actual: set<string>)
    requires i < |gates| && forall id :: id in actual ==> exists j :: 0 <= j < i && gates[j].gateId == id
    requires GateFault(tables, Collect(defs, None), packId, gates[i], actual).Some?
    ensures GateFaultHolds(tables, defs, packId, gates, i,
                           GateFault(tables, Collect(defs, None), packId, gates[i], actual).value)
  {
    var gate := gates[i];
    var definition := Get(Collect(defs, None), gate.gateId);
    if definition.None? {
      forall g | g in defs ensures g.gateId != gate.gateId {
        var j :| 0 <= j < |defs| && defs[j] == g;
        CollectHas(defs, None, j);
      }
    } else {
      CollectDefines(defs, None, definition.value, gate.gateId);
      if DefinitionFault(tables, definition.value, packId, gate).Some? {
        DefinitionFaultsHold(tables, definition.value, packId, gate);
      }
    }
  }

  lemma {:induction false} LoopFaultsHold(tables: Tables, defs: seq<GateDef>, packId: string,
                                          gates: seq<EvalGateResult>, i: nat, actual: set<string>)
    requires i <= |gates| && forall id :: id in actual ==> exists j :: 0 <= j < i && gates[j].gateId == id
    requires CheckGates(tables, Collect(defs, None), packId, gates[i..], actual).Err?
    ensures exists k: nat ::
      && k < |gates|
      && GateFaultHolds(tables, defs, packId, gates, k,
                        CheckGates(tables, Collect(defs, None), packId, gates[i..], actual).error)
    decreases |gates| - i
  {
    if GateFault(tables, Collect(defs, None), packId, gates[i], actual).Some? {
      GateFaultsHold(tables, defs, packId, gates, i, actual);
    } else {
      assert gates[i..][1..] == gates[i + 1..];
      LoopFaultsHold(tables, defs, packId, gates, i + 1, actual + {gates[i].gateId});
    }
  }

  ghost predicate Reported(rs: seq<EvalGateResult>, id: string) {
    exists gate :: gate in rs && gate.gateId == id
  }

  ghost predicate Wanted(gates: seq<GateDef>, policy: string, id: string) {
    exists g :: g in gates && policy in g.policies && g.gateId == id
  }

  /** The ids are those of the policy's gates. */
  ghost predicate SameIds(rs: seq<EvalGateResult>, gates: seq<GateDef>, policy: string) {
    forall id :: Reported(rs, id) <==> Wanted(gates, policy, id)
  }

  lemma FaultlessDefinition(tables: Tables, g: GateDef, packId: string, gate: EvalGateResult)
    ensures DefinitionFault(tables, g, packId, gate).None? <==> GateMatches(tables, packId, g, gate)
  {
    SortedTextsEqual(gate.evidence, g.evidence);
  }

  lemma FaultlessGate(tables: Tables, gates: seq<GateDef>, packId: string, gate: EvalGateResult, actual: set<string>)
    ensures GateFault(tables, Collect(gates, None), packId, gate, actual).None?
      <==> gate.gateId !in actual && GateStands(tables, gates, packId, gate)
  {
    var d := Get(Collect(gates, None), gate.gateId);
    if d.Some? {
      CollectDefines(gates, None, d.value, gate.gateId);
      FaultlessDefinition(tables, d.value, packId, gate);
    }
    if g :| Defines(gates, None, g, gate.gateId) && GateMatches(tables, packId, g, gate) {
      CollectDefines(gates, None, g, gate.gateId);
    }
  }

  function Ids(gates: seq<EvalGateResult>): set<string> {
    set g | g in gates :: g.gateId
  }

  ghost predicate NewIds(gates: seq<EvalGateResult>, actual: set<string>) {
    && (forall i, j :: 0 <= i < j < |gates| ==> gates[i].gateId != gates[j].gateId)
    && forall i :: 0 <= i < |gates| ==> gates[i].gateId !in actual
  }

  lemma NewIdsCons(gates: seq<EvalGateResult>, actual: set<string>)
    requires gates != []
    ensures NewIds(gates, actual) <==> gates[0].gateId !in actual && NewIds(gates[1..], actual + {gates[0].gateId})
    ensures actual + Ids(gates) == (actual + {gates[0].gateId}) + Ids(gates[1..])
  {
    assert gates == [gates[0]] + gates[1..];
    assert forall i :: 0 < i < |gates| ==> gates[i] == gates[1..][i - 1];
  }

  lemma {:induction false} LoopExactly(tables: Tables, gates: seq<GateDef>, packId: string,
                                       rs: seq<EvalGateResult>, actual: set<string>)
    ensures CheckGates(tables, Collect(gates, None), packId, rs, actual).Ok?
      <==> NewIds(rs, actual) && forall gate :: gate in rs ==> GateStands(tables, gates, packId, gate)
    ensures CheckGates(tables, Collect(gates, None), packId, rs, actual).Ok? ==>
      CheckGates(tables, Collect(gates, None), packId, rs, actual).value == actual + Ids(rs)
    decreases |rs|
  {
    if rs == [] {
      assert actual + Ids(rs) == actual;
    } else {
      FaultlessGate(tables, gates, packId, rs[0], actual);
      NewIdsCons(rs, actual);
      LoopExactly(tables, gates, packId, rs[1..], actual + {rs[0].gateId});
      assert rs == [rs[0]] + rs[1..];
    }
  }

  lemma IdsAre(rs: seq<EvalGateResult>, gates: seq<GateDef>, policy: string)
    ensures Ids(rs) == ExpectedIds(gates, policy) <==> SameIds(rs, gates, policy)
  {
    assert forall id :: id in Ids(rs) <==> Reported(rs, id);
    assert forall id :: id in ExpectedIds(gates, policy) <==> Wanted(gates, policy, id);
    if SameIds(rs, gates, policy) {
      forall id ensures id in Ids(rs) <==> id in ExpectedIds(gates, policy) {
        assert Reported(rs, id) <==> Wanted(gates, policy, id);
      }
    }
    if Ids(rs) == ExpectedIds(gates, policy) {
      forall id ensures Reported(rs, id) <==> Wanted(gates, policy, id) {
        assert id in Ids(rs) <==> id in ExpectedIds(gates, policy);
      }
    }
  }

  ghost predicate AllStand(tables: Tables, gates: seq<GateDef>, packId: string, rs: seq<EvalGateResult>) {
    forall gate :: gate in rs ==> GateStands(tables, gates, packId, gate)
  }

  /** Without a failed blocker the overall status warns of the other failures. */
  ghost predicate OverallSays(rs: seq<EvalGateResult>, overall: Status) {
    && (forall gate :: gate in rs ==> !(gate.status == FAIL && gate.severity == BLOCKER))
    && overall == if exists gate :: gate in rs && gate.status == FAIL then WARN else PASS
  }

  lemma OverallStands(tables: Tables, gates: seq<GateDef>, packId: string, rs: seq<EvalGateResult>, overall: Status)
    requires AllStand(tables, gates, packId, rs)
    ensures overall == ExpectedOverall(rs) && overall != FAIL <==> OverallSays(rs, overall)
  {
    forall gate | gate in rs ensures gate.status != WARN {
      assert GateStands(tables, gates, packId, gate);
    }
  }

  lemma FinalExactly(expected: set<string>, actual: set<string>, report: EvalReport, manifestStatus: Status)
    ensures FinalFault(expected, actual, report, manifestStatus).None?
      <==> && expected == actual && report.overall == ExpectedOverall(report.gates) && report.overall != FAIL
           && manifestStatus == report.overall
  {
  }

  /** The checker finds no fault exactly in a report that stands. */
  lemma AcceptsExactly(tables: Tables, registry: Registry, report: EvalReport, manifestStatus: Status,
                       policy: string, packId: string)
    ensures Fault(tables, registry, report, manifestStatus, policy, packId).None?
      <==> ReportStands(tables, registry, report, manifestStatus, policy, packId)
  {
    LoopAccepted(tables, registry.gates, packId, report.gates);
    IdsAre(report.gates, registry.gates, policy);
    FinalExactly(ExpectedIds(registry.gates, policy), Ids(report.gates), report, manifestStatus);
    if AllStand(tables, registry.gates, packId, report.gates) {
      OverallStands(tables, registry.gates, packId, report.gates, report.overall);
    }
  }

  lemma LoopAccepted(tables: Tables, gates: seq<GateDef>, packId: string, rs: seq<EvalGateResult>)
    ensures var checked := CheckGates(tables, Collect(gates, None), packId, rs, {});
      && (checked.Ok? <==> NewIds(rs, {}) && AllStand(tables, gates, packId, rs))
      && (checked.Ok? ==> checked.value == Ids(rs))
  {
    LoopExactly(tables, gates, packId, rs, {});
    assert {} + Ids(rs) == Ids(rs);
  }

  lemma IdsDiffer(rs: seq<EvalGateResult>, gates: seq<GateDef>, policy: string)
    ensures !(ExpectedIds(gates, policy) <= Ids(rs)) ==>
      exists id :: Wanted(gates, policy, id) && !Reported(rs, id)
    ensures !(Ids(rs) <= ExpectedIds(gates, policy)) ==>
      exists id :: Reported(rs, id) && !Wanted(gates, policy, id)
  {
    assert forall id :: id in Ids(rs) <==> Reported(rs, id);
    assert forall id :: id in ExpectedIds(gates, policy) <==> Wanted(gates, policy, id);
  }

  lemma OverallKnown(tables: Tables, gates: seq<GateDef>, packId: string, rs: seq<EvalGateResult>)
    requires AllStand(tables, gates, packId, rs)
    ensures OverallIs(rs, ExpectedOverall(rs))
    ensures ExpectedOverall(rs) == FAIL ==> BlockerFailed(rs)
  {
    forall gate | gate in rs ensures gate.status != WARN {
      assert GateStands(tables, gates, packId, gate);
    }
  }

  lemma OverallUnlike(rs: seq<EvalGateResult>, overall: Status)
    requires OverallIs(rs, ExpectedOverall(rs)) && overall != ExpectedOverall(rs)
    ensures !OverallIs(rs, overall)
  {
  }

  lemma FinalFaultsHold(tables: Tables, registry: Registry, report: EvalReport, manifestStatus: Status,
                        policy: string, packId: string)
    requires AllStand(tables, registry.gates, packId, report.gates)
    requires FinalFault(ExpectedIds(registry.gates, policy), Ids(report.gates), report, manifestStatus).Some?
    ensures FaultHolds(tables, registry, report, manifestStatus, policy, packId,
              FinalFault(ExpectedIds(registry.gates, policy), Ids(report.gates), report, manifestStatus).value)
  {
    IdsDiffer(report.gates, registry.gates, policy);
    OverallKnown(tables, registry.gates, packId, report.gates);
    if report.overall != ExpectedOverall(report.gates) {
      OverallUnlike(report.gates, report.overall);
    }
  }

  /** Every fault is true of the report. */
  lemma FaultsHold(tables: Tables, registry: Registry, report: EvalReport, manifestStatus: Status,
                   policy: string, packId: string)
    requires Fault(tables, registry, report, manifestStatus, policy, packId).Some?
    ensures FaultHolds(tables, registry, report, manifestStatus, policy, packId,
                       Fault(tables, registry, report, manifestStatus, policy, packId).value)
  {
    LoopAccepted(tables, registry.gates, packId, report.gates);
    assert report.gates[0..] == report.gates;
    if CheckGates(tables, Collect(registry.gates, None), packId, report.gates, {}).Err? {
      LoopFaultsHold(tables, registry.gates, packId, report.gates, 0, {});
    } else if FinalFault(ExpectedIds(registry.gates, policy), Ids(report.gates), report, manifestStatus).Some? {
      FinalFaultsHold(tables, registry, report, manifestStatus, policy, packId);
    }
  }

  // ----- What the producer accepts and makes -----

  /** The result is one that the gate which defines its id for the policy may have. */
  ghost predicate ResultStands(tables: Tables, gates: seq<GateDef>, policy: string, packId: string, r: GateRunResult) {
    exists g :: Defines(gates, Some(policy), g, r.gateId)
      && MaySay(tables, packId, g, r.gateId, r.result, r.severity, r.evidence)
  }

  lemma GoodStands(tables: Tables, gates: seq<GateDef>, policy: string, packId: string, r: GateRunResult)
    ensures Good(tables, Collect(gates, Some(policy)), packId, r) <==> ResultStands(tables, gates, policy, packId, r)
  {
    var d := Get(Collect(gates, Some(policy)), r.gateId);
    if d.Some? {
      CollectDefines(gates, Some(policy), d.value, r.gateId);
      SortedTextsEqual(r.evidence, d.value.evidence);
    }
    if g :|
      && Defines(gates, Some(policy), g, r.gateId)
      && MaySay(tables, packId, g, r.gateId, r.result, r.severity, r.evidence) {
      CollectDefines(gates, Some(policy), g, r.gateId);
    }
  }

  lemma {:induction false} CollectWanted(gates: seq<GateDef>, policy: string, id: string)
    ensures Get(Collect(gates, Some(policy)), id).Some? <==> Wanted(gates, policy, id)
  {
    if gates != [] {
      var n := |gates| - 1;
      GetInsert(Collect(gates[..n], Some(policy)), gates[n].gateId, gates[n], id);
      CollectWanted(gates[..n], policy, id);
      assert gates == gates[..n] + [gates[n]];
    }
  }

  lemma KeysWanted(gates: seq<GateDef>, policy: string)
    ensures forall id :: id in Keys(Collect(gates, Some(policy))) <==> Wanted(gates, policy, id)
  {
    var applicable := Collect(gates, Some(policy));
    CollectSorted(gates, Some(policy));
    forall id ensures id in Keys(applicable) <==> Wanted(gates, policy, id) {
      CollectWanted(gates, policy, id);
      if id in Keys(applicable) {
        var i :| 0 <= i < |applicable| && applicable[i].key == id;
        GetAt(applicable, i);
      }
      if Get(applicable, id).Some? {
        GetFinds(applicable, id);
      }
    }
  }

  /** No id comes twice. */
  ghost predicate OncePerId(results: seq<GateRunResult>) {
    forall i, j :: 0 <= i < j < |results| ==> results[i].gateId != results[j].gateId
  }

  lemma {:induction false} DistinctIsOnce(results: seq<GateRunResult>)
    ensures DistinctIds(results) <==> OncePerId(results)
  {
    if results != [] {
      DistinctIsOnce(results[1..]);
      assert forall i :: 0 < i < |results| ==> results[i] == results[1..][i - 1];
    }
  }

  ghost predicate AllResultsStand(tables: Tables, gates: seq<GateDef>, policy: string, packId: string,
                                  results: seq<GateRunResult>)
  {
    forall r :: r in results ==> ResultStands(tables, gates, policy, packId, r)
  }

  /** The results a report can be made of: each id once, one for every gate of the policy, each as its
      definition allows. */
  ghost predicate Reportable(tables: Tables, registry: Registry, policy: string, packId: string,
                             results: seq<GateRunResult>)
  {
    && OncePerId(results) && (forall id :: Wanted(registry.gates, policy, id) ==> HasResult(results, id))
    && AllResultsStand(tables, registry.gates, policy, packId, results)
  }

  lemma ProducesExactly(tables: Tables, registry: Registry, policy: string, packId: string,
                        results: seq<GateRunResult>)
    ensures Report(tables, registry, policy, packId, results).Ok?
      <==> !Blank(packId) && Reportable(tables, registry, policy, packId, results)
  {
    var applicable := Collect(registry.gates, Some(policy));
    ProducerAcceptsExactly(tables, registry, policy, packId, results);
    DistinctIsOnce(results);
    forall r ensures Good(tables, applicable, packId, r) <==> ResultStands(tables, registry.gates, policy, packId, r) {
      GoodStands(tables, registry.gates, policy, packId, r);
    }
    KeysWanted(registry.gates, policy);
    CompleteIsWanted(applicable, registry.gates, policy, results);
  }

  lemma CompleteIsWanted(applicable: seq<Entry<GateDef>>, gates: seq<GateDef>, policy: string,
                         results: seq<GateRunResult>)
    requires forall id :: id in Keys(applicable) <==> Wanted(gates, policy, id)
    ensures Complete(applicable, results) <==> forall id :: Wanted(gates, policy, id) ==> HasResult(results, id)
  {
    if Complete(applicable, results) {
      forall id | Wanted(gates, policy, id) ensures HasResult(results, id) {
        assert id in Keys(applicable);
      }
    }
    if forall id :: Wanted(gates, policy, id) ==> HasResult(results, id) {
      forall i | 0 <= i < |applicable| ensures HasResult(results, applicable[i].key) {
        assert applicable[i].key in Keys(applicable);
      }
    }
  }

  /** A gate of the report repeats one result, with the category of its definition. */
  ghost predicate Repeats(gates: seq<GateDef>, policy: string, r: GateRunResult, gate: EvalGateResult) {
    exists g :: Defines(gates, Some(policy), g, r.gateId)
      && gate == EvalGateResult(r.gateId, g.category, r.result, r.severity, r.message, r.evidence)
  }

  ghost predicate RepeatsSome(gates: seq<GateDef>, policy: string, results: seq<GateRunResult>, gate: EvalGateResult) {
    exists r :: r in results && Repeats(gates, policy, r, gate)
  }

  /** The report of some results: one gate for each, in dictionary order of their ids; and overall FAIL
      for a failed blocker, WARN for other failures, PASS for none. */
  ghost predicate Reports(registry: Registry, policy: string, results: seq<GateRunResult>, report: EvalReport) {
    && report.version == registry.version
    && (forall i, j :: 0 <= i < j < |report.gates| ==> Precedes(report.gates[i].gateId, report.gates[j].gateId))
    && (forall gate :: gate in report.gates ==> RepeatsSome(registry.gates, policy, results, gate))
    && (forall r :: r in results ==> Reported(report.gates, r.gateId))
    && report.overall ==
       if exists r :: r in results && r.result == FAIL && r.severity == BLOCKER then FAIL
       else if exists r :: r in results && r.result == FAIL then WARN else PASS
  }

  lemma {:induction false} GatesInOrder(applicable: seq<Entry<GateDef>>, m: Results)
    requires Covers(applicable, m)
    ensures |GatesOf(applicable, m)| == |applicable|
    ensures forall i :: 0 <= i < |applicable| ==>
      GatesOf(applicable, m)[i] == GateOf(applicable[i].val, m[applicable[i].key])
    decreases |applicable|
  {
    if applicable != [] {
      GatesInOrder(applicable[1..], m);
      assert forall i :: 0 < i < |applicable| ==> applicable[i] == applicable[1..][i - 1];
    }
  }

  /** What the loop leaves behind, without a condition on the registry. */
  ghost predicate Indexed(gates: seq<GateDef>, policy: string, results: seq<GateRunResult>, m: Results) {
    && Covers(Collect(gates, Some(policy)), m) && Indexes(results, map[], m)
    && forall id :: id in m ==> m[id].gateId == id && id in Keys(Collect(gates, Some(policy)))
  }

  lemma ReportIndexed(tables: Tables, registry: Registry, policy: string, packId: string, results: seq<GateRunResult>)
    requires Report(tables, registry, policy, packId, results).Ok?
    ensures var gathered := Gather(tables, Collect(registry.gates, Some(policy)), packId, results, map[]);
      && gathered.Ok? && Indexed(registry.gates, policy, results, gathered.value)
      && Report(tables, registry, policy, packId, results).value.gates
         == GatesOf(Collect(registry.gates, Some(policy)), gathered.value)
  {
    var applicable := Collect(registry.gates, Some(policy));
    Gathered(tables, applicable, packId, results, map[]);
    var m := Gather(tables, applicable, packId, results, map[]).value;
    forall id | id in m ensures id in Keys(applicable) {
      assert Good(tables, applicable, packId, m[id]);
      GetFinds(applicable, id);
    }
  }

  lemma GateRepeats(gates: seq<GateDef>, policy: string, results: seq<GateRunResult>, m: Results, i: nat)
    requires Indexed(gates, policy, results, m) && i < |Collect(gates, Some(policy))|
    ensures var e := Collect(gates, Some(policy))[i];
      m[e.key] in results && Repeats(gates, policy, m[e.key], GateOf(e.val, m[e.key]))
  {
    var applicable := Collect(gates, Some(policy));
    var e := applicable[i];
    CollectSorted(gates, Some(policy));
    GetAt(applicable, i);
    CollectDefines(gates, Some(policy), e.val, e.key);
    assert m[e.key].gateId == e.key;
  }

  lemma GatesRepeat(gates: seq<GateDef>, policy: string, results: seq<GateRunResult>, m: Results)
    requires Indexed(gates, policy, results, m)
    ensures var rs := GatesOf(Collect(gates, Some(policy)), m);
      && (forall i, j :: 0 <= i < j < |rs| ==> Precedes(rs[i].gateId, rs[j].gateId))
      && (forall gate :: gate in rs ==> RepeatsSome(gates, policy, results, gate))
      && (forall r :: r in results ==> Reported(rs, r.gateId))
  {
    var applicable := Collect(gates, Some(policy));
    var rs := GatesOf(applicable, m);
    GatesInOrder(applicable, m);
    CollectSorted(gates, Some(policy));
    forall i, j | 0 <= i < j < |rs| ensures Precedes(rs[i].gateId, rs[j].gateId) {
      LessIsPrecedes(applicable[i].key, applicable[j].key);
    }
    forall gate | gate in rs ensures RepeatsSome(gates, policy, results, gate) {
      var i :| 0 <= i < |rs| && rs[i] == gate;
      GateRepeats(gates, policy, results, m, i);
    }
    forall r | r in results ensures Reported(rs, r.gateId) {
      var i :| 0 <= i < |applicable| && applicable[i].key == r.gateId;
      assert rs[i] in rs;
    }
  }

  lemma FailuresAgree(applicable: seq<Entry<GateDef>>, results: seq<GateRunResult>, m: Results)
    requires Covers(applicable, m) && Indexes(results, map[], m)
    requires forall id :: id in m ==> m[id].gateId == id && id in Keys(applicable)
    ensures (exists g :: g in GatesOf(applicable, m) && g.status == FAIL)
      <==> exists r :: r in results && r.result == FAIL
  {
    if g :| g in GatesOf(applicable, m) && g.status == FAIL {
      GateMembers(applicable, m, g);
      var i :| 0 <= i < |applicable| && g == GateOf(applicable[i].val, m[applicable[i].key]);
      assert m[applicable[i].key] in results;
    }
    if r :| r in results && r.result == FAIL {
      var i :| 0 <= i < |applicable| && applicable[i].key == r.gateId;
      GateMembers(applicable, m, GateOf(applicable[i].val, m[applicable[i].key]));
    }
  }

  lemma OverallReports(gates: seq<GateDef>, policy: string, results: seq<GateRunResult>, m: Results)
    requires Indexed(gates, policy, results, m)
    ensures OverallStatus(GatesOf(Collect(gates, Some(policy)), m)) ==
       if exists r :: r in results && r.result == FAIL && r.severity == BLOCKER then FAIL
       else if exists r :: r in results && r.result == FAIL then WARN else PASS
  {
    BlockersAgree(Collect(gates, Some(policy)), results, m);
    FailuresAgree(Collect(gates, Some(policy)), results, m);
    assert (exists r :: r in results && Blocks(r))
      <==> exists r :: r in results && r.result == FAIL && r.severity == BLOCKER;
  }

  /** A report reports its results. */
  lemma ReportReports(tables: Tables, registry: Registry, policy: string, packId: string, results: seq<GateRunResult>)
    requires Report(tables, registry, policy, packId, results).Ok?
    ensures Reports(registry, policy, results, Report(tables, registry, policy, packId, results).value)
  {
    ReportIndexed(tables, registry, policy, packId, results);
    var m := Gather(tables, Collect(registry.gates, Some(policy)), packId, results, map[]).value;
    GatesRepeat(registry.gates, policy, results, m);
    OverallReports(registry.gates, policy, results, m);
  }

  /** What each error of the producer says of the results. */
  ghost predicate ErrorHolds(tables: Tables, gates: seq<GateDef>, policy: string, packId: string,
                             results: seq<GateRunResult>, error: ReportError)
  {
    match error
    case BlankPack => Blank(packId)
    case MissingResults =>
      exists id :: Wanted(gates, policy, id) && forall r :: r in results ==> r.gateId != id
    case _ =>
      exists i :: 0 <= i < |results| && ResultErrorHolds(tables, gates, policy, packId, results, i, error)
  }

  ghost predicate ResultErrorHolds(tables: Tables, gates: seq<GateDef>, policy: string, packId: string,
                                   results: seq<GateRunResult>, i: nat, error: ReportError)
    requires i < |results|
  {
    var r := results[i];
    match error
    case Inapplicable(id) => r.gateId == id && !Wanted(gates, policy, id)
    case Duplicate(id) => r.gateId == id && exists j :: 0 <= j < i && results[j].gateId == id
    case _ => exists g :: Defines(gates, Some(policy), g, r.gateId) && EntryFaultHolds(tables, g, packId, r, error)
  }

  ghost predicate EntryFaultHolds(tables: Tables, g: GateDef, packId: string, r: GateRunResult, error: ReportError) {
    match error
    case InvalidResult(id) => r.gateId == id && r.result != PASS && r.result != FAIL && r.result != NOT_APPLICABLE
    case NotApplicableRefused(id) => r.gateId == id && r.result == NOT_APPLICABLE && !tables.allowed(id, packId)
    case InvalidSeverity(id) => r.gateId == id && r.severity.OtherSeverity?
    case InvalidRegistrySeverity(id) => r.gateId == id && g.severity.OtherSeverity?
    case SeverityDowngrade(id) =>
      && r.gateId == id && !r.severity.OtherSeverity? && !g.severity.OtherSeverity?
      && !NotBelow(r.severity, g.severity)
    case EvidenceMismatch(id) => r.gateId == id && multiset(r.evidence) != multiset(g.evidence)
    case _ => false
  }

  lemma EntryFaultsHold(tables: Tables, g: GateDef, packId: string, r: GateRunResult)
    requires EntryFault(tables, g, packId, r).Some?
    ensures EntryFaultHolds(tables, g, packId, r, EntryFault(tables, g, packId, r).value)
  {
    SortedTextsEqual(r.evidence, g.evidence);
  }

  lemma ResultErrorsHold(tables: Tables, gates: seq<GateDef>, policy: string, packId: string,
                         results: seq<GateRunResult>, i: nat, byId: Results)
    requires i < |results| && forall id :: id in byId ==> exists j :: 0 <= j < i && results[j].gateId == id
    requires ResultFault(tables, Collect(gates, Some(policy)), packId, results[i], byId).Some?
    ensures ResultErrorHolds(tables, gates, policy, packId, results, i,
                             ResultFault(tables, Collect(gates, Some(policy)), packId, results[i], byId).value)
  {
    var r := results[i];
    var g := Get(Collect(gates, Some(policy)), r.gateId);
    CollectWanted(gates, policy, r.gateId);
    if g.Some? {
      CollectDefines(gates, Some(policy), g.value, r.gateId);
      if EntryFault(tables, g.value, packId, r).Some? {
        EntryFaultsHold(tables, g.value, packId, r);
      }
    }
  }

  lemma {:induction false} GatherErrorsHold(tables: Tables, gates: seq<GateDef>, policy: string, packId: string,
                                            results: seq<GateRunResult>, i: nat, byId: Results)
    requires i <= |results| && forall id :: id in byId ==> exists j :: 0 <= j < i && results[j].gateId == id
    requires Gather(tables, Collect(gates, Some(policy)), packId, results[i..], byId).Err?
    ensures exists k: nat ::
      && k < |results|
      && ResultErrorHolds(tables, gates, policy, packId, results, k,
                          Gather(tables, Collect(gates, Some(policy)), packId, results[i..], byId).error)
    decreases |results| - i
  {
    if ResultFault(tables, Collect(gates, Some(policy)), packId, results[i], byId).Some? {
      ResultErrorsHold(tables, gates, policy, packId, results, i, byId);
    } else {
      assert results[i..][1..] == results[i + 1..];
      GatherErrorsHold(tables, gates, policy, packId, results, i + 1, byId[results[i].gateId := results[i]]);
    }
  }

  lemma UncoveredMissing(tables: Tables, gates: seq<GateDef>, policy: string, packId: string,
                         results: seq<GateRunResult>)
    requires var applicable := Collect(gates, Some(policy));
      var gathered := Gather(tables, applicable, packId, results, map[]);
      gathered.Ok? && !Covers(applicable, gathered.value)
    ensures ErrorHolds(tables, gates, policy, packId, results, MissingResults)
  {
    var applicable := Collect(gates, Some(policy));
    var m := Gather(tables, applicable, packId, results, map[]).value;
    Gathered(tables, applicable, packId, results, map[]);
    var i :| 0 <= i < |applicable| && applicable[i].key !in m;
    KeysWanted(gates, policy);
    assert applicable[i].key in Keys(applicable);
  }

  /** Every error is true of the results. */
  lemma ErrorsHold(tables: Tables, registry: Registry, policy: string, packId: string, results: seq<GateRunResult>)
    requires Report(tables, registry, policy, packId, results).Err?
    ensures ErrorHolds(tables, registry.gates, policy, packId, results,
                       Report(tables, registry, policy, packId, results).error)
  {
    assert results[0..] == results;
    if !Blank(packId) {
      if Gather(tables, Collect(registry.gates, Some(policy)), packId, results, map[]).Err? {
        GatherErrorsHold(tables, registry.gates, policy, packId, results, 0, map[]);
      } else {
        UncoveredMissing(tables, registry.gates, policy, packId, results);
      }
    }
  }

  // ----- What the evaluation finds -----

  /** The first check with this id counts. */
  ghost predicate FirstCheck(checks: seq<Check>, id: string, i: int) {
    0 <= i < |checks| && checks[i].checkId == id && forall j :: 0 <= j < i ==> checks[j].checkId != id
  }

  ghost predicate PassesCheck(checks: seq<Check>, id: string) {
    exists i :: FirstCheck(checks, id, i) && checks[i].result == PASS
  }

  /** What an evaluator finds: a group of checks passes if there is one and all pass; a single check has
      the result of the first check with its id, and fails if there is none; several checks pass if each
      does; a gate of the bundle itself has the bundle's outcome; the PDF gate does not apply; and
      without an evaluator a gate fails. */
  ghost predicate Finds(e: Evaluator, checks: seq<Check>, bundle: BundleGates, status: Status) {
    match e
    case ChecksWithPrefix(prefix) =>
      status == if (exists c :: c in checks && prefix <= c.checkId)
                   && forall c :: c in checks && prefix <= c.checkId ==> c.result == PASS
                then PASS else FAIL
    case OneCheck(id) =>
      && (forall i :: FirstCheck(checks, id, i) ==> status == checks[i].result)
      && ((forall c :: c in checks ==> c.checkId != id) ==> status == FAIL)
    case AllChecks(ids) => status == if forall id :: id in ids ==> PassesCheck(checks, id) then PASS else FAIL
    case AllowlistMatch => status == bundle.allowlist.result
    case OutputsPresent => status == bundle.outputs.result
    case MappingReviewPresent => status == bundle.mappingReview.result
    case PdfCapable => status == NOT_APPLICABLE
    case NoEvaluator => status == FAIL
  }

  /** The message of a gate that repeats a single check, or an outcome of the bundle. */
  ghost predicate Explains(e: Evaluator, checks: seq<Check>, bundle: BundleGates, message: string) {
    match e
    case OneCheck(id) => forall i :: FirstCheck(checks, id, i) ==> message == checks[i].message
    case AllowlistMatch => message == bundle.allowlist.message
    case OutputsPresent => message == bundle.outputs.message
    case MappingReviewPresent => message == bundle.mappingReview.message
    case _ => true
  }

  lemma {:induction false} MatchingMembers(checks: seq<Check>, prefix: string, c: Check)
    ensures c in Matching(checks, prefix) <==> c in checks && prefix <= c.checkId
  {
    if checks != [] {
      MatchingMembers(checks[1..], prefix, c);
      assert checks == [checks[0]] + checks[1..];
    }
  }

  lemma PrefixFinds(checks: seq<Check>, prefix: string)
    ensures ResultForPrefix(checks, prefix).result ==
      if (exists c :: c in checks && prefix <= c.checkId)
         && forall c :: c in checks && prefix <= c.checkId ==> c.result == PASS
      then PASS else FAIL
  {
    var m := Matching(checks, prefix);
    forall c ensures c in m <==> c in checks && prefix <= c.checkId { MatchingMembers(checks, prefix, c); }
    assert m != [] ==> m[0] in m;
  }

  lemma {:induction false} CheckFinds(checks: seq<Check>, id: string)
    ensures forall i :: FirstCheck(checks, id, i) ==>
      ResultForCheck(checks, id) == Outcome(checks[i].result, checks[i].message)
    ensures (forall c :: c in checks ==> c.checkId != id) ==> ResultForCheck(checks, id).result == FAIL
    ensures ResultForCheck(checks, id).result == PASS <==> PassesCheck(checks, id)
  {
    if checks != [] {
      CheckFinds(checks[1..], id);
      assert checks == [checks[0]] + checks[1..];
      FirstCheckBehind(checks, id);
    }
  }

  lemma FirstCheckBehind(checks: seq<Check>, id: string)
    requires checks != []
    ensures checks[0].checkId == id ==> forall i :: FirstCheck(checks, id, i) <==> i == 0
    ensures checks[0].checkId != id ==> forall i :: FirstCheck(checks, id, i) <==> FirstCheck(checks[1..], id, i - 1)
  {
    assert forall i :: 0 < i < |checks| ==> checks[i] == checks[1..][i - 1];
    if checks[0].checkId != id {
      forall i ensures FirstCheck(checks, id, i) <==> FirstCheck(checks[1..], id, i - 1) {
        if FirstCheck(checks[1..], id, i - 1) {
          forall j | 0 <= j < i ensures checks[j].checkId != id {
            if j > 0 { assert checks[1..][j - 1].checkId != id; }
          }
        }
        if FirstCheck(checks, id, i) {
          forall j | 0 <= j < i - 1 ensures checks[1..][j].checkId != id { assert checks[j + 1].checkId != id; }
        }
      }
    }
  }

  lemma {:induction false} CombinedFinds(checks: seq<Check>, ids: seq<string>)
    ensures CombinedResult(checks, ids).result ==
      if forall id :: id in ids ==> PassesCheck(checks, id) then PASS else FAIL
  {
    if ids != [] {
      CheckFinds(checks, ids[0]);
      CombinedFinds(checks, ids[1..]);
      assert ids == [ids[0]] + ids[1..];
    }
  }

  lemma EvaluatesSo(e: Evaluator, gateId: string, checks: seq<Check>, bundle: BundleGates)
    ensures Finds(e, checks, bundle, EvaluateGate(e, gateId, checks, bundle).result)
    ensures Explains(e, checks, bundle, EvaluateGate(e, gateId, checks, bundle).message)
  {
    match e
    case ChecksWithPrefix(prefix) => PrefixFinds(checks, prefix);
    case OneCheck(id) => CheckFinds(checks, id);
    case AllChecks(ids) => CombinedFinds(checks, ids);
    case _ =>
  }

  /** Texts in dictionary order. */
  ghost predicate InOrder(texts: seq<string>) {
    forall i, j :: 0 <= i < j < |texts| ==> texts[i] == texts[j] || Precedes(texts[i], texts[j])
  }

  /** The result of this gate: under its id, with what its evaluator finds, its severity, or BLOCKER if
      there is no evaluator, and its evidence in order. */
  ghost predicate ResultOf(tables: Tables, g: GateDef, checks: seq<Check>, bundle: BundleGates, r: GateRunResult) {
    && r.gateId == g.gateId && Finds(tables.evaluator(g.gateId), checks, bundle, r.result)
    && Explains(tables.evaluator(g.gateId), checks, bundle, r.message)
    && r.severity == (if tables.evaluator(g.gateId).NoEvaluator? then BLOCKER else g.severity)
    && multiset(r.evidence) == multiset(g.evidence) && InOrder(r.evidence)
  }

  lemma SortedInOrder(texts: seq<string>)
    requires SortedBy(Same, texts)
    ensures InOrder(texts)
  {
    forall i, j | 0 <= i < j < |texts| ensures texts[i] == texts[j] || Precedes(texts[i], texts[j]) {
      LessTotal(texts[i], texts[j]);
      LessIsPrecedes(texts[i], texts[j]);
    }
  }

  lemma GateResultIs(tables: Tables, g: GateDef, checks: seq<Check>, bundle: BundleGates)
    ensures ResultOf(tables, g, checks, bundle, GateResult(tables, g, checks, bundle))
  {
    EvaluatesSo(tables.evaluator(g.gateId), g.gateId, checks, bundle);
    SortByCorrect(Same, g.evidence);
    SortedInOrder(SortedTexts(g.evidence));
  }

  ghost predicate OfGate(tables: Tables, gates: seq<GateDef>, policy: string, checks: seq<Check>,
                         bundle: BundleGates, r: GateRunResult)
  {
    exists g :: g in gates && policy in g.policies && ResultOf(tables, g, checks, bundle, r)
  }

  ghost predicate HasOwn(tables: Tables, g: GateDef, checks: seq<Check>, bundle: BundleGates,
                         results: seq<GateRunResult>)
  {
    exists r :: r in results && ResultOf(tables, g, checks, bundle, r)
  }

  /** The gates of a policy. */
  function PolicyGates(gates: seq<GateDef>, policy: string): seq<GateDef> {
    if gates == [] then []
    else (if policy in gates[0].policies then [gates[0]] else []) + PolicyGates(gates[1..], policy)
  }

  /** The results of a registry's gates: for every gate of the policy its own, no others, as many as
      there are such gates, in dictionary order of their ids. */
  ghost predicate Evaluates(tables: Tables, gates: seq<GateDef>, policy: string, checks: seq<Check>,
                            bundle: BundleGates, results: seq<GateRunResult>)
  {
    && (forall i, j :: 0 <= i < j < |results| ==>
          results[i].gateId == results[j].gateId || Precedes(results[i].gateId, results[j].gateId))
    && |results| == |PolicyGates(gates, policy)|
    && (forall r :: r in results ==> OfGate(tables, gates, policy, checks, bundle, r))
    && (forall g :: g in gates && policy in g.policies ==> HasOwn(tables, g, checks, bundle, results))
  }

  lemma {:induction false} AsManyResults(tables: Tables, gates: seq<GateDef>, policy: string, checks: seq<Check>,
                                         bundle: BundleGates)
    ensures |GateResults(tables, gates, policy, checks, bundle)| == |PolicyGates(gates, policy)|
  {
    if gates != [] {
      AsManyResults(tables, gates[1..], policy, checks, bundle);
    }
  }

  lemma SameSize<T>(a: seq<T>, b: seq<T>)
    requires multiset(a) == multiset(b)
    ensures |a| == |b|
  {
    assert |a| == |multiset(a)| && |b| == |multiset(b)|;
  }

  lemma EvaluatedEvaluates(tables: Tables, registry: Registry, policy: string, checks: seq<Check>, bundle: BundleGates)
    ensures Evaluates(tables, registry.gates, policy, checks, bundle,
                      Evaluated(tables, registry, policy, checks, bundle))
  {
    var made := GateResults(tables, registry.gates, policy, checks, bundle);
    var results := Evaluated(tables, registry, policy, checks, bundle);
    SortByCorrect(ResultId, made);
    SameSize(results, made);
    AsManyResults(tables, registry.gates, policy, checks, bundle);
    forall i, j | 0 <= i < j < |results|
      ensures results[i].gateId == results[j].gateId || Precedes(results[i].gateId, results[j].gateId)
    {
      LessTotal(results[i].gateId, results[j].gateId);
      LessIsPrecedes(results[i].gateId, results[j].gateId);
    }
    forall r | r in results ensures OfGate(tables, registry.gates, policy, checks, bundle, r) {
      ResultMembers(tables, registry.gates, policy, checks, bundle, r);
      var g :| g in registry.gates && Applies(g, policy) && r == GateResult(tables, g, checks, bundle);
      GateResultIs(tables, g, checks, bundle);
    }
    forall g | g in registry.gates && policy in g.policies ensures HasOwn(tables, g, checks, bundle, results) {
      ResultMembers(tables, registry.gates, policy, checks, bundle, GateResult(tables, g, checks, bundle));
      GateResultIs(tables, g, checks, bundle);
    }
  }

  ghost predicate UsesOneCheck(gateId: string, id: string) {
    || (gateId == "AUDIT_HASH_CHAIN.VERIFY_V1" && id == "CHK.AUDIT.REQUIRED_KEYS_AND_CHAIN")
    || (gateId == "EVIDENCE_AUTHORITY.CONTRACT_V1" && id == "CHK.EVIDENCE.AUTHORITY_CONTRACT")
    || (gateId == "CITATIONS.STRICT_ENFORCED_V1" && id == "CHK.CITATIONS.STRICT")
    || (gateId == "REDACTION.REQUIRED_APPLIED_V1" && id == "CHK.REDACTION.POLICY_GATE")
  }

  ghost predicate UsesLateCheck(gateId: string, id: string) {
    || (gateId == "VAULT_CRYPTO.ENCRYPTION_AT_REST_V1" && id == "CHK.VAULT_CRYPTO.POLICY_SNAPSHOT")
    || (gateId == "DETERMINISM.ZIP_PACKAGING_V1" && id == "CHK.DETERMINISM.ZIP_RULES")
  }

  ghost predicate UsesAllChecks(gateId: string, ids: seq<string>) {
    || (gateId == "OFFLINE_ENFORCEMENT.MODE_PROOF_V1"
        && ids == ["CHK.NETWORK.SNAPSHOT_PRESENT", "CHK.NETWORK.PROOF_SOURCE"])
    || (gateId == "MODEL_PINNING.MIN_LEVEL_V1"
        && ids == ["CHK.MODEL.PINNING_LEVEL", "CHK.RUN.SNAPSHOT_CONSISTENCY"])
  }

  /** Not one of the gates that are evaluated by checks. */
  ghost predicate UsesNoChecks(gateId: string) {
    && gateId != "BUNDLE_FORMAT.REQUIRED_FILES_V1" && gateId != "AUDIT_HASH_CHAIN.VERIFY_V1"
    && gateId != "EVIDENCE_AUTHORITY.CONTRACT_V1" && gateId != "CITATIONS.STRICT_ENFORCED_V1"
    && gateId != "REDACTION.REQUIRED_APPLIED_V1" && gateId != "VAULT_CRYPTO.ENCRYPTION_AT_REST_V1"
    && gateId != "DETERMINISM.ZIP_PACKAGING_V1" && gateId != "OFFLINE_ENFORCEMENT.MODE_PROOF_V1"
    && gateId != "MODEL_PINNING.MIN_LEVEL_V1"
  }

  /** Not one of the gates that are evaluated without checks. */
  ghost predicate NotOfBundle(gateId: string) {
    && gateId != "OFFLINE_ENFORCEMENT.ALLOWLIST_MATCH_V1" && gateId != "EVIDENCEOS.OUTPUTS_PRESENT_V1"
    && gateId != "EVIDENCEOS.MAPPING_REVIEW_PRESENT_V1" && gateId != "DETERMINISM.PDF_CAPABLE_V1"
  }

  /** What the core evaluates each of its gates by, in the literal ids of gates and checks; no other gate
      has an evaluator. */
  ghost predicate Uses(gateId: string, e: Evaluator) {
    match e
    case ChecksWithPrefix(prefix) => gateId == "BUNDLE_FORMAT.REQUIRED_FILES_V1" && prefix == "CHK.BUNDLE."
    case OneCheck(id) => UsesOneCheck(gateId, id) || UsesLateCheck(gateId, id)
    case AllChecks(ids) => UsesAllChecks(gateId, ids)
    case AllowlistMatch => gateId == "OFFLINE_ENFORCEMENT.ALLOWLIST_MATCH_V1"
    case OutputsPresent => gateId == "EVIDENCEOS.OUTPUTS_PRESENT_V1"
    case MappingReviewPresent => gateId == "EVIDENCEOS.MAPPING_REVIEW_PRESENT_V1"
    case PdfCapable => gateId == "DETERMINISM.PDF_CAPABLE_V1"
    case NoEvaluator => UsesNoChecks(gateId) && NotOfBundle(gateId)
  }

  lemma CoreUsesOneCheck(gateId: string)
    ensures var e := EvaluatorByChecks(gateId);
      e.OneCheck? ==> UsesOneCheck(gateId, e.checkId) || UsesLateCheck(gateId, e.checkId)
  {
  }

  lemma CoreUsesAllChecks(gateId: string)
    ensures EvaluatorByChecks(gateId).AllChecks? ==> UsesAllChecks(gateId, EvaluatorByChecks(gateId).checkIds)
  {
  }

  lemma CoreUsesPrefix(gateId: string)
    ensures var e := EvaluatorByChecks(gateId); e.ChecksWithPrefix? ==> Uses(gateId, e)
  {
  }

  lemma CoreUsesNoChecks(gateId: string)
    ensures var e := EvaluatorByChecks(gateId); e.OneCheck? || e.AllChecks? || e.ChecksWithPrefix? || e.NoEvaluator?
    ensures EvaluatorByChecks(gateId).NoEvaluator? ==> UsesNoChecks(gateId)
  {
  }

  lemma CoreUsesBundle(gateId: string)
    ensures var e := EvaluatorWithoutChecks(gateId);
      if e.NoEvaluator? then NotOfBundle(gateId)
      else (e.AllowlistMatch? || e.OutputsPresent? || e.MappingReviewPresent? || e.PdfCapable?) && Uses(gateId, e)
  {
  }

  lemma CoreUses(gateId: string)
    ensures Uses(gateId, EvaluatorOf(gateId))
  {
    CoreUsesOneCheck(gateId);
    CoreUsesAllChecks(gateId);
    CoreUsesNoChecks(gateId);
    CoreUsesPrefix(gateId);
    CoreUsesBundle(gateId);
    UsesByKind(gateId, EvaluatorOf(gateId));
  }

  lemma UsesByKind(gateId: string, e: Evaluator)
    requires e.OneCheck? ==> UsesOneCheck(gateId, e.checkId) || UsesLateCheck(gateId, e.checkId)
    requires e.AllChecks? ==> UsesAllChecks(gateId, e.checkIds)
    requires e.NoEvaluator? ==> UsesNoChecks(gateId) && NotOfBundle(gateId)
    requires e.OneCheck? || e.AllChecks? || e.NoEvaluator? || Uses(gateId, e)
    ensures Uses(gateId, e)
  {
  }

  /** What the core finds of a gate. */
  ghost predicate CoreFinds(gateId: string, checks: seq<Check>, bundle: BundleGates, status: Status) {
    exists e :: Uses(gateId, e) && Finds(e, checks, bundle, status)
  }
}
