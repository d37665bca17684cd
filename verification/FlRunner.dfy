/** RunFederatedComputation(): the driver of a federated protocol session.  Every reply of the server,
    every outcome of a plan, every file operation and every clock reading is part of its environment.
    That its calls meet the preconditions of the protocol object is what makes every run legal. */
module FlRunner {
  import opened Options
  import opened RetryWindows
  import opened FederatedSession
  import opened GrpcProtocolObject

  datatype PlanOutcome = Success | Interrupted | InvalidArgument | TensorflowError | ExampleIteratorError

  datatype TaskWeight = TaskWeight(taskName: string, weight: real)

  datatype TaskEligibilityInfo = TaskEligibilityInfo(version: int, taskWeights: seq<TaskWeight>)

  datatype TaskInfo = TaskInfo(taskName: string, multiple: bool)

  datatype EligibilityEvalResult = EligibilityEvalResult(
    taskEligibilityInfo: Option<TaskEligibilityInfo>, multipleTaskNames: seq<string>)

  /** What the conversion of the plan's outputs gives: the number of results, and whether there is a
      checkpoint among them. */
  datatype Results = Results(entries: nat, hasCheckpoint: bool)

  datatype RetryInfo = RetryInfo(token: string, minimumDelay: ProtoDuration)

  datatype Contribution = CONTRIBUTED | FAILED

  datatype FLRunnerResult = FLRunnerResult(contribution: Contribution, retryInfo: RetryInfo)

  datatype Environment = Environment(
    conditionsUnmet: bool,
    eval: EvalReplies, evalPlanParses: bool, evalCheckpointWritten: bool, evalOutcome: PlanOutcome,
    evalOutput: Option<TaskEligibilityInfo>, populationSpec: Option<seq<TaskInfo>>,
    checkin: CheckinReplies, planParses: bool, tooFewClients: bool, exampleQuery: bool,
    checkpointWritten: bool, outputFileCreated: bool,
    outcome: PlanOutcome, results: Option<Results>, uploadLogged: bool, report: ReportReplies,
    atStart: Reading, afterEval: Reading, afterEvalError: Reading, afterCheckin: Reading,
    afterPlan: Reading, atEnd: Reading)

  ghost predicate EnvironmentValid(e: Environment) {
    && EvalRepliesValid(e.eval) && CheckinRepliesValid(e.checkin)
    && ReadingValid(e.atStart) && ReadingValid(e.afterEval) && ReadingValid(e.afterEvalError)
    && ReadingValid(e.afterCheckin) && ReadingValid(e.afterPlan) && ReadingValid(e.atEnd)
  }

  // ---------------------------------------------------------------- splitting the eligible tasks

  function MultipleNames(infos: seq<TaskInfo>): set<string> {
    set i | 0 <= i < |infos| && infos[i].multiple :: infos[i].taskName
  }

  function SingleWeights(ws: seq<TaskWeight>, multiple: set<string>): seq<TaskWeight> {
    if ws == [] then []
    else SingleWeights(ws[..|ws| - 1], multiple)
         + if ws[|ws| - 1].taskName in multiple then [] else [ws[|ws| - 1]]
  }

  function EligibleMultiple(ws: seq<TaskWeight>, multiple: set<string>): seq<string> {
    if ws == [] then []
    else EligibleMultiple(ws[..|ws| - 1], multiple)
         + if ws[|ws| - 1].taskName in multiple then [ws[|ws| - 1].taskName] else []
  }

  /** The two lists split the eligible tasks: each weight is kept, or its name is listed, never both. */
  lemma {:induction false} SplitIsPartition(ws: seq<TaskWeight>, multiple: set<string>)
    ensures |SingleWeights(ws, multiple)| + |EligibleMultiple(ws, multiple)| == |ws|
    ensures forall w :: w in SingleWeights(ws, multiple) <==> w in ws && w.taskName !in multiple
    ensures forall n :: n in EligibleMultiple(ws, multiple) <==> n in multiple && exists w :: w in ws && w.taskName == n
  {
    if ws != [] {
      var p, last := ws[..|ws| - 1], ws[|ws| - 1];
      assert ws == p + [last];
      SplitIsPartition(p, multiple);
      assert forall w :: w in ws <==> w in p || w == last;
    }
  }

  /** Both lists keep the order of the weights: each weight is where as many as precede it put it. */
  lemma {:induction false} WeightsKeepOrder(ws: seq<TaskWeight>, multiple: set<string>, i: nat)
    requires i < |ws| && ws[i].taskName !in multiple
    ensures var single, j := SingleWeights(ws, multiple), |SingleWeights(ws[..i], multiple)|;
            j < |single| && single[j] == ws[i]
  {
    var p := ws[..|ws| - 1];
    if i < |p| {
      assert p[..i] == ws[..i];
      WeightsKeepOrder(p, multiple, i);
    } else {
      assert ws[..i] == p;
    }
  }

  lemma {:induction false} NamesKeepOrder(ws: seq<TaskWeight>, multiple: set<string>, i: nat)
    requires i < |ws| && ws[i].taskName in multiple
    ensures var names, j := EligibleMultiple(ws, multiple), |EligibleMultiple(ws[..i], multiple)|;
            j < |names| && names[j] == ws[i].taskName
  {
    var p := ws[..|ws| - 1];
    if i < |p| {
      assert p[..i] == ws[..i];
      NamesKeepOrder(p, multiple, i);
    } else {
      assert ws[..i] == p;
    }
  }

  /** The population spec marks the task as one that takes several assignments. */
  ghost predicate MarkedMultiple(spec: seq<TaskInfo>, name: string) {
    exists i :: 0 <= i < |spec| && spec[i].taskName == name && spec[i].multiple
  }

  method CreateEligibilityEvalResult(info: Option<TaskEligibilityInfo>, spec: Option<seq<TaskInfo>>)
    returns (result: EligibilityEvalResult)
    ensures result.taskEligibilityInfo.Some? <==> info.Some?
    ensures info.Some? && spec.Some? ==>
              var multiple := MultipleNames(spec.value);
              && result.taskEligibilityInfo.value
                 == TaskEligibilityInfo(info.value.version, SingleWeights(info.value.taskWeights, multiple))
              && result.multipleTaskNames == EligibleMultiple(info.value.taskWeights, multiple)
    ensures info.Some? && spec.Some? ==>
              && (forall w :: w in result.taskEligibilityInfo.value.taskWeights <==>
                                w in info.value.taskWeights && !MarkedMultiple(spec.value, w.taskName))
              && (forall n :: n in result.multipleTaskNames <==>
                                && MarkedMultiple(spec.value, n)
                                && exists w :: w in info.value.taskWeights && w.taskName == n)
    ensures info.None? || spec.None? ==> result == EligibilityEvalResult(info, [])
  {
    if info.None? || spec.None? { return EligibilityEvalResult(info, []); }
    var multiple: set<string> := {};
    for i := 0 to |spec.value|
      invariant multiple == MultipleNames(spec.value[..i])
    {
      if spec.value[i].multiple { multiple := multiple + {spec.value[i].taskName}; }
    }
    assert spec.value[..|spec.value|] == spec.value;
    var names: seq<string>, weights: seq<TaskWeight> := [], [];
    var all := info.value.taskWeights;
    for i := 0 to |all|
      invariant names == EligibleMultiple(all[..i], multiple) && weights == SingleWeights(all[..i], multiple)
    {
      assert all[..i + 1][..i] == all[..i];
      if all[i].taskName in multiple {
        names := names + [all[i].taskName];
      } else {
        weights := weights + [all[i]];
      }
    }
    assert all[..|all|] == all;
    assert forall n :: n in multiple <==> MarkedMultiple(spec.value, n);
    SplitIsPartition(all, multiple);
    result := EligibilityEvalResult(Some(TaskEligibilityInfo(info.value.version, weights)), names);
  }

  // ---------------------------------------------------------------- the calls a run makes

  /** The answers of the two check-ins depend on the replies alone. */
  function EvalAnswer(config: Config, e: Environment): EvalResult
    requires EvalRepliesValid(e.eval)
  {
    EvalCheckin(NewSession(config), e.eval).1
  }

  function CheckinAnswer(config: Config, e: Environment): CheckinResult {
    Checkin(NewSession(config), e.checkin).1
  }

  predicate EvalPlanSucceeds(e: Environment) {
    e.evalPlanParses && e.evalCheckpointWritten && e.evalOutcome.Success? && e.evalOutput.Some?
  }

  predicate GetsToCheckin(config: Config, e: Environment)
    requires EvalRepliesValid(e.eval)
  {
    && !e.conditionsUnmet
    && (EvalAnswer(config, e).EvalDisabled? || (EvalAnswer(config, e).EvalTask? && EvalPlanSucceeds(e)))
  }

  predicate GetsToPlan(config: Config, e: Environment)
    requires EvalRepliesValid(e.eval)
  {
    var answer := CheckinAnswer(config, e);
    && GetsToCheckin(config, e) && answer.TaskAssignment? && e.planParses && !(answer.secAgg && e.tooFewClients)
    && (e.exampleQuery || e.checkpointWritten) && e.outputFileCreated
  }

  function RequestFor(e: Environment): ReportRequest {
    if e.outcome.Success? && e.results.Some?
    then ReportRequest(true, e.results.value.entries, e.results.value.hasCheckpoint)
    else ReportRequest(false, 1, true)
  }

  /** The protocol calls of a run. */
  function CallsOf(config: Config, e: Environment): seq<Call>
    requires EvalRepliesValid(e.eval)
  {
    (if e.conditionsUnmet then [] else [EvalCall(e.eval)])
    + (if GetsToCheckin(config, e) then [CheckinCall(EvalAnswer(config, e).EvalTask?, e.checkin)] else [])
    + (if GetsToPlan(config, e) && e.uploadLogged then [ReportCall(RequestFor(e), e.report)] else [])
  }

  /** The run counts as a contribution: the plan succeeded, and a report was made and went through. */
  predicate Contributes(config: Config, e: Environment)
    requires EvalRepliesValid(e.eval)
  {
    && GetsToPlan(config, e) && e.outcome.Success? && e.uploadLogged
    && UploadStatus(CheckinAnswer(config, e).secAgg, RequestFor(e), e.report) == OK
  }

  // ---------------------------------------------------------------- the driver

  function InfoOf(w: RetryWindow): RetryInfo { RetryInfo(w.token, w.delayMin) }

  /** The retry information is what the session, as it is, answers at that reading. */
  ghost predicate AnswersAt(info: RetryInfo, s: Session, at: Reading) {
    SessionValid(s) && ReadingValid(at) && info == InfoOf(LatestRetryWindow(s, at))
  }

  /** The reading at which a run asks for the retry window for the last time. */
  function FinalReading(config: Config, e: Environment): Reading
    requires EvalRepliesValid(e.eval)
  {
    if e.conditionsUnmet then e.atStart
    else if !GetsToCheckin(config, e) then if EvalAnswer(config, e).EvalTask? then e.afterEvalError else e.afterEval
    else if !GetsToPlan(config, e) then e.afterCheckin
    else e.atEnd
  }

  method UpdateRetryWindow(protocol: GrpcFederatedProtocol, at: Reading) returns (info: RetryInfo)
    requires protocol.Valid() && ReadingValid(at)
    ensures AnswersAt(info, protocol.Fields(), at)
  {
    var w := protocol.GetLatestRetryWindow(at);
    info := InfoOf(w);
  }

  /** The parsed eligibility info, or None if the plan could not be run to a parsable output. */
  method RunEligibilityEvalPlan(e: Environment) returns (info: Option<TaskEligibilityInfo>)
    ensures info == if EvalPlanSucceeds(e) then e.evalOutput else None
  {
    if !e.evalPlanParses { return None; }
    if !e.evalCheckpointWritten { return None; }
    if !e.evalOutcome.Success? { return None; }
    info := e.evalOutput;
  }

  method IssueEligibilityEvalCheckinAndRunPlan(protocol: GrpcFederatedProtocol, e: Environment)
    returns (result: Option<EligibilityEvalResult>, retryInfo: RetryInfo)
    requires protocol.Valid() && protocol.history == [] && EnvironmentValid(e) && !e.conditionsUnmet
    modifies protocol
    ensures protocol.Valid() && protocol.history == [EvalCall(e.eval)]
    ensures AnswersAt(retryInfo, protocol.Fields(),
                      if result.Some? then e.afterEval else FinalReading(protocol.config, e))
    ensures result.Some? <==> GetsToCheckin(protocol.config, e)
    ensures result.Some? ==>
              && (protocol.objectState.EligibilityEvalEnabled? || protocol.objectState.EligibilityEvalDisabled?)
              && (result.value.taskEligibilityInfo.Some? <==> protocol.objectState.EligibilityEvalEnabled?)
              && (result.value.taskEligibilityInfo.Some? <==> EvalAnswer(protocol.config, e).EvalTask?)
  {
    assert protocol.Fields() == NewSession(protocol.config);
    var answer, urisReceived := protocol.EligibilityEvalCheckin(e.eval);
    retryInfo := UpdateRetryWindow(protocol, e.afterEval);
    match answer {
      case EvalError(_) => return None, retryInfo;
      case EvalTurnedAway => return None, retryInfo;
      case EvalDisabled => return Some(EligibilityEvalResult(None, [])), retryInfo;
      case EvalTask =>
        assert urisReceived;
        var info := RunEligibilityEvalPlan(e);
        if info.None? {
          protocol.ReportEligibilityEvalError(INTERNAL);
          retryInfo := UpdateRetryWindow(protocol, e.afterEvalError);
          return None, retryInfo;
        }
        var split := CreateEligibilityEvalResult(info, e.populationSpec);
        result := Some(split);
    }
  }

  method IssueCheckin(protocol: GrpcFederatedProtocol, e: Environment, info: Option<TaskEligibilityInfo>)
    returns (ok: bool, retryInfo: RetryInfo)
    requires protocol.Valid() && EnvironmentValid(e)
    requires protocol.objectState.EligibilityEvalEnabled? || protocol.objectState.EligibilityEvalDisabled?
    requires info.Some? <==> protocol.objectState.EligibilityEvalEnabled?
    modifies protocol
    ensures protocol.Valid() && protocol.history == old(protocol.history) + [CheckinCall(info.Some?, e.checkin)]
    ensures AnswersAt(retryInfo, protocol.Fields(), e.afterCheckin)
    ensures var answer := CheckinAnswer(protocol.config, e);
            && (ok <==> answer.TaskAssignment? && e.planParses && !(answer.secAgg && e.tooFewClients)
                        && (e.exampleQuery || e.checkpointWritten))
            && (ok ==> protocol.objectState.CheckinAccepted? && protocol.secAgg == answer.secAgg)
  {
    var answer, urisReceived := protocol.CheckIn(info.Some?, e.checkin);
    retryInfo := UpdateRetryWindow(protocol, e.afterCheckin);
    ok := false;
    match answer {
      case CheckinError(_) =>
      case TurnedAway =>
      case TaskAssignment(viaSecAgg) =>
        assert urisReceived;
        if !e.planParses { return; }
        if viaSecAgg && e.tooFewClients { return; }
        if !e.exampleQuery && !e.checkpointWritten { return; }
        ok := true;
    }
  }

  method ReportPlanResult(protocol: GrpcFederatedProtocol, e: Environment, results: Option<Results>)
    returns (status: Code)
    requires protocol.Valid() && protocol.objectState.CheckinAccepted?
    modifies protocol
    ensures protocol.Valid()
    ensures var request := if results.Some? then ReportRequest(true, results.value.entries, results.value.hasCheckpoint)
                           else ReportRequest(false, 1, true);
            if e.uploadLogged
            then && protocol.history == old(protocol.history) + [ReportCall(request, e.report)]
                 && status == UploadStatus(old(protocol.secAgg), request, e.report)
            else protocol.history == old(protocol.history) && status != OK
  {
    if !e.uploadLogged { return INTERNAL; }
    if results.Some? {
      status := protocol.ReportOutcome(
        ReportRequest(true, results.value.entries, results.value.hasCheckpoint), e.report);
    } else {
      status := protocol.ReportOutcome(ReportRequest(false, 1, true), e.report);
    }
  }

  lemma CallsStepByStep(config: Config, e: Environment)
    requires EnvironmentValid(e)
    ensures e.conditionsUnmet ==> CallsOf(config, e) == []
    ensures !e.conditionsUnmet && !GetsToCheckin(config, e) ==> CallsOf(config, e) == [EvalCall(e.eval)]
    ensures GetsToCheckin(config, e) ==>
              CallsOf(config, e) ==
              [EvalCall(e.eval)] + [CheckinCall(EvalAnswer(config, e).EvalTask?, e.checkin)]
              + if GetsToPlan(config, e) && e.uploadLogged then [ReportCall(RequestFor(e), e.report)] else []
  {
  }

  /** On every path: the calls made are those of CallsOf and form a legal history, the run is a
      contribution exactly when Contributes says so, and the retry information is the answer of the session
      as the run leaves it, at the last reading of that path. */
  method RunFederatedComputation(protocol: GrpcFederatedProtocol, e: Environment) returns (result: FLRunnerResult)
    requires protocol.Valid() && protocol.history == [] && EnvironmentValid(e)
    modifies protocol
    ensures protocol.Valid() && protocol.history == CallsOf(protocol.config, e)
    ensures result.contribution.CONTRIBUTED? <==> Contributes(protocol.config, e)
    ensures AnswersAt(result.retryInfo, protocol.Fields(), FinalReading(protocol.config, e))
  {
    CallsStepByStep(protocol.config, e);
    var retryInfo := UpdateRetryWindow(protocol, e.atStart);
    if e.conditionsUnmet { return FLRunnerResult(FAILED, retryInfo); }
    var evalResult;
    evalResult, retryInfo := IssueEligibilityEvalCheckinAndRunPlan(protocol, e);
    if evalResult.None? { return FLRunnerResult(FAILED, retryInfo); }
    var ok;
    ok, retryInfo := IssueCheckin(protocol, e, evalResult.value.taskEligibilityInfo);
    if !ok { return FLRunnerResult(FAILED, retryInfo); }
    if !e.outputFileCreated { return FLRunnerResult(FAILED, retryInfo); }
    retryInfo := UpdateRetryWindow(protocol, e.afterPlan);
    var results := if e.outcome.Success? then e.results else None;
    var status := ReportPlanResult(protocol, e, results);
    var contribution := if e.outcome.Success? && status == OK then CONTRIBUTED else FAILED;
    retryInfo := UpdateRetryWindow(protocol, e.atEnd);
    result := FLRunnerResult(contribution, retryInfo);
  }

  // ---------------------------------------------------------------- what every run guarantees

  /** The session after the eligibility check-in of a run. */
  function SessionAtCheckin(config: Config, e: Environment): Session
    requires EvalRepliesValid(e.eval)
  {
    EvalCheckin(NewSession(config), e.eval).0
  }

  lemma CheckinIsLegal(config: Config, e: Environment)
    requires EnvironmentValid(e) && OK !in config.permanentCodes && GetsToCheckin(config, e)
    ensures var c := CheckinCall(EvalAnswer(config, e).EvalTask?, e.checkin);
            && Legal(SessionAtCheckin(config, e), c)
            && Checkin(SessionAtCheckin(config, e), e.checkin).1 == CheckinAnswer(config, e)
            && (EvalAnswer(config, e).EvalTask? <==> e.eval.response.EvalPayload?)
  {
  }

  lemma ReportIsLegal(config: Config, e: Environment)
    requires EnvironmentValid(e) && OK !in config.permanentCodes && GetsToPlan(config, e)
    ensures var s := Checkin(SessionAtCheckin(config, e), e.checkin).0;
            s.state.CheckinAccepted? && s.secAgg == CheckinAnswer(config, e).secAgg
    ensures AcceptedBy(CheckinCall(EvalAnswer(config, e).EvalTask?, e.checkin))
  {
  }

  lemma LegalEval(config: Config, e: Environment)
    requires EnvironmentValid(e)
    ensures LegalHistory(config, [EvalCall(e.eval)])
    ensures After(config, [EvalCall(e.eval)]) == SessionAtCheckin(config, e)
  {
    OneCall(config, EvalCall(e.eval));
  }

  lemma LegalCheckin(config: Config, e: Environment)
    requires EnvironmentValid(e) && OK !in config.permanentCodes && GetsToCheckin(config, e)
    ensures var h := [EvalCall(e.eval)] + [CheckinCall(EvalAnswer(config, e).EvalTask?, e.checkin)];
            && LegalHistory(config, h) && After(config, h) == Checkin(SessionAtCheckin(config, e), e.checkin).0
  {
    LegalEval(config, e);
    CheckinIsLegal(config, e);
    ExtendLegal(config, [EvalCall(e.eval)], CheckinCall(EvalAnswer(config, e).EvalTask?, e.checkin));
  }

  lemma LegalReport(config: Config, e: Environment)
    requires EnvironmentValid(e) && OK !in config.permanentCodes && GetsToPlan(config, e)
    ensures var h := [EvalCall(e.eval)] + [CheckinCall(EvalAnswer(config, e).EvalTask?, e.checkin)]
                     + [ReportCall(RequestFor(e), e.report)];
            && LegalHistory(config, h)
            && LastStatus(config, h) == UploadStatus(CheckinAnswer(config, e).secAgg, RequestFor(e), e.report)
  {
    LegalCheckin(config, e);
    ReportIsLegal(config, e);
    ExtendLegal(config, [EvalCall(e.eval)] + [CheckinCall(EvalAnswer(config, e).EvalTask?, e.checkin)],
                ReportCall(RequestFor(e), e.report));
  }

  lemma RunIsLegal(config: Config, e: Environment)
    requires EnvironmentValid(e) && OK !in config.permanentCodes
    ensures LegalHistory(config, CallsOf(config, e))
    ensures GetsToPlan(config, e) && e.uploadLogged ==>
              LastStatus(config, CallsOf(config, e)) ==
              UploadStatus(CheckinAnswer(config, e).secAgg, RequestFor(e), e.report)
  {
    CallsStepByStep(config, e);
    if !e.conditionsUnmet {
      if !GetsToCheckin(config, e) {
        LegalEval(config, e);
      } else if GetsToPlan(config, e) && e.uploadLogged {
        LegalReport(config, e);
      } else {
        LegalCheckin(config, e);
        var two := [EvalCall(e.eval)] + [CheckinCall(EvalAnswer(config, e).EvalTask?, e.checkin)];
        assert two + [] == two;
      }
    }
  }

  lemma RunHasShape(config: Config, e: Environment)
    requires EnvironmentValid(e) && OK !in config.permanentCodes
    ensures var h := CallsOf(config, e);
            && |h| <= 3 && (forall i | 0 <= i < |h| :: h[i].ReportCall? <==> i == 2)
            && (|h| >= 2 ==>
                  h[1] == CheckinCall(EvalAnswer(config, e).EvalTask?, e.checkin) && GetsToCheckin(config, e))
            && (|h| == 3 <==> GetsToPlan(config, e) && e.uploadLogged)
  {
    CallsStepByStep(config, e);
  }

  /** The calls of a run, for every environment, form a legal history: the report, if any, is the
      third call, made once and after acceptance; the check-in carries eligibility information exactly
      when the server sent an eligibility task; and a run is a contribution exactly when its plan
      succeeded and it made a report that got an OK. */
  lemma EveryRunIsLegal(config: Config, e: Environment)
    requires EnvironmentValid(e) && OK !in config.permanentCodes
    ensures LegalHistory(config, CallsOf(config, e))
    ensures var h := CallsOf(config, e);
            && |h| <= 3 && (forall i | 0 <= i < |h| :: h[i].ReportCall? <==> i == 2)
            && (|h| == 3 ==> AcceptedBy(h[1]))
            && (|h| >= 2 ==> h[1].CheckinCall? && (h[1].hasInfo <==> e.eval.response.EvalPayload?))
            && (Contributes(config, e) <==> e.outcome.Success? && |h| == 3 && LastStatus(config, h) == OK)
  {
    RunIsLegal(config, e);
    RunHasShape(config, e);
    var h := CallsOf(config, e);
    if |h| >= 2 { CheckinIsLegal(config, e); }
    if |h| == 3 { ReportIsLegal(config, e); }
  }

  /** What a session holds of its acknowledgement after a run: the times picked when it arrived, if it did. */
  lemma AckAfterRun(config: Config, e: Environment)
    requires EnvironmentValid(e) && OK !in config.permanentCodes && LegalHistory(config, CallsOf(config, e))
    ensures var ack, reply := After(config, CallsOf(config, e)).ack, e.eval.ack;
            && (ack.Some? <==> !e.conditionsUnmet && AckedBy(EvalCall(e.eval)))
            && (ack.Some? ==> ack.value == AckInfo(PickTime(reply.rejected, reply.rejectedAt),
                                                   PickTime(reply.accepted, reply.acceptedAt)))
  {
    var h := CallsOf(config, e);
    CallsStepByStep(config, e);
    HistoryTracked(config, h);
    AckComesFirst(config, h);
    if AckArrived(h) {
      LegalEval(config, e);
      assert h[..1] == [EvalCall(e.eval)];
      AckOfEval(config, e.eval);
      AckPinned(config, h, 1);
    }
  }

  lemma AckOfEval(config: Config, r: EvalReplies)
    requires EvalRepliesValid(r) && AckedBy(EvalCall(r))
    ensures EvalCheckin(NewSession(config), r).0.ack ==
            Some(AckInfo(PickTime(r.ack.rejected, r.ack.rejectedAt), PickTime(r.ack.accepted, r.ack.acceptedAt)))
  {
  }

  ghost predicate InfoPointsAt(info: RetryInfo, t: real, token: string, now: real) {
    info.token == token && FromProto(info.minimumDelay) <= Max(0.0, t - now) < FromProto(info.minimumDelay) + 1.0
  }

  /** The retry information that a run reports has the class that the rule over its calls gives; of an accepted or
      a rejected run it points at the one time picked for that class when the acknowledgement arrived, within the
      server's range, and carries the server's token; otherwise it has no token and lies within the configured
      jitter. */
  lemma RetryInfoOfEveryRun(config: Config, e: Environment, info: RetryInfo)
    requires EnvironmentValid(e) && OK !in config.permanentCodes
    requires AnswersAt(info, After(config, CallsOf(config, e)), FinalReading(config, e))
    ensures LegalHistory(config, CallsOf(config, e))
    ensures var ack, at := e.eval.ack, FinalReading(config, e);
            match SpecClass(config, CallsOf(config, e))
            case Accepted =>
              && ack.Ack? && InServerRange(PickTime(ack.accepted, ack.acceptedAt).time, ack.accepted, ack.acceptedAt)
              && InfoPointsAt(info, PickTime(ack.accepted, ack.acceptedAt).time, ack.accepted.token, at.now)
            case Rejected =>
              && ack.Ack? && InServerRange(PickTime(ack.rejected, ack.rejectedAt).time, ack.rejected, ack.rejectedAt)
              && InfoPointsAt(info, PickTime(ack.rejected, ack.rejectedAt).time, ack.rejected.token, at.now)
            case Transient =>
              info.token == "" && WithinJitter(info.minimumDelay, config.transientDelay, config.transientJitter)
            case Permanent =>
              info.token == "" && WithinJitter(info.minimumDelay, config.permanentDelay, config.permanentJitter)
  {
    var h := CallsOf(config, e);
    RunIsLegal(config, e);
    RetryWindowRefinement(config, h);
    HistoryTracked(config, h);
    AckAfterRun(config, e);
    WindowPoints(After(config, h), FinalReading(config, e));
  }

  /** A run gets to the check-in exactly if its conditions are met and the server acknowledges it and either has no
      eligibility task or sends one whose plan succeeds. */
  lemma CheckinReachedExactly(config: Config, e: Environment)
    requires EnvironmentValid(e) && OK !in config.permanentCodes
    ensures GetsToCheckin(config, e) <==>
              && !e.conditionsUnmet && e.eval.send == OK && e.eval.ack.Ack?
              && (|| e.eval.response.EvalNotConfigured?
                  || (&& e.eval.response == EvalPayload(OK) && e.evalPlanParses && e.evalCheckpointWritten
                      && e.evalOutcome.Success? && e.evalOutput.Some?))
  {
    EvalByReplies(config, e.eval);
  }

  /** It gets to its plan exactly if, further, it is accepted and everything that the plan needs is there. */
  lemma PlanReachedExactly(config: Config, e: Environment)
    requires EnvironmentValid(e) && OK !in config.permanentCodes
    ensures GetsToPlan(config, e) <==>
              && GetsToCheckin(config, e) && AcceptedBy(CheckinCall(false, e.checkin)) && e.planParses
              && !(e.checkin.response.secAgg && e.tooFewClients)
              && (e.exampleQuery || e.checkpointWritten) && e.outputFileCreated
    ensures GetsToPlan(config, e) ==> CheckinAnswer(config, e) == TaskAssignment(e.checkin.response.secAgg)
  {
    CheckinByReplies(NewSession(config), e.checkin);
  }

  /** What a run sends: its own replies' calls in order, and as the report the results of the plan exactly if the plan
      succeeded and they could be converted, and otherwise a failure with one empty checkpoint. */
  lemma RunSends(config: Config, e: Environment)
    requires EnvironmentValid(e) && OK !in config.permanentCodes
    ensures var h := CallsOf(config, e);
            && (h == [] <==> e.conditionsUnmet)
            && (|h| >= 1 ==> h[0] == EvalCall(e.eval))
            && (|h| >= 2 <==> GetsToCheckin(config, e))
            && (|h| >= 2 ==> h[1] == CheckinCall(e.eval.response.EvalPayload?, e.checkin))
            && (|h| == 3 <==> GetsToPlan(config, e) && e.uploadLogged)
            && (|h| == 3 ==>
                  && h[2].ReportCall? && h[2].report == e.report
                  && (h[2].request.completed <==> e.outcome.Success? && e.results.Some?)
                  && (if h[2].request.completed
                      then && h[2].request.entries == e.results.value.entries
                           && h[2].request.hasCheckpoint == e.results.value.hasCheckpoint
                      else h[2].request.entries == 1 && h[2].request.hasCheckpoint))
  {
    CallsStepByStep(config, e);
    RunHasShape(config, e);
    if GetsToCheckin(config, e) { EvalByReplies(config, e.eval); }
  }

  /** A run is a contribution exactly if its plan is reached and succeeds, the upload is logged, and the report, with
      the results or without, is of the form that the server's choice of aggregation takes, is sent, and gets a
      response. */
  lemma ContributesExactly(config: Config, e: Environment)
    requires EnvironmentValid(e) && OK !in config.permanentCodes
    ensures Contributes(config, e) <==>
              && GetsToPlan(config, e) && e.outcome.Success? && e.uploadLogged
              && e.report.upload == OK && e.report.receive == OK && e.report.isResponse
              && (if e.checkin.response.secAgg then e.results.Some? && e.report.variantSupported
                  else e.results.Some? ==> e.results.value.entries == 1 && e.results.value.hasCheckpoint)
  {
    if GetsToPlan(config, e) {
      PlanReachedExactly(config, e);
      ReportByReplies(Session(config, CheckinAccepted, None, e.checkin.response.secAgg), RequestFor(e), e.report);
    }
  }

  /** The reading of the last retry window, by how far the run gets. */
  lemma FinalReadingExactly(config: Config, e: Environment)
    requires EnvironmentValid(e) && OK !in config.permanentCodes
    ensures var at := FinalReading(config, e);
            && (e.conditionsUnmet ==> at == e.atStart)
            && (!e.conditionsUnmet && !GetsToCheckin(config, e) ==>
                  at == if e.eval.send == OK && e.eval.ack.Ack? && e.eval.response == EvalPayload(OK)
                        then e.afterEvalError else e.afterEval)
            && (GetsToCheckin(config, e) && !GetsToPlan(config, e) ==> at == e.afterCheckin)
            && (GetsToPlan(config, e) ==> at == e.atEnd)
  {
    EvalByReplies(config, e.eval);
  }

  /** A contribution does not mean that results were reported: when the conversion of the outputs of a
      successful plan fails, the run reports a failure and still counts, whenever that report is not
      made through secure aggregation and gets an OK. */
  lemma ContributionWithoutResults(config: Config, e: Environment)
    requires EnvironmentValid(e) && GetsToPlan(config, e) && e.outcome.Success? && e.results.None? && e.uploadLogged
    ensures !RequestFor(e).completed
    ensures Contributes(config, e) <==>
              && !CheckinAnswer(config, e).secAgg
              && e.report.upload == OK && e.report.receive == OK && e.report.isResponse
  {
  }
}
