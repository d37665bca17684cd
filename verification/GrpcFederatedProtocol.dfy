/** GrpcFederatedProtocol as an object.  The checks on the call sequence are preconditions; the ghost
    history records the calls made, so that what holds of every legal history holds of the object. */
module GrpcProtocolObject {
  import opened Options
  import opened RetryWindows
  import opened FederatedSession

  class GrpcFederatedProtocol {
    const config: Config
    var objectState: ObjectState
    var ackInfo: Option<AckInfo>
    var secAgg: bool
    ghost var history: seq<Call>

    ghost function Fields(): Session
      reads this
    {
      Session(config, objectState, ackInfo, secAgg)
    }

    ghost predicate Valid()
      reads this
    {
      && OK !in config.permanentCodes && LegalHistory(config, history)
      && Fields() == After(config, history)
    }

    constructor (config: Config)
      requires OK !in config.permanentCodes
      ensures Valid() && history == [] && this.config == config
    {
      this.config := config;
      objectState, ackInfo, secAgg, history := Initialized, None, false, [];
    }

    ghost method Record(c: Call)
      requires OK !in config.permanentCodes && LegalHistory(config, history) && CallValid(c)
      requires Legal(After(config, history), c)
      modifies this`history
      ensures history == old(history) + [c] && LegalHistory(config, history)
      ensures After(config, history) == Exec(After(config, old(history)), c)
    {
      ExtendLegal(config, history, c);
      history := history + [c];
    }

    method UpdateObjectStateIfPermanentError(code: Code, permanent: ObjectState)
      modifies this`objectState
      ensures Fields() == IfPermanent(old(Fields()), code, permanent)
    {
      if code in config.permanentCodes { objectState := permanent; }
    }

    method ReceiveCheckinRequestAck(r: AckReply) returns (status: Code)
      requires r.Ack? ==> ReadingValid(r.rejectedAt) && ReadingValid(r.acceptedAt)
      modifies this`ackInfo
      ensures (Fields(), status) == ReceiveAck(old(Fields()), r)
    {
      match r
      case AckReceiveError(code) => return code;
      case NotAnAck => return UNIMPLEMENTED;
      case AckWithoutWindows => return UNIMPLEMENTED;
      case Ack(rejected, rejectedAt, accepted, acceptedAt) =>
        ackInfo := Some(AckInfo(PickTime(rejected, rejectedAt), PickTime(accepted, acceptedAt)));
        return OK;
    }

    method ReceiveEligibilityEvalCheckinResponse(r: EvalReply) returns (result: EvalResult, urisReceived: bool)
      modifies this`objectState
      ensures (Fields(), result) == ReceiveEval(old(Fields()), r)
      ensures urisReceived == r.EvalPayload?
    {
      urisReceived := false;
      match r
      case EvalReceiveError(code) => result := EvalError(code);
      case NotAnEvalResponse => result := EvalError(UNIMPLEMENTED);
      case EvalPayload(fetch) =>
        objectState := EligibilityEvalEnabled;
        urisReceived := true;
        if fetch != OK { result := EvalError(fetch); } else { result := EvalTask; }
      case EvalNotConfigured =>
        objectState := EligibilityEvalDisabled;
        result := EvalDisabled;
      case EvalRejection =>
        objectState := EligibilityEvalCheckinRejected;
        result := EvalTurnedAway;
      case EvalUnrecognized => result := EvalError(UNIMPLEMENTED);
    }

    method ExchangeEligibilityEvalCheckin(r: EvalReplies) returns (result: EvalResult, urisReceived: bool)
      requires EvalRepliesValid(r)
      modifies this`objectState, this`ackInfo
      ensures (Fields(), result) == EvalCheckin(old(Fields()), r)
      ensures result.EvalTask? ==> urisReceived
    {
      var permanent := EligibilityEvalCheckinFailedPermanentError;
      urisReceived := false;
      objectState := EligibilityEvalCheckinFailed;
      UpdateObjectStateIfPermanentError(r.send, permanent);
      if r.send != OK { return EvalError(r.send), false; }
      var ackStatus := ReceiveCheckinRequestAck(r.ack);
      UpdateObjectStateIfPermanentError(ackStatus, permanent);
      if ackStatus != OK { return EvalError(ackStatus), false; }
      result, urisReceived := ReceiveEligibilityEvalCheckinResponse(r.response);
      UpdateObjectStateIfPermanentError(EvalStatus(result), permanent);
    }

    /** `urisReceived` tells whether the callback for the payload URIs was called. */
    method EligibilityEvalCheckin(r: EvalReplies) returns (result: EvalResult, urisReceived: bool)
      requires Valid() && EvalRepliesValid(r) && objectState.Initialized?
      modifies this
      ensures Valid() && history == old(history) + [EvalCall(r)]
      ensures result == EvalCheckin(old(Fields()), r).1
      ensures result.EvalTask? ==> urisReceived && objectState.EligibilityEvalEnabled?
      ensures result.EvalDisabled? ==> objectState.EligibilityEvalDisabled?
    {
      result, urisReceived := ExchangeEligibilityEvalCheckin(r);
      Record(EvalCall(r));
    }

    /** Not supported by this protocol: nothing happens. */
    method ReportEligibilityEvalError(code: Code)
      requires Valid()
      ensures Valid()
    {
    }

    method ReceiveCheckinResponse(r: CheckinReply) returns (result: CheckinResult, urisReceived: bool)
      modifies this`objectState, this`secAgg
      ensures (Fields(), result) == ReceiveCheckin(old(Fields()), r)
      ensures urisReceived == r.Acceptance?
    {
      urisReceived := false;
      match r
      case CheckinReceiveError(code) => result := CheckinError(code);
      case NotACheckinResponse => result := CheckinError(UNIMPLEMENTED);
      case Acceptance(viaSecAgg, fetch) =>
        secAgg := viaSecAgg;
        urisReceived := true;
        if fetch != OK { return CheckinError(fetch), urisReceived; }
        objectState := CheckinAccepted;
        result := TaskAssignment(viaSecAgg);
      case CheckinRejection =>
        objectState := CheckinRejected;
        result := TurnedAway;
      case CheckinUnrecognized => result := CheckinError(UNIMPLEMENTED);
    }

    method ExchangeCheckIn(r: CheckinReplies) returns (result: CheckinResult, urisReceived: bool)
      requires CheckinRepliesValid(r)
      modifies this`objectState, this`secAgg
      ensures (Fields(), result) == Checkin(old(Fields()), r)
      ensures result.TaskAssignment? ==> urisReceived
    {
      objectState := CheckinFailed;
      UpdateObjectStateIfPermanentError(r.send, CheckinFailedPermanentError);
      if r.send != OK { return CheckinError(r.send), false; }
      result, urisReceived := ReceiveCheckinResponse(r.response);
      UpdateObjectStateIfPermanentError(CheckinStatus(result), CheckinFailedPermanentError);
    }

    method CheckIn(hasInfo: bool, r: CheckinReplies) returns (result: CheckinResult, urisReceived: bool)
      requires Valid() && CheckinRepliesValid(r)
      requires objectState.EligibilityEvalDisabled? || objectState.EligibilityEvalEnabled?
      requires hasInfo <==> objectState.EligibilityEvalEnabled?
      modifies this
      ensures Valid() && history == old(history) + [CheckinCall(hasInfo, r)]
      ensures result == Checkin(old(Fields()), r).1
      ensures result.TaskAssignment? ==> urisReceived && objectState.CheckinAccepted? && secAgg == result.secAgg
    {
      result, urisReceived := ExchangeCheckIn(r);
      Record(CheckinCall(hasInfo, r));
    }

    method UploadResults(q: ReportRequest, r: ReportReplies) returns (status: Code)
      ensures status == UploadStatus(secAgg, q, r)
      ensures status == OK <==>
                && (if secAgg then q.completed && r.variantSupported else q.entries == 1 && q.hasCheckpoint)
                && r.upload == OK && r.receive == OK && r.isResponse
    {
      if secAgg {
        if !q.completed { return INTERNAL; }
        if !r.variantSupported { return INTERNAL; }
      } else {
        if q.entries != 1 || !q.hasCheckpoint { return INTERNAL; }
      }
      if r.upload != OK { return r.upload; }
      if r.receive != OK { return r.receive; }
      if !r.isResponse { return UNIMPLEMENTED; }
      return OK;
    }

    /** ReportCompleted() and ReportNotCompleted(); the latter sends one empty checkpoint. */
    method ReportOutcome(q: ReportRequest, r: ReportReplies) returns (status: Code)
      requires Valid() && objectState.CheckinAccepted?
      requires !q.completed ==> q.entries == 1 && q.hasCheckpoint
      modifies this
      ensures Valid() && history == old(history) + [ReportCall(q, r)]
      ensures status == UploadStatus(secAgg, q, r) && secAgg == old(secAgg)
      ensures status == OK <==>
                && (if secAgg then q.completed && r.variantSupported else q.entries == 1 && q.hasCheckpoint)
                && r.upload == OK && r.receive == OK && r.isResponse
      ensures objectState == if status in config.permanentCodes then ReportFailedPermanentError else ReportCalled
    {
      objectState := ReportCalled;
      status := UploadResults(q, r);
      UpdateObjectStateIfPermanentError(status, ReportFailedPermanentError);
      Record(ReportCall(q, r));
    }

    method GetLatestRetryWindow(at: Reading) returns (w: RetryWindow)
      requires Valid() && ReadingValid(at)
      ensures SessionValid(Fields()) && w == LatestRetryWindow(Fields(), at)
    {
      RetryWindowRefinement(config, history);
      match objectState
      case CheckinAccepted => w := FromAck(ackInfo.value.ifAccepted, at);
      case ReportCalled => w := FromAck(ackInfo.value.ifAccepted, at);
      case EligibilityEvalCheckinRejected => w := FromAck(ackInfo.value.ifRejected, at);
      case EligibilityEvalDisabled => w := FromAck(ackInfo.value.ifRejected, at);
      case EligibilityEvalEnabled => w := FromAck(ackInfo.value.ifRejected, at);
      case CheckinRejected => w := FromAck(ackInfo.value.ifRejected, at);
      case Initialized => w := FromAckOrTransient(at);
      case EligibilityEvalCheckinFailed => w := FromAckOrTransient(at);
      case CheckinFailed => w := FromAckOrTransient(at);
      case EligibilityEvalCheckinFailedPermanentError => w := FromPermanent(at);
      case CheckinFailedPermanentError => w := FromPermanent(at);
      case ReportFailedPermanentError => w := FromPermanent(at);
      case _ => assert false;
    }

    function FromAck(t: RetryTimeAndToken, at: Reading): RetryWindow {
      GenerateRetryWindowFromRetryTime(t.time, at.now, t.token)
    }

    function FromAckOrTransient(at: Reading): RetryWindow
      requires ReadingValid(at)
      reads this
    {
      if ackInfo.Some? then FromAck(ackInfo.value.ifRejected, at)
      else GenerateRetryWindowFromTargetDelay(config.transientDelay, config.transientJitter, at.random)
    }

    function FromPermanent(at: Reading): RetryWindow
      requires ReadingValid(at)
    {
      GenerateRetryWindowFromTargetDelay(config.permanentDelay, config.permanentJitter, at.random)
    }
  }
}
