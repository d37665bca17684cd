/** The session of the gRPC federated protocol: the object-state machine, the handling of the
    check-in acknowledgement, and the choice of the retry window.  Everything the network returns is
    an argument.  Where the source checks the call sequence, a call here has to be Legal. */
module FederatedSession {
  import opened Options
  import opened RetryWindows

  type Code = int
  const OK: Code := 0
  const UNIMPLEMENTED: Code := 12
  const INTERNAL: Code := 13

  datatype ObjectState =
    | Initialized
    | EligibilityEvalCheckinFailed
    | EligibilityEvalCheckinFailedPermanentError
    | EligibilityEvalCheckinRejected
    | EligibilityEvalDisabled
    | EligibilityEvalEnabled
    | CheckinFailed
    | CheckinFailedPermanentError
    | CheckinRejected
    | CheckinAccepted
    | MultipleTaskAssignmentsFailed
    | MultipleTaskAssignmentsFailedPermanentError
    | MultipleTaskAssignmentsNoAvailableTask
    | MultipleTaskAssignmentsAccepted
    | ReportCalled
    | ReportFailedPermanentError
    | ReportMultipleTaskPartialError

  datatype RetryTimeAndToken = RetryTimeAndToken(time: real, token: string)

  datatype AckInfo = AckInfo(ifRejected: RetryTimeAndToken, ifAccepted: RetryTimeAndToken)

  /** The flags the session reads. */
  datatype Config = Config(
    permanentCodes: set<Code>,
    transientDelay: real, transientJitter: real, permanentDelay: real, permanentJitter: real)

  datatype Session = Session(config: Config, state: ObjectState, ack: Option<AckInfo>, secAgg: bool)

  function NewSession(config: Config): Session { Session(config, Initialized, None, false) }

  // ---------------------------------------------------------------- what the network returns

  /** A clock reading together with a random draw. */
  datatype Reading = Reading(now: real, random: real)

  ghost predicate ReadingValid(r: Reading) { 0.0 <= r.random < 1.0 }

  datatype ServerWindow = ServerWindow(min: ProtoDuration, max: ProtoDuration, token: string)

  datatype AckReply =
    | AckReceiveError(code: Code)
    | NotAnAck
    | AckWithoutWindows
    | Ack(rejected: ServerWindow, rejectedAt: Reading, accepted: ServerWindow, acceptedAt: Reading)

  datatype EvalReply =
    | EvalReceiveError(code: Code)
    | NotAnEvalResponse
    | EvalPayload(fetch: Code)       // OK if the payloads were inline or could be fetched
    | EvalNotConfigured
    | EvalRejection
    | EvalUnrecognized

  datatype EvalReplies = EvalReplies(send: Code, ack: AckReply, response: EvalReply)

  datatype CheckinReply =
    | CheckinReceiveError(code: Code)
    | NotACheckinResponse
    | Acceptance(secAgg: bool, fetch: Code)
    | CheckinRejection
    | CheckinUnrecognized

  datatype CheckinReplies = CheckinReplies(send: Code, response: CheckinReply)

  /** What is reported: the outcome, the number of results and whether one is a checkpoint. */
  datatype ReportRequest = ReportRequest(completed: bool, entries: nat, hasCheckpoint: bool)

  /** `upload` is the status of the SecAgg run or of sending the report. */
  datatype ReportReplies = ReportReplies(variantSupported: bool, upload: Code, receive: Code, isResponse: bool)

  /** A receive error is an error. */
  ghost predicate EvalRepliesValid(r: EvalReplies) {
    && (r.ack.AckReceiveError? ==> r.ack.code != OK)
    && (r.ack.Ack? ==> ReadingValid(r.ack.rejectedAt) && ReadingValid(r.ack.acceptedAt))
    && (r.response.EvalReceiveError? ==> r.response.code != OK)
  }

  ghost predicate CheckinRepliesValid(r: CheckinReplies) {
    r.response.CheckinReceiveError? ==> r.response.code != OK
  }

  datatype EvalResult = EvalError(code: Code) | EvalTask | EvalDisabled | EvalTurnedAway

  datatype CheckinResult = CheckinError(code: Code) | TaskAssignment(secAgg: bool) | TurnedAway

  function EvalStatus(r: EvalResult): Code { if r.EvalError? then r.code else OK }

  function CheckinStatus(r: CheckinResult): Code { if r.CheckinError? then r.code else OK }

  // ---------------------------------------------------------------- the calls

  function IfPermanent(s: Session, code: Code, permanent: ObjectState): Session {
    if code in s.config.permanentCodes then s.(state := permanent) else s
  }

  function PickTime(w: ServerWindow, at: Reading): RetryTimeAndToken
    requires ReadingValid(at)
  {
    RetryTimeAndToken(PickRetryTimeFromRange(w.min, w.max, at.random, at.now), w.token)
  }

  function ReceiveAck(s: Session, r: AckReply): (Session, Code)
    requires r.Ack? ==> ReadingValid(r.rejectedAt) && ReadingValid(r.acceptedAt)
  {
    match r
    case AckReceiveError(code) => (s, code)
    case NotAnAck => (s, UNIMPLEMENTED)
    case AckWithoutWindows => (s, UNIMPLEMENTED)
    case Ack(rejected, rejectedAt, accepted, acceptedAt) =>
      (s.(ack := Some(AckInfo(PickTime(rejected, rejectedAt), PickTime(accepted, acceptedAt)))), OK)
  }

  /** The state is set before the payloads are fetched. */
  function ReceiveEval(s: Session, r: EvalReply): (Session, EvalResult) {
    match r
    case EvalReceiveError(code) => (s, EvalError(code))
    case NotAnEvalResponse => (s, EvalError(UNIMPLEMENTED))
    case EvalPayload(fetch) =>
      (s.(state := EligibilityEvalEnabled), if fetch == OK then EvalTask else EvalError(fetch))
    case EvalNotConfigured => (s.(state := EligibilityEvalDisabled), EvalDisabled)
    case EvalRejection => (s.(state := EligibilityEvalCheckinRejected), EvalTurnedAway)
    case EvalUnrecognized => (s, EvalError(UNIMPLEMENTED))
  }

  function EvalCheckin(s: Session, r: EvalReplies): (Session, EvalResult)
    requires EvalRepliesValid(r)
  {
    var permanent := EligibilityEvalCheckinFailedPermanentError;
    var s1 := IfPermanent(s.(state := EligibilityEvalCheckinFailed), r.send, permanent);
    if r.send != OK then (s1, EvalError(r.send)) else
    var (s2, ackStatus) := ReceiveAck(s1, r.ack);
    var s3 := IfPermanent(s2, ackStatus, permanent);
    if ackStatus != OK then (s3, EvalError(ackStatus)) else
    var (s4, result) := ReceiveEval(s3, r.response);
    (IfPermanent(s4, EvalStatus(result), permanent), result)
  }

  /** The state is set after the payloads are fetched. */
  function ReceiveCheckin(s: Session, r: CheckinReply): (Session, CheckinResult) {
    match r
    case CheckinReceiveError(code) => (s, CheckinError(code))
    case NotACheckinResponse => (s, CheckinError(UNIMPLEMENTED))
    case Acceptance(secAgg, fetch) =>
      var s1 := s.(secAgg := secAgg);
      if fetch != OK then (s1, CheckinError(fetch))
      else (s1.(state := CheckinAccepted), TaskAssignment(secAgg))
    case CheckinRejection => (s.(state := CheckinRejected), TurnedAway)
    case CheckinUnrecognized => (s, CheckinError(UNIMPLEMENTED))
  }

  function Checkin(s: Session, r: CheckinReplies): (Session, CheckinResult) {
    var s1 := IfPermanent(s.(state := CheckinFailed), r.send, CheckinFailedPermanentError);
    if r.send != OK then (s1, CheckinError(r.send)) else
    var (s2, result) := ReceiveCheckin(s1, r.response);
    (IfPermanent(s2, CheckinStatus(result), CheckinFailedPermanentError), result)
  }

  function UploadStatus(secAgg: bool, q: ReportRequest, r: ReportReplies): Code {
    if secAgg && (!q.completed || !r.variantSupported) then INTERNAL
    else if !secAgg && (q.entries != 1 || !q.hasCheckpoint) then INTERNAL
    else if r.upload != OK then r.upload
    else if r.receive != OK then r.receive
    else if !r.isResponse then UNIMPLEMENTED
    else OK
  }

  function Report(s: Session, q: ReportRequest, r: ReportReplies): (Session, Code) {
    var status := UploadStatus(s.secAgg, q, r);
    (IfPermanent(s.(state := ReportCalled), status, ReportFailedPermanentError), status)
  }

  // ---------------------------------------------------------------- the retry window

  datatype WindowClass = Permanent | Accepted | Rejected | Transient

  /** The window GetLatestRetryWindow() chooses; None where one of its checks fails. */
  function WindowClassOf(s: Session): Option<WindowClass> {
    match s.state
    case CheckinAccepted => if s.ack.Some? then Some(Accepted) else None
    case ReportCalled => if s.ack.Some? then Some(Accepted) else None
    case EligibilityEvalCheckinRejected => if s.ack.Some? then Some(Rejected) else None
    case EligibilityEvalDisabled => if s.ack.Some? then Some(Rejected) else None
    case EligibilityEvalEnabled => if s.ack.Some? then Some(Rejected) else None
    case CheckinRejected => if s.ack.Some? then Some(Rejected) else None
    case Initialized => Some(if s.ack.Some? then Rejected else Transient)
    case EligibilityEvalCheckinFailed => Some(if s.ack.Some? then Rejected else Transient)
    case CheckinFailed => Some(if s.ack.Some? then Rejected else Transient)
    case EligibilityEvalCheckinFailedPermanentError => Some(Permanent)
    case CheckinFailedPermanentError => Some(Permanent)
    case ReportFailedPermanentError => Some(Permanent)
    case _ => None
  }

  /** The choice, state by state: a permanent failure has its own window; an accepted session and a rejected one need an
      acknowledgement; before and after a failure the acknowledgement is used if there is one; the rest is not met. */
  lemma WindowByState(s: Session)
    ensures var c := WindowClassOf(s);
            && (c == Some(Permanent) <==>
                  s.state in {EligibilityEvalCheckinFailedPermanentError, CheckinFailedPermanentError,
                              ReportFailedPermanentError})
            && (c == Some(Accepted) <==> s.ack.Some? && s.state in {CheckinAccepted, ReportCalled})
            && (c == Some(Transient) <==>
                  s.ack.None? && s.state in {Initialized, EligibilityEvalCheckinFailed, CheckinFailed})
            && (c == Some(Rejected) <==>
                  s.ack.Some? &&
                  s.state in {Initialized, EligibilityEvalCheckinFailed, CheckinFailed, EligibilityEvalCheckinRejected,
                              EligibilityEvalDisabled, EligibilityEvalEnabled, CheckinRejected})
  {
  }

  /** What the session keeps between calls so that no check of GetLatestRetryWindow() fails. */
  ghost predicate SessionValid(s: Session) {
    && WindowClassOf(s).Some?
    && (WindowClassOf(s) == Some(Accepted) || WindowClassOf(s) == Some(Rejected) ==> s.ack.Some?)
  }

  function LatestRetryWindow(s: Session, at: Reading): RetryWindow
    requires SessionValid(s) && ReadingValid(at)
  {
    match WindowClassOf(s).value
    case Accepted =>
      GenerateRetryWindowFromRetryTime(s.ack.value.ifAccepted.time, at.now, s.ack.value.ifAccepted.token)
    case Rejected =>
      GenerateRetryWindowFromRetryTime(s.ack.value.ifRejected.time, at.now, s.ack.value.ifRejected.token)
    case Transient => GenerateRetryWindowFromTargetDelay(s.config.transientDelay, s.config.transientJitter, at.random)
    case Permanent => GenerateRetryWindowFromTargetDelay(s.config.permanentDelay, s.config.permanentJitter, at.random)
  }

  // ---------------------------------------------------------------- call histories

  datatype Call =
    | EvalCall(eval: EvalReplies)
    | CheckinCall(hasInfo: bool, checkin: CheckinReplies)
    | ReportCall(request: ReportRequest, report: ReportReplies)

  ghost predicate CallValid(c: Call) {
    match c
    case EvalCall(r) => EvalRepliesValid(r)
    case CheckinCall(_, r) => CheckinRepliesValid(r)
    case ReportCall(_, _) => true
  }

  /** The checks on the call sequence. */
  predicate Legal(s: Session, c: Call) {
    match c
    case EvalCall(_) => s.state.Initialized?
    case CheckinCall(hasInfo, _) =>
      if hasInfo then s.state.EligibilityEvalEnabled? else s.state.EligibilityEvalDisabled?
    case ReportCall(_, _) => s.state.CheckinAccepted?
  }

  function Exec(s: Session, c: Call): Session
    requires CallValid(c)
  {
    match c
    case EvalCall(r) => EvalCheckin(s, r).0
    case CheckinCall(_, r) => Checkin(s, r).0
    case ReportCall(q, r) => Report(s, q, r).0
  }

  function StatusOf(s: Session, c: Call): Code
    requires CallValid(c)
  {
    match c
    case EvalCall(r) => EvalStatus(EvalCheckin(s, r).1)
    case CheckinCall(_, r) => CheckinStatus(Checkin(s, r).1)
    case ReportCall(q, r) => Report(s, q, r).1
  }

  /** The session after a history of calls on a new one. */
  ghost function After(config: Config, h: seq<Call>): Session
    requires forall c | c in h :: CallValid(c)
  {
    if h == [] then NewSession(config) else Exec(After(config, h[..|h| - 1]), h[|h| - 1])
  }

  /** Each call passes the checks on the call sequence. */
  ghost predicate LegalHistory(config: Config, h: seq<Call>) {
    && (forall c | c in h :: CallValid(c))
    && (forall i | 0 <= i < |h| :: Legal(After(config, h[..i]), h[i]))
  }

  /** The status of the last call of a history. */
  ghost function LastStatus(config: Config, h: seq<Call>): Code
    requires LegalHistory(config, h)
  {
    if h == [] then OK else StatusOf(After(config, h[..|h| - 1]), h[|h| - 1])
  }

  /** A check-in answered by a task whose payloads could be fetched. */
  predicate AcceptedBy(c: Call) {
    c.CheckinCall? && c.checkin.send == OK && c.checkin.response.Acceptance? && c.checkin.response.fetch == OK
  }

  /** An eligibility check-in whose acknowledgement arrived, with its windows. */
  predicate AckedBy(c: Call) {
    c.EvalCall? && c.eval.send == OK && c.eval.ack.Ack?
  }

  ghost predicate WasAccepted(h: seq<Call>) { exists c :: c in h && AcceptedBy(c) }

  ghost predicate AckArrived(h: seq<Call>) { exists c :: c in h && AckedBy(c) }

  /** The simple rule for the window, over the history of calls alone. */
  ghost function SpecClass(config: Config, h: seq<Call>): WindowClass
    requires LegalHistory(config, h)
  {
    if LastStatus(config, h) != OK && LastStatus(config, h) in config.permanentCodes then Permanent
    else if WasAccepted(h) then Accepted
    else if AckArrived(h) then Rejected
    else Transient
  }

  // ---------------------------------------------------------------- the calls in terms of the replies

  /** What an eligibility check-in returns and where it leaves a new session, reply by reply: the first step that
      fails gives the status; a task or the lack of one lets the check-in follow. */
  lemma EvalByReplies(config: Config, r: EvalReplies)
    requires EvalRepliesValid(r) && OK !in config.permanentCodes
    ensures var (s, result) := EvalCheckin(NewSession(config), r);
            var answered := r.send == OK && r.ack.Ack?;
            && (result.EvalTask? <==> answered && r.response == EvalPayload(OK))
            && (result.EvalDisabled? <==> answered && r.response.EvalNotConfigured?)
            && (result.EvalTurnedAway? <==> answered && r.response.EvalRejection?)
            && (result.EvalError? ==>
                  result.code == if r.send != OK then r.send
                                 else if r.ack.AckReceiveError? then r.ack.code
                                 else if !r.ack.Ack? then UNIMPLEMENTED
                                 else if r.response.EvalReceiveError? then r.response.code
                                 else if r.response.EvalPayload? then r.response.fetch
                                 else UNIMPLEMENTED)
            && s.state == (if result.EvalError? && result.code in config.permanentCodes
                           then EligibilityEvalCheckinFailedPermanentError
                           else if !answered then EligibilityEvalCheckinFailed
                           else if r.response.EvalPayload? then EligibilityEvalEnabled
                           else if r.response.EvalNotConfigured? then EligibilityEvalDisabled
                           else if r.response.EvalRejection? then EligibilityEvalCheckinRejected
                           else EligibilityEvalCheckinFailed)
            && s.config == config && !s.secAgg
  {
  }

  /** The same for a check-in: it is accepted exactly if a task arrives and its payloads can be fetched, and the server
      alone decides on secure aggregation. */
  lemma CheckinByReplies(s: Session, r: CheckinReplies)
    requires CheckinRepliesValid(r) && OK !in s.config.permanentCodes
    ensures var (s', result) := Checkin(s, r);
            var offered := r.send == OK && r.response.Acceptance?;
            && (result.TaskAssignment? <==> offered && r.response.fetch == OK)
            && (result.TaskAssignment? ==> result.secAgg == r.response.secAgg)
            && (result.TurnedAway? <==> r.send == OK && r.response.CheckinRejection?)
            && (result.CheckinError? ==>
                  result.code == if r.send != OK then r.send
                                 else if r.response.CheckinReceiveError? then r.response.code
                                 else if r.response.Acceptance? then r.response.fetch
                                 else UNIMPLEMENTED)
            && s'.state == (if result.CheckinError? && result.code in s.config.permanentCodes
                            then CheckinFailedPermanentError
                            else if result.TaskAssignment? then CheckinAccepted
                            else if result.TurnedAway? then CheckinRejected
                            else CheckinFailed)
            && s'.secAgg == (if offered then r.response.secAgg else s.secAgg)
            && s'.ack == s.ack && s'.config == s.config
  {
  }

  /** The same for a report: it gets an OK exactly if it is of the form that its aggregation takes, it is sent, and a
      response arrives. */
  lemma ReportByReplies(s: Session, q: ReportRequest, r: ReportReplies)
    requires OK !in s.config.permanentCodes
    ensures var (s', status) := Report(s, q, r);
            var wellFormed := if s.secAgg then q.completed && r.variantSupported else q.entries == 1 && q.hasCheckpoint;
            && (status == OK <==> wellFormed && r.upload == OK && r.receive == OK && r.isResponse)
            && (!wellFormed ==> status == INTERNAL)
            && (wellFormed && r.upload != OK ==> status == r.upload)
            && (wellFormed && r.upload == OK && r.receive != OK ==> status == r.receive)
            && (wellFormed && r.upload == OK && r.receive == OK && !r.isResponse ==> status == UNIMPLEMENTED)
            && s' == s.(state := if status in s.config.permanentCodes then ReportFailedPermanentError else ReportCalled)
  {
  }

  // ---------------------------------------------------------------- every legal history

  predicate PastAcceptance(s: Session) {
    s.state.CheckinAccepted? || s.state.ReportCalled? || s.state.ReportFailedPermanentError?
  }

  /** The effect of one legal call on the facts the window depends on. */
  ghost predicate Effect(s: Session, c: Call)
    requires CallValid(c)
  {
    var s' := Exec(s, c);
    && SessionValid(s') && s'.config == s.config && !s'.state.Initialized?
    && (s'.ack.Some? <==> s.ack.Some? || AckedBy(c))
    && (PastAcceptance(s') <==> PastAcceptance(s) || AcceptedBy(c))
    && (WindowClassOf(s') == Some(Permanent) <==> StatusOf(s, c) in s.config.permanentCodes)
  }

  lemma EvalEffect(s: Session, c: Call)
    requires c.EvalCall? && CallValid(c) && Legal(s, c) && s.ack.None? && OK !in s.config.permanentCodes
    ensures Effect(s, c)
  {
  }

  lemma CheckinEffect(s: Session, c: Call)
    requires c.CheckinCall? && CallValid(c) && Legal(s, c) && s.ack.Some? && OK !in s.config.permanentCodes
    ensures Effect(s, c)
  {
  }

  lemma ReportEffect(s: Session, c: Call)
    requires c.ReportCall? && CallValid(c) && Legal(s, c) && s.ack.Some? && OK !in s.config.permanentCodes
    ensures Effect(s, c)
  {
  }

  /** What the object state records about the history that led to it. */
  ghost predicate Tracks(config: Config, h: seq<Call>)
    requires LegalHistory(config, h)
  {
    var s := After(config, h);
    && SessionValid(s) && s.config == config
    && (s.state.Initialized? ==> s.ack.None?)
    && (s.ack.Some? <==> AckArrived(h))
    && (PastAcceptance(s) <==> WasAccepted(h))
    && (WindowClassOf(s) == Some(Permanent) <==> h != [] && LastStatus(config, h) in config.permanentCodes)
  }

  lemma PrefixLegal(config: Config, h: seq<Call>)
    requires LegalHistory(config, h) && h != []
    ensures LegalHistory(config, h[..|h| - 1])
    ensures Legal(After(config, h[..|h| - 1]), h[|h| - 1]) && CallValid(h[|h| - 1])
  {
    var p := h[..|h| - 1];
    forall i | 0 <= i < |p| ensures Legal(After(config, p[..i]), p[i]) {
      assert p[..i] == h[..i];
    }
  }

  lemma ExtendLegal(config: Config, h: seq<Call>, c: Call)
    requires LegalHistory(config, h) && CallValid(c) && Legal(After(config, h), c)
    ensures LegalHistory(config, h + [c]) && LastStatus(config, h + [c]) == StatusOf(After(config, h), c)
    ensures After(config, h + [c]) == Exec(After(config, h), c)
  {
    var h' := h + [c];
    assert h'[..|h|] == h;
    forall i | 0 <= i < |h'| ensures Legal(After(config, h'[..i]), h'[i]) {
      assert i < |h| ==> h'[..i] == h[..i];
    }
  }

  /** Both history facts, one call at a time. */
  lemma HistoryFacts(h: seq<Call>)
    requires h != []
    ensures WasAccepted(h) <==> WasAccepted(h[..|h| - 1]) || AcceptedBy(h[|h| - 1])
    ensures AckArrived(h) <==> AckArrived(h[..|h| - 1]) || AckedBy(h[|h| - 1])
  {
    var p, c := h[..|h| - 1], h[|h| - 1];
    assert h == p + [c];
    assert forall x :: x in h <==> x in p || x == c;
  }

  lemma {:induction false} HistoryTracked(config: Config, h: seq<Call>)
    requires LegalHistory(config, h) && OK !in config.permanentCodes
    ensures Tracks(config, h)
    decreases |h|
  {
    if h != [] {
      PrefixLegal(config, h);
      var p, c := h[..|h| - 1], h[|h| - 1];
      HistoryTracked(config, p);
      HistoryFacts(h);
      var s := After(config, p);
      match c {
        case EvalCall(_) => EvalEffect(s, c);
        case CheckinCall(_, _) => CheckinEffect(s, c);
        case ReportCall(_, _) => ReportEffect(s, c);
      }
      assert Effect(s, c);
    }
  }

  lemma ClassByFacts(s: Session)
    requires SessionValid(s) && WindowClassOf(s) != Some(Permanent)
    ensures WindowClassOf(s) ==
            Some(if PastAcceptance(s) then Accepted else if s.ack.Some? then Rejected else Transient)
  {
  }

  /** Retry-window refinement: after every legal history the window chosen is the one the simple rule
      gives; in particular no check in GetLatestRetryWindow() fails, nor is its multi-task case met. */
  lemma RetryWindowRefinement(config: Config, h: seq<Call>)
    requires LegalHistory(config, h) && OK !in config.permanentCodes
    ensures WindowClassOf(After(config, h)) == Some(SpecClass(config, h))
    ensures SessionValid(After(config, h))
  {
    HistoryTracked(config, h);
    var s := After(config, h);
    if WindowClassOf(s) != Some(Permanent) { ClassByFacts(s); }
  }

  /** The rule needs OK not to be configured as a permanent error: otherwise every session
      that is turned away, in one successful call, gives the permanent window. */
  lemma OkMustNotBePermanent(config: Config, r: EvalReplies)
    requires OK in config.permanentCodes && EvalRepliesValid(r)
    requires r.send == OK && r.ack.Ack? && r.response.EvalRejection?
    ensures var h := [EvalCall(r)];
            LegalHistory(config, h) && WindowClassOf(After(config, h)) != Some(SpecClass(config, h))
  {
    OneCall(config, EvalCall(r));
    TurnedAwayAsPermanent(config, r);
  }

  ghost predicate RefinedAfter(config: Config, h: seq<Call>) {
    LegalHistory(config, h) ==> WindowClassOf(After(config, h)) == Some(SpecClass(config, h))
  }

  lemma RefinedIfOkIsNotPermanent(config: Config, h: seq<Call>)
    requires OK !in config.permanentCodes
    ensures RefinedAfter(config, h)
  {
    if LegalHistory(config, h) { RetryWindowRefinement(config, h); }
  }

  lemma SomeHistoryIsNotRefined(config: Config) returns (h: seq<Call>)
    requires OK in config.permanentCodes
    ensures !RefinedAfter(config, h)
  {
    var w, at := ServerWindow(ProtoDuration(0, 0), ProtoDuration(0, 0), ""), Reading(0.0, 0.0);
    var r := EvalReplies(OK, Ack(w, at, w, at), EvalRejection);
    OkMustNotBePermanent(config, r);
    h := [EvalCall(r)];
  }

  /** The refinement holds for all histories exactly under the configurations that leave OK out. */
  lemma RefinementHoldsExactly(config: Config)
    ensures (forall h :: RefinedAfter(config, h)) <==> OK !in config.permanentCodes
  {
    if OK !in config.permanentCodes {
      forall h { RefinedIfOkIsNotPermanent(config, h); }
    } else {
      var h := SomeHistoryIsNotRefined(config);
    }
  }

  lemma OneCall(config: Config, c: Call)
    requires CallValid(c) && c.EvalCall?
    ensures LegalHistory(config, [c]) && LastStatus(config, [c]) == StatusOf(NewSession(config), c)
    ensures After(config, [c]) == Exec(NewSession(config), c)
  {
    assert [c][..0] == [];
  }

  lemma TurnedAwayAsPermanent(config: Config, r: EvalReplies)
    requires OK in config.permanentCodes && EvalRepliesValid(r)
    requires r.send == OK && r.ack.Ack? && r.response.EvalRejection?
    ensures EvalCheckin(NewSession(config), r).0.state.EligibilityEvalCheckinFailedPermanentError?
    ensures EvalCheckin(NewSession(config), r).1.EvalTurnedAway?
  {
  }

  /** A legal history is at most an eligibility check-in, a check-in and a report, in this order; a
      report comes only after acceptance. */
  lemma {:induction false} LegalShape(config: Config, h: seq<Call>)
    requires LegalHistory(config, h) && OK !in config.permanentCodes
    ensures |h| <= 3
    ensures forall i | 0 <= i < |h| ::
              match h[i] case EvalCall(_) => i == 0 case CheckinCall(_, _) => i == 1 case ReportCall(_, _) => i == 2
    ensures |h| == 3 ==> AcceptedBy(h[1])
    ensures var s := After(config, h);
            && (s.state.Initialized? <==> h == [])
            && (s.state.EligibilityEvalEnabled? || s.state.EligibilityEvalDisabled? ==> |h| == 1)
            && (s.state.CheckinAccepted? ==> |h| == 2 && AcceptedBy(h[1]))
    decreases |h|
  {
    if h != [] {
      PrefixLegal(config, h);
      LegalShape(config, h[..|h| - 1]);
    }
  }

  /** Only the first call can bring the acknowledgement. */
  lemma AckComesFirst(config: Config, h: seq<Call>)
    requires LegalHistory(config, h) && OK !in config.permanentCodes
    ensures AckArrived(h) <==> h != [] && AckedBy(h[0])
  {
    LegalShape(config, h);
    if AckArrived(h) {
      var c :| c in h && AckedBy(c);
      var i :| 0 <= i < |h| && h[i] == c;
      assert h[i].EvalCall? && i == 0;
    }
  }

  // ---------------------------------------------------------------- the retry time is pinned

  /** No call after the acknowledgement changes what it fixed. */
  lemma {:induction false} AckPinned(config: Config, h: seq<Call>, i: nat)
    requires LegalHistory(config, h) && OK !in config.permanentCodes && i <= |h|
    requires After(config, h[..i]).ack.Some?
    ensures After(config, h).ack == After(config, h[..i]).ack
    decreases |h|
  {
    if i == |h| {
      assert h[..i] == h;
    } else {
      var p := h[..|h| - 1];
      assert p[..i] == h[..i];
      PrefixLegal(config, h);
      AckPinned(config, p, i);
      AckNotInitial(config, p);
      AckKept(After(config, p), h[|h| - 1]);
      assert After(config, h) == Exec(After(config, p), h[|h| - 1]);
    }
  }

  lemma AckNotInitial(config: Config, h: seq<Call>)
    requires LegalHistory(config, h) && OK !in config.permanentCodes && After(config, h).ack.Some?
    ensures !After(config, h).state.Initialized?
  {
    HistoryTracked(config, h);
  }

  lemma AckKept(s: Session, c: Call)
    requires CallValid(c) && Legal(s, c) && !s.state.Initialized?
    ensures Exec(s, c).ack == s.ack
  {
  }

  /** The sanitised range of a server window, counted from the reading taken at the acknowledgement. */
  ghost predicate InServerRange(t: real, w: ServerWindow, at: Reading) {
    at.now + Max(0.0, FromProto(w.min)) <= t <= at.now + Max(FromProto(w.max), Max(0.0, FromProto(w.min)))
  }

  ghost predicate PointsAt(w: RetryWindow, t: real, token: string, now: real) {
    && w.delayMin == w.delayMax && w.token == token
    && FromProto(w.delayMin) <= Max(0.0, t - now) < FromProto(w.delayMin) + 1.0
  }

  /** The two times chosen when an acknowledgement arrives lie in the server's ranges. */
  lemma AckFixesTimes(config: Config, r: EvalReplies)
    requires EvalRepliesValid(r) && r.send == OK && r.ack.Ack?
    ensures var ack := EvalCheckin(NewSession(config), r).0.ack;
            && ack.Some?
            && InServerRange(ack.value.ifRejected.time, r.ack.rejected, r.ack.rejectedAt)
            && InServerRange(ack.value.ifAccepted.time, r.ack.accepted, r.ack.acceptedAt)
            && ack.value.ifRejected.token == r.ack.rejected.token
            && ack.value.ifAccepted.token == r.ack.accepted.token
  {
  }

  /** The server's range is drawn from in full, with the reading of the acknowledgement. */
  lemma AckTimesCoverRange(w: ServerWindow, now: real, t: real) returns (at: Reading)
    requires now + Max(0.0, FromProto(w.min)) <= t < now + FromProto(w.max)
    ensures ReadingValid(at) && at.now == now && PickTime(w, at) == RetryTimeAndToken(t, w.token)
  {
    var random := TimesCoverRange(w.min, w.max, now, t);
    at := Reading(now, random);
  }

  /** The window of a session shows the time its acknowledgement fixed. */
  lemma WindowPoints(s: Session, at: Reading)
    requires SessionValid(s) && ReadingValid(at)
    ensures var w := LatestRetryWindow(s, at);
            match WindowClassOf(s).value
            case Accepted => PointsAt(w, s.ack.value.ifAccepted.time, s.ack.value.ifAccepted.token, at.now)
            case Rejected => PointsAt(w, s.ack.value.ifRejected.time, s.ack.value.ifRejected.token, at.now)
            case Transient =>
              w.delayMin == w.delayMax && w.token == "" &&
              WithinJitter(w.delayMin, s.config.transientDelay, s.config.transientJitter)
            case Permanent =>
              w.delayMin == w.delayMax && w.token == "" &&
              WithinJitter(w.delayMin, s.config.permanentDelay, s.config.permanentJitter)
  {
  }

  /** Retry time is pinned at ack: for each class one time, fixed when the acknowledgement arrived and
      within the server's range, such that every later window of that class, at whatever time it is
      asked for, has equal bounds that point at it (or at now once it has passed), up to truncation to
      a nanosecond, and carries the server's token. */
  lemma RetryTimePinned(config: Config, r: EvalReplies, later: seq<Call>)
    requires OK !in config.permanentCodes && EvalRepliesValid(r) && AckedBy(EvalCall(r))
    requires LegalHistory(config, [EvalCall(r)] + later)
    ensures exists rejected, accepted ::
              && InServerRange(rejected, r.ack.rejected, r.ack.rejectedAt)
              && InServerRange(accepted, r.ack.accepted, r.ack.acceptedAt)
              && PinnedTo(config, r, later, rejected, accepted)
  {
    var h := [EvalCall(r)] + later;
    assert h[..1] == [EvalCall(r)] && h[..1][..0] == [];
    var first := After(config, h[..1]);
    assert first == Exec(NewSession(config), EvalCall(r));
    AckFixesTimes(config, r);
    var ack := first.ack.value;
    forall i | 0 <= i <= |later|
      ensures PinnedAfter(config, r, later[..i], ack.ifRejected.time, ack.ifAccepted.time)
    {
      var p := [EvalCall(r)] + later[..i];
      assert p == h[..i + 1];
      LegalPrefix(config, h, i + 1);
      assert p[..1] == h[..1];
      AckPinned(config, p, 1);
      RetryWindowRefinement(config, p);
      forall at | ReadingValid(at)
        ensures PinnedNow(config, p, r.ack, at, ack.ifRejected.time, ack.ifAccepted.time)
      {
        WindowPoints(After(config, p), at);
      }
    }
    assert PinnedTo(config, r, later, ack.ifRejected.time, ack.ifAccepted.time);
  }

  lemma LegalPrefix(config: Config, h: seq<Call>, n: nat)
    requires LegalHistory(config, h) && n <= |h|
    ensures LegalHistory(config, h[..n])
  {
    var p := h[..n];
    forall i | 0 <= i < |p| ensures Legal(After(config, p[..i]), p[i]) {
      assert p[..i] == h[..i];
    }
  }

  ghost predicate PinnedNow(config: Config, h: seq<Call>, ack: AckReply, at: Reading, rejected: real, accepted: real)
    requires ack.Ack? && LegalHistory(config, h) && SessionValid(After(config, h)) && ReadingValid(at)
  {
    var w := LatestRetryWindow(After(config, h), at);
    match SpecClass(config, h)
    case Accepted => PointsAt(w, accepted, ack.accepted.token, at.now)
    case Rejected => PointsAt(w, rejected, ack.rejected.token, at.now)
    case _ => w.token == ""
  }

  ghost predicate PinnedAfter(config: Config, r: EvalReplies, later: seq<Call>, rejected: real, accepted: real)
    requires r.ack.Ack?
  {
    var h := [EvalCall(r)] + later;
    && LegalHistory(config, h) && SessionValid(After(config, h))
    && forall at | ReadingValid(at) :: PinnedNow(config, h, r.ack, at, rejected, accepted)
  }

  /** The two times govern the windows at every moment from the acknowledgement on. */
  ghost predicate PinnedTo(config: Config, r: EvalReplies, later: seq<Call>, rejected: real, accepted: real)
    requires r.ack.Ack?
  {
    forall i | 0 <= i <= |later| :: PinnedAfter(config, r, later[..i], rejected, accepted)
  }
}
