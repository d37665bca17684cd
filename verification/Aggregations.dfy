/** The sessions of the Aggregations service: one-shot authorization tokens, active clients, waits, and
    completion or abortion by at most one caller.  A section under the sessions lock is one step; so is
    the clean-up of a session, which the source runs without the lock.  The aggregation protocol is
    known only by its statuses, by whether it is still open, since Complete() and Abort() raise on one
    that is not, and by the number of inputs it has included.  That number is assumed not to decrease
    up to the abortion of the protocol; what it is afterwards is not looked at. */
module Aggregations {
  import opened Options

  datatype SessionStatus = COMPLETED | PENDING | FAILED | ABORTED

  /** One _AggregationSessionState, with its protocol's count of included inputs.  A pending wait is an
      id, unique to the call, and the number of included inputs it waits for. */
  datatype Session = Session(
    minimum: int, status: SessionStatus, tokens: set<string>, activeClients: set<string>,
    pendingWaits: map<nat, int>, included: nat, protocolOpen: bool)

  /** Where a request handler is. */
  datatype Op =
    | Starting(session: nat)     // the token is redeemed, the client not registered yet
    | Submitting(session: nat)   // the client is taken out, its input not processed yet
    | Submitted(session: nat)    // the input is included, the waits not checked yet
    | Completing(session: nat)   // the session is taken out for completion
    | Releasing(session: nat)    // the minimum is met and the protocol completed
    | Aborting(session: nat)     // the session is taken out for abortion
    | Cleaning(session: nat)
    | Ended

  datatype Release = Release(session: nat, included: nat)

  /** What a session had when its abortion raised. */
  datatype Remains = Remains(waits: set<nat>, tokens: set<string>)

  /** `sessions` are all sessions ever created, `registered` those still in the dictionary.  The other
      fields are logs: tokens issued and redeemed, sessions taken out, results released, waits
      accepted and notified, whether some wait was notified twice, the clients that a session has when it
      gets over or gets later, and the sessions whose abortion raised before the clean-up. */
  datatype State = State(
    sessions: seq<Session>, registered: set<nat>, ops: seq<Op>,
    issued: set<string>, admitted: seq<string>, taken: seq<nat>, released: seq<Release>,
    accepted: set<nat>, notified: set<nat>, notifiedTwice: bool, leftBehind: set<(nat, string)>,
    abandoned: map<nat, Remains>)

  datatype Event =
    | CreateSession(minimum: int)
    | PreAuthorize(session: nat, tokens: set<string>)
    | StartUpload(session: nat, token: string)
    | RegisterClient(op: nat, client: string)
    | Submit(session: nat, client: string)
    | ProcessInput(op: nat, included: bool)
    | CheckWaits(op: nat)
    | AbortUpload(session: nat, client: string)
    | StartWait(session: nat, wait: nat, threshold: int)
    | Complete(session: nat)
    | CheckMinimum(op: nat)
    | CollectResult(op: nat, ok: bool)
    | Abort(session: nat)
    | AbortProtocol(op: nat)
    | CleanUp(op: nat)
    | ProtocolAborts(session: nat)

  // ---------------------------------------------------------------- the locked sections

  /** The waits that the inputs included so far satisfy. */
  function SatisfiedWaits(s: Session): set<nat> {
    set w | w in s.pendingWaits && s.pendingWaits[w] <= s.included
  }

  predicate At(s: State, i: nat) { i < |s.ops| }

  predicate Registered(s: State, x: nat) { x < |s.sessions| && x in s.registered }

  predicate Taker(op: Op) { op.Completing? || op.Releasing? || op.Aborting? || op.Cleaning? }

  predicate InHands(s: State, x: nat) {
    exists i :: 0 <= i < |s.ops| && Taker(s.ops[i]) && s.ops[i].session == x
  }

  /** The session was completed or aborted, and its taker is done. */
  predicate Over(s: State, x: nat) { x in s.taken && !InHands(s, x) }

  ghost predicate Enabled(s: State, e: Event) {
    match e
    case CreateSession(_) => true
    case PreAuthorize(x, tokens) => Registered(s, x) && tokens !! s.issued
    case StartUpload(x, token) => Registered(s, x) && token in s.sessions[x].tokens
    case RegisterClient(i, _) => At(s, i) && s.ops[i].Starting? && s.ops[i].session < |s.sessions|
    case Submit(x, client) => Registered(s, x) && client in s.sessions[x].activeClients
    case ProcessInput(i, _) => At(s, i) && s.ops[i].Submitting? && s.ops[i].session < |s.sessions|
    case CheckWaits(i) => At(s, i) && s.ops[i].Submitted? && s.ops[i].session < |s.sessions|
    case AbortUpload(x, client) => Registered(s, x) && client in s.sessions[x].activeClients
    case StartWait(x, w, _) => Registered(s, x) && w !in s.accepted
    case Complete(x) => Registered(s, x)
    case CheckMinimum(i) => At(s, i) && s.ops[i].Completing? && s.ops[i].session < |s.sessions|
    case CollectResult(i, _) => At(s, i) && s.ops[i].Releasing? && s.ops[i].session < |s.sessions|
    case Abort(x) => Registered(s, x)
    case AbortProtocol(i) => At(s, i) && s.ops[i].Aborting? && s.ops[i].session < |s.sessions|
    case CleanUp(i) => At(s, i) && s.ops[i].Cleaning? && s.ops[i].session < |s.sessions|
    case ProtocolAborts(x) => x < |s.sessions|
  }

  /** The completion of a session finds enough inputs, and its protocol open. */
  predicate Completes(t: Session) { t.status.PENDING? && t.minimum <= t.included && t.protocolOpen }

  /** The abortion of a session calls Abort() on a protocol that was closed without anybody noting it. */
  predicate AbortRaises(t: Session) { t.status.PENDING? && !t.protocolOpen }

  /** The events of a request that has begun. */
  predicate HasOp(e: Event) {
    || e.RegisterClient? || e.ProcessInput? || e.CheckWaits? || e.CheckMinimum? || e.CollectResult?
    || e.AbortProtocol? || e.CleanUp?
  }

  function SessionOf(s: State, e: Event): (x: nat)
    requires Enabled(s, e) && !e.CreateSession?
    ensures x < |s.sessions|
  {
    if HasOp(e) then s.ops[e.op].session else e.session
  }

  /** What an event makes of its session. */
  function NextSession(s: State, e: Event): Session
    requires Enabled(s, e) && !e.CreateSession?
  {
    var t := s.sessions[SessionOf(s, e)];
    match e
    case PreAuthorize(_, tokens) => t.(tokens := t.tokens + tokens)
    case StartUpload(_, token) => t.(tokens := t.tokens - {token})
    case RegisterClient(_, client) => t.(activeClients := t.activeClients + {client})
    case Submit(_, client) => t.(activeClients := t.activeClients - {client})
    case ProcessInput(_, included) => if included then t.(included := t.included + 1) else t
    case CheckWaits(_) => t.(pendingWaits := t.pendingWaits - SatisfiedWaits(t))
    case AbortUpload(_, client) => t.(activeClients := t.activeClients - {client})
    case StartWait(_, w, threshold) =>
      if threshold <= t.included then t else t.(pendingWaits := t.pendingWaits[w := threshold])
    case Complete(_) => t
    case CheckMinimum(_) =>
      if !t.status.PENDING? then t
      else if t.included < t.minimum then t.(status := FAILED, protocolOpen := false)
      else if !t.protocolOpen then t.(status := FAILED)
      else t
    case CollectResult(_, ok) =>
      if ok then t.(status := COMPLETED, protocolOpen := false) else t.(status := FAILED)
    case Abort(_) => t
    case AbortProtocol(_) => if t.status.PENDING? then t.(status := ABORTED, protocolOpen := false) else t
    case CleanUp(_) => t.(tokens := {}, activeClients := {}, pendingWaits := map[])
    case ProtocolAborts(x) =>
      if x in s.registered then t.(protocolOpen := false, status := FAILED, pendingWaits := map[])
      else t.(protocolOpen := false)
    case CreateSession(_) => t
  }

  function NextSessions(s: State, e: Event): seq<Session>
    requires Enabled(s, e)
  {
    if e.CreateSession? then s.sessions + [Session(e.minimum, PENDING, {}, {}, map[], 0, true)]
    else s.sessions[SessionOf(s, e) := NextSession(s, e)]
  }

  /** Where the request of an event goes on to.  An abortion whose Abort() raises ends without cleaning up. */
  function NextOp(s: State, e: Event): Op
    requires Enabled(s, e) && HasOp(e)
  {
    var x := s.ops[e.op].session;
    match e
    case ProcessInput(_, included) => if included then Submitted(x) else Ended
    case CheckMinimum(_) => if Completes(s.sessions[x]) then Releasing(x) else Cleaning(x)
    case CollectResult(_, _) => Cleaning(x)
    case AbortProtocol(_) => if AbortRaises(s.sessions[x]) then Ended else Cleaning(x)
    case _ => Ended
  }

  function NextOps(s: State, e: Event): seq<Op>
    requires Enabled(s, e)
  {
    if HasOp(e) then s.ops[e.op := NextOp(s, e)]
    else if e.StartUpload? then s.ops + [Starting(e.session)]
    else if e.Submit? then s.ops + [Submitting(e.session)]
    else if e.Complete? then s.ops + [Completing(e.session)]
    else if e.Abort? then s.ops + [Aborting(e.session)]
    else s.ops
  }

  function Notified(s: State, ws: set<nat>): State {
    s.(notified := s.notified + ws, notifiedTwice := s.notifiedTwice || ws * s.notified != {})
  }

  function Pairs(x: nat, cs: set<string>): set<(nat, string)> { set c | c in cs :: (x, c) }

  /** What an event does to the dictionary and to the logs. */
  function Logged(s: State, e: Event): State
    requires Enabled(s, e)
  {
    match e
    case CreateSession(_) => s.(registered := s.registered + {|s.sessions|})
    case PreAuthorize(_, tokens) => s.(issued := s.issued + tokens)
    case StartUpload(_, token) => s.(admitted := s.admitted + [token])
    case RegisterClient(i, client) =>
      var x := s.ops[i].session;
      s.(leftBehind := s.leftBehind + if Over(s, x) then {(x, client)} else {})
    case CheckWaits(i) => Notified(s, SatisfiedWaits(s.sessions[s.ops[i].session]))
    case StartWait(x, w, threshold) =>
      if threshold <= s.sessions[x].included then s else s.(accepted := s.accepted + {w})
    case Complete(x) => s.(registered := s.registered - {x}, taken := s.taken + [x])
    case CollectResult(i, ok) =>
      var x := s.ops[i].session;
      if ok then s.(released := s.released + [Release(x, s.sessions[x].included)]) else s
    case Abort(x) => s.(registered := s.registered - {x}, taken := s.taken + [x])
    case AbortProtocol(i) =>
      var x := s.ops[i].session;
      var t := s.sessions[x];
      if !AbortRaises(t) then s
      else s.(leftBehind := s.leftBehind + Pairs(x, t.activeClients),
              abandoned := s.abandoned[x := Remains(t.pendingWaits.Keys, t.tokens)])
    case CleanUp(i) => Notified(s, s.sessions[s.ops[i].session].pendingWaits.Keys)
    case ProtocolAborts(x) => if x in s.registered then Notified(s, s.sessions[x].pendingWaits.Keys) else s
    case _ => s
  }

  function Apply(s: State, e: Event): State
    requires Enabled(s, e)
  {
    Logged(s, e).(sessions := NextSessions(s, e), ops := NextOps(s, e))
  }

  ghost predicate Init(s: State) {
    && s.sessions == [] && s.registered == {} && s.ops == [] && s.issued == {} && s.admitted == []
    && s.taken == [] && s.released == [] && s.accepted == {} && s.notified == {} && !s.notifiedTwice
    && s.leftBehind == {} && s.abandoned == map[]
  }

  ghost predicate Step(s: State, s': State) {
    exists e :: Enabled(s, e) && s' == Apply(s, e)
  }

  ghost predicate IsRun(run: seq<State>) {
    && run != [] && Init(run[0])
    && forall i | 0 <= i < |run| - 1 :: Step(run[i], run[i + 1])
  }

  // ---------------------------------------------------------------- the inductive invariant

  /** Each unredeemed token is in one session, and no redeemed token is in any. */
  ghost predicate TokensOnce(s: State) {
    && (forall i, j | 0 <= i < j < |s.admitted| :: s.admitted[i] != s.admitted[j])
    && (forall t | t in s.admitted :: t in s.issued)
    && (forall x | 0 <= x < |s.sessions| :: s.sessions[x].tokens <= s.issued)
    && (forall x, t | 0 <= x < |s.sessions| && t in s.sessions[x].tokens :: t !in s.admitted)
    && (forall x, y | 0 <= x < y < |s.sessions| :: s.sessions[x].tokens !! s.sessions[y].tokens)
  }

  /** A session is taken out of the dictionary once, and only its taker works on it. */
  ghost predicate TakenOnce(s: State) {
    && (forall i, j | 0 <= i < j < |s.taken| :: s.taken[i] != s.taken[j])
    && (forall x: nat :: x in s.taken <==> x < |s.sessions| && x !in s.registered)
    && (forall x | x in s.registered :: x < |s.sessions|)
    && TakersOnce(s)
  }

  ghost predicate TakersOnce(s: State) {
    && (forall i | 0 <= i < |s.ops| && Taker(s.ops[i]) :: s.ops[i].session in s.taken)
    && (forall i, j | 0 <= i < j < |s.ops| && Taker(s.ops[i]) && Taker(s.ops[j]) ::
          s.ops[i].session != s.ops[j].session)
  }

  /** A result is released at most once per session, and with as many inputs as its minimum. */
  ghost predicate ReleasedOnce(s: State) {
    && ReleasesValid(s)
    && (forall i, r | 0 <= i < |s.ops| && OnTheWay(s.ops[i]) && r in s.released :: s.ops[i].session != r.session)
    && (forall i | 0 <= i < |s.ops| && s.ops[i].Releasing? ::
          && s.ops[i].session < |s.sessions|
          && s.sessions[s.ops[i].session].minimum <= s.sessions[s.ops[i].session].included)
  }

  /** Some input of the session has been included and its submitter has yet to check the waits. */
  ghost predicate CheckPending(s: State, x: nat) {
    exists i :: 0 <= i < |s.ops| && s.ops[i] == Submitted(x)
  }

  /** A wait that is still pending is not satisfied, unless somebody is about to check. */
  ghost predicate WaitsCurrent(s: State) {
    forall x, w | 0 <= x < |s.sessions| && w in s.sessions[x].pendingWaits ::
      s.sessions[x].included < s.sessions[x].pendingWaits[w] || CheckPending(s, x)
  }

  /** Each accepted wait is pending in one session or has been notified, once. */
  ghost predicate NotifiedOnce(s: State) {
    && !s.notifiedTwice && s.notified <= s.accepted
    && (forall x | 0 <= x < |s.sessions| :: s.sessions[x].pendingWaits.Keys <= s.accepted - s.notified)
    && (forall x, y | 0 <= x < y < |s.sessions| :: s.sessions[x].pendingWaits.Keys !! s.sessions[y].pendingWaits.Keys)
  }

  ghost predicate PendingSomewhere(s: State, n: nat) {
    exists x :: 0 <= x < |s.sessions| && n in s.sessions[x].pendingWaits
  }

  ghost predicate Accounted(s: State) {
    forall n | n in s.accepted && n !in s.notified :: PendingSomewhere(s, n)
  }

  /** A session that is over has no wait and no token, unless its abortion raised. */
  ghost predicate EndedIsClean(s: State) {
    forall x | 0 <= x < |s.sessions| && Over(s, x) && x !in s.abandoned ::
      s.sessions[x].pendingWaits == map[] && s.sessions[x].tokens == {}
  }

  /** A session whose abortion raised is over, with the tokens it had, and with the waits it had except those that
      a submission still under way has notified. */
  ghost predicate RemainsAt(s: State, x: nat)
    requires x in s.abandoned
  {
    && x < |s.sessions| && Over(s, x)
    && s.sessions[x].tokens == s.abandoned[x].tokens
    && s.sessions[x].pendingWaits.Keys == s.abandoned[x].waits - s.notified
  }

  ghost predicate RemainsExact(s: State) { forall x | x in s.abandoned :: RemainsAt(s, x) }

  ghost predicate LeftAt(s: State, x: nat, c: string)
    requires x < |s.sessions|
  {
    (x, c) in s.leftBehind <==> Over(s, x) && c in s.sessions[x].activeClients
  }

  /** The clients of a session that is over are exactly those registered when it was, or left by an abortion that
      raised. */
  ghost predicate LeftExactly(s: State) {
    forall x, c | 0 <= x < |s.sessions| :: LeftAt(s, x, c)
  }

  predicate ReleasedFor(s: State, x: nat) { exists r :: r in s.released && r.session == x }

  ghost predicate CompletedAt(s: State, x: nat)
    requires x < |s.sessions|
  {
    s.sessions[x].status.COMPLETED? <==> ReleasedFor(s, x)
  }

  /** A session is completed exactly if its result was released. */
  ghost predicate CompletedExactly(s: State) { forall x | 0 <= x < |s.sessions| :: CompletedAt(s, x) }

  ghost predicate Inv(s: State) {
    && TokensOnce(s) && TakenOnce(s) && ReleasedOnce(s)
    && WaitsCurrent(s) && NotifiedOnce(s) && Accounted(s) && EndedIsClean(s) && RemainsExact(s) && CompletedExactly(s)
    && LeftExactly(s) && forall p | p in s.leftBehind :: p.0 < |s.sessions|
  }

  // ---------------------------------------------------------------- every step keeps it

  /** Steps that neither issue nor redeem tokens can only drop some. */
  lemma TokensFrame(s: State, e: Event)
    requires Enabled(s, e) && !e.PreAuthorize? && !e.StartUpload?
    ensures var s' := Apply(s, e);
            && s'.issued == s.issued && s'.admitted == s.admitted && |s'.sessions| >= |s.sessions|
            && (forall x | 0 <= x < |s.sessions| :: s'.sessions[x].tokens <= s.sessions[x].tokens)
            && (forall x | |s.sessions| <= x < |s'.sessions| :: s'.sessions[x].tokens == {})
  {
  }

  lemma TokensStep(s: State, e: Event)
    requires Enabled(s, e) && TokensOnce(s)
    ensures TokensOnce(Apply(s, e))
  {
    if e.PreAuthorize? {
      TokensIssued(s, e);
    } else if e.StartUpload? {
      TokenRedeemed(s, e);
    } else {
      TokensFrame(s, e);
    }
  }

  lemma TokensIssued(s: State, e: Event)
    requires Enabled(s, e) && TokensOnce(s) && e.PreAuthorize?
    ensures TokensOnce(Apply(s, e))
  {
    var s' := Apply(s, e);
    assert s'.admitted == s.admitted && s'.issued == s.issued + e.tokens;
    assert forall y | 0 <= y < |s.sessions| && y != e.session :: s'.sessions[y] == s.sessions[y];
  }

  lemma TokenRedeemed(s: State, e: Event)
    requires Enabled(s, e) && TokensOnce(s) && e.StartUpload?
    ensures TokensOnce(Apply(s, e))
  {
    var s' := Apply(s, e);
    assert s'.admitted == s.admitted + [e.token] && s'.issued == s.issued;
    assert forall i | 0 <= i < |s.admitted| :: s.admitted[i] in s.admitted;
    assert forall y | 0 <= y < |s.sessions| && y != e.session :: s'.sessions[y] == s.sessions[y];
  }

  /** What a step does to the operations: at most one goes on, and a taker of a session stems from a
      taker of it, or from taking it out. */
  lemma OpsFrame(s: State, e: Event)
    requires Enabled(s, e) && !e.Complete? && !e.Abort?
    ensures var s' := Apply(s, e);
            && s'.taken == s.taken && |s'.ops| >= |s.ops|
            && (forall i | 0 <= i < |s.ops| && Taker(s'.ops[i]) ::
                  Taker(s.ops[i]) && s'.ops[i].session == s.ops[i].session)
            && (forall i | |s.ops| <= i < |s'.ops| :: !Taker(s'.ops[i]))
  {
    DictionaryFrame(s, e);
  }

  lemma TakersStep(s: State, e: Event)
    requires Enabled(s, e) && TakenOnce(s)
    ensures TakersOnce(Apply(s, e))
  {
    if !e.Complete? && !e.Abort? {
      OpsFrame(s, e);
    }
  }

  /** What a step does to the dictionary. */
  lemma DictionaryFrame(s: State, e: Event)
    requires Enabled(s, e)
    ensures var s' := Apply(s, e);
            if e.CreateSession? then
              s'.taken == s.taken && s'.registered == s.registered + {|s.sessions|} && |s'.sessions| == |s.sessions| + 1
            else if e.Complete? || e.Abort? then
              && s'.taken == s.taken + [e.session] && s'.registered == s.registered - {e.session}
              && |s'.sessions| == |s.sessions|
            else s'.taken == s.taken && s'.registered == s.registered && |s'.sessions| == |s.sessions|
  {
  }

  lemma TakenStep(s: State, e: Event)
    requires Enabled(s, e) && TakenOnce(s)
    ensures TakenOnce(Apply(s, e))
  {
    TakersStep(s, e);
    DictionaryFrame(s, e);
    if e.Complete? || e.Abort? { assert e.session in s.registered && e.session !in s.taken; }
  }

  /** No minimum changes and no included count decreases. */
  lemma CountsFrame(s: State, e: Event)
    requires Enabled(s, e)
    ensures var s' := Apply(s, e);
            && |s'.sessions| >= |s.sessions|
            && forall x | 0 <= x < |s.sessions| ::
                 s'.sessions[x].minimum == s.sessions[x].minimum && s.sessions[x].included <= s'.sessions[x].included
  {
    SessionsStay(s, e);
    forall x: nat | x < |s.sessions| { CountsAt(s, e, x); }
  }

  lemma SessionsStay(s: State, e: Event)
    requires Enabled(s, e)
    ensures |Apply(s, e).sessions| >= |s.sessions|
  {
  }

  lemma CountsAt(s: State, e: Event, x: nat)
    requires Enabled(s, e) && x < |s.sessions| <= |Apply(s, e).sessions|
    ensures var s' := Apply(s, e);
            s'.sessions[x].minimum == s.sessions[x].minimum && s.sessions[x].included <= s'.sessions[x].included
  {
  }

  /** Operations that may still decide a status: they stem from such an operation, or have just taken a session. */
  lemma ReleaseFrame(s: State, e: Event)
    requires Enabled(s, e)
    ensures var s' := Apply(s, e);
            && |s'.ops| >= |s.ops| && s.taken <= s'.taken
            && (!e.CheckMinimum? ==> forall i | 0 <= i < |s.ops| && s'.ops[i].Releasing? :: s'.ops[i] == s.ops[i])
            && (forall i | 0 <= i < |s.ops| && OnTheWay(s'.ops[i]) ::
                  OnTheWay(s.ops[i]) && s'.ops[i].session == s.ops[i].session)
            && (forall i | |s.ops| <= i < |s'.ops| && OnTheWay(s'.ops[i]) ::
                  !s'.ops[i].Releasing? && (e == Complete(s'.ops[i].session) || e == Abort(s'.ops[i].session)))
  {
    DictionaryFrame(s, e);
  }

  /** A taker that may still decide the status of its session. */
  predicate OnTheWay(op: Op) { op.Completing? || op.Releasing? || op.Aborting? }

  /** The log of releases alone: one per session, after it was taken, with enough inputs. */
  ghost predicate ReleasesValid(s: State) {
    && (forall i, j | 0 <= i < j < |s.released| :: s.released[i].session != s.released[j].session)
    && (forall r | r in s.released ::
          r.session in s.taken && r.session < |s.sessions| && s.sessions[r.session].minimum <= r.included)
  }

  lemma ReleasesStep(s: State, e: Event)
    requires Enabled(s, e) && TakenOnce(s) && ReleasedOnce(s)
    ensures ReleasesValid(Apply(s, e))
  {
    CountsFrame(s, e);
    DictionaryFrame(s, e);
    var s' := Apply(s, e);
    if e.CollectResult? && e.ok {
      var x := s.ops[e.op].session;
      assert Taker(s.ops[e.op]) && s'.released == s.released + [Release(x, s.sessions[x].included)];
      assert forall i | 0 <= i < |s.released| :: s.released[i] in s.released;
    } else {
      assert s'.released == s.released;
    }
  }

  lemma OnTheWayStep(s: State, e: Event, i: nat, r: Release)
    requires Enabled(s, e) && TakenOnce(s) && ReleasedOnce(s)
    requires i < |Apply(s, e).ops| && OnTheWay(Apply(s, e).ops[i]) && r in Apply(s, e).released
    ensures Apply(s, e).ops[i].session != r.session
  {
    var s' := Apply(s, e);
    ReleaseFrame(s, e);
    if e.CollectResult? && e.ok {
      assert Taker(s.ops[e.op]) && (i < |s.ops| ==> Taker(s.ops[i]));
      assert s'.released == s.released + [Release(s.ops[e.op].session, s.sessions[s.ops[e.op].session].included)];
    } else {
      assert s'.released == s.released;
    }
  }

  lemma EnoughStep(s: State, e: Event, i: nat)
    requires Enabled(s, e) && ReleasedOnce(s) && i < |Apply(s, e).ops| && Apply(s, e).ops[i].Releasing?
    ensures var s' := Apply(s, e);
            var x := s'.ops[i].session;
            x < |s'.sessions| && s'.sessions[x].minimum <= s'.sessions[x].included
  {
    CountsFrame(s, e);
    ReleaseFrame(s, e);
    if e.CheckMinimum? && e.op == i { assert Completes(s.sessions[s.ops[i].session]); }
  }

  lemma ReleasedStep(s: State, e: Event)
    requires Enabled(s, e) && TakenOnce(s) && ReleasedOnce(s)
    ensures ReleasedOnce(Apply(s, e))
  {
    var s' := Apply(s, e);
    ReleasesStep(s, e);
    forall i: nat, r | i < |s'.ops| && OnTheWay(s'.ops[i]) && r in s'.released ensures s'.ops[i].session != r.session {
      OnTheWayStep(s, e, i, r);
    }
    forall i: nat | i < |s'.ops| && s'.ops[i].Releasing?
      ensures s'.ops[i].session < |s'.sessions|
      ensures s'.sessions[s'.ops[i].session].minimum <= s'.sessions[s'.ops[i].session].included
    {
      EnoughStep(s, e, i);
    }
  }

  lemma CompletedAtStep(s: State, e: Event, x: nat)
    requires Enabled(s, e) && TakenOnce(s) && ReleasedOnce(s) && x < |s.sessions| && CompletedAt(s, x)
    ensures x < |Apply(s, e).sessions| && CompletedAt(Apply(s, e), x)
  {
    var s' := Apply(s, e);
    if e.CollectResult? && e.ok {
      var own := Release(s.ops[e.op].session, s.sessions[s.ops[e.op].session].included);
      assert s'.released == s.released + [own];
      assert forall r :: r in s'.released <==> r in s.released || r == own;
      assert own in s'.released;
    } else {
      assert s'.released == s.released;
      if ReleasedFor(s, x) { UndecidedNotReleased(s, e, x); }
    }
  }

  /** Once its result is released, nothing changes the status of a session. */
  lemma UndecidedNotReleased(s: State, e: Event, x: nat)
    requires Enabled(s, e) && TakenOnce(s) && ReleasedOnce(s) && x < |s.sessions| && ReleasedFor(s, x)
    ensures x < |Apply(s, e).sessions| && Apply(s, e).sessions[x].status == s.sessions[x].status
  {
    var r :| r in s.released && r.session == x;
    assert x in s.taken && x !in s.registered;
    assert forall i | 0 <= i < |s.ops| && OnTheWay(s.ops[i]) :: s.ops[i].session != r.session;
  }

  lemma CompletedStep(s: State, e: Event)
    requires Enabled(s, e) && TakenOnce(s) && ReleasedOnce(s) && CompletedExactly(s)
    ensures CompletedExactly(Apply(s, e))
  {
    var s' := Apply(s, e);
    forall x: nat | x < |s'.sessions| ensures CompletedAt(s', x) {
      if x < |s.sessions| {
        CompletedAtStep(s, e, x);
      } else {
        assert e.CreateSession? && x == |s.sessions| && s'.released == s.released;
        assert forall r | r in s.released :: r.session < |s.sessions|;
      }
    }
  }

  lemma CheckPendingStep(s: State, e: Event, x: nat)
    requires Enabled(s, e) && CheckPending(s, x) && !(e.CheckWaits? && s.ops[e.op].session == x)
    ensures CheckPending(Apply(s, e), x)
  {
    var i :| 0 <= i < |s.ops| && s.ops[i] == Submitted(x);
    assert Apply(s, e).ops[i] == Submitted(x);
  }

  lemma WaitsStep(s: State, e: Event)
    requires Enabled(s, e) && WaitsCurrent(s)
    ensures WaitsCurrent(Apply(s, e))
  {
    var s' := Apply(s, e);
    forall x, w | 0 <= x < |s'.sessions| && w in s'.sessions[x].pendingWaits
      ensures s'.sessions[x].included < s'.sessions[x].pendingWaits[w] || CheckPending(s', x)
    {
      if e.ProcessInput? && s.ops[e.op].session == x && e.included {
        assert s'.ops[e.op] == Submitted(x);
      } else if CheckPending(s, x) && !(e.CheckWaits? && s.ops[e.op].session == x) {
        CheckPendingStep(s, e, x);
      }
    }
  }

  predicate Notifies(e: Event) { e.CheckWaits? || e.CleanUp? || e.ProtocolAborts? }

  lemma QuietAt(s: State, e: Event, y: nat)
    requires Enabled(s, e) && !e.StartWait? && !Notifies(e) && y < |Apply(s, e).sessions|
    ensures Apply(s, e).sessions[y].pendingWaits == if y < |s.sessions| then s.sessions[y].pendingWaits else map[]
  {
  }

  lemma QuietLogs(s: State, e: Event)
    requires Enabled(s, e) && !e.StartWait? && !Notifies(e)
    ensures var s' := Apply(s, e);
            && s'.accepted == s.accepted && s'.notified == s.notified && s'.notifiedTwice == s.notifiedTwice
            && |s'.sessions| >= |s.sessions|
  {
  }

  /** Steps that neither accept nor notify leave the waits alone. */
  lemma QuietFrame(s: State, e: Event)
    requires Enabled(s, e) && !e.StartWait? && !Notifies(e)
    ensures var s' := Apply(s, e);
            && s'.accepted == s.accepted && s'.notified == s.notified && s'.notifiedTwice == s.notifiedTwice
            && |s'.sessions| >= |s.sessions|
            && (forall y | |s.sessions| <= y < |s'.sessions| :: s'.sessions[y].pendingWaits == map[])
            && forall y | 0 <= y < |s.sessions| :: s'.sessions[y].pendingWaits == s.sessions[y].pendingWaits
  {
    QuietLogs(s, e);
    forall y: nat | y < |Apply(s, e).sessions| { QuietAt(s, e, y); }
  }

  /** Steps that accept no wait only turn pending waits `ws` of one session into notified ones. */
  lemma NotifyFrame(s: State, e: Event) returns (x: nat, ws: set<nat>)
    requires Enabled(s, e) && !e.StartWait?
    ensures ws == {} || (x < |s.sessions| && ws <= s.sessions[x].pendingWaits.Keys)
    ensures var s' := Apply(s, e);
            && s'.accepted == s.accepted && |s'.sessions| >= |s.sessions|
            && (forall y | |s.sessions| <= y < |s'.sessions| :: s'.sessions[y].pendingWaits == map[])
            && s'.notified == s.notified + ws && (s'.notifiedTwice == (s.notifiedTwice || ws * s.notified != {}))
            && forall y | 0 <= y < |s.sessions| ::
                 s'.sessions[y].pendingWaits.Keys == s.sessions[y].pendingWaits.Keys - if y == x then ws else {}
  {
    x, ws := 0, {};
    if !Notifies(e) {
      QuietFrame(s, e);
    } else if e.CheckWaits? {
      x := s.ops[e.op].session;
      ws := SatisfiedWaits(s.sessions[x]);
    } else if e.CleanUp? {
      x := s.ops[e.op].session;
      ws := s.sessions[x].pendingWaits.Keys;
    } else if e.ProtocolAborts? && e.session in s.registered {
      x := e.session;
      ws := s.sessions[x].pendingWaits.Keys;
    }
  }

  lemma NotifiedStep(s: State, e: Event)
    requires Enabled(s, e) && NotifiedOnce(s)
    ensures NotifiedOnce(Apply(s, e))
  {
    if !e.StartWait? { var x, ws := NotifyFrame(s, e); }
  }

  lemma AccountedStep(s: State, e: Event)
    requires Enabled(s, e) && Accounted(s)
    ensures Accounted(Apply(s, e))
  {
    var s' := Apply(s, e);
    if e.StartWait? {
      forall n | n in s'.accepted && n !in s'.notified ensures PendingSomewhere(s', n) {
        if n in s.accepted {
          var y :| 0 <= y < |s.sessions| && n in s.sessions[y].pendingWaits;
          assert n in s'.sessions[y].pendingWaits;
        } else {
          assert n in s'.sessions[e.session].pendingWaits;
        }
      }
    } else {
      var x, ws := NotifyFrame(s, e);
      forall n | n in s'.accepted && n !in s'.notified ensures PendingSomewhere(s', n) {
        var y :| 0 <= y < |s.sessions| && n in s.sessions[y].pendingWaits;
        assert n in s'.sessions[y].pendingWaits.Keys;
      }
    }
  }

  /** The abortion of session `x` raises: the protocol was closed and nobody had noted it. */
  predicate Raises(s: State, e: Event, x: nat) {
    e.AbortProtocol? && At(s, e.op) && s.ops[e.op] == Aborting(x) && x < |s.sessions| && AbortRaises(s.sessions[x])
  }

  predicate CleansUp(s: State, e: Event, x: nat) { e.CleanUp? && At(s, e.op) && s.ops[e.op] == Cleaning(x) }

  /** A session that is taken out stays in the hands of its taker until it is cleaned up or its abortion raises. */
  lemma InHandsStep(s: State, e: Event, x: nat)
    requires Enabled(s, e) && InHands(s, x)
    ensures InHands(Apply(s, e), x) || CleansUp(s, e, x) || Raises(s, e, x)
  {
    var i :| 0 <= i < |s.ops| && Taker(s.ops[i]) && s.ops[i].session == x;
    var s' := Apply(s, e);
    if !CleansUp(s, e, x) && !Raises(s, e, x) {
      assert Taker(s'.ops[i]) && s'.ops[i].session == x;
    }
  }

  /** A session gets over by its clean-up or by an abortion that raises, and stays over. */
  lemma OverStep(s: State, e: Event, x: nat)
    requires Enabled(s, e) && TakenOnce(s)
    ensures Over(s, x) ==> Over(Apply(s, e), x)
    ensures Over(Apply(s, e), x) ==> Over(s, x) || CleansUp(s, e, x) || Raises(s, e, x)
  {
    var s' := Apply(s, e);
    if e.Complete? || e.Abort? {
      assert Taker(s'.ops[|s.ops|]) && s'.ops[|s.ops|].session == e.session;
      assert InHands(s', e.session);
    } else {
      OpsFrame(s, e);
    }
    if InHands(s, x) { InHandsStep(s, e, x); }
  }

  /** A taker that is done leaves its session over, since it is the only one. */
  lemma TakerDone(s: State, e: Event, x: nat)
    requires Enabled(s, e) && TakenOnce(s) && (CleansUp(s, e, x) || Raises(s, e, x))
    ensures InHands(s, x) && Over(Apply(s, e), x)
  {
    var s' := Apply(s, e);
    assert Taker(s.ops[e.op]) && s'.ops == s.ops[e.op := Ended] && s'.taken == s.taken;
    assert forall j | 0 <= j < |s'.ops| && Taker(s'.ops[j]) :: Taker(s.ops[j]) && s'.ops[j].session != x;
  }

  lemma CleanedUp(s: State, e: Event)
    requires Enabled(s, e) && e.CleanUp?
    ensures var t := Apply(s, e).sessions[s.ops[e.op].session];
            t.pendingWaits == map[] && t.tokens == {} && t.activeClients == {}
  {
  }

  /** Only registered sessions get waits or tokens. */
  lemma WaitsAndTokensFrame(s: State, e: Event, x: nat)
    requires Enabled(s, e) && x < |s.sessions| <= |Apply(s, e).sessions| && x !in s.registered
    requires s.sessions[x].pendingWaits == map[] && s.sessions[x].tokens == {}
    ensures Apply(s, e).sessions[x].pendingWaits == map[] && Apply(s, e).sessions[x].tokens == {}
  {
  }

  /** Only registered sessions lose clients, except by a clean-up. */
  lemma ClientsFrame(s: State, e: Event, x: nat)
    requires Enabled(s, e) && x < |s.sessions| <= |Apply(s, e).sessions| && x !in s.registered
    requires !CleansUp(s, e, x)
    ensures Apply(s, e).sessions[x].activeClients == s.sessions[x].activeClients +
            if e.RegisterClient? && s.ops[e.op].session == x then {e.client} else {}
  {
  }

  /** Only registered sessions get or lose tokens, except by a clean-up. */
  lemma TokensStay(s: State, e: Event, x: nat)
    requires Enabled(s, e) && x < |s.sessions| <= |Apply(s, e).sessions| && x !in s.registered
    requires !CleansUp(s, e, x)
    ensures Apply(s, e).sessions[x].tokens == s.sessions[x].tokens
  {
  }

  lemma AbandonedBy(s: State, e: Event, x: nat)
    requires Enabled(s, e) && Raises(s, e, x)
    ensures var s' := Apply(s, e);
            && s'.abandoned == s.abandoned[x := Remains(s.sessions[x].pendingWaits.Keys, s.sessions[x].tokens)]
            && s'.sessions == s.sessions[x := s.sessions[x].(status := ABORTED)] && s'.notified == s.notified
  {
    assert s.sessions[x].(status := ABORTED, protocolOpen := false) == s.sessions[x].(status := ABORTED);
  }

  lemma NotAbandoned(s: State, e: Event)
    requires Enabled(s, e) && forall x :: !Raises(s, e, x)
    ensures Apply(s, e).abandoned == s.abandoned
  {
    if e.AbortProtocol? { assert !Raises(s, e, s.ops[e.op].session); }
  }

  /** What a step adds to the log of abortions that raised. */
  lemma AbandonFrame(s: State, e: Event)
    requires Enabled(s, e)
    ensures var s', x := Apply(s, e), if e.AbortProtocol? then s.ops[e.op].session else 0;
            if Raises(s, e, x) then
              s'.abandoned == s.abandoned[x := Remains(s.sessions[x].pendingWaits.Keys, s.sessions[x].tokens)] &&
              s'.sessions == s.sessions[x := s.sessions[x].(status := ABORTED)] && s'.notified == s.notified
            else s'.abandoned == s.abandoned
  {
    var x := if e.AbortProtocol? then s.ops[e.op].session else 0;
    if Raises(s, e, x) { AbandonedBy(s, e, x); } else { NotAbandoned(s, e); }
  }

  lemma EndedStep(s: State, e: Event)
    requires Enabled(s, e) && TakenOnce(s) && EndedIsClean(s)
    ensures EndedIsClean(Apply(s, e))
  {
    var s' := Apply(s, e);
    AbandonFrame(s, e);
    forall x: nat | x < |s'.sessions| && Over(s', x) && x !in s'.abandoned
      ensures s'.sessions[x].pendingWaits == map[] && s'.sessions[x].tokens == {}
    {
      OverStep(s, e, x);
      SessionsStay(s, e);
      if CleansUp(s, e, x) { CleanedUp(s, e); } else { WaitsAndTokensFrame(s, e, x); }
    }
  }

  /** The waits of a session that is not registered are those it had and that are not notified now. */
  lemma WaitsLeft(s: State, e: Event, y: nat)
    requires Enabled(s, e) && NotifiedOnce(s) && y < |s.sessions| <= |Apply(s, e).sessions| && y !in s.registered
    ensures var s' := Apply(s, e);
            && s.notified <= s'.notified
            && s'.sessions[y].pendingWaits.Keys == s.sessions[y].pendingWaits.Keys - s'.notified
  {
    var s' := Apply(s, e);
    if e.StartWait? {
      assert s'.notified == s.notified && s'.sessions[y] == s.sessions[y];
    } else {
      var x, ws := NotifyFrame(s, e);
      if ws != {} && x != y {
        if x < y {
          assert s.sessions[x].pendingWaits.Keys !! s.sessions[y].pendingWaits.Keys;
        } else {
          assert s.sessions[y].pendingWaits.Keys !! s.sessions[x].pendingWaits.Keys;
        }
      }
    }
  }

  lemma RemainsAtStep(s: State, e: Event, x: nat)
    requires Enabled(s, e) && TakenOnce(s) && NotifiedOnce(s) && x in s.abandoned && RemainsAt(s, x)
    ensures x in Apply(s, e).abandoned && RemainsAt(Apply(s, e), x)
  {
    var s' := Apply(s, e);
    SessionsStay(s, e);
    OverStep(s, e, x);
    AbandonFrame(s, e);
    NotDone(s, e, x);
    assert s'.abandoned[x] == s.abandoned[x];
    TokensStay(s, e, x);
    WaitsLeft(s, e, x);
  }

  lemma RemainsStep(s: State, e: Event)
    requires Enabled(s, e) && TakenOnce(s) && NotifiedOnce(s) && RemainsExact(s)
    ensures RemainsExact(Apply(s, e))
  {
    var s' := Apply(s, e);
    AbandonFrame(s, e);
    forall x | x in s'.abandoned ensures RemainsAt(s', x) {
      if x in s.abandoned {
        RemainsAtStep(s, e, x);
      } else {
        assert Raises(s, e, x);
        TakerDone(s, e, x);
        assert s.sessions[x].pendingWaits.Keys <= s.accepted - s.notified;
      }
    }
  }

  /** What a step adds to the log of clients left behind. */
  lemma LeftFrame(s: State, e: Event)
    requires Enabled(s, e)
    ensures Apply(s, e).leftBehind == s.leftBehind +
            if e.RegisterClient? && Over(s, s.ops[e.op].session) then {(s.ops[e.op].session, e.client)}
            else if e.AbortProtocol? && Raises(s, e, s.ops[e.op].session)
            then Pairs(s.ops[e.op].session, s.sessions[s.ops[e.op].session].activeClients)
            else {}
    ensures |Apply(s, e).sessions| >= |s.sessions|
  {
  }

  lemma LeftAtStep(s: State, e: Event, x: nat, c: string)
    requires Enabled(s, e) && TakenOnce(s) && x < |s.sessions| && LeftAt(s, x, c)
    ensures x < |Apply(s, e).sessions| && LeftAt(Apply(s, e), x, c)
  {
    OverStep(s, e, x);
    LeftFrame(s, e);
    if CleansUp(s, e, x) {
      CleanedUp(s, e);
      TakerDone(s, e, x);
    } else if x !in s.registered {
      ClientsFrame(s, e, x);
      if Raises(s, e, x) { TakerDone(s, e, x); }
    }
  }

  lemma LeftStep(s: State, e: Event)
    requires Enabled(s, e) && TakenOnce(s) && LeftExactly(s) && forall p | p in s.leftBehind :: p.0 < |s.sessions|
    ensures LeftExactly(Apply(s, e)) && forall p | p in Apply(s, e).leftBehind :: p.0 < |Apply(s, e).sessions|
  {
    var s' := Apply(s, e);
    LeftFrame(s, e);
    forall x: nat, c | x < |s'.sessions| ensures LeftAt(s', x, c) {
      if x < |s.sessions| {
        assert LeftAt(s, x, c);
        LeftAtStep(s, e, x, c);
      } else {
        OverStep(s, e, x);
      }
    }
  }

  lemma InvStep(s: State, e: Event)
    requires Enabled(s, e) && Inv(s)
    ensures Inv(Apply(s, e))
  {
    TokensStep(s, e);
    TakenStep(s, e);
    ReleasedStep(s, e);
    CompletedStep(s, e);
    WaitsStep(s, e);
    NotifiedStep(s, e);
    AccountedStep(s, e);
    EndedStep(s, e);
    RemainsStep(s, e);
    LeftStep(s, e);
  }

  lemma {:induction false} InvReachable(run: seq<State>)
    requires IsRun(run)
    ensures Inv(run[|run| - 1])
    decreases |run|
  {
    if |run| > 1 {
      InvReachable(run[..|run| - 1]);
      var s, s' := run[|run| - 2], run[|run| - 1];
      assert Step(s, s');
      var e :| Enabled(s, e) && s' == Apply(s, e);
      InvStep(s, e);
    }
  }

  // ---------------------------------------------------------------- safety over whole runs

  /** Each authorization token admits at most one client, and only if it was issued. */
  lemma TokenAdmitsOneClient(run: seq<State>)
    requires IsRun(run)
    ensures var s := run[|run| - 1];
            && (forall i, j | 0 <= i < j < |s.admitted| :: s.admitted[i] != s.admitted[j])
            && (forall t | t in s.admitted :: t in s.issued)
            && (forall x, t | 0 <= x < |s.sessions| && t in s.sessions[x].tokens :: t in s.issued && t !in s.admitted)
  {
    InvReachable(run);
  }

  /** A session is taken by at most one completion or abortion; its result is released at most once,
      after it was taken, and with at least the required number of inputs included; and it is completed exactly if
      its result was released. */
  lemma ResultReleasedOnce(run: seq<State>)
    requires IsRun(run)
    ensures var s := run[|run| - 1];
            && (forall i, j | 0 <= i < j < |s.taken| :: s.taken[i] != s.taken[j])
            && (forall i, j | 0 <= i < j < |s.released| :: s.released[i].session != s.released[j].session)
            && (forall r | r in s.released ::
                  r.session in s.taken && r.session < |s.sessions| && s.sessions[r.session].minimum <= r.included)
            && (forall x | 0 <= x < |s.sessions| ::
                  s.sessions[x].status.COMPLETED? <==> exists r :: r in s.released && r.session == x)
  {
    InvReachable(run);
    var s := run[|run| - 1];
    forall x: nat | x < |s.sessions|
      ensures s.sessions[x].status.COMPLETED? <==> exists r :: r in s.released && r.session == x
    {
      assert CompletedAt(s, x);
    }
  }

  /** No wait is missed or notified twice: an accepted wait is pending or was notified, once; one that
      is pending has its threshold above the included count whenever no submission stands between
      processing its input and checking the waits.  One that is pending on a session that is over was pending when
      the abortion of the session raised: nobody will notify it but a submission still under way. */
  lemma WaitsAreNotified(run: seq<State>, n: nat)
    requires IsRun(run) && n in run[|run| - 1].accepted
    ensures var s := run[|run| - 1];
            && !s.notifiedTwice && (n in s.notified <==> !PendingSomewhere(s, n))
            && (forall x | 0 <= x < |s.sessions| && n in s.sessions[x].pendingWaits ::
                  && (!CheckPending(s, x) ==> s.sessions[x].included < s.sessions[x].pendingWaits[n])
                  && (Over(s, x) <==> x !in s.registered && !InHands(s, x))
                  && (Over(s, x) ==> x in s.abandoned && n in s.abandoned[x].waits))
  {
    InvReachable(run);
    NotifiedOrPending(run[|run| - 1], n);
    PendingWhenOver(run[|run| - 1], n);
  }

  lemma NotifiedOrPending(s: State, n: nat)
    requires NotifiedOnce(s) && Accounted(s) && n in s.accepted
    ensures n in s.notified <==> !PendingSomewhere(s, n)
  {
    if PendingSomewhere(s, n) {
      var x :| 0 <= x < |s.sessions| && n in s.sessions[x].pendingWaits;
      assert n in s.sessions[x].pendingWaits.Keys;
    }
  }

  lemma PendingWhenOver(s: State, n: nat)
    requires TakenOnce(s) && EndedIsClean(s) && RemainsExact(s)
    ensures forall x | 0 <= x < |s.sessions| && n in s.sessions[x].pendingWaits ::
              && (Over(s, x) <==> x !in s.registered && !InHands(s, x))
              && (Over(s, x) ==> x in s.abandoned && n in s.abandoned[x].waits)
  {
    forall x: nat | x < |s.sessions| && n in s.sessions[x].pendingWaits
      ensures Over(s, x) <==> x !in s.registered && !InHands(s, x)
      ensures Over(s, x) ==> x in s.abandoned && n in s.abandoned[x].waits
    {
      assert x in s.taken <==> x !in s.registered;
      assert s.sessions[x].pendingWaits != map[];
      if x in s.abandoned { assert RemainsAt(s, x) && n in s.sessions[x].pendingWaits.Keys; }
    }
  }

  /** The exact remains of a session that is over.  If its abortion raised, it keeps the tokens it had then, and the
      waits it had then and that were not notified since; otherwise it has no token and no wait.  It has none at all if
      and only if its abortion did not raise, or left no token and no wait that is not notified. */
  lemma OverSessionsAreClean(run: seq<State>, x: nat)
    requires IsRun(run) && x < |run[|run| - 1].sessions| && Over(run[|run| - 1], x)
    ensures var s := run[|run| - 1];
            var t := s.sessions[x];
            && (x !in s.abandoned ==> t.pendingWaits == map[] && t.tokens == {})
            && (x in s.abandoned ==>
                  t.tokens == s.abandoned[x].tokens && t.pendingWaits.Keys == s.abandoned[x].waits - s.notified)
            && (t.pendingWaits == map[] && t.tokens == {} <==>
                  x in s.abandoned ==> s.abandoned[x].tokens == {} && s.abandoned[x].waits <= s.notified)
  {
    var s := run[|run| - 1];
    InvReachable(run);
    if x in s.abandoned {
      assert RemainsAt(s, x);
      EmptyWaits(s.sessions[x].pendingWaits, s.abandoned[x].waits, s.notified);
    }
  }

  /** The waits that an event notifies. */
  function Rings(s: State, e: Event): set<nat>
    requires Enabled(s, e)
  {
    if e.CheckWaits? then SatisfiedWaits(s.sessions[s.ops[e.op].session])
    else if e.CleanUp? then s.sessions[s.ops[e.op].session].pendingWaits.Keys
    else if e.ProtocolAborts? && e.session in s.registered then s.sessions[e.session].pendingWaits.Keys
    else {}
  }

  lemma NotifiedByEvent(s: State, e: Event)
    requires Enabled(s, e)
    ensures Apply(s, e).notified == s.notified + Rings(s, e)
  {
  }

  lemma RingsWhenOver(s: State, x: nat, n: nat, e: Event)
    requires TakenOnce(s) && NotifiedOnce(s) && x < |s.sessions| && Over(s, x)
    requires n in s.sessions[x].pendingWaits && Enabled(s, e)
    ensures n in Rings(s, e) <==>
              e.CheckWaits? && s.ops[e.op].session == x && s.sessions[x].pendingWaits[n] <= s.sessions[x].included
  {
    NotDone(s, e, x);
    if e.CheckWaits? || e.CleanUp? {
      DisjointWaits(s, x, s.ops[e.op].session, n);
    } else if e.ProtocolAborts? {
      DisjointWaits(s, x, e.session, n);
    }
  }

  /** A wait left on a session that is over is notified only by a submission that checks the waits, and only if the
      inputs included satisfy it. */
  lemma NotifiedWhenOver(run: seq<State>, x: nat, n: nat, e: Event)
    requires IsRun(run) && x < |run[|run| - 1].sessions| && Over(run[|run| - 1], x)
    requires n in run[|run| - 1].sessions[x].pendingWaits && Enabled(run[|run| - 1], e)
    ensures var s := run[|run| - 1];
            n in Apply(s, e).notified <==>
              e.CheckWaits? && s.ops[e.op].session == x && s.sessions[x].pendingWaits[n] <= s.sessions[x].included
  {
    var s := run[|run| - 1];
    InvReachable(run);
    assert n in s.sessions[x].pendingWaits.Keys && n !in s.notified;
    NotifiedByEvent(s, e);
    RingsWhenOver(s, x, n, e);
  }

  lemma DisjointWaits(s: State, x: nat, y: nat, n: nat)
    requires NotifiedOnce(s) && x < |s.sessions| && y < |s.sessions| && n in s.sessions[x].pendingWaits
    ensures n in s.sessions[y].pendingWaits <==> x == y
  {
    assert n in s.sessions[x].pendingWaits.Keys;
    assert x < y ==> s.sessions[x].pendingWaits.Keys !! s.sessions[y].pendingWaits.Keys;
    assert y < x ==> s.sessions[y].pendingWaits.Keys !! s.sessions[x].pendingWaits.Keys;
  }

  lemma EmptyWaits(m: map<nat, int>, waits: set<nat>, notified: set<nat>)
    requires m.Keys == waits - notified
    ensures m == map[] <==> waits <= notified
  {
    assert waits <= notified + m.Keys;
    assert m.Keys == {} <==> m == map[];
  }

  /** The clients of a session that is over are exactly those registered when it was, of uploads begun before, and
      those it had when its abortion raised; none of them is ever taken out again. */
  lemma ClientsLeftBehind(run: seq<State>, x: nat, e: Event)
    requires IsRun(run) && x < |run[|run| - 1].sessions| && Over(run[|run| - 1], x) && Enabled(run[|run| - 1], e)
    ensures var s := run[|run| - 1];
            && (forall c :: c in s.sessions[x].activeClients <==> (x, c) in s.leftBehind)
            && x < |Apply(s, e).sessions| && s.sessions[x].activeClients <= Apply(s, e).sessions[x].activeClients
  {
    var s := run[|run| - 1];
    InvReachable(run);
    forall c ensures c in s.sessions[x].activeClients <==> (x, c) in s.leftBehind { assert LeftAt(s, x, c); }
    ClientsStay(s, e, x);
  }

  lemma ClientsStay(s: State, e: Event, x: nat)
    requires Enabled(s, e) && TakenOnce(s) && x < |s.sessions| && Over(s, x)
    ensures x < |Apply(s, e).sessions| && s.sessions[x].activeClients <= Apply(s, e).sessions[x].activeClients
  {
    SessionsStay(s, e);
    NotDone(s, e, x);
    ClientsFrame(s, e, x);
  }

  /** Nobody finishes with a session that is over. */
  lemma NotDone(s: State, e: Event, x: nat)
    requires Over(s, x)
    ensures !CleansUp(s, e, x) && !Raises(s, e, x)
  {
    assert forall i | 0 <= i < |s.ops| :: !(Taker(s.ops[i]) && s.ops[i].session == x);
  }

  /** A failing protocol notifies the waits it finds.  A wait that comes later, while the failed
      session has not been completed or aborted, is accepted all the same exactly when its threshold is
      above the included count: the status is not looked at. */
  lemma WaitAfterFailure(s: State, x: nat, w: nat, threshold: int)
    requires Registered(s, x) && w !in s.accepted
    ensures var failed := Apply(s, ProtocolAborts(x));
            && failed.sessions[x].pendingWaits == map[] && failed.sessions[x].status.FAILED?
            && (w in Apply(failed, StartWait(x, w, threshold)).sessions[x].pendingWaits
                <==> failed.sessions[x].included < threshold)
  {
  }

  // ---------------------------------------------------------------- what a request achieves

  /** A completion goes on to release the result exactly if the session is pending, has its minimum of inputs and an
      open protocol; a pending session that does not is failed. */
  lemma MinimumDecides(s: State, i: nat)
    requires Enabled(s, CheckMinimum(i))
    ensures var x, s' := s.ops[i].session, Apply(s, CheckMinimum(i));
            var t := s.sessions[x];
            && (s'.ops[i] == Releasing(x) <==> t.status.PENDING? && t.minimum <= t.included && t.protocolOpen)
            && (s'.ops[i] == Cleaning(x) <==> !(t.status.PENDING? && t.minimum <= t.included && t.protocolOpen))
            && s'.released == s.released
            && s'.sessions[x].status == (if t.status.PENDING? && s'.ops[i].Cleaning? then FAILED else t.status)
            && (t.status.PENDING? && t.included < t.minimum ==> !s'.sessions[x].protocolOpen)
  {
  }

  /** The end of a protocol closes it: its own, an abortion's, or that of a delivered result. */
  lemma ProtocolCloses(s: State, e: Event)
    requires Enabled(s, e)
    ensures e.ProtocolAborts? ==> !Apply(s, e).sessions[e.session].protocolOpen
    ensures e.AbortProtocol? && s.sessions[s.ops[e.op].session].status.PENDING? ==>
              !Apply(s, e).sessions[s.ops[e.op].session].protocolOpen
    ensures e.CollectResult? && e.ok ==> !Apply(s, e).sessions[s.ops[e.op].session].protocolOpen
  {
  }

  /** The abortion of an upload takes its client out and leaves everything else alone. */
  lemma UploadAborted(s: State, x: nat, client: string)
    requires Enabled(s, AbortUpload(x, client))
    ensures var s' := Apply(s, AbortUpload(x, client));
            && s' == s.(sessions := s'.sessions) && |s'.sessions| == |s.sessions|
            && s'.sessions[x] == s.sessions[x].(activeClients := s.sessions[x].activeClients - {client})
            && forall y | 0 <= y < |s.sessions| && y != x :: s'.sessions[y] == s.sessions[y]
  {
  }

  /** Taking a session out for completion or abortion leaves it as it is. */
  lemma TakingLeavesSession(s: State, x: nat)
    requires Registered(s, x)
    ensures Apply(s, Complete(x)) ==
            s.(registered := s.registered - {x}, taken := s.taken + [x], ops := s.ops + [Completing(x)])
    ensures Apply(s, Abort(x)) ==
            s.(registered := s.registered - {x}, taken := s.taken + [x], ops := s.ops + [Aborting(x)])
  {
    assert s.sessions[x := s.sessions[x]] == s.sessions;
  }

  /** A whole completion that nobody interferes with, `ok` being whether the protocol delivers a result. */
  function Completion(s: State, x: nat, ok: bool): State
    requires Registered(s, x)
  {
    var i := |s.ops|;
    var checked := Apply(Apply(s, Complete(x)), CheckMinimum(i));
    Apply(if checked.ops[i].Releasing? then Apply(checked, CollectResult(i, ok)) else checked, CleanUp(i))
  }

  lemma CompletionReleases(s: State, x: nat, ok: bool)
    requires Registered(s, x)
    ensures var t, s' := s.sessions[x], Completion(s, x, ok);
            var due := t.status.PENDING? && t.minimum <= t.included && t.protocolOpen && ok;
            && s'.released == s.released + (if due then [Release(x, t.included)] else [])
            && s'.sessions[x].status == (if due then COMPLETED else if t.status.PENDING? then FAILED else t.status)
            && s'.sessions[x].pendingWaits == map[] && s'.sessions[x].tokens == {} && s'.sessions[x].activeClients == {}
            && s'.notified == s.notified + t.pendingWaits.Keys && x !in s'.registered
  {
  }

  /** A whole abortion that nobody interferes with. */
  lemma AbortionEnds(s: State, x: nat)
    requires Registered(s, x)
    ensures var t, i, aborted := s.sessions[x], |s.ops|, Apply(Apply(s, Abort(x)), AbortProtocol(|s.ops|));
            if t.status.PENDING? && !t.protocolOpen
            then && aborted.ops[i].Ended? && aborted.sessions[x] == t.(status := ABORTED)
                 && aborted.abandoned == s.abandoned[x := Remains(t.pendingWaits.Keys, t.tokens)]
            else && Enabled(aborted, CleanUp(i))
                 && var s' := Apply(aborted, CleanUp(i));
                    && s'.sessions[x].status == (if t.status.PENDING? then ABORTED else t.status)
                    && s'.sessions[x].pendingWaits == map[] && s'.sessions[x].tokens == {}
                    && s'.sessions[x].activeClients == {}
                    && s'.notified == s.notified + t.pendingWaits.Keys && x !in s'.registered
  {
  }

  /** A whole upload that nobody interferes with: the token is spent, the client comes and goes, the input is counted
      if it is included, and then exactly the waits satisfied by the new count are notified. */
  function Upload(s: State, x: nat, token: string, client: string): State
    requires Registered(s, x) && token in s.sessions[x].tokens && client !in s.sessions[x].activeClients
  {
    var i := |s.ops|;
    var registered := Apply(Apply(s, StartUpload(x, token)), RegisterClient(i, client));
    Apply(registered, Submit(x, client))
  }

  lemma UploadCounts(s: State, x: nat, token: string, client: string)
    requires Registered(s, x) && token in s.sessions[x].tokens && client !in s.sessions[x].activeClients
    ensures var t, i, submitted := s.sessions[x], |s.ops| + 1, Upload(s, x, token, client);
            && submitted.sessions[x] == t.(tokens := t.tokens - {token}) && submitted.admitted == s.admitted + [token]
            && Enabled(submitted, ProcessInput(i, true)) && Enabled(submitted, ProcessInput(i, false))
            && Apply(submitted, ProcessInput(i, false)).sessions == submitted.sessions
            && Enabled(Apply(submitted, ProcessInput(i, true)), CheckWaits(i))
            && var s' := Apply(Apply(submitted, ProcessInput(i, true)), CheckWaits(i));
               && s'.sessions[x].included == t.included + 1
               && (forall w :: w in s'.sessions[x].pendingWaits <==>
                                 w in t.pendingWaits && t.included + 1 < t.pendingWaits[w])
               && (forall w :: w in s'.notified <==>
                                 w in s.notified || (w in t.pendingWaits && t.pendingWaits[w] <= t.included + 1))
  {
    assert s.sessions[x].activeClients + {client} - {client} == s.sessions[x].activeClients;
  }

  /** A wait is accepted exactly if its threshold is above the count, whatever the status. */
  lemma WaitAccepted(s: State, x: nat, w: nat, threshold: int)
    requires Enabled(s, StartWait(x, w, threshold))
    ensures var t, s' := s.sessions[x], Apply(s, StartWait(x, w, threshold));
            if t.included < threshold
            then s'.sessions[x].pendingWaits == t.pendingWaits[w := threshold] && s'.accepted == s.accepted + {w}
            else s' == s
  {
  }

  /** A registered session serves every request, and no request that has begun is stuck. */
  lemma NothingBlocks(s: State, x: nat, tokens: set<string>, token: string, client: string, w: nat, threshold: int)
    requires Registered(s, x)
    ensures Enabled(s, PreAuthorize(x, tokens)) <==> tokens !! s.issued
    ensures Enabled(s, StartUpload(x, token)) <==> token in s.sessions[x].tokens
    ensures Enabled(s, Submit(x, client)) <==> client in s.sessions[x].activeClients
    ensures Enabled(s, AbortUpload(x, client)) <==> client in s.sessions[x].activeClients
    ensures Enabled(s, StartWait(x, w, threshold)) <==> w !in s.accepted
    ensures Enabled(s, Complete(x)) && Enabled(s, Abort(x)) && Enabled(s, ProtocolAborts(x))
    ensures forall i | 0 <= i < |s.ops| && s.ops[i] != Ended && s.ops[i].session < |s.sessions| ::
              exists e :: HasOp(e) && e.op == i && Enabled(s, e)
  {
    forall i: nat | i < |s.ops| && s.ops[i] != Ended && s.ops[i].session < |s.sessions|
      ensures exists e :: HasOp(e) && e.op == i && Enabled(s, e)
    {
      var op := s.ops[i];
      var e := if op.Starting? then RegisterClient(i, client)
               else if op.Submitting? then ProcessInput(i, true)
               else if op.Submitted? then CheckWaits(i)
               else if op.Completing? then CheckMinimum(i)
               else if op.Releasing? then CollectResult(i, true)
               else if op.Aborting? then AbortProtocol(i)
               else CleanUp(i);
      assert HasOp(e) && e.op == i && Enabled(s, e);
    }
  }

  // ---------------------------------------------------------------- two runs

  lemma ExtendRun(run: seq<State>, e: Event, next: State) returns (longer: seq<State>)
    requires IsRun(run) && Enabled(run[|run| - 1], e) && next == Apply(run[|run| - 1], e)
    ensures IsRun(longer) && longer[|longer| - 1] == next
  {
    longer := run + [next];
    assert Step(run[|run| - 1], longer[|run|]);
    assert forall i | 0 <= i < |run| :: longer[i] == run[i];
  }

  /** A service whose only session has issued one token. */
  function Opened(minimum: int, token: string): State {
    var t := Session(minimum, PENDING, {token}, {}, map[], 0, true);
    State([t], {0}, [], {token}, [], [], [], {}, {}, false, {}, map[])
  }

  lemma OpenSession(minimum: int, token: string) returns (run: seq<State>)
    ensures IsRun(run) && run[|run| - 1] == Opened(minimum, token)
  {
    var empty := State([], {}, [], {}, [], [], [], {}, {}, false, {}, map[]);
    var s := Opened(minimum, token);
    run := [empty];
    run := ExtendRun(run, CreateSession(minimum), s.(sessions := [s.sessions[0].(tokens := {})], issued := {}));
    assert {} + {token} == {token};
    run := ExtendRun(run, PreAuthorize(0, {token}), s);
  }

  /** A wait and a token can be left on a session that is over: the protocol closes by itself between the moments when
      the abortion takes the session out and when it calls Abort(). */
  lemma AbandonedSession(minimum: int, token: string, w: nat, threshold: int) returns (run: seq<State>)
    requires threshold > 0
    ensures IsRun(run)
    ensures var s := run[|run| - 1];
            && |s.sessions| == 1 && Over(s, 0) && s.abandoned == map[0 := Remains({w}, {token})]
            && s.sessions[0].pendingWaits == map[w := threshold] && s.sessions[0].tokens == {token} && w !in s.notified
  {
    run := OpenSession(minimum, token);
    var s := Opened(minimum, token);
    var t := s.sessions[0].(pendingWaits := map[w := threshold]);
    s := s.(sessions := [t], accepted := {w});
    run := ExtendRun(run, StartWait(0, w, threshold), s);
    s := s.(registered := {}, taken := [0], ops := [Aborting(0)]);
    run := ExtendRun(run, Abort(0), s);
    s := s.(sessions := [t.(protocolOpen := false)]);
    run := ExtendRun(run, ProtocolAborts(0), s);
    s := s.(sessions := [t.(protocolOpen := false, status := ABORTED)], ops := [Ended],
            abandoned := map[0 := Remains({w}, {token})]);
    assert t.pendingWaits.Keys == {w};
    run := ExtendRun(run, AbortProtocol(0), s);
  }

  /** The only session was aborted and cleaned up while an upload was starting. */
  function CleanedUpTooSoon(minimum: int, token: string): State {
    var t := Session(minimum, ABORTED, {}, {}, map[], 0, false);
    State([t], {}, [Starting(0), Ended], {token}, [token], [0], [], {}, {}, false, {}, map[])
  }

  lemma CleanUpTooSoon(minimum: int, token: string) returns (run: seq<State>)
    ensures IsRun(run) && run[|run| - 1] == CleanedUpTooSoon(minimum, token)
  {
    run := OpenSession(minimum, token);
    var s := Opened(minimum, token);
    assert {token} - {token} == {} && [] + [token] == [token];
    s := s.(sessions := [s.sessions[0].(tokens := {})], ops := [Starting(0)], admitted := [token]);
    run := ExtendRun(run, StartUpload(0, token), s);
    s := s.(registered := {}, taken := [0], ops := [Starting(0), Aborting(0)]);
    run := ExtendRun(run, Abort(0), s);
    s := CleanedUpTooSoon(minimum, token).(ops := [Starting(0), Cleaning(0)]);
    run := ExtendRun(run, AbortProtocol(1), s);
    run := ExtendRun(run, CleanUp(1), CleanedUpTooSoon(minimum, token));
  }

  /** A client can be left on a session that was cleaned up: its upload began before. */
  lemma LateClient(minimum: int, token: string, client: string) returns (run: seq<State>)
    ensures IsRun(run)
    ensures var s := run[|run| - 1];
            && |s.sessions| == 1 && Over(s, 0) && s.abandoned == map[]
            && s.sessions[0].activeClients == {client} && s.leftBehind == {(0, client)}
  {
    run := CleanUpTooSoon(minimum, token);
    var s := CleanedUpTooSoon(minimum, token);
    assert Over(s, 0) && {} + {client} == {client} && {} + {(0, client)} == {(0, client)};
    s := s.(sessions := [s.sessions[0].(activeClients := {client})], ops := [Ended, Ended],
            leftBehind := {(0, client)});
    run := ExtendRun(run, RegisterClient(0, client), s);
  }

  /** The mutable state of one session, with the locked sections that change it.  In each contract `s` is the state
      of the service and `x` the number of this session in it: the section does to the fields what the event of
      the step system does to session `x`, so what holds of every run holds of the object. */
  class SessionState {
    const minimum: int
    var status: SessionStatus
    var authorizationTokens: set<string>
    var activeClients: set<string>
    var pendingWaits: map<nat, int>

    /** This object is session `x`, whose protocol the service state knows. */
    ghost predicate Is(s: State, x: nat)
      reads this
    {
      x < |s.sessions| &&
      s.sessions[x] == Session(minimum, status, authorizationTokens, activeClients, pendingWaits,
                               s.sessions[x].included, s.sessions[x].protocolOpen)
    }

    constructor (minimum: int, ghost s: State)
      ensures Is(Apply(s, CreateSession(minimum)), |s.sessions|)
    {
      this.minimum := minimum;
      status, authorizationTokens, activeClients, pendingWaits := PENDING, {}, {}, map[];
    }

    /** False for the 401 answer.  A token that is accepted was never accepted before. */
    method RedeemToken(token: string, ghost s: State, ghost x: nat) returns (ok: bool)
      requires Is(s, x) && Registered(s, x) && Inv(s)
      modifies this`authorizationTokens
      ensures ok <==> Enabled(s, StartUpload(x, token))
      ensures ok ==> Is(Apply(s, StartUpload(x, token)), x) && token in s.issued && token !in s.admitted
      ensures !ok ==> Is(s, x)
    {
      ok := token in authorizationTokens;
      authorizationTokens := authorizationTokens - {token};
      if !ok { assert authorizationTokens == old(authorizationTokens); }
    }

    /** False for the 401 answer; for a submission and for the abortion of an upload. */
    method TakeClient(client: string, ghost s: State, ghost x: nat) returns (ok: bool)
      requires Is(s, x) && Registered(s, x)
      modifies this`activeClients
      ensures ok <==> Enabled(s, Submit(x, client)) && Enabled(s, AbortUpload(x, client))
      ensures ok ==> Is(Apply(s, Submit(x, client)), x) && Is(Apply(s, AbortUpload(x, client)), x)
      ensures ok ==> !Enabled(Apply(s, Submit(x, client)), AbortUpload(x, client))
      ensures !ok ==> Is(s, x)
    {
      ok := client in activeClients;
      activeClients := activeClients - {client};
      if !ok { assert activeClients == old(activeClients); }
    }

    /** None as the threshold asks for no condition.  Returns whether the caller has to block. */
    method AddWait(id: nat, threshold: Option<int>, included: nat, ghost s: State, ghost x: nat)
      returns (blocked: bool)
      requires Is(s, x) && Registered(s, x) && id !in s.accepted && included == s.sessions[x].included
      modifies this`pendingWaits
      ensures blocked <==> threshold.Some? && included < threshold.value
      ensures pendingWaits == if blocked then old(pendingWaits)[id := threshold.value] else old(pendingWaits)
      ensures if threshold.None? then Is(s, x) else Is(Apply(s, StartWait(x, id, threshold.value)), x)
    {
      if threshold.None? || threshold.value <= included { return false; }
      pendingWaits := pendingWaits[id := threshold.value];
      blocked := true;
    }

    /** After a submission: exactly the satisfied waits are completed, and none of those left is. */
    method CompleteSatisfiedWaits(included: nat, ghost s: State, ghost i: nat) returns (completed: set<nat>)
      requires Enabled(s, CheckWaits(i)) && Is(s, s.ops[i].session)
      requires included == s.sessions[s.ops[i].session].included
      modifies this`pendingWaits
      ensures completed == SatisfiedWaits(s.sessions[s.ops[i].session])
      ensures forall w | w in pendingWaits :: included < pendingWaits[w]
      ensures Is(Apply(s, CheckWaits(i)), s.ops[i].session)
    {
      completed := {};
      var rest := pendingWaits.Keys;
      while rest != {}
        invariant rest <= pendingWaits.Keys && completed <= pendingWaits.Keys
        invariant forall w | w in pendingWaits && w !in rest :: w in completed <==> pendingWaits[w] <= included
        invariant completed !! rest
        decreases rest
      {
        var w :| w in rest;
        if pendingWaits[w] <= included { completed := completed + {w}; }
        rest := rest - {w};
      }
      pendingWaits := pendingWaits - completed;
    }

    /** The abortion up to its clean-up; true if Abort() raised, which ends it at once. */
    method AbortProtocolOf(open: bool, ghost s: State, ghost i: nat) returns (raised: bool)
      requires Enabled(s, AbortProtocol(i)) && Is(s, s.ops[i].session)
      requires open == s.sessions[s.ops[i].session].protocolOpen
      modifies this`status
      ensures Is(Apply(s, AbortProtocol(i)), s.ops[i].session)
      ensures raised <==> Apply(s, AbortProtocol(i)).ops[i].Ended?
      ensures raised ==> s.ops[i].session in Apply(s, AbortProtocol(i)).abandoned
      ensures !raised ==> Enabled(Apply(s, AbortProtocol(i)), CleanUp(i))
    {
      raised := false;
      if status.PENDING? {
        status := ABORTED;
        raised := !open;
      }
    }

    /** Every wait is notified, for the first time, and the session is over. */
    method CleanUpSession(ghost s: State, ghost i: nat) returns (notified: set<nat>)
      requires Enabled(s, CleanUp(i)) && Is(s, s.ops[i].session) && Inv(s)
      modifies this`authorizationTokens, this`activeClients, this`pendingWaits
      ensures Is(Apply(s, CleanUp(i)), s.ops[i].session) && Over(Apply(s, CleanUp(i)), s.ops[i].session)
      ensures notified !! s.notified && Apply(s, CleanUp(i)).notified == s.notified + notified
    {
      notified := pendingWaits.Keys;
      authorizationTokens, activeClients, pendingWaits := {}, {}, map[];
      TakerDone(s, CleanUp(i), s.ops[i].session);
    }
  }
}
