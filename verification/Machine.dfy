/** The broker as a state machine: memory, disk and the history of answers.

    One step is one critical section of a handler, one sweep of the janitor, or a
    crash followed by a restart. A process holds at most one `pending` object per
    request id, so a reference to an object is the id: `mem` maps every object of
    this process to its value, `live` says which of them are still in `server.p`,
    and an object in `mem` outside `live` is an orphan that only handlers already
    holding a reference (`refs`) can reach.

    The crash just before a snapshot is published is `CrashRestart`; the crash just
    after it is the published step followed by `CrashRestart`, the history then
    counting an answer the client may never have received. */
module Machine {
  import opened Records
  import opened Sessions
  import opened Recovery

  /** - `log`: every success answer, in order.
      - `used`: request ids ever generated; `owner`: session tokens ever generated.
      - `handed`: the token the latest successful status answer gave an approved session.
      - `leased`: the commands ever taken off a queue by a poll, with the end of the
        lease the latest poll gave.
      - `clean`: no save has failed so far. */
  datatype History = History(
    log: seq<Event>,
    used: set<SessionId>,
    owner: map<Token, SessionId>,
    handed: map<SessionId, Token>,
    leased: map<(SessionId, CommandId), Time>,
    clean: bool)

  /** `tickets` are the capability checks `enqueue` has passed in its first critical section. */
  datatype State = State(
    mem: map<SessionId, Session>,
    live: set<SessionId>,
    disk: map<SessionId, Session>,
    refs: set<SessionId>,
    tickets: set<(SessionId, Capability)>,
    hist: History)

  /** The critical sections about one session. */
  datatype Call =
    | CallApprove(minutes: int, token: Token, now: Time)
    | CallReject
    | CallEnqueue(command: Command)
    | CallAdminRevoke
    | CallResults(consume: bool)
    | CallStatus(pollToken: Token, replacement: Token, now: Time)
    | CallGuestRevoke
    | CallPoll(now: Time, order: seq<CommandId>)
    | CallAck(cid: CommandId, now: Time)
    | CallPost(result: Result)

  /** `ok` is the outcome of saving, when the step saves. */
  datatype Label =
    | Pair(origin: Origin, ok: bool)
    | Handle(sid: SessionId, call: Call, ok: bool)
    | Authenticate(sid: SessionId, token: Token, now: Time)
    | Authorise(sid: SessionId, name: Capability)
    | Sweep(now: Time, ok: bool)
    | CrashRestart(now: Time, next: map<SessionId, Session>)

  const EMPTY: State := State(map[], {}, map[], {}, {}, History([], {}, map[], map[], map[], true))

  // ------------------------------------------------------------------- steps

  function Snapshot(mem: map<SessionId, Session>, live: set<SessionId>): map<SessionId, Session> {
    map sid | sid in live && sid in mem :: Strip(mem[sid])
  }

  predicate ByReference(call: Call) {
    call.CallGuestRevoke? || call.CallPoll? || call.CallAck? || call.CallPost?
  }

  function Decide(x: Session, call: Call): Decision {
    match call
    case CallApprove(minutes, token, now) => Approve(x, minutes, token, now)
    case CallReject => Reject(x)
    case CallEnqueue(command) => Enqueue(x, command)
    case CallAdminRevoke => AdminRevoke(x)
    case CallResults(consume) => ReadResults(x, consume)
    case CallStatus(pollToken, replacement, now) => PairStatus(x, pollToken, replacement, now)
    case CallGuestRevoke => GuestRevoke(x)
    case CallPoll(now, order) => PollPass(x, now, order)
    case CallAck(cid, now) => Ack(x, cid, now)
    case CallPost(result) => PostResult(x, result)
  }

  function EventList(event: Option<Event>): seq<Event> { if event.Some? then [event.value] else [] }

  function LeaseEnd(x: Session, cid: CommandId): Time {
    if cid in x.commands && x.commands[cid].leaseUntil.Some? then x.commands[cid].leaseUntil.value else 0
  }

  function Leasings(sid: SessionId, good: Session, popped: set<CommandId>): (r: map<(SessionId, CommandId), Time>)
    ensures forall k, cid :: (k, cid) in r <==> k == sid && cid in popped
    ensures forall cid :: cid in popped ==> (sid, cid) in r && r[(sid, cid)] == LeaseEnd(good, cid)
  {
    map p | p in (set cid | cid in popped :: (sid, cid)) :: LeaseEnd(good, p.1)
  }

  function Settle(s: State, sid: SessionId, d: Decision, ok: bool): State {
    match d
    case Answer(_) => s
    case Local(next) => s.(mem := s.mem[sid := next])
    case Commit(good, bad, _, event, popped) =>
      var leased := s.hist.leased + Leasings(sid, good, popped);
      if ok then
        var mem := s.mem[sid := good];
        s.(mem := mem, disk := Snapshot(mem, s.live),
           hist := s.hist.(log := s.hist.log + EventList(event), leased := leased))
      else
        s.(mem := s.mem[sid := bad], hist := s.hist.(leased := leased, clean := false))
  }

  // The session token a call draws once it has passed its checks.
  function Draw(owner: map<Token, SessionId>, sid: SessionId, call: Call): map<Token, SessionId> {
    match call
    case CallApprove(_, token, _) => owner[token := sid]
    case CallStatus(_, replacement, _) => owner[replacement := sid]
    case _ => owner
  }

  predicate Answered(d: Decision, ok: bool, code: int) {
    match d
    case Answer(c) => c == code
    case Local(_) => false
    case Commit(_, _, c, _, _) => ok && c == code
  }

  // A status answer of 200 shows an approved session's clear token, when memory has it.
  function Hand(s: State, before: Session, sid: SessionId, call: Call, ok: bool): State {
    if sid in s.mem && call.CallStatus? && Answered(Decide(before, call), ok, 200)
       && s.mem[sid].phase == Approved && s.mem[sid].sessionToken.Some?
    then s.(hist := s.hist.(handed := s.hist.handed[sid := s.mem[sid].sessionToken.value]))
    else s
  }

  function HandleCall(s: State, sid: SessionId, call: Call, ok: bool): State {
    if sid !in s.mem || (!ByReference(call) && sid !in s.live) then s
    else
      var d := Decide(s.mem[sid], call);
      var drawn := if d.Commit? then s.(hist := s.hist.(owner := Draw(s.hist.owner, sid, call))) else s;
      Hand(Settle(drawn, sid, d, ok), s.mem[sid], sid, call, ok)
  }

  function PairStep(s: State, origin: Origin, ok: bool): State {
    var sid := origin.requestId;
    var t := s.(hist := s.hist.(used := s.hist.used + {sid}));
    if ok then
      var mem := t.mem[sid := NewSession(origin)];
      var live := t.live + {sid};
      t.(mem := mem, live := live, disk := Snapshot(mem, live))
    else t.(hist := t.hist.(clean := false))
  }

  predicate Swept(x: Session, now: Time) {
    || (x.phase == Pending && now - x.origin.createdAt > PENDING_LIFETIME)
    || ((x.phase == Revoked || x.phase == Rejected || (x.expiresAt.Some? && IsAfter(now, x.expiresAt)))
        && now - x.origin.createdAt > PENDING_LIFETIME)
  }

  function SweepStep(s: State, now: Time, ok: bool): State {
    var gone := set sid | sid in s.live && sid in s.mem && Swept(s.mem[sid], now);
    var live := s.live - gone;
    if gone == {} then s
    else if ok then s.(live := live, disk := Snapshot(s.mem, live))
    else s.(live := live, hist := s.hist.(clean := false))
  }

  predicate Authenticates(x: Session, token: Token, now: Time) {
    x.tokenHash == HashOf(token) && x.phase == Approved && IsBefore(now, x.expiresAt)
  }

  function Restarted(s: State, next: map<SessionId, Session>): State {
    State(next, next.Keys, Snapshot(next, next.Keys), {}, {}, s.hist)
  }

  function Apply(s: State, l: Label): State {
    match l
    case Pair(origin, ok) => PairStep(s, origin, ok)
    case Handle(sid, call, ok) => HandleCall(s, sid, call, ok)
    case Authenticate(sid, _, _) => s.(refs := s.refs + {sid})
    case Authorise(sid, name) => s.(tickets := s.tickets + {(sid, name)})
    case Sweep(now, ok) => SweepStep(s, now, ok)
    case CrashRestart(_, next) => Restarted(s, next)
  }

  ghost predicate CallEnabled(s: State, sid: SessionId, call: Call) {
    match call
    case CallApprove(_, token, _) => token !in s.hist.owner
    case CallStatus(_, replacement, _) => replacement !in s.hist.owner
    case CallEnqueue(command) => (sid, command.name) in s.tickets && command.id != ""
    case CallPoll(now, order) => sid in s.mem ==> ExpiryOrder(s.mem[sid], now, order)
    case _ => true
  }

  /** Ids and tokens are drawn afresh; a guest handler's body needs a reference;
      the body of `enqueue` needs the capability check. */
  ghost predicate Enabled(s: State, l: Label) {
    match l
    case Pair(origin, _) => origin.requestId !in s.hist.used
    case Handle(sid, call, _) => (ByReference(call) ==> sid in s.refs) && CallEnabled(s, sid, call)
    case Authenticate(sid, token, now) => sid in s.live && sid in s.mem && Authenticates(s.mem[sid], token, now)
    case Authorise(sid, name) => sid in s.live && sid in s.mem && name in s.mem[sid].origin.request.requested
    case Sweep(_, _) => true
    case CrashRestart(now, next) => RecoveredMap(s.disk, now, next)
  }

  ghost predicate IsRun(states: seq<State>, labels: seq<Label>) {
    && |states| == |labels| + 1
    && states[0] == EMPTY
    && forall i :: 0 <= i < |labels| ==> IsStep(states, labels, i)
  }

  ghost predicate IsStep(states: seq<State>, labels: seq<Label>, i: nat)
    requires i < |labels| < |states|
  {
    Enabled(states[i], labels[i]) && states[i + 1] == Apply(states[i], labels[i])
  }

  // --------------------------------------------------------------- invariants

  /** Memory and disk are sound, and the disk is behind memory. */
  ghost predicate Core(s: State) {
    && s.live <= s.mem.Keys && s.refs <= s.mem.Keys
    && s.live <= s.disk.Keys
    && s.mem.Keys <= s.hist.used && s.disk.Keys <= s.hist.used
    && (forall sid :: sid in s.mem ==> Sound(s.mem[sid]) && s.mem[sid].origin.requestId == sid)
    && (forall sid :: sid in s.disk ==> Sound(s.disk[sid]) && s.disk[sid].origin.requestId == sid)
    && (forall sid :: sid in s.disk ==> s.disk[sid].sessionToken == None)
    && (forall sid :: sid in s.mem && sid in s.disk ==> Behind(s.disk[sid], s.mem[sid]))
    && (forall t :: t in s.tickets ==> t.0 in s.mem && t.1 in s.mem[t.0].origin.request.requested)
  }

  ghost predicate OwnedBy(x: Session, owner: map<Token, SessionId>, sid: SessionId) {
    x.tokenHash.HashOf? ==> x.tokenHash.clear in owner && owner[x.tokenHash.clear] == sid
  }

  ghost predicate StillHanded(x: Session, handed: map<SessionId, Token>, sid: SessionId) {
    sid in handed ==>
      x.phase == Revoked || (x.phase == Approved && x.tokenHash == HashOf(handed[sid]))
  }

  ghost predicate TokensOf(m: map<SessionId, Session>, hist: History) {
    forall sid :: sid in m ==> OwnedBy(m[sid], hist.owner, sid) && StillHanded(m[sid], hist.handed, sid)
  }

  /** Every token hash belongs to the session it was drawn for. */
  ghost predicate Tokens(s: State) {
    TokensOf(s.mem, s.hist) && TokensOf(s.disk, s.hist) && s.hist.handed.Keys <= s.hist.used
  }

  ghost predicate HonouredIn(m: map<SessionId, Session>, e: Event) {
    e.sid in m ==> Honours(m[e.sid], e)
  }

  /** Everything ever reported holds in memory and would hold after any crash. */
  ghost predicate Promises(s: State) {
    forall e :: e in s.hist.log ==> e.sid in s.hist.used && HonouredIn(s.mem, e) && HonouredIn(s.disk, e)
  }

  ghost predicate NoRepeats(log: seq<Event>) {
    forall i, j :: 0 <= i < j < |log| && log[i].sid == log[j].sid ==> !Excludes(log[i], log[j])
  }

  ghost predicate Inv(s: State) {
    Core(s) && Tokens(s) && Promises(s) && NoRepeats(s.hist.log)
  }

  // ------------------------------------------------------- steps keep the core

  lemma DecideProper(s: State, sid: SessionId, call: Call)
    requires Core(s) && sid in s.mem && CallEnabled(s, sid, call)
    ensures Proper(s.mem[sid], Decide(s.mem[sid], call))
  {
    var x := s.mem[sid];
    match call
    case CallApprove(minutes, token, now) => ApproveProper(x, minutes, token, now);
    case CallReject => RejectProper(x);
    case CallEnqueue(command) =>
      assert (sid, command.name) in s.tickets;
      EnqueueProper(x, command);
    case CallAdminRevoke => RevokeProper(x);
    case CallResults(consume) => ReadResultsProper(x, consume);
    case CallStatus(pollToken, replacement, now) => PairStatusProper(x, pollToken, replacement, now);
    case CallGuestRevoke => RevokeProper(x);
    case CallPoll(now, order) => PollPassProper(x, now, order);
    case CallAck(cid, now) => AckProper(x, cid, now);
    case CallPost(result) => PostResultProper(x, result);
  }

  lemma SnapshotSound(mem: map<SessionId, Session>, live: set<SessionId>)
    requires forall sid :: sid in mem ==> Sound(mem[sid])
    ensures forall sid :: sid in Snapshot(mem, live) ==>
              Sound(Snapshot(mem, live)[sid]) && Behind(Snapshot(mem, live)[sid], mem[sid])
  {
    forall sid | sid in Snapshot(mem, live)
      ensures Sound(Snapshot(mem, live)[sid]) && Behind(Snapshot(mem, live)[sid], mem[sid])
    {
      StripKeeps(mem[sid]);
    }
  }

  lemma SettleKeepsCore(s: State, sid: SessionId, d: Decision, ok: bool)
    requires Core(s) && sid in s.mem && Proper(s.mem[sid], d)
    ensures Core(Settle(s, sid, d, ok))
  {
    var t := Settle(s, sid, d, ok);
    if d.Commit? {
      if ok {
        SnapshotSound(t.mem, t.live);
      } else if sid in s.disk {
        BehindTransitive(s.disk[sid], s.mem[sid], d.bad);
      }
    }
  }

  lemma PairKeepsCore(s: State, origin: Origin, ok: bool)
    requires Core(s) && origin.requestId !in s.hist.used
    ensures Core(PairStep(s, origin, ok))
  {
    var t := PairStep(s, origin, ok);
    NewSessionSound(origin);
    if ok { SnapshotSound(t.mem, t.live); }
  }

  lemma SweepKeepsCore(s: State, now: Time, ok: bool)
    requires Core(s)
    ensures Core(SweepStep(s, now, ok))
  {
    SnapshotSound(s.mem, SweepStep(s, now, ok).live);
  }

  lemma RecoveredKeeps(s: State, now: Time, next: map<SessionId, Session>)
    requires Core(s) && RecoveredMap(s.disk, now, next)
    ensures forall sid :: sid in next ==>
              sid in s.disk && Sound(next[sid]) && Evolves(s.disk[sid], next[sid]) && Strip(next[sid]) == next[sid]
  {
    forall sid | sid in next
      ensures sid in s.disk && Sound(next[sid]) && Evolves(s.disk[sid], next[sid]) && Strip(next[sid]) == next[sid]
    {
      assert Repaired(s.disk[sid], next[sid]);
      RepairKeeps(s.disk[sid], next[sid]);
    }
  }

  lemma RestartKeepsCore(s: State, now: Time, next: map<SessionId, Session>)
    requires Core(s) && RecoveredMap(s.disk, now, next)
    ensures Core(Restarted(s, next))
    ensures Snapshot(next, next.Keys) == next
  {
    RecoveredKeeps(s, now, next);
    SnapshotSound(next, next.Keys);
    assert Snapshot(next, next.Keys) == next;
    forall sid | sid in next ensures next[sid].origin.requestId == sid && next[sid].sessionToken == None {
      assert Evolves(s.disk[sid], next[sid]);
      assert Strip(next[sid]).sessionToken == None;
    }
  }
}
