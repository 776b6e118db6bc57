/** When a handler answers with success, said of the fields of its session alone, and what
    that adds to the log; and whom a token lets in, over every run. */
module Answers {
  import opened Records
  import opened Sessions
  import opened Recovery
  import opened Machine
  import opened Guarantees
  import opened Provenance

  const CONTROL_NAMES: set<Capability> := {"shell.cancel", "process.stop-owned", "session.disconnect"}

  // The commands of one lane that wait.
  function WaitingIn(x: Session, control: bool): set<CommandId> {
    set id | id in x.commands && x.commands[id].status == Queued
             && (x.commands[id].command.name in CONTROL_NAMES <==> control)
  }

  ghost predicate HasRoom(x: Session, name: Capability) {
    if name in CONTROL_NAMES then |WaitingIn(x, true)| < 4 else |WaitingIn(x, false)| < 16
  }

  /** What it takes, besides a successful save, to be answered with success. */
  ghost predicate Succeeds(x: Session, call: Call) {
    match call
    case CallApprove(minutes, _, _) =>
      x.phase == Pending && 1 <= minutes <= 60 && (minutes - 1) * 60 < x.origin.request.durationSeconds <= 3600
    case CallReject => x.phase == Pending
    case CallEnqueue(command) =>
      x.phase == Approved && command.id !in x.commands && HasRoom(x, command.name)
    case CallAdminRevoke => true
    case CallGuestRevoke => true
    case CallResults(consume) => consume
    case CallAck(cid, now) =>
      && cid != "" && cid in x.commands && x.commands[cid].status == Leased
      && x.commands[cid].leaseUntil.Some? && now <= x.commands[cid].leaseUntil.value
    case CallPost(r) =>
      && r.id != "" && r.name in x.origin.request.requested && |r.output| <= 2 * 1024 * 1024
      && r.id in x.commands && x.commands[r.id].status == Running && x.commands[r.id].command.name == r.name
    case _ => false
  }

  function Reports(x: Session, call: Call): seq<Event> {
    var sid := x.origin.requestId;
    match call
    case CallApprove(minutes, _, now) => [DidApprove(sid, now, minutes, now + minutes * MINUTE)]
    case CallReject => [DidReject(sid)]
    case CallEnqueue(command) =>
      [DidAdmit(sid, command.id, Fingerprint(command.name, command.params), Elements(x.queue))]
    case CallAdminRevoke => [DidRevoke(sid)]
    case CallGuestRevoke => [DidRevoke(sid)]
    case CallResults(_) => [DidConsume(sid, x.results)]
    case CallAck(cid, _) => [DidAck(sid, cid)]
    case CallPost(r) => [DidAccept(sid, r, |x.results| < 128)]
    case _ => []
  }

  /** What a step adds to the log. */
  ghost function Reported(s: State, l: Label): seq<Event> {
    if l.Handle? && l.ok && l.sid in s.mem && (ByReference(l.call) || l.sid in s.live) && Succeeds(s.mem[l.sid], l.call)
    then Reports(s.mem[l.sid], l.call)
    else []
  }

  lemma RoomForCommand(x: Session, command: Command)
    requires Sound(x) && x.phase == Approved
    ensures var control := IsControl(command.name);
            LaneDepth(x.queue, x.commands, control) < LaneLimit(control) <==> HasRoom(x, command.name)
  {
    var control := IsControl(command.name);
    LaneDepthCounts(x.queue, x.commands, control);
    assert Listed(x.queue, x.commands, control) == WaitingIn(x, control);
  }

  lemma DecidesExactly(x: Session, call: Call)
    requires Sound(x)
    ensures var d := Decide(x, call);
            && (Succeeds(x, call) ==> d.Commit? && EventList(d.event) == Reports(x, call))
            && (d.Commit? && d.event.Some? ==> Succeeds(x, call))
  {
    match call
    case CallEnqueue(command) => if x.phase == Approved { RoomForCommand(x, command); }
    case CallAck(cid, _) => assert cid in x.commands ==> CommandSound(x, cid);
    case _ =>
  }

  /** Over every run: a step is answered with a success that is logged if and only if its
      session meets the condition and its save succeeds, and then with that report. */
  lemma LogsExactly(states: seq<State>, labels: seq<Label>, k: nat)
    requires IsRun(states, labels) && k < |labels|
    ensures states[k + 1].hist.log == states[k].hist.log + Reported(states[k], labels[k])
  {
    var s, l, t := RunStep(states, labels, k + 1);
    if l.Handle? && l.sid in s.mem && (ByReference(l.call) || l.sid in s.live) {
      HandleIsSettle(s, l.sid, l.call, l.ok);
      DecidesExactly(s.mem[l.sid], l.call);
    }
  }

  // ------------------------------------------------------------------ approval

  ghost predicate Grants(s: State, sid: SessionId, minutes: int) {
    && sid in s.live && sid in s.mem && s.mem[sid].phase == Pending && 1 <= minutes <= 60
    && (minutes - 1) * 60 < s.mem[sid].origin.request.durationSeconds <= 3600
  }

  ghost predicate Granted(x: Session, token: Token, at: Time, minutes: int) {
    && x.phase == Approved && x.tokenHash == HashOf(token) && x.expiresAt == Some(at + minutes * MINUTE)
    && x.queue == [INITIAL_ID] && x.commands.Keys == {INITIAL_ID}
    && x.commands[INITIAL_ID].command == Command(INITIAL_ID, SYSTEM_INFO, Some(at + 15 * SECOND), [])
  }

  /** Over every run, an approval gives the minutes it names from its own time on, and
      queues the first command, in memory and on disk, or it changes neither. */
  lemma ApprovesAsAsked(states: seq<State>, labels: seq<Label>, k: nat,
                        sid: SessionId, minutes: int, token: Token, now: Time, ok: bool)
    requires IsRun(states, labels) && k < |labels| && labels[k] == Handle(sid, CallApprove(minutes, token, now), ok)
    ensures var s := states[k]; var t := states[k + 1];
            if ok && Grants(s, sid, minutes)
            then
              && sid in t.mem && Granted(t.mem[sid], token, now, minutes)
              && sid in t.disk && Granted(t.disk[sid], token, now, minutes)
              && t.hist.log == s.hist.log + [DidApprove(sid, now, minutes, now + minutes * MINUTE)]
            else t.mem == s.mem && t.disk == s.disk && t.hist.log == s.hist.log
  {
    var s, l, t := RunStep(states, labels, k + 1);
    LogsExactly(states, labels, k);
    if sid in s.mem && sid in s.live {
      assert Sound(s.mem[sid]);
      HandleIsSettle(s, sid, l.call, ok);
      if !Approve(s.mem[sid], minutes, token, now).Commit? || !ok { SameMap(s.mem, sid); }
    }
  }

  lemma SameMap(m: map<SessionId, Session>, sid: SessionId)
    requires sid in m
    ensures m[sid := m[sid]] == m
  {}

  // ------------------------------------------------------------------ tokens

  /** Over every run, a token lets in only while it is the one last shown of a session
      that was approved, not past the minutes it was approved for, and not rejected or
      revoked by an answered request. A token never drawn lets nobody in. */
  lemma OpensOnly(states: seq<State>, labels: seq<Label>, k: nat, sid: SessionId, token: Token, now: Time)
    requires IsRun(states, labels) && k < |labels| && labels[k] == Authenticate(sid, token, now)
    ensures var hist := states[k].hist;
            && (exists e :: e in hist.log && e.sid == sid && e.DidApprove?)
            && (forall e :: e in hist.log && e.sid == sid ==>
                  !e.DidRevoke? && !e.DidReject? && (e.DidApprove? ==> now < e.at + e.minutes * MINUTE))
            && token in hist.owner && hist.owner[token] == sid
            && (sid in hist.handed ==> hist.handed[sid] == token)
  {
    var s, l, t := RunStep(states, labels, k + 1);
    RunKeepsBacked(states, labels, k);
    assert Backed(s.mem[sid], s.hist.log, sid);
    forall e | e in s.hist.log && e.sid == sid ensures Honours(s.mem[sid], e) { assert HonouredIn(s.mem, e); }
    assert OwnedBy(s.mem[sid], s.hist.owner, sid) && StillHanded(s.mem[sid], s.hist.handed, sid);
  }

  /** Of a session in the map whose token was shown, that is exactly when. */
  lemma OpensExactly(states: seq<State>, labels: seq<Label>, k: nat, e: Event, token: Token, now: Time)
    requires IsRun(states, labels) && k < |states| && e in states[k].hist.log && e.DidApprove?
    requires e.sid in states[k].live && e.sid in states[k].mem && e.sid in states[k].hist.handed
    ensures Enabled(states[k], Authenticate(e.sid, token, now)) <==>
            && token == states[k].hist.handed[e.sid] && now < e.at + e.minutes * MINUTE
            && states[k].mem[e.sid].phase != Revoked
  {
    RunKeepsInv(states, labels, k);
    var s := states[k];
    assert HonouredIn(s.mem, e);
    assert StillHanded(s.mem[e.sid], s.hist.handed, e.sid);
  }

  /** Over every run, the body of a guest handler runs on a session that was opened with
      its token in the same process. */
  lemma {:induction false} RefsWereOpened(states: seq<State>, labels: seq<Label>, k: nat, sid: SessionId)
    returns (j: nat)
    requires IsRun(states, labels) && k < |states| && sid in states[k].refs
    ensures j < k && labels[j].Authenticate? && labels[j].sid == sid
    ensures forall m :: j <= m < k ==> !labels[m].CrashRestart?
  {
    assert states[0] == EMPTY;
    var s, l, t := RunStep(states, labels, k);
    RefsStep(s, l, sid);
    j := k - 1;
    if !(l.Authenticate? && l.sid == sid) {
      j := RefsWereOpened(states, labels, k - 1, sid);
    }
  }

  lemma RefsStep(s: State, l: Label, sid: SessionId)
    requires sid in Apply(s, l).refs
    ensures !l.CrashRestart? && (sid in s.refs || (l.Authenticate? && l.sid == sid))
  {}

  // What a status request shows.
  ghost predicate Shows(x: Session, pollToken: Token, now: Time, ok: bool) {
    && x.origin.pairingHash == HashOf(pollToken) && x.phase == Approved
    && (x.sessionToken.Some? || (ok && x.expiresAt.Some? && now < x.expiresAt.value))
  }

  function HandedAfter(s: State, sid: SessionId, token: Option<Token>, replacement: Token): map<SessionId, Token> {
    s.hist.handed[sid := if token.Some? then token.value else replacement]
  }

  lemma StatusShows(s: State, sid: SessionId, pollToken: Token, replacement: Token, now: Time, ok: bool)
    requires sid in s.live && sid in s.mem
    ensures HandleCall(s, sid, CallStatus(pollToken, replacement, now), ok).hist.handed ==
              if Shows(s.mem[sid], pollToken, now, ok) then HandedAfter(s, sid, s.mem[sid].sessionToken, replacement)
              else s.hist.handed
  {}

  /** Over every run, a status request that names its session's pairing token is shown the
      session token memory has, or a new one while the session lasts if the save succeeds. */
  lemma ShowsExactly(states: seq<State>, labels: seq<Label>, k: nat,
                     sid: SessionId, pollToken: Token, replacement: Token, now: Time, ok: bool)
    requires IsRun(states, labels) && k < |labels|
    requires labels[k] == Handle(sid, CallStatus(pollToken, replacement, now), ok)
    ensures var s := states[k];
            states[k + 1].hist.handed ==
              if sid in s.live && sid in s.mem && Shows(s.mem[sid], pollToken, now, ok)
              then HandedAfter(s, sid, s.mem[sid].sessionToken, replacement)
              else s.hist.handed
  {
    var s, l, t := RunStep(states, labels, k + 1);
    if sid in s.live && sid in s.mem { StatusShows(s, sid, pollToken, replacement, now, ok); }
  }
}
