/** Where commands and approvals come from: the converse of the promises. */
module Provenance {
  import opened Records
  import opened Sessions
  import opened Recovery
  import opened Machine
  import opened Guarantees
  import opened ClientLoop

  predicate IsAdmission(e: Event, sid: SessionId, cid: CommandId, payload: Fingerprint) {
    e.DidAdmit? && e.sid == sid && e.cid == cid && e.payload == payload
  }

  ghost predicate Admitted(log: seq<Event>, sid: SessionId, cid: CommandId, payload: Fingerprint) {
    exists e :: e in log && IsAdmission(e, sid, cid, payload)
  }

  ghost predicate WasAdmitted(log: seq<Event>, sid: SessionId, c: CommandState) {
    Admitted(log, sid, c.command.id, c.fingerprint)
  }

  ghost predicate WasApproved(log: seq<Event>, sid: SessionId, until: Option<Time>) {
    exists e :: e in log && e.sid == sid && e.DidApprove? && until == Some(e.until)
  }

  predicate IsFirst(command: Command) {
    command.id == INITIAL_ID && command.name == SYSTEM_INFO && command.params == []
  }

  // An approved session has the command the broker queued itself.
  ghost predicate FirstCommand(x: Session) {
    && (x.phase == Approved ==> INITIAL_ID in x.commands)
    && (INITIAL_ID in x.commands ==> IsFirst(x.commands[INITIAL_ID].command))
  }

  /** Every command but the broker's own first one was admitted with a 202, and a
      session that is or was approved was approved with a 200 and that expiry. */
  ghost predicate Backed(x: Session, log: seq<Event>, sid: SessionId) {
    && (forall cid :: cid in x.commands && cid != INITIAL_ID ==> WasAdmitted(log, sid, x.commands[cid]))
    && FirstCommand(x)
    && (x.phase == Approved || x.commands != map[] ==> WasApproved(log, sid, x.expiresAt))
  }

  ghost predicate AllBacked(m: map<SessionId, Session>, log: seq<Event>) {
    forall sid :: sid in m ==> Backed(m[sid], log, sid)
  }

  ghost predicate BackedState(s: State) {
    AllBacked(s.mem, s.hist.log) && AllBacked(s.disk, s.hist.log)
  }

  // What a decision adds to a session it reports.
  ghost predicate BackedStep(x: Session, y: Session, event: Option<Event>) {
    && (forall cid :: cid in y.commands && cid != INITIAL_ID ==>
          || (cid in x.commands && SameOrder(x.commands[cid], y.commands[cid]))
          || (event.Some? && IsAdmission(event.value, x.origin.requestId, cid, y.commands[cid].fingerprint)
              && y.commands[cid].command.id == cid))
    && FirstCommand(y)
    && (y.phase == Approved || y.commands != map[] ==>
          || ((x.phase == Approved || x.commands != map[]) && y.expiresAt == x.expiresAt)
          || (event.Some? && event.value.DidApprove? && event.value.sid == x.origin.requestId
              && y.expiresAt == Some(event.value.until)))
  }

  ghost predicate SameOrder(c: CommandState, d: CommandState) {
    c.command == d.command && c.fingerprint == d.fingerprint
  }

  lemma PollBacked(x: Session, now: Time, order: seq<CommandId>)
    requires Sound(x) && FirstCommand(x)
    ensures var d := PollPass(x, now, order);
            && (d.Commit? ==> BackedStep(x, d.good, None))
            && (d.Local? ==> BackedStep(x, d.next, None))
  {
    assert x.commands == map[] ==> ExpireLeases(x, now, order).commands == map[];
  }

  lemma EnqueueBacked(x: Session, command: Command)
    requires FirstCommand(x)
    ensures var d := Enqueue(x, command); d.Commit? ==> BackedStep(x, d.good, d.event)
  {}

  lemma ApproveBacked(x: Session, minutes: int, token: Token, now: Time)
    requires FirstCommand(x)
    ensures var d := Decide(x, CallApprove(minutes, token, now));
            && (d.Commit? ==> BackedStep(x, d.good, d.event) && BackedStep(x, d.bad, None))
            && (d.Local? ==> BackedStep(x, d.next, None))
  {}

  lemma PostBacked(x: Session, r: Result)
    requires FirstCommand(x)
    ensures var d := Decide(x, CallPost(r));
            && (d.Commit? ==> BackedStep(x, d.good, d.event) && BackedStep(x, d.bad, None))
            && (d.Local? ==> BackedStep(x, d.next, None))
  {}

  lemma AckBacked(x: Session, cid: CommandId, now: Time)
    requires FirstCommand(x)
    ensures var d := Decide(x, CallAck(cid, now));
            && (d.Commit? ==> BackedStep(x, d.good, d.event) && BackedStep(x, d.bad, None))
            && (d.Local? ==> BackedStep(x, d.next, None))
  {}

  lemma DecideBacked(x: Session, call: Call)
    requires Sound(x) && FirstCommand(x)
    ensures var d := Decide(x, call);
            && (d.Commit? ==> BackedStep(x, d.good, d.event) && BackedStep(x, d.bad, None))
            && (d.Local? ==> BackedStep(x, d.next, None))
  {
    match call
    case CallPoll(now, order) => PollBacked(x, now, order);
    case CallEnqueue(command) => EnqueueBacked(x, command);
    case CallApprove(minutes, token, now) => ApproveBacked(x, minutes, token, now);
    case CallPost(r) => PostBacked(x, r);
    case CallAck(cid, now) => AckBacked(x, cid, now);
    case _ =>
  }

  lemma LogKeepsBacking(x: Session, log: seq<Event>, more: seq<Event>, sid: SessionId)
    requires Backed(x, log, sid)
    ensures Backed(x, log + more, sid)
  {
    if WasApproved(log, sid, x.expiresAt) {
      var e :| e in log && e.sid == sid && e.DidApprove? && x.expiresAt == Some(e.until);
      assert e in log + more;
    }
  }

  lemma StepIsBacked(x: Session, y: Session, log: seq<Event>, event: Option<Event>, sid: SessionId)
    requires Backed(x, log, sid) && BackedStep(x, y, event) && x.origin.requestId == sid
    ensures Backed(y, log + EventList(event), sid)
  {
    LogKeepsBacking(x, log, EventList(event), sid);
    if event.Some? { assert event.value in log + EventList(event); }
  }

  lemma SnapshotBacked(mem: map<SessionId, Session>, live: set<SessionId>, log: seq<Event>)
    requires AllBacked(mem, log)
    ensures AllBacked(Snapshot(mem, live), log)
  {
    forall sid | sid in Snapshot(mem, live) ensures Backed(Snapshot(mem, live)[sid], log, sid) {
      assert Backed(mem[sid], log, sid);
    }
  }

  lemma LogKeepsAll(m: map<SessionId, Session>, log: seq<Event>, more: seq<Event>)
    requires AllBacked(m, log)
    ensures AllBacked(m, log + more)
  {
    forall sid | sid in m ensures Backed(m[sid], log + more, sid) { LogKeepsBacking(m[sid], log, more, sid); }
  }

  lemma SettleKeepsBacked(s: State, sid: SessionId, d: Decision, ok: bool)
    requires BackedState(s) && sid in s.mem && s.mem[sid].origin.requestId == sid
    requires d.Commit? ==> BackedStep(s.mem[sid], d.good, d.event) && BackedStep(s.mem[sid], d.bad, None)
    requires d.Local? ==> BackedStep(s.mem[sid], d.next, None)
    ensures BackedState(Settle(s, sid, d, ok))
  {
    var t := Settle(s, sid, d, ok);
    var event := if d.Commit? && ok then d.event else None;
    assert t.hist.log == s.hist.log + EventList(event);
    LogKeepsAll(s.mem, s.hist.log, EventList(event));
    LogKeepsAll(s.disk, s.hist.log, EventList(event));
    if !d.Answer? { StepIsBacked(s.mem[sid], t.mem[sid], s.hist.log, event, sid); }
    SnapshotBacked(t.mem, t.live, t.hist.log);
  }

  lemma StepKeepsBacked(s: State, l: Label)
    requires Core(s) && BackedState(s) && Enabled(s, l)
    ensures BackedState(Apply(s, l))
  {
    match l
    case Pair(origin, ok) => SnapshotBacked(Apply(s, l).mem, Apply(s, l).live, s.hist.log);
    case Handle(sid, call, ok) =>
      if sid in s.mem && (ByReference(call) || sid in s.live) {
        assert Backed(s.mem[sid], s.hist.log, sid);
        DecideBacked(s.mem[sid], call);
        SettleKeepsBacked(s, sid, Decide(s.mem[sid], call), ok);
        HandleIsSettle(s, sid, call, ok);
      }
    case Sweep(now, ok) => SnapshotBacked(s.mem, Apply(s, l).live, s.hist.log);
    case CrashRestart(now, next) => RestartBacked(s, now, next);
    case _ =>
  }

  lemma RestartBacked(s: State, now: Time, next: map<SessionId, Session>)
    requires BackedState(s) && RecoveredMap(s.disk, now, next)
    ensures BackedState(Restarted(s, next))
  {
    forall sid | sid in next ensures Backed(next[sid], s.hist.log, sid) {
      assert Repaired(s.disk[sid], next[sid]) && Backed(s.disk[sid], s.hist.log, sid);
      assert s.disk[sid].commands == map[] ==> next[sid].commands == map[];
    }
    SnapshotBacked(next, next.Keys, s.hist.log);
  }

  /** Over every run, in memory and on disk. */
  lemma {:induction false} RunKeepsBacked(states: seq<State>, labels: seq<Label>, i: nat)
    requires IsRun(states, labels) && i < |states|
    ensures BackedState(states[i])
  {
    if i > 0 {
      RunKeepsBacked(states, labels, i - 1);
      RunKeepsInv(states, labels, i - 1);
      assert IsStep(states, labels, i - 1);
      StepKeepsBacked(states[i - 1], labels[i - 1]);
    }
  }

  // The commands polls brought the clients are commands the broker had in memory.
  ghost predicate Served(clients: seq<seq<Outcome>>, states: seq<State>, k: nat, sid: SessionId)
    requires k < |states|
  {
    forall c, n :: 0 <= c < |clients| && 0 <= n && Cleared(clients[c], n) ==>
      exists i :: 0 <= i <= k && InMemory(states[i], sid, clients[c][n].command)
  }

  ghost predicate InMemory(s: State, sid: SessionId, command: Command) {
    sid in s.mem && command.id in s.mem[sid].commands && s.mem[sid].commands[command.id].command == command
  }

  lemma StepGrowsLog(states: seq<State>, labels: seq<Label>, k: nat)
    requires IsRun(states, labels) && 0 < k < |states|
    ensures states[k - 1].hist.log <= states[k].hist.log
  {
    var s, l := states[k - 1], labels[k - 1];
    assert IsStep(states, labels, k - 1);
    if l.Handle? && l.sid in s.mem && (ByReference(l.call) || l.sid in s.live) {
      HandleIsSettle(s, l.sid, l.call, l.ok);
    }
  }

  ghost predicate Growing(logs: seq<seq<Event>>) {
    forall k :: 0 < k < |logs| ==> logs[k - 1] <= logs[k]
  }

  lemma {:induction false} GrowingFrom(logs: seq<seq<Event>>, i: nat, k: nat)
    requires Growing(logs) && i <= k < |logs|
    ensures logs[i] <= logs[k]
  {
    if i < k {
      GrowingFrom(logs, i, k - 1);
      assert logs[k - 1] <= logs[k];
    }
  }

  lemma LogOnlyGrows(states: seq<State>, labels: seq<Label>, i: nat, k: nat)
    requires IsRun(states, labels) && i <= k < |states|
    ensures states[i].hist.log <= states[k].hist.log
  {
    var logs := seq(|states|, n requires 0 <= n < |states| => states[n].hist.log);
    forall n | 0 < n < |logs| ensures logs[n - 1] <= logs[n] { StepGrowsLog(states, labels, n); }
    GrowingFrom(logs, i, k);
  }

  /** Whatever a client executes, the administrator's side asked for: the session was
      approved, and the command was admitted with that name and those parameters, or
      is the one the broker queues itself. */
  lemma ExecutedWasAdmitted(states: seq<State>, labels: seq<Label>, k: nat, sid: SessionId,
                            clients: seq<seq<Outcome>>, limit: Option<Time>, c: nat, n: nat)
    requires IsRun(states, labels) && k < |states| && Served(clients, states, k, sid)
    requires c < |clients| && n in Due(clients[c], 0, limit)
    ensures n < |clients[c]|
    ensures var command := clients[c][n].command; var log := states[k].hist.log;
            && (exists e :: e in log && e.sid == sid && e.DidApprove?)
            && (|| Admitted(log, sid, command.id, Fingerprint(command.name, command.params))
                || IsFirst(command))
  {
    ExecutionsAreCleared(clients[c], 0, limit);
    assert Cleared(clients[c], n);
    var command := clients[c][n].command;
    var i :| 0 <= i <= k && InMemory(states[i], sid, command);
    RunKeepsInv(states, labels, i);
    RunKeepsBacked(states, labels, i);
    LogOnlyGrows(states, labels, i, k);
    var x := states[i].mem[sid];
    assert Backed(x, states[i].hist.log, sid);
    assert Sound(x) && CommandSound(x, command.id);
  }
}
