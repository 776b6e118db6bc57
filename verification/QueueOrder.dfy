/** The order of the queue: until a poll takes it, an admitted control command has only
    later-admitted control commands in front of it, and a regular one only those and
    what was queued when it was admitted. */
module QueueOrder {
  import opened Records
  import opened Sessions
  import opened Recovery
  import opened Machine
  import opened Guarantees

  // What stands in front of the first mention of `id`.
  function Before(queue: seq<CommandId>, id: CommandId): set<CommandId> {
    if queue == [] || queue[0] == id then {} else {queue[0]} + Before(queue[1..], id)
  }

  predicate ControlAdmission(e: Event, sid: SessionId) {
    e.DidAdmit? && e.sid == sid && IsControl(e.payload.name)
  }

  function ControlSince(log: seq<Event>, i: nat, sid: SessionId): set<CommandId> {
    set j | i < j < |log| && ControlAdmission(log[j], sid) :: log[j].cid
  }

  // What may come before the command the `i`th entry admitted.
  function Overtakers(log: seq<Event>, i: nat): set<CommandId>
    requires i < |log| && log[i].DidAdmit?
  {
    Found(log[i]) + ControlSince(log, i, log[i].sid)
  }

  function Found(e: Event): set<CommandId>
    requires e.DidAdmit?
  {
    if IsControl(e.payload.name) then {} else e.ahead
  }

  ghost predicate Precedes(x: Session, id: CommandId, overtakers: set<CommandId>) {
    x.phase == Approved ==> id in x.queue && Before(x.queue, id) <= overtakers
  }

  ghost predicate LaneIn(m: map<SessionId, Session>, log: seq<Event>, i: nat)
    requires i < |log| && log[i].DidAdmit?
  {
    log[i].sid in m ==> Precedes(m[log[i].sid], log[i].cid, Overtakers(log, i))
  }

  ghost predicate Untaken(hist: History, i: nat)
    requires i < |hist.log|
  {
    hist.log[i].DidAdmit? && (hist.log[i].sid, hist.log[i].cid) !in hist.leased
  }

  /** The claim, for memory and for what a crash would bring back. */
  ghost predicate Lanes(s: State) {
    forall i :: 0 <= i < |s.hist.log| && Untaken(s.hist, i) ==>
      LaneIn(s.mem, s.hist.log, i) && LaneIn(s.disk, s.hist.log, i)
  }

  // ------------------------------------------------------- queues and `Before`

  lemma {:induction false} BeforeAppend(a: seq<CommandId>, b: seq<CommandId>, id: CommandId)
    requires id in a
    ensures Before(a + b, id) == Before(a, id)
  {
    if a[0] != id {
      assert (a + b)[1..] == a[1..] + b;
      assert a == [a[0]] + a[1..];
      BeforeAppend(a[1..], b, id);
    }
  }

  lemma BeforePrefix(a: seq<CommandId>, q: seq<CommandId>, id: CommandId)
    requires a <= q && id in a
    ensures Before(q, id) == Before(a, id)
  {}

  /** `y` may differ from `x` in its queue only as the lane allows: `popped` taken
      from the front, `front` put before it, anything added behind. */
  ghost predicate LaneStep(x: Session, y: Session, popped: set<CommandId>, front: set<CommandId>) {
    y.phase == Approved && x.phase == Approved ==>
      forall id :: id in x.queue && id !in popped ==>
        id in y.queue && Before(y.queue, id) <= front + Before(x.queue, id)
  }

  function Front(event: Option<Event>): set<CommandId> {
    if event.Some? && ControlAdmission(event.value, event.value.sid) then {event.value.cid} else {}
  }

  ghost predicate ProperLane(x: Session, d: Decision) {
    d.Commit? ==>
      && LaneStep(x, d.good, d.popped, Front(d.event))
      && LaneStep(x, d.bad, d.popped, {})
      && (d.event.Some? && d.event.value.DidAdmit? ==> Stands(d.good, d.event.value))
  }

  // A command just admitted stands behind nothing but what it found.
  ghost predicate Stands(x: Session, e: Event)
    requires e.DidAdmit?
  {
    e.cid in x.queue && Before(x.queue, e.cid) <= Found(e)
  }

  lemma {:induction false} BeforeLast(queue: seq<CommandId>, id: CommandId)
    ensures Before(queue + [id], id) <= Elements(queue)
  {
    if queue != [] && queue[0] != id {
      assert (queue + [id])[1..] == queue[1..] + [id];
      BeforeLast(queue[1..], id);
    }
  }

  lemma SameQueueLane(x: Session, y: Session, popped: set<CommandId>, front: set<CommandId>)
    requires y.queue == x.queue
    ensures LaneStep(x, y, popped, front)
  {}

  lemma EnqueueLane(x: Session, command: Command)
    ensures ProperLane(x, Enqueue(x, command))
  {
    var d := Enqueue(x, command);
    if d.Commit? {
      assert x.phase == Approved;
      SameQueueLane(x, d.bad, {}, {});
      if IsControl(command.name) {
        assert Front(d.event) == {command.id};
        assert Before(d.good.queue, command.id) == {};
        assert ([command.id] + x.queue)[1..] == x.queue;
        assert d.good.queue[0] == command.id;
        forall id | id in x.queue ensures Before(d.good.queue, id) <= {command.id} + Before(x.queue, id) {}
      } else {
        forall id | id in x.queue ensures Before(d.good.queue, id) == Before(x.queue, id) {
          BeforeAppend(x.queue, [command.id], id);
        }
        BeforeLast(x.queue, command.id);
        assert d.good.queue[|x.queue|] == command.id;
      }
    }
  }

  lemma PollLane(x: Session, now: Time, order: seq<CommandId>)
    ensures ProperLane(x, PollPass(x, now, order))
  {
    var d := PollPass(x, now, order);
    if d.Commit? {
      var q := x.queue + order;
      assert ExpireLeases(x, now, order).queue == q;
      assert d.good.queue == q[1..] && d.popped == {q[0]};
      forall id | id in x.queue && id !in d.popped
        ensures id in d.good.queue && Before(d.good.queue, id) <= Before(x.queue, id)
      {
        BeforeAppend(x.queue, order, id);
        var k :| 0 <= k < |x.queue| && x.queue[k] == id;
        assert q[1..][k - 1] == id;
        assert Before(q, id) == {q[0]} + Before(q[1..], id);
      }
    }
  }

  lemma DecideLane(x: Session, call: Call)
    requires Sound(x)
    ensures ProperLane(x, Decide(x, call))
  {
    var d := Decide(x, call);
    match call
    case CallApprove(_, _, _) =>
    case CallReject =>
    case CallEnqueue(command) => EnqueueLane(x, command);
    case CallAdminRevoke =>
    case CallResults(_) => if d.Commit? { SameQueueLane(x, d.good, {}, {}); }
    case CallStatus(_, _, _) => if d.Commit? { SameQueueLane(x, d.good, {}, {}); SameQueueLane(x, d.bad, {}, {}); }
    case CallGuestRevoke =>
    case CallPoll(now, order) => PollLane(x, now, order);
    case CallAck(_, _) => if d.Commit? { SameQueueLane(x, d.good, {}, {}); }
    case CallPost(_) => if d.Commit? { SameQueueLane(x, d.good, {}, {}); }
  }

  // ----------------------------------------------------------- steps keep lanes

  lemma SinceGrows(log: seq<Event>, e: seq<Event>, i: nat, sid: SessionId)
    requires i < |log|
    ensures ControlSince(log, i, sid) <= ControlSince(log + e, i, sid)
    ensures |e| == 1 && ControlAdmission(e[0], sid) ==> e[0].cid in ControlSince(log + e, i, sid)
  {
    forall id | id in ControlSince(log, i, sid) ensures id in ControlSince(log + e, i, sid) {
      var j :| i < j < |log| && ControlAdmission(log[j], sid) && log[j].cid == id;
      assert (log + e)[j] == log[j];
    }
    if |e| == 1 && ControlAdmission(e[0], sid) { assert (log + e)[|log|] == e[0]; }
  }

  lemma SnapshotLane(mem: map<SessionId, Session>, live: set<SessionId>, log: seq<Event>, i: nat)
    requires i < |log| && log[i].DidAdmit? && LaneIn(mem, log, i)
    ensures LaneIn(Snapshot(mem, live), log, i)
  {}

  // An earlier admission, after a decision about its own session.
  lemma LaneAfterDecision(x: Session, y: Session, log: seq<Event>, event: Option<Event>, i: nat, popped: set<CommandId>,
                          front: set<CommandId>)
    requires i < |log| && log[i].DidAdmit? && x.origin.requestId == log[i].sid
    requires Sound(x) && Evolves(x, y) && Honours(x, log[i]) && LaneStep(x, y, popped, front)
    requires log[i].cid !in popped && front <= Front(event)
    requires event.Some? ==> event.value.sid == log[i].sid
    requires Precedes(x, log[i].cid, Overtakers(log, i))
    ensures Precedes(y, log[i].cid, Overtakers(log + EventList(event), i))
  {
    SinceGrows(log, EventList(event), i, log[i].sid);
  }

  lemma SettleLaneOld(s: State, sid: SessionId, d: Decision, ok: bool, i: nat)
    requires Inv(s) && Lanes(s) && sid in s.mem && Proper(s.mem[sid], d) && ProperLane(s.mem[sid], d)
    requires i < |s.hist.log| && Untaken(Settle(s, sid, d, ok).hist, i)
    ensures Untaken(s.hist, i)
    ensures LaneIn(Settle(s, sid, d, ok).mem, Settle(s, sid, d, ok).hist.log, i)
    ensures LaneIn(Settle(s, sid, d, ok).disk, Settle(s, sid, d, ok).hist.log, i)
  {
    var t := Settle(s, sid, d, ok);
    var e := s.hist.log[i];
    assert t.hist.log[i] == e && e in s.hist.log;
    assert Untaken(s.hist, i);
    assert LaneIn(s.mem, s.hist.log, i);
    if d.Commit? {
      var event := if ok then d.event else None;
      assert t.hist.log == s.hist.log + EventList(event);
      SinceGrows(s.hist.log, EventList(event), i, e.sid);
      if e.sid == sid {
        assert (sid, e.cid) !in t.hist.leased;
        assert e.cid !in d.popped;
        assert HonouredIn(s.mem, e);
        BadEvolves(s.mem[sid], d);
        LaneAfterDecision(s.mem[sid], t.mem[sid], s.hist.log, event, i, d.popped, if ok then Front(d.event) else {});
      }
      assert LaneIn(t.mem, t.hist.log, i);
      if ok { SnapshotLane(t.mem, t.live, t.hist.log, i); }
    }
  }

  lemma SettleKeepsLanes(s: State, sid: SessionId, d: Decision, ok: bool)
    requires Inv(s) && Lanes(s) && sid in s.mem && Proper(s.mem[sid], d) && ProperLane(s.mem[sid], d)
    ensures Lanes(Settle(s, sid, d, ok))
  {
    var t := Settle(s, sid, d, ok);
    forall i | 0 <= i < |t.hist.log| && Untaken(t.hist, i)
      ensures LaneIn(t.mem, t.hist.log, i) && LaneIn(t.disk, t.hist.log, i)
    {
      if i < |s.hist.log| {
        SettleLaneOld(s, sid, d, ok, i);
      } else {
        assert d.Commit? && ok && d.event == Some(t.hist.log[i]);
        assert Stands(t.mem[sid], t.hist.log[i]);
        SnapshotLane(t.mem, t.live, t.hist.log, i);
      }
    }
  }

  lemma HandleKeepsLanes(s: State, sid: SessionId, call: Call, ok: bool)
    requires Inv(s) && Lanes(s) && CallEnabled(s, sid, call)
    ensures Lanes(HandleCall(s, sid, call, ok))
  {
    if sid in s.mem && (ByReference(call) || sid in s.live) {
      var d := Decide(s.mem[sid], call);
      DecideProper(s, sid, call);
      DecideLane(s.mem[sid], call);
      SettleKeepsLanes(s, sid, d, ok);
      HandleIsSettle(s, sid, call, ok);
      SameLanes(Settle(s, sid, d, ok), HandleCall(s, sid, call, ok));
    }
  }

  lemma SameLanes(s: State, t: State)
    requires Lanes(s) && s.mem == t.mem && s.disk == t.disk
    requires s.hist.log == t.hist.log && s.hist.leased == t.hist.leased
    ensures Lanes(t)
  {}

  lemma PairKeepsLanes(s: State, origin: Origin, ok: bool)
    requires Inv(s) && Lanes(s) && origin.requestId !in s.hist.used
    ensures Lanes(PairStep(s, origin, ok))
  {
    var t := PairStep(s, origin, ok);
    forall i | 0 <= i < |t.hist.log| && Untaken(t.hist, i)
      ensures LaneIn(t.mem, t.hist.log, i) && LaneIn(t.disk, t.hist.log, i)
    {
      assert Untaken(s.hist, i);
      assert t.hist.log[i] in s.hist.log;
      assert LaneIn(t.mem, t.hist.log, i);
      SnapshotLane(t.mem, t.live, t.hist.log, i);
    }
  }

  lemma SweepKeepsLanes(s: State, now: Time, ok: bool)
    requires Lanes(s)
    ensures Lanes(SweepStep(s, now, ok))
  {}

  lemma RestartKeepsLanes(s: State, now: Time, next: map<SessionId, Session>)
    requires Inv(s) && Lanes(s) && RecoveredMap(s.disk, now, next)
    ensures Lanes(Restarted(s, next))
  {
    var t := Restarted(s, next);
    RestartKeepsCore(s, now, next);
    forall i | 0 <= i < |t.hist.log| && Untaken(t.hist, i)
      ensures LaneIn(next, t.hist.log, i)
    {
      assert Untaken(s.hist, i);
      var sid := s.hist.log[i].sid;
      if sid in next {
        assert Repaired(s.disk[sid], next[sid]);
        RepairKeeps(s.disk[sid], next[sid]);
        if next[sid].phase == Approved { BeforePrefix(s.disk[sid].queue, next[sid].queue, s.hist.log[i].cid); }
      }
    }
  }

  lemma StepKeepsLanes(s: State, l: Label)
    requires Inv(s) && Lanes(s) && Enabled(s, l)
    ensures Lanes(Apply(s, l))
  {
    match l
    case Pair(origin, ok) => PairKeepsLanes(s, origin, ok);
    case Handle(sid, call, ok) => HandleKeepsLanes(s, sid, call, ok);
    case Authenticate(sid, _, _) => SameLanes(s, Apply(s, l));
    case Authorise(sid, name) => SameLanes(s, Apply(s, l));
    case Sweep(now, ok) => SweepKeepsLanes(s, now, ok);
    case CrashRestart(now, next) => RestartKeepsLanes(s, now, next);
  }

  /** Over every run: a command that was answered 202 and that no poll has taken yet is
      in the queue of its approved session, in memory and on disk, and everything in
      front of it is a control command admitted after it or, if it is a regular
      command, was queued when it was admitted. */
  lemma {:induction false} RunKeepsLanes(states: seq<State>, labels: seq<Label>, i: nat)
    requires IsRun(states, labels) && i < |states|
    ensures Lanes(states[i])
  {
    if i > 0 {
      RunKeepsLanes(states, labels, i - 1);
      RunKeepsInv(states, labels, i - 1);
      assert IsStep(states, labels, i - 1);
      StepKeepsLanes(states[i - 1], labels[i - 1]);
    }
  }

  /** So the next command a poll hands out is that command or one of its overtakers. */
  lemma PollServesInOrder(states: seq<State>, labels: seq<Label>, i: nat, a: nat, now: Time, order: seq<CommandId>)
    requires IsRun(states, labels) && i < |states|
    requires var s := states[i];
             && a < |s.hist.log| && Untaken(s.hist, a)
             && s.hist.log[a].sid in s.mem && s.mem[s.hist.log[a].sid].phase == Approved
             && ExpiryOrder(s.mem[s.hist.log[a].sid], now, order)
    ensures var s := states[i]; var e := s.hist.log[a];
            var d := PollPass(s.mem[e.sid], now, order);
            d.Commit? && exists id :: d.popped == {id} && (id == e.cid || id in Overtakers(s.hist.log, a))
  {
    RunKeepsInv(states, labels, i);
    RunKeepsLanes(states, labels, i);
    var s := states[i];
    var e := s.hist.log[a];
    var x := s.mem[e.sid];
    assert LaneIn(s.mem, s.hist.log, a);
    PollNeverSkips(x, now, order);
    var head := x.queue[0];
    assert (x.queue + order)[0] == head;
    assert head == e.cid || head in Before(x.queue, e.cid);
    assert head in x.queue;
    var d := PollPass(x, now, order);
    assert ExpireLeases(x, now, order).queue != [];
    assert d.popped == {head};
  }
}
