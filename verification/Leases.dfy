/** Leases: a command is acknowledged only while the lease of the poll that took it off
    the queue is running. That poll may have been answered 500, if saving failed. */
module Leases {
  import opened Records
  import opened Sessions
  import opened Recovery
  import opened Machine
  import opened Guarantees

  /** Every lease in memory is one the history knows, with the same end. */
  ghost predicate Known(x: Session, leased: map<(SessionId, CommandId), Time>, sid: SessionId) {
    forall cid :: cid in x.commands && x.commands[cid].status == Leased ==>
      (sid, cid) in leased && x.commands[cid].leaseUntil == Some(leased[(sid, cid)])
  }

  ghost predicate LeasesKnown(s: State) {
    forall sid :: sid in s.mem ==> Known(s.mem[sid], s.hist.leased, sid)
  }

  // A leased command of `y` was taken off the queue just now, or was leased in `x` already.
  ghost predicate LeaseStep(x: Session, y: Session, popped: set<CommandId>, good: Session) {
    forall cid :: cid in y.commands && y.commands[cid].status == Leased ==>
      if cid in popped then y.commands[cid].leaseUntil == Some(LeaseEnd(good, cid))
      else cid in x.commands && x.commands[cid] == y.commands[cid]
  }

  lemma DecideLeases(x: Session, call: Call)
    ensures var d := Decide(x, call);
            && (d.Commit? ==> LeaseStep(x, d.good, d.popped, d.good) && LeaseStep(x, d.bad, d.popped, d.good))
            && (d.Local? ==> LeaseStep(x, d.next, {}, d.next))
  {}

  lemma SettleKeepsLeases(s: State, sid: SessionId, d: Decision, ok: bool)
    requires LeasesKnown(s) && sid in s.mem
    requires d.Commit? ==>
               LeaseStep(s.mem[sid], d.good, d.popped, d.good) && LeaseStep(s.mem[sid], d.bad, d.popped, d.good)
    requires d.Local? ==> LeaseStep(s.mem[sid], d.next, {}, d.next)
    ensures LeasesKnown(Settle(s, sid, d, ok))
  {}

  lemma StepKeepsLeases(s: State, l: Label)
    requires LeasesKnown(s) && Enabled(s, l)
    ensures LeasesKnown(Apply(s, l))
  {
    match l
    case Handle(sid, call, ok) =>
      if sid in s.mem && (ByReference(call) || sid in s.live) {
        DecideLeases(s.mem[sid], call);
        SettleKeepsLeases(s, sid, Decide(s.mem[sid], call), ok);
        HandleIsSettle(s, sid, call, ok);
        var t := HandleCall(s, sid, call, ok);
        assert forall k :: k in s.mem ==> Known(t.mem[k], t.hist.leased, k);
      }
    case CrashRestart(now, next) =>
      forall sid | sid in next ensures Known(next[sid], s.hist.leased, sid) {
        assert Repaired(s.disk[sid], next[sid]);
        RecoveryRepairs(s.disk[sid], next[sid]);
      }
    case _ =>
      assert forall sid :: sid in s.mem && sid in Apply(s, l).mem && Apply(s, l).mem[sid] == s.mem[sid] ==>
          Known(Apply(s, l).mem[sid], s.hist.leased, sid);
  }

  lemma {:induction false} RunKeepsLeases(states: seq<State>, labels: seq<Label>, i: nat)
    requires IsRun(states, labels) && i < |states|
    ensures LeasesKnown(states[i])
  {
    if i > 0 {
      RunKeepsLeases(states, labels, i - 1);
      assert IsStep(states, labels, i - 1);
      StepKeepsLeases(states[i - 1], labels[i - 1]);
    }
  }

  /** A poll that commits takes one command off the queue and leases it for ten seconds;
      it answers 200, and so hands the command out, exactly when its save succeeds. */
  lemma PollLeases(s: State, sid: SessionId, now: Time, order: seq<CommandId>, ok: bool)
    requires sid in s.mem && Decide(s.mem[sid], CallPoll(now, order)).Commit?
    ensures Answered(Decide(s.mem[sid], CallPoll(now, order)), ok, 200) <==> ok
    ensures var d := Decide(s.mem[sid], CallPoll(now, order)); var t := HandleCall(s, sid, CallPoll(now, order), ok);
            exists cid :: d.popped == {cid} && (sid, cid) in t.hist.leased
                          && t.hist.leased[(sid, cid)] == now + 10 * SECOND
  {}

  /** In every run, an acknowledgement answered 200 at `now` is of a command that a poll
      took off the queue, and the lease the latest such poll gave has not run out. */
  lemma AckedWithinLease(states: seq<State>, labels: seq<Label>, k: nat, sid: SessionId, cid: CommandId, now: Time)
    requires IsRun(states, labels) && k < |states| && sid in states[k].mem
    requires Decide(states[k].mem[sid], CallAck(cid, now)).Commit?
    ensures (sid, cid) in states[k].hist.leased && now <= states[k].hist.leased[(sid, cid)]
  {
    RunKeepsLeases(states, labels, k);
    assert Known(states[k].mem[sid], states[k].hist.leased, sid);
  }

  // ------------------------------------------------------ two takes of a command

  predicate PollOf(l: Label, sid: SessionId) {
    l.Handle? && l.sid == sid && l.call.CallPoll?
  }

  /** The step is a poll that takes the command off the queue at `now`. */
  ghost predicate Takes(s: State, l: Label, sid: SessionId, cid: CommandId, now: Time) {
    && PollOf(l, sid) && l.call.now == now && sid in s.mem
    && Decide(s.mem[sid], l.call).Commit? && cid in Decide(s.mem[sid], l.call).popped
  }

  // Leased until then, or past being taken for good.
  ghost predicate Away(x: Session, cid: CommandId, until: Time) {
    cid in x.commands
    && (|| Rank(x.commands[cid].status) > 0
        || (x.commands[cid].status == Leased && x.commands[cid].leaseUntil == Some(until)))
  }

  lemma PollKeepsAway(x: Session, now: Time, order: seq<CommandId>, cid: CommandId, until: Time)
    requires Sound(x) && Away(x, cid, until)
    ensures var d := PollPass(x, now, order);
            && (d.Commit? && now <= until ==> Away(d.good, cid, until) && Away(d.bad, cid, until))
            && (d.Local? && now <= until ==> Away(d.next, cid, until))
            && (d.Commit? && cid in d.popped ==> now > until)
  {
    var y := ExpireLeases(x, now, order);
    assert now <= until ==> y.commands[cid] == x.commands[cid];
    assert Rank(x.commands[cid].status) > 0 ==> y.commands[cid] == x.commands[cid];
  }

  lemma DecideKeepsAway(x: Session, call: Call, cid: CommandId, until: Time)
    requires Sound(x) && Away(x, cid, until) && (call.CallPoll? ==> call.now <= until)
    ensures var d := Decide(x, call);
            && (d.Commit? ==> Away(d.good, cid, until) && Away(d.bad, cid, until))
            && (d.Local? ==> Away(d.next, cid, until))
  {
    match call
    case CallPoll(now, order) => PollKeepsAway(x, now, order, cid, until);
    case _ =>
  }

  ghost predicate AwayIn(s: State, sid: SessionId, cid: CommandId, until: Time) {
    sid in s.mem && Away(s.mem[sid], cid, until)
  }

  lemma SettleKeepsAway(s: State, k: SessionId, d: Decision, ok: bool, sid: SessionId, cid: CommandId, until: Time)
    requires k in s.mem && AwayIn(s, sid, cid, until)
    requires k == sid && d.Commit? ==> Away(d.good, cid, until) && Away(d.bad, cid, until)
    requires k == sid && d.Local? ==> Away(d.next, cid, until)
    ensures AwayIn(Settle(s, k, d, ok), sid, cid, until)
  {}

  lemma HandleKeepsAway(s: State, k: SessionId, call: Call, ok: bool, sid: SessionId, cid: CommandId, until: Time)
    requires Core(s) && AwayIn(s, sid, cid, until) && (k == sid && call.CallPoll? ==> call.now <= until)
    ensures AwayIn(HandleCall(s, k, call, ok), sid, cid, until)
  {
    if k in s.mem && (ByReference(call) || k in s.live) {
      HandleIsSettle(s, k, call, ok);
      if k == sid { DecideKeepsAway(s.mem[sid], call, cid, until); }
      SettleKeepsAway(s, k, Decide(s.mem[k], call), ok, sid, cid, until);
    }
  }

  lemma StepKeepsAway(s: State, l: Label, sid: SessionId, cid: CommandId, until: Time)
    requires Inv(s) && Enabled(s, l) && !l.CrashRestart? && AwayIn(s, sid, cid, until)
    requires PollOf(l, sid) ==> l.call.now <= until
    ensures AwayIn(Apply(s, l), sid, cid, until)
  {
    if l.Handle? { HandleKeepsAway(s, l.sid, l.call, l.ok, sid, cid, until); }
  }

  lemma TakeMakesAway(s: State, l: Label, sid: SessionId, cid: CommandId, now: Time)
    requires Inv(s) && Enabled(s, l) && Takes(s, l, sid, cid, now)
    ensures AwayIn(Apply(s, l), sid, cid, now + 10 * SECOND)
  {
    HandleIsSettle(s, sid, l.call, l.ok);
  }

  lemma LastKeepsAway(states: seq<State>, labels: seq<Label>, k: nat, sid: SessionId, cid: CommandId, until: Time)
    requires IsRun(states, labels) && 0 < k < |states| && AwayIn(states[k - 1], sid, cid, until)
    requires !labels[k - 1].CrashRestart? && (PollOf(labels[k - 1], sid) ==> labels[k - 1].call.now <= until)
    ensures AwayIn(states[k], sid, cid, until)
  {
    var s, l, t := RunStep(states, labels, k);
    StepKeepsAway(s, l, sid, cid, until);
  }

  lemma {:induction false} AwayUntilLatePoll(states: seq<State>, labels: seq<Label>, a: nat, k: nat,
                                             sid: SessionId, cid: CommandId, until: Time)
    requires IsRun(states, labels) && a < k < |states| && AwayIn(states[a + 1], sid, cid, until)
    requires forall m :: a < m < k ==> !labels[m].CrashRestart?
    requires forall m :: a < m < k && PollOf(labels[m], sid) ==> labels[m].call.now <= until
    ensures AwayIn(states[k], sid, cid, until)
  {
    if k > a + 1 {
      AwayUntilLatePoll(states, labels, a, k - 1, sid, cid, until);
      LastKeepsAway(states, labels, k, sid, cid, until);
    }
  }

  lemma TakenLate(s: State, l: Label, sid: SessionId, cid: CommandId, now: Time, until: Time)
    requires Inv(s) && Takes(s, l, sid, cid, now) && AwayIn(s, sid, cid, until)
    ensures now > until
  {
    PollKeepsAway(s.mem[sid], now, l.call.order, cid, until);
  }

  lemma TakenAway(states: seq<State>, labels: seq<Label>, a: nat, sid: SessionId, cid: CommandId, now: Time)
    requires IsRun(states, labels) && a < |labels| && Takes(states[a], labels[a], sid, cid, now)
    ensures AwayIn(states[a + 1], sid, cid, now + 10 * SECOND)
  {
    var s, l, t := RunStep(states, labels, a + 1);
    TakeMakesAway(s, l, sid, cid, now);
  }

  /** Two takes of one command are more than ten seconds apart, as long as the clock of
      the polls does not go back, unless the broker is restarted between them. */
  lemma TakesAreApart(states: seq<State>, labels: seq<Label>, a: nat, b: nat,
                      sid: SessionId, cid: CommandId, first: Time, second: Time)
    requires IsRun(states, labels) && a < b < |labels|
    requires Takes(states[a], labels[a], sid, cid, first) && Takes(states[b], labels[b], sid, cid, second)
    requires forall m :: a < m < b && PollOf(labels[m], sid) ==> labels[m].call.now <= second
    ensures second > first + 10 * SECOND || exists m :: a < m < b && labels[m].CrashRestart?
  {
    var until := first + 10 * SECOND;
    if second <= until && forall m :: a < m < b ==> !labels[m].CrashRestart? {
      TakenAway(states, labels, a, sid, cid, first);
      AwayUntilLatePoll(states, labels, a, b, sid, cid, until);
      RunKeepsInv(states, labels, b);
      TakenLate(states[b], labels[b], sid, cid, second, until);
    }
  }

  // ------------------------------------------------------- acknowledging in time

  // The command is on the lease that ends at `until`.
  ghost predicate OnLease(x: Session, cid: CommandId, until: Time) {
    cid in x.commands && x.commands[cid].status == Leased && x.commands[cid].leaseUntil == Some(until)
  }

  predicate AckOf(l: Label, sid: SessionId, cid: CommandId) {
    l.Handle? && l.sid == sid && l.call.CallAck? && l.call.cid == cid
  }

  ghost predicate OnLeaseIn(s: State, sid: SessionId, cid: CommandId, until: Time) {
    sid in s.mem && OnLease(s.mem[sid], cid, until)
  }

  lemma PollKeepsOnLease(x: Session, now: Time, order: seq<CommandId>, cid: CommandId, until: Time)
    requires Sound(x) && OnLease(x, cid, until) && now <= until
    ensures var d := PollPass(x, now, order);
            && (d.Commit? ==> OnLease(d.good, cid, until) && OnLease(d.bad, cid, until))
            && (d.Local? ==> OnLease(d.next, cid, until))
  {
    assert ExpireLeases(x, now, order).commands[cid] == x.commands[cid];
  }

  lemma DecideKeepsOnLease(x: Session, call: Call, cid: CommandId, until: Time)
    requires Sound(x) && OnLease(x, cid, until)
    requires (call.CallPoll? ==> call.now <= until) && (call.CallAck? ==> call.cid != cid)
    ensures var d := Decide(x, call);
            && (d.Commit? ==> OnLease(d.good, cid, until) && OnLease(d.bad, cid, until))
            && (d.Local? ==> OnLease(d.next, cid, until))
  {
    match call
    case CallPoll(now, order) => PollKeepsOnLease(x, now, order, cid, until);
    case _ =>
  }

  lemma SettleKeepsOnLease(s: State, k: SessionId, d: Decision, ok: bool, sid: SessionId, cid: CommandId, until: Time)
    requires k in s.mem && OnLeaseIn(s, sid, cid, until)
    requires k == sid && d.Commit? ==> OnLease(d.good, cid, until) && OnLease(d.bad, cid, until)
    requires k == sid && d.Local? ==> OnLease(d.next, cid, until)
    ensures OnLeaseIn(Settle(s, k, d, ok), sid, cid, until)
  {}

  lemma StepKeepsOnLease(s: State, l: Label, sid: SessionId, cid: CommandId, until: Time)
    requires Inv(s) && Enabled(s, l) && !l.CrashRestart? && OnLeaseIn(s, sid, cid, until)
    requires (PollOf(l, sid) ==> l.call.now <= until) && !AckOf(l, sid, cid)
    ensures OnLeaseIn(Apply(s, l), sid, cid, until)
  {
    if l.Handle? && l.sid in s.mem && (ByReference(l.call) || l.sid in s.live) {
      HandleIsSettle(s, l.sid, l.call, l.ok);
      if l.sid == sid { DecideKeepsOnLease(s.mem[sid], l.call, cid, until); }
      SettleKeepsOnLease(s, l.sid, Decide(s.mem[l.sid], l.call), l.ok, sid, cid, until);
    }
  }

  lemma TakeMakesOnLease(s: State, l: Label, sid: SessionId, cid: CommandId, now: Time)
    requires Inv(s) && Enabled(s, l) && Takes(s, l, sid, cid, now)
    ensures OnLeaseIn(Apply(s, l), sid, cid, now + 10 * SECOND)
  {
    HandleIsSettle(s, sid, l.call, l.ok);
  }

  lemma TakenOnLease(states: seq<State>, labels: seq<Label>, a: nat, sid: SessionId, cid: CommandId, now: Time)
    requires IsRun(states, labels) && a < |labels| && Takes(states[a], labels[a], sid, cid, now)
    ensures OnLeaseIn(states[a + 1], sid, cid, now + 10 * SECOND)
  {
    var s, l, t := RunStep(states, labels, a + 1);
    TakeMakesOnLease(s, l, sid, cid, now);
  }

  // Nothing but what `AckedInTime` names ends the lease.
  ghost predicate Undisturbed(labels: seq<Label>, a: nat, k: nat, sid: SessionId, cid: CommandId, now: Time)
    requires k <= |labels|
  {
    forall m :: a < m < k ==>
      !labels[m].CrashRestart? && !AckOf(labels[m], sid, cid) && (PollOf(labels[m], sid) ==> labels[m].call.now <= now)
  }

  lemma {:induction false} StaysOnLease(states: seq<State>, labels: seq<Label>, a: nat, k: nat,
                                        sid: SessionId, cid: CommandId, now: Time, until: Time)
    requires IsRun(states, labels) && a < k < |states| && now <= until
    requires OnLeaseIn(states[a + 1], sid, cid, until) && Undisturbed(labels, a, k, sid, cid, now)
    ensures OnLeaseIn(states[k], sid, cid, until)
  {
    if k > a + 1 {
      StaysOnLease(states, labels, a, k - 1, sid, cid, now, until);
      var s, l, t := RunStep(states, labels, k);
      StepKeepsOnLease(s, l, sid, cid, until);
    }
  }

  /** The acknowledgement is answered 200 and logged, and the command is running, in memory
      and, while its session is in the map, on disk. */
  ghost predicate Acknowledged(s: State, t: State, sid: SessionId, cid: CommandId, now: Time) {
    && sid in s.mem && Answered(Decide(s.mem[sid], CallAck(cid, now)), true, 200)
    && t.hist.log == s.hist.log + [DidAck(sid, cid)]
    && IsRunning(t.mem, sid, cid) && (sid in t.live ==> IsRunning(t.disk, sid, cid))
  }

  ghost predicate IsRunning(m: map<SessionId, Session>, sid: SessionId, cid: CommandId) {
    sid in m && cid in m[sid].commands && m[sid].commands[cid].status == Running
  }

  lemma AckOnLease(s: State, sid: SessionId, cid: CommandId, now: Time, until: Time)
    requires Inv(s) && OnLeaseIn(s, sid, cid, until) && now <= until
    ensures Acknowledged(s, HandleCall(s, sid, CallAck(cid, now), true), sid, cid, now)
  {
    assert CommandSound(s.mem[sid], cid);
    HandleIsSettle(s, sid, CallAck(cid, now), true);
  }

  lemma AckedAtStep(states: seq<State>, labels: seq<Label>, b: nat,
                    sid: SessionId, cid: CommandId, now: Time, until: Time)
    requires IsRun(states, labels) && b < |labels| && labels[b] == Handle(sid, CallAck(cid, now), true)
    requires OnLeaseIn(states[b], sid, cid, until) && now <= until
    ensures Acknowledged(states[b], states[b + 1], sid, cid, now)
  {
    var s, l, t := RunStep(states, labels, b + 1);
    AckOnLease(s, sid, cid, now, until);
  }

  /** The converse: if a poll took a command off the queue and it was not acknowledged
      since, nor the broker restarted, an acknowledgement no more than ten seconds later
      by a clock that did not go back, and whose save succeeds, is answered 200. */
  lemma AckedInTime(states: seq<State>, labels: seq<Label>, a: nat, b: nat,
                    sid: SessionId, cid: CommandId, taken: Time, now: Time)
    requires IsRun(states, labels) && a < b < |labels|
    requires Takes(states[a], labels[a], sid, cid, taken) && now <= taken + 10 * SECOND
    requires labels[b] == Handle(sid, CallAck(cid, now), true) && Undisturbed(labels, a, b, sid, cid, now)
    ensures Acknowledged(states[b], states[b + 1], sid, cid, now)
  {
    TakenOnLease(states, labels, a, sid, cid, taken);
    StaysOnLease(states, labels, a, b, sid, cid, now, taken + 10 * SECOND);
    AckedAtStep(states, labels, b, sid, cid, now, taken + 10 * SECOND);
  }
}
