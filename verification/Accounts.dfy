/** Where the results of completed commands go. */
module Accounts {
  import opened Records
  import opened Sessions
  import opened Recovery
  import opened Machine
  import opened Guarantees

  /** `e` accounts for the result of `cid` no longer being held: read and consumed,
      or accepted while the session already held its 128 results. */
  ghost predicate AccountsFor(e: Event, cid: CommandId) {
    (e.DidConsume? && cid in Ids(e.taken)) || (e.DidAccept? && !e.stored && e.result.id == cid)
  }

  ghost predicate Accounted(log: seq<Event>, sid: SessionId, cid: CommandId) {
    exists e :: e in log && e.sid == sid && AccountsFor(e, cid)
  }

  /** As long as no save has failed, the disk is the memory, less clear tokens, and
      every completed command whose result is gone is accounted for. */
  ghost predicate Balanced(s: State) {
    s.hist.clean ==>
      && s.disk == Snapshot(s.mem, s.live)
      && forall sid, cid :: sid in s.mem && Settled(s.mem[sid], cid) ==> Accounted(s.hist.log, sid, cid)
  }

  ghost predicate AccountStep(x: Session, y: Session, event: Option<Event>) {
    forall cid :: Settled(y, cid) ==> Settled(x, cid) || (event.Some? && AccountsFor(event.value, cid))
  }

  lemma DecideAccounts(x: Session, call: Call)
    requires Sound(x)
    ensures Decide(x, call).Commit? ==> AccountStep(x, Decide(x, call).good, Decide(x, call).event)
  {}

  lemma SettleKeepsBalance(s: State, sid: SessionId, d: Decision, ok: bool)
    requires Core(s) && Balanced(s) && sid in s.mem && Proper(s.mem[sid], d)
    requires d.Commit? ==> AccountStep(s.mem[sid], d.good, d.event)
    ensures Balanced(Settle(s, sid, d, ok))
  {}

  lemma SettledInRepair(x: Session, y: Session, cid: CommandId)
    requires Repaired(x, y)
    ensures Settled(y, cid) ==> Settled(x, cid)
  {}

  /** One step keeps the balance. */
  lemma StepKeepsBalance(s: State, l: Label)
    requires Inv(s) && Balanced(s) && Enabled(s, l)
    ensures Balanced(Apply(s, l))
  {
    match l
    case Pair(origin, ok) =>
    case Handle(sid, call, ok) =>
      if sid in s.mem && (ByReference(call) || sid in s.live) {
        var d := Decide(s.mem[sid], call);
        DecideProper(s, sid, call);
        DecideAccounts(s.mem[sid], call);
        SettleKeepsBalance(s, sid, d, ok);
        HandleIsSettle(s, sid, call, ok);
      }
    case Authenticate(_, _, _) =>
    case Authorise(_, _) =>
    case Sweep(now, ok) =>
    case CrashRestart(now, next) =>
      RestartKeepsCore(s, now, next);
      if s.hist.clean {
        forall sid, cid | sid in next && Settled(next[sid], cid) ensures Accounted(s.hist.log, sid, cid) {
          SettledInRepair(s.disk[sid], next[sid], cid);
          assert Settled(s.mem[sid], cid);
        }
      }
  }

  lemma {:induction false} RunKeepsBalance(states: seq<State>, labels: seq<Label>, i: nat)
    requires IsRun(states, labels) && i < |states|
    ensures Balanced(states[i])
  {
    if i > 0 {
      RunKeepsBalance(states, labels, i - 1);
      RunKeepsInv(states, labels, i - 1);
      assert IsStep(states, labels, i - 1);
      StepKeepsBalance(states[i - 1], labels[i - 1]);
    }
  }

  // ------------------------------------------------------------- the account

  ghost function CompletedIds(x: Session): set<CommandId> {
    set cid | cid in x.commands && x.commands[cid].status == Completed
  }

  ghost function ConsumedIds(x: Session, log: seq<Event>): set<CommandId> {
    set cid | cid in x.commands &&
               exists e :: e in log && e.sid == x.origin.requestId && e.DidConsume? && cid in Ids(e.taken)
  }

  ghost function DroppedIds(x: Session, log: seq<Event>): set<CommandId> {
    set cid | cid in x.commands
               && exists e :: e in log && e.sid == x.origin.requestId && e.DidAccept? && !e.stored && e.result.id == cid
  }

  lemma {:induction false} DistinctCount(results: seq<Result>)
    requires DistinctIds(results)
    ensures |Ids(results)| == |results|
  {
    if results != [] {
      var n := |results| - 1;
      assert results == results[..n] + [results[n]];
      DistinctCount(results[..n]);
      IdsAppend(results[..n], results[n]);
      assert results[n].id !in Ids(results[..n]);
    } else {
      assert Ids(results) == {};
    }
  }

  lemma AccountSets(s: State, sid: SessionId)
    requires Inv(s) && sid in s.mem
    ensures var x := s.mem[sid];
            && ConsumedIds(x, s.hist.log) + DroppedIds(x, s.hist.log) <= CompletedIds(x) - Ids(x.results)
            && ConsumedIds(x, s.hist.log) * DroppedIds(x, s.hist.log) == {}
  {
    var x := s.mem[sid];
    var log := s.hist.log;
    forall cid | cid in ConsumedIds(x, log) || cid in DroppedIds(x, log) ensures Settled(x, cid) {
      AccountedIsSettled(s, sid, cid);
    }
    forall cid | cid in ConsumedIds(x, log) ensures cid !in DroppedIds(x, log) {
      var e :| e in log && e.sid == sid && e.DidConsume? && cid in Ids(e.taken);
      var a :| 0 <= a < |log| && log[a] == e;
      forall d | d in log && d.sid == sid && d.DidAccept? && !d.stored ensures d.result.id != cid {
        var b :| 0 <= b < |log| && log[b] == d;
        NotBoth(log, a, b);
      }
    }
  }

  // A result is not both consumed and dropped.
  lemma NotBoth(log: seq<Event>, a: nat, b: nat)
    requires NoRepeats(log) && a < |log| && b < |log| && log[a].sid == log[b].sid
    requires log[a].DidConsume? && log[b].DidAccept? && !log[b].stored
    ensures log[b].result.id !in Ids(log[a].taken)
  {
    assert a < b ==> !Excludes(log[a], log[b]);
    assert b < a ==> !Excludes(log[b], log[a]);
  }

  lemma SplitCount(a: set<CommandId>, b: set<CommandId>, c: set<CommandId>, whole: set<CommandId>)
    requires a * b == {} && (a + b) * c == {} && a + b + c <= whole
    ensures |a| + |b| + |c| <= |whole|
    ensures whole == a + b + c ==> |a| + |b| + |c| == |whole|
  {
    assert |a + b + c| == |a| + |b| + |c|;
    assert whole == (a + b + c) + (whole - (a + b + c));
  }

  // Without failed saves nothing is missing.
  lemma CleanAccount(s: State, sid: SessionId)
    requires Inv(s) && Balanced(s) && s.hist.clean && sid in s.mem
    ensures var x := s.mem[sid];
            CompletedIds(x) <= Ids(x.results) + ConsumedIds(x, s.hist.log) + DroppedIds(x, s.hist.log)
  {
    var x := s.mem[sid];
    forall cid | cid in CompletedIds(x)
      ensures cid in Ids(x.results) + ConsumedIds(x, s.hist.log) + DroppedIds(x, s.hist.log)
    {
      if cid !in Ids(x.results) { SettledIsRecorded(s, sid, cid); }
    }
  }

  lemma AccountFacts(s: State, sid: SessionId)
    requires Inv(s) && Balanced(s) && sid in s.mem
    ensures var x := s.mem[sid];
            var held, consumed, dropped := Ids(x.results), ConsumedIds(x, s.hist.log), DroppedIds(x, s.hist.log);
            && |held| == |x.results| <= MAX_RESULTS
            && held * consumed == {} && (held + consumed) * dropped == {}
            && held + consumed + dropped <= CompletedIds(x)
            && (s.hist.clean ==> CompletedIds(x) == held + consumed + dropped)
  {
    AccountSets(s, sid);
    DistinctCount(s.mem[sid].results);
    HeldAreCompleted(s.mem[sid]);
    if s.hist.clean { CleanAccount(s, sid); }
  }

  /** In every reachable state the completed commands split into results still held,
      results consumed, results dropped over the cap, and a remainder; in a run
      without failed saves there is no remainder. */
  lemma ResultAccount(states: seq<State>, labels: seq<Label>, i: nat, sid: SessionId)
    requires IsRun(states, labels) && i < |states| && sid in states[i].mem
    ensures var s := states[i]; var x := s.mem[sid];
            var held, consumed, dropped := |x.results|, |ConsumedIds(x, s.hist.log)|, |DroppedIds(x, s.hist.log)|;
            && held <= MAX_RESULTS
            && held + consumed + dropped <= |CompletedIds(x)|
            && (s.hist.clean ==> held + consumed + dropped == |CompletedIds(x)|)
  {
    var s := states[i];
    var x := s.mem[sid];
    AccountFacts(s, sid) by {
      RunKeepsInv(states, labels, i);
      RunKeepsBalance(states, labels, i);
    }
    SplitCount(Ids(x.results), ConsumedIds(x, s.hist.log), DroppedIds(x, s.hist.log), CompletedIds(x));
  }

  lemma HeldAreCompleted(x: Session)
    requires Sound(x)
    ensures Ids(x.results) <= CompletedIds(x)
  {}

  lemma SettledIsRecorded(s: State, sid: SessionId, cid: CommandId)
    requires Inv(s) && Balanced(s) && s.hist.clean && sid in s.mem && Settled(s.mem[sid], cid)
    ensures cid in ConsumedIds(s.mem[sid], s.hist.log) || cid in DroppedIds(s.mem[sid], s.hist.log)
  {}

  lemma AccountedIsSettled(s: State, sid: SessionId, cid: CommandId)
    requires Promises(s) && sid in s.mem
    ensures Accounted(s.hist.log, sid, cid) ==> Settled(s.mem[sid], cid)
  {}
}
