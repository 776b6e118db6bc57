/** Runs that end in each of the steps that lose a result. */
module LossExamples {
  import opened Records
  import opened Sessions
  import opened Recovery
  import opened Machine
  import opened Guarantees
  import opened Losses

  ghost predicate Reachable(s: State) {
    exists states, labels :: IsRun(states, labels) && states[|labels|] == s
  }

  lemma Start()
    ensures Reachable(EMPTY)
  {
    assert IsRun([EMPTY], []);
  }

  lemma Take(s: State, l: Label)
    requires Reachable(s) && Enabled(s, l)
    ensures Reachable(Apply(s, l))
  {
    var states, labels :| IsRun(states, labels) && states[|labels|] == s;
    RunExtends(states, labels, s, l, Apply(s, l));
  }

  lemma ReachableKeepsInv(s: State)
    requires Reachable(s)
    ensures Inv(s)
  {
    var states, labels :| IsRun(states, labels) && states[|labels|] == s;
    RunKeepsInv(states, labels, |labels|);
  }

  // ------------------------------------------------------- one session at work

  const SID: SessionId := "s"
  const NAME: Capability := "shell.run"

  const ORIGIN: Origin :=
    Origin(SID, PairRequest(2, [], [], [], [], [], [], [], [], [NAME], 60), "", NoHash, 0)

  function Work(id: CommandId): Command { Command(id, NAME, None, []) }

  function Outcome(id: CommandId): Result { Result(id, NAME, 0, 0, [], []) }

  // Approved, authenticated, allowed to run `NAME`, and with nothing queued.
  ghost predicate Ready(s: State) {
    && SID in s.live && SID in s.mem && SID in s.refs && (SID, NAME) in s.tickets
    && Idle(s.mem[SID])
  }

  ghost predicate Idle(x: Session) {
    && x.origin == ORIGIN && x.phase == Approved && x.expiresAt == Some(MINUTE) && x.queue == []
    && INITIAL_ID in x.commands
    && (forall id :: id in x.commands ==> !Expired(x.commands[id], 0) && x.commands[id].status != Queued)
  }

  // What a committing call makes of the state.
  lemma Effect(s: State, call: Call, ok: bool)
    requires SID in s.mem && SID in s.live && Decide(s.mem[SID], call).Commit?
    ensures var d := Decide(s.mem[SID], call); var t := Apply(s, Handle(SID, call, ok));
            && t.mem == s.mem[SID := if ok then d.good else d.bad] && t.live == s.live
            && t.refs == s.refs && t.tickets == s.tickets
            && t.disk == if ok then Snapshot(t.mem, t.live) else s.disk
  {}

  lemma ReachApproved() returns (s: State)
    ensures Reachable(s) && SID in s.mem && SID in s.live && SID in s.refs && (SID, NAME) in s.tickets
    ensures s.mem[SID] == Approve(NewSession(ORIGIN), 1, "t", 0).good
  {
    Start();
    var pair := Pair(ORIGIN, true);
    Take(EMPTY, pair);
    var s1 := Apply(EMPTY, pair);
    assert s1.mem[SID] == NewSession(ORIGIN);
    var approve := CallApprove(1, "t", 0);
    Effect(s1, approve, true);
    Take(s1, Handle(SID, approve, true));
    var s2 := Apply(s1, Handle(SID, approve, true));
    Take(s2, Authenticate(SID, "t", 0));
    var s3 := Apply(s2, Authenticate(SID, "t", 0));
    assert NAME in ORIGIN.request.requested;
    Take(s3, Authorise(SID, NAME));
    s := Apply(s3, Authorise(SID, NAME));
  }

  lemma NoneExpired(x: Session)
    requires forall id :: id in x.commands ==> !Expired(x.commands[id], 0)
    ensures ExpiryOrder(x, 0, []) && ExpireLeases(x, 0, []) == x
  {
    assert Elements<CommandId>([]) == {};
    NothingExpired(x, 0);
  }

  // The first command, which the broker queued itself, goes out and stays leased.
  lemma ReachReady() returns (s: State)
    ensures Reachable(s) && Ready(s) && s.mem[SID].results == [] && s.mem[SID].commands.Keys == {INITIAL_ID}
  {
    var s1 := ReachApproved();
    var x := s1.mem[SID];
    assert x.queue == [INITIAL_ID];
    NoneExpired(x);
    var call := CallPoll(0, []);
    Effect(s1, call, true);
    Take(s1, Handle(SID, call, true));
    s := Apply(s1, Handle(SID, call, true));
  }

  function With(x: Session, id: CommandId, status: CommandStatus): Session {
    x.(commands := x.commands[id := NewCommandState(Work(id)).(status := status)])
  }

  // The same session elsewhere: only its value in memory differs.
  ghost predicate Alike(s: State, t: State) {
    t.mem.Keys == s.mem.Keys && t.live == s.live && t.refs == s.refs && t.tickets == s.tickets
  }

  lemma ReachAdmitted(s: State, id: CommandId) returns (t: State)
    requires Reachable(s) && Ready(s) && id !in s.mem[SID].commands && id != ""
    ensures Reachable(t) && Alike(s, t) && t.mem[SID] == With(s.mem[SID], id, Queued).(queue := [id])
  {
    var call := CallEnqueue(Work(id));
    assert LaneDepth([], s.mem[SID].commands, false) == 0;
    Effect(s, call, true);
    Take(s, Handle(SID, call, true));
    t := Apply(s, Handle(SID, call, true));
    assert [] + [id] == [id];
  }

  lemma ReachLeased(s: State, y: Session, id: CommandId) returns (t: State)
    requires Reachable(s) && SID in s.mem && SID in s.live && SID in s.refs && Idle(y) && id !in y.commands
    requires s.mem[SID] == With(y, id, Queued).(queue := [id])
    ensures Reachable(t) && Alike(s, t) && t.mem[SID].commands.Keys == s.mem[SID].commands.Keys
    ensures var leased := NewCommandState(Work(id)).(status := Leased, leaseUntil := Some(10 * SECOND));
            t.mem[SID] == y.(commands := y.commands[id := leased])
  {
    NoneExpired(s.mem[SID]);
    var call := CallPoll(0, []);
    Effect(s, call, true);
    Take(s, Handle(SID, call, true));
    t := Apply(s, Handle(SID, call, true));
    assert t.mem[SID].queue == [] == y.queue;
  }

  lemma ReachRunning(s: State, id: CommandId) returns (t: State)
    requires Reachable(s) && Ready(s) && id !in s.mem[SID].commands && id != ""
    ensures Reachable(t) && Alike(s, t) && t.mem[SID] == With(s.mem[SID], id, Running)
    ensures SID in t.disk && t.disk[SID] == Strip(t.mem[SID])
  {
    var s1 := ReachAdmitted(s, id);
    var s2 := ReachLeased(s1, s.mem[SID], id);
    var call := CallAck(id, 0);
    Effect(s2, call, true);
    Take(s2, Handle(SID, call, true));
    t := Apply(s2, Handle(SID, call, true));
    assert t.mem[SID].commands == With(s.mem[SID], id, Running).commands;
  }

  lemma ReachPosted(s: State, x: Session, id: CommandId, ok: bool) returns (t: State)
    requires Reachable(s) && SID in s.mem && SID in s.live && SID in s.refs
    requires s.mem[SID] == With(x, id, Running) && x.origin == ORIGIN && id != "" && |x.results| < MAX_RESULTS
    ensures t == Apply(s, Handle(SID, CallPost(Outcome(id)), ok))
    ensures Reachable(t) && Alike(s, t)
    ensures t.mem[SID] == With(x, id, Completed).(results := x.results + [Outcome(id)])
    ensures t.disk == if ok then Snapshot(t.mem, t.live) else s.disk
  {
    var call := CallPost(Outcome(id));
    assert NAME in ORIGIN.request.requested;
    Effect(s, call, ok);
    Take(s, Handle(SID, call, ok));
    t := Apply(s, Handle(SID, call, ok));
    assert t.mem[SID].commands == With(x, id, Completed).commands;
  }

  // Ids of growing length.
  function Id(n: nat): CommandId { seq(n + 1, _ => 'a') }

  lemma IdIsNew(n: nat)
    ensures Id(n) != INITIAL_ID && Id(n) != "" && |Id(n)| == n + 1
  {
    assert Id(n)[0] != INITIAL_ID[0];
  }

  ghost predicate Full(x: Session, n: nat) {
    Idle(x) && |x.results| == n && forall id :: id in x.commands ==> id == INITIAL_ID || |id| <= n
  }

  ghost predicate Filled(s: State, n: nat) {
    Ready(s) && Full(s.mem[SID], n)
  }

  lemma OneMore(x: Session, n: nat)
    requires Full(x, n)
    ensures Full(With(x, Id(n), Completed).(results := x.results + [Outcome(Id(n))]), n + 1)
    ensures Id(n) !in x.commands
  {
    IdIsNew(n);
  }

  lemma {:induction false} ReachFilled(n: nat) returns (s: State)
    requires n <= MAX_RESULTS
    ensures Reachable(s) && Filled(s, n)
  {
    if n == 0 {
      s := ReachReady();
    } else {
      var fewer := ReachFilled(n - 1);
      s := ReachOneMore(fewer, n - 1);
    }
  }

  lemma ReachOneMore(s: State, n: nat) returns (t: State)
    requires Reachable(s) && Filled(s, n) && n < MAX_RESULTS
    ensures Reachable(t) && Filled(t, n + 1)
  {
    OneMore(s.mem[SID], n);
    IdIsNew(n);
    var running := ReachRunning(s, Id(n));
    t := ReachPosted(running, s.mem[SID], Id(n), true);
  }

  // ------------------------------------------------------------- the losses

  /** A run can come to `s`, take the step `l`, and lose the result in it. */
  ghost predicate Example(s: State, l: Label, t: State, cid: CommandId) {
    Reachable(s) && Enabled(s, l) && t == Apply(s, l) && Loses(s, l, t, SID, cid)
  }

  lemma MakesExample(s: State, l: Label, cid: CommandId) returns (t: State)
    requires Reachable(s) && Enabled(s, l) && LosesResult(s, l, SID, cid)
    ensures Example(s, l, t, cid)
  {
    t := Apply(s, l);
    ReachableKeepsInv(s);
    ResultLostIff(s, l, t, SID, cid);
  }

  // One result, saved.
  lemma ReachSaved() returns (s: State)
    ensures Reachable(s) && SID in s.mem && SID in s.live && s.mem[SID].results == [Outcome(Id(0))]
    ensures s.mem[SID].origin == ORIGIN && s.mem[SID].phase == Approved && s.mem[SID].expiresAt == Some(MINUTE)
    ensures s.disk == Snapshot(s.mem, s.live)
  {
    var x, r := ReachFirstRunning();
    IdIsNew(0);
    s := ReachPosted(r, x, Id(0), true);
  }

  lemma ReachFirstRunning() returns (x: Session, r: State)
    ensures Reachable(r) && SID in r.mem && SID in r.live && SID in r.refs
    ensures x.origin == ORIGIN && x.results == [] && r.mem[SID] == With(x, Id(0), Running)
    ensures x.phase == Approved && x.expiresAt == Some(MINUTE)
    ensures SID in r.disk && r.disk[SID] == Strip(r.mem[SID])
  {
    var ready := ReachFilled(0);
    x := ready.mem[SID];
    IdIsNew(0);
    r := ReachRunning(ready, Id(0));
  }

  // A result is posted and answered 500 but held, and only memory knows.
  lemma ReachUnsaved() returns (s: State)
    ensures Reachable(s) && SID in s.mem && SID in s.live && s.mem[SID].results == [Outcome(Id(0))]
    ensures s.mem[SID].origin == ORIGIN && s.mem[SID].phase == Approved && s.mem[SID].expiresAt == Some(MINUTE)
    ensures SID in s.disk && s.disk[SID].results == []
  {
    var x, r := ReachFirstRunning();
    IdIsNew(0);
    s := ReachPosted(r, x, Id(0), false);
  }

  lemma OneResult(r: Result)
    ensures Ids([r]) == {r.id} && Ids([]) == {}
  {
    IdsAppend([], r);
    assert [] + [r] == [r];
  }

  lemma PostCommits(x: Session, id: CommandId)
    requires x.origin == ORIGIN && id != ""
    ensures PostResult(With(x, id, Running), Outcome(id)).Commit?
  {
    assert NAME in ORIGIN.request.requested;
  }

  /** With 128 results held, the next one is answered 200, or 500, and dropped. */
  lemma PostOverCapLoses(ok: bool) returns (s: State, t: State)
    ensures Example(s, Handle(SID, CallPost(Outcome(Id(128))), ok), t, Id(128))
    ensures SID in s.mem && Answered(Decide(s.mem[SID], CallPost(Outcome(Id(128)))), ok, 200) <==> ok
  {
    var full := ReachFilled(128);
    IdIsNew(128);
    s := ReachRunning(full, Id(128));
    PostCommits(full.mem[SID], Id(128));
    t := MakesExample(s, Handle(SID, CallPost(Outcome(Id(128))), ok), Id(128));
  }

  const LATE: Time := 11 * MINUTE

  // The janitor drops the session; a handler that holds a reference still has it.
  lemma ReachSwept(s: State, x: Session, ok: bool) returns (t: State)
    requires Reachable(s) && SID in s.mem && SID in s.live && s.mem[SID] == x
    requires x.origin == ORIGIN && x.expiresAt == Some(MINUTE)
    ensures t == Apply(s, Sweep(LATE, ok)) && Reachable(t)
    ensures SID in t.mem && t.mem[SID] == x && SID !in t.live && t.refs == s.refs && SID in Gone(s, LATE)
  {
    assert Swept(x, LATE);
    Take(s, Sweep(LATE, ok));
    t := Apply(s, Sweep(LATE, ok));
    assert SID in Gone(s, LATE);
    assert t.live == s.live - Gone(s, LATE);
  }

  /** A session is swept while its guest is at work: the guest's result is answered 200,
      or 500, and dropped. */
  lemma PostAfterSweepLoses(ok: bool) returns (s: State, t: State)
    ensures Example(s, Handle(SID, CallPost(Outcome(Id(0))), ok), t, Id(0))
    ensures SID in s.mem && Answered(Decide(s.mem[SID], CallPost(Outcome(Id(0)))), ok, 200) <==> ok
  {
    var x, r := ReachFirstRunning();
    s := ReachSwept(r, r.mem[SID], true);
    IdIsNew(0);
    PostCommits(x, Id(0));
    t := MakesExample(s, Handle(SID, CallPost(Outcome(Id(0))), ok), Id(0));
  }

  // A consuming read of the saved result is answered 500: memory has let it go.
  lemma ReachUnread() returns (s: State)
    ensures Reachable(s) && SID in s.mem && SID in s.live && s.mem[SID].results == []
    ensures SID in s.disk && s.disk[SID].results == [Outcome(Id(0))] && s.disk[SID].origin == ORIGIN
    ensures s.disk[SID].phase == Approved && s.disk[SID].expiresAt == Some(MINUTE)
  {
    var saved := ReachSaved();
    Effect(saved, CallResults(true), false);
    Take(saved, Handle(SID, CallResults(true), false));
    s := Apply(saved, Handle(SID, CallResults(true), false));
  }

  /** Such a read is not the loss yet. Repeating it is: it answers 200 with no results, and
      publishes that there are none. */
  lemma RepeatedReadLoses() returns (s: State, t: State)
    ensures Example(s, Handle(SID, CallResults(true), true), t, Id(0))
    ensures SID in s.mem && s.mem[SID].results == []
  {
    s := ReachUnread();
    OneResult(Outcome(Id(0)));
    t := MakesExample(s, Handle(SID, CallResults(true), true), Id(0));
  }

  /** A restart instead brings the result back. */
  lemma RestartBringsBack() returns (s: State, next: map<SessionId, Session>)
    ensures Reachable(s) && SID in s.mem && s.mem[SID].results == []
    ensures Enabled(s, CrashRestart(0, next)) && InMemory(Apply(s, CrashRestart(0, next)), SID, Id(0))
  {
    s := ReachUnread();
    OneResult(Outcome(Id(0)));
    next := Recovered(s.disk, 0);
    RestartHolds(s, next);
  }

  lemma RestartHolds(s: State, next: map<SessionId, Session>)
    requires RecoveredMap(s.disk, 0, next) && SID in s.disk
    requires s.disk[SID].phase == Approved && s.disk[SID].expiresAt == Some(MINUTE)
    ensures SID in next && next[SID].results == s.disk[SID].results
  {
    assert !DeadAtRecovery(s.disk[SID], 0);
    assert Repaired(s.disk[SID], next[SID]);
  }

  /** A consuming read whose save fails takes what only memory had. */
  lemma UnsavedReadLoses() returns (s: State, t: State)
    ensures Example(s, Handle(SID, CallResults(true), false), t, Id(0))
  {
    s := ReachUnsaved();
    OneResult(Outcome(Id(0)));
    t := MakesExample(s, Handle(SID, CallResults(true), false), Id(0));
  }

  /** The sweep of a session whose results were not read yet. */
  lemma SweepLosesSaved() returns (s: State, t: State)
    ensures Example(s, Sweep(LATE, true), t, Id(0))
  {
    s := ReachSaved();
    OneResult(Outcome(Id(0)));
    assert Swept(s.mem[SID], LATE);
    t := MakesExample(s, Sweep(LATE, true), Id(0));
  }

  lemma SweepLosesUnsaved() returns (s: State, t: State)
    ensures Example(s, Sweep(LATE, false), t, Id(0))
  {
    s := ReachUnsaved();
    OneResult(Outcome(Id(0)));
    assert Swept(s.mem[SID], LATE);
    t := MakesExample(s, Sweep(LATE, false), Id(0));
  }

  /** A result answered 500 is held, and a plain read shows it; then a crash takes it. */
  lemma RestartLosesUnsaved() returns (s: State, next: map<SessionId, Session>, t: State)
    ensures Example(s, CrashRestart(0, next), t, Id(0))
    ensures SID in s.mem && SID in s.live && s.mem[SID].results == [Outcome(Id(0))]
    ensures ReadResults(s.mem[SID], false) == Answer(200)
  {
    s := ReachUnsaved();
    OneResult(Outcome(Id(0)));
    next := Recovered(s.disk, 0);
    t := MakesExample(s, CrashRestart(0, next), Id(0));
  }

  /** A restart after the session has expired. */
  lemma LateRestartLoses() returns (s: State, next: map<SessionId, Session>, t: State)
    ensures Example(s, CrashRestart(2 * MINUTE, next), t, Id(0))
  {
    s := ReachSaved();
    OneResult(Outcome(Id(0)));
    next := Recovered(s.disk, 2 * MINUTE);
    t := MakesExample(s, CrashRestart(2 * MINUTE, next), Id(0));
  }

  // ---------------------------------------------------- some recovered snapshot

  lemma {:induction false} SomeOrder(ids: set<CommandId>) returns (order: seq<CommandId>)
    ensures NoDup(order) && Elements(order) == ids
    decreases |ids|
  {
    if ids == {} {
      order := [];
    } else {
      var id :| id in ids;
      var rest := SomeOrder(ids - {id});
      order := rest + [id];
      forall x | x in rest ensures x != id { assert x in Elements(rest); }
      NoDupConcat(rest, [id]);
      assert Elements(order) == Elements(rest) + {id};
    }
  }

  lemma RepairExists(x: Session) returns (y: Session)
    ensures Repaired(x, y)
  {
    var kept := Kept(x.queue, x.commands);
    var rest := SomeOrder(Waiting(Unleased(x.commands)) - Elements(kept));
    y := x.(sessionToken := None, commands := Unleased(x.commands), queue := kept + rest);
  }

  lemma {:induction false} Recovered(disk: map<SessionId, Session>, now: Time) returns (next: map<SessionId, Session>)
    ensures RecoveredMap(disk, now, next)
    decreases |disk|
  {
    if disk == map[] {
      next := map[];
    } else {
      var sid :| sid in disk;
      var rest := Recovered(disk - {sid}, now);
      var y := RepairExists(disk[sid]);
      next := if DeadAtRecovery(disk[sid], now) then rest else rest[sid := y];
    }
  }
}
