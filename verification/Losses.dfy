/** The steps in which the broker loses a result that no consuming read has taken. */
module Losses {
  import opened Records
  import opened Sessions
  import opened Recovery
  import opened Machine
  import opened Guarantees

  ghost predicate InMemory(s: State, sid: SessionId, cid: CommandId) {
    sid in s.live && sid in s.mem && cid in Ids(s.mem[sid].results)
  }

  ghost predicate OnDisk(s: State, sid: SessionId, cid: CommandId) {
    sid in s.disk && cid in Ids(s.disk[sid].results)
  }

  /** A read can still be given the result: a session in the map holds it, or would
      again after a crash. */
  ghost predicate Available(s: State, sid: SessionId, cid: CommandId) {
    InMemory(s, sid, cid) || OnDisk(s, sid, cid)
  }

  ghost predicate Consumed(log: seq<Event>, sid: SessionId, cid: CommandId) {
    exists e :: e in log && e.sid == sid && e.DidConsume? && cid in Ids(e.taken)
  }

  // The step posts the result of `cid`, and the broker takes it.
  ghost predicate Posts(s: State, l: Label, sid: SessionId, cid: CommandId) {
    l.Handle? && l.sid == sid && l.call.CallPost? && l.call.result.id == cid
    && sid in s.mem && Decide(s.mem[sid], l.call).Commit?
  }

  /** The step takes away what could still be read, or what it was given, and no
      consuming read has it. */
  ghost predicate Loses(s: State, l: Label, t: State, sid: SessionId, cid: CommandId) {
    (Available(s, sid, cid) || Posts(s, l, sid, cid)) && !Available(t, sid, cid) && !Consumed(t.hist.log, sid, cid)
  }

  // A handler's decision is saved, whether or not saving succeeds.
  ghost predicate Commits(s: State, sid: SessionId, call: Call) {
    sid in s.mem && (ByReference(call) || sid in s.live) && Decide(s.mem[sid], call).Commit?
  }

  function Gone(s: State, now: Time): set<SessionId> {
    set sid | sid in s.live && sid in s.mem && Swept(s.mem[sid], now)
  }

  /** The step publishes a snapshot of a running process. */
  ghost predicate Publishes(s: State, l: Label) {
    match l
    case Pair(_, ok) => ok
    case Handle(sid, call, ok) => ok && Commits(s, sid, call)
    case Sweep(now, ok) => ok && Gone(s, now) != {}
    case _ => false
  }

  // The session has no room for another result, or is not in the map any more.
  ghost predicate CannotKeep(s: State, sid: SessionId)
    requires sid in s.mem
  {
    sid !in s.live || |s.mem[sid].results| >= MAX_RESULTS
  }

  /** The steps that lose a result:
      - a post over the cap, or to a session that was dropped while the guest was at
        work, whatever comes of its save;
      - a publication when only the disk holds the result;
      - a consuming read whose save fails when only memory does;
      - a sweep of its session, when the save succeeds or only memory holds it;
      - a restart when the disk does not hold it, or its session is dead by then. */
  ghost predicate LosesResult(s: State, l: Label, sid: SessionId, cid: CommandId) {
    var memory, disk := InMemory(s, sid, cid), OnDisk(s, sid, cid);
    || (Posts(s, l, sid, cid) && CannotKeep(s, sid))
    || (Publishes(s, l) && disk && !memory)
    || (l.Handle? && l.sid == sid && l.call == CallResults(true) && !l.ok && memory && !disk)
    || (l.Sweep? && sid in Gone(s, l.now) && memory && (l.ok || !disk))
    || (l.CrashRestart? && (memory || disk) && (!disk || DeadAtRecovery(s.disk[sid], l.now)))
  }

  // ------------------------------------------------- what a step does to results

  // The results once a call has been decided, whether or not saving fails.
  function ResultsAfter(x: Session, call: Call): seq<Result> {
    if call == CallResults(true) then []
    else if call.CallPost? && |x.results| < MAX_RESULTS then x.results + [call.result]
    else x.results
  }

  lemma DecideResults(x: Session, call: Call)
    ensures var d := Decide(x, call);
            && (d.Commit? ==> d.good.results == ResultsAfter(x, call) && d.bad.results == ResultsAfter(x, call))
            && (d.Local? ==> d.next.results == x.results)
            && (call == CallResults(true) ==> d == ReadResults(x, true))
  {}

  /** What a handler leaves of the results, the map and the disk. */
  ghost predicate HandledTo(s: State, sid: SessionId, call: Call, ok: bool, t: State) {
    && t.live == s.live && t.mem.Keys == s.mem.Keys
    && (forall k :: k in s.mem && k != sid ==> t.mem[k] == s.mem[k])
    && (sid in s.mem ==>
          t.mem[sid].results == if Commits(s, sid, call) then ResultsAfter(s.mem[sid], call) else s.mem[sid].results)
    && t.disk == (if ok && Commits(s, sid, call) then Snapshot(t.mem, t.live) else s.disk)
  }

  // What it adds to the log: only a consuming read reports one, of what it found.
  ghost predicate LoggedTo(s: State, sid: SessionId, call: Call, ok: bool, log: seq<Event>) {
    && (forall e :: e in s.hist.log ==> e in log)
    && (forall e :: e in log ==> e in s.hist.log || NewEvent(s, sid, call, ok, e))
    && (ok && call == CallResults(true) && Commits(s, sid, call) ==>
          DidConsume(s.mem[sid].origin.requestId, s.mem[sid].results) in log)
  }

  ghost predicate NewEvent(s: State, sid: SessionId, call: Call, ok: bool, e: Event) {
    ok && Commits(s, sid, call)
    && (e.DidConsume? ==>
          call == CallResults(true) && e == DidConsume(s.mem[sid].origin.requestId, s.mem[sid].results))
  }

  lemma DecideNewEvent(x: Session, call: Call)
    ensures var d := Decide(x, call);
            && (d.Commit? && d.event.Some? && d.event.value.DidConsume? ==>
                  call == CallResults(true) && d.event.value == DidConsume(x.origin.requestId, x.results))
            && (call == CallResults(true) ==>
                  d.Commit? && d.event == Some(DidConsume(x.origin.requestId, x.results)))
  {}

  lemma SettledTo(s: State, sid: SessionId, call: Call, d: Decision, ok: bool)
    requires sid in s.mem && (ByReference(call) || sid in s.live) && d == Decide(s.mem[sid], call)
    ensures HandledTo(s, sid, call, ok, Settle(s, sid, d, ok))
  {
    DecideResults(s.mem[sid], call);
  }

  lemma SettledLog(s: State, sid: SessionId, call: Call, d: Decision, ok: bool)
    requires sid in s.mem && (ByReference(call) || sid in s.live) && d == Decide(s.mem[sid], call)
    ensures LoggedTo(s, sid, call, ok, Settle(s, sid, d, ok).hist.log)
  {
    DecideNewEvent(s.mem[sid], call);
  }

  lemma HandleTo(s: State, sid: SessionId, call: Call, ok: bool)
    ensures var t := HandleCall(s, sid, call, ok);
            HandledTo(s, sid, call, ok, t) && LoggedTo(s, sid, call, ok, t.hist.log)
  {
    if sid in s.mem && (ByReference(call) || sid in s.live) {
      HandleIsSettle(s, sid, call, ok);
      SettledTo(s, sid, call, Decide(s.mem[sid], call), ok);
      SettledLog(s, sid, call, Decide(s.mem[sid], call), ok);
    }
  }

  lemma PublishedResults(mem: map<SessionId, Session>, live: set<SessionId>, sid: SessionId)
    ensures sid in Snapshot(mem, live) <==> sid in mem && sid in live
    ensures sid in Snapshot(mem, live) ==> Snapshot(mem, live)[sid].results == mem[sid].results
  {}

  // ----------------------------------------------------- what is known beforehand

  lemma HeldIsCompleted(x: Session, cid: CommandId)
    requires Sound(x)
    ensures cid in Ids(x.results) ==> cid in x.commands && x.commands[cid].status == Completed
  {
    assert forall r :: r in x.results ==> ResultSound(x, r);
  }

  lemma ConsumedIsSettled(s: State, sid: SessionId, cid: CommandId)
    requires Promises(s) && Consumed(s.hist.log, sid, cid)
    ensures sid in s.mem ==> Settled(s.mem[sid], cid)
    ensures sid in s.disk ==> Settled(s.disk[sid], cid)
  {
    var e :| e in s.hist.log && e.sid == sid && e.DidConsume? && cid in Ids(e.taken);
    assert HonouredIn(s.mem, e) && HonouredIn(s.disk, e);
  }

  // A result that can be read was not consumed.
  lemma AvailableIsUnread(s: State, sid: SessionId, cid: CommandId)
    requires Inv(s)
    ensures Available(s, sid, cid) ==> !Consumed(s.hist.log, sid, cid)
  {
    if Consumed(s.hist.log, sid, cid) { ConsumedIsSettled(s, sid, cid); }
  }

  lemma CompletedBehind(d: Session, m: Session, cid: CommandId)
    requires Behind(d, m)
    ensures cid in d.commands && d.commands[cid].status == Completed ==>
              cid in m.commands && m.commands[cid].status == Completed
  {}

  lemma RunningWhenPosted(x: Session, r: Result)
    ensures PostResult(x, r).Commit? ==> r.id in x.commands && x.commands[r.id].status == Running
  {}

  lemma RunningIsNowhere(s: State, sid: SessionId, cid: CommandId)
    requires Inv(s) && sid in s.mem && cid in s.mem[sid].commands && s.mem[sid].commands[cid].status == Running
    ensures !Available(s, sid, cid) && !Consumed(s.hist.log, sid, cid)
  {
    HeldIsCompleted(s.mem[sid], cid);
    if sid in s.disk { NotOnDiskBefore(s.disk[sid], s.mem[sid], cid); }
    if Consumed(s.hist.log, sid, cid) { ConsumedIsSettled(s, sid, cid); }
  }

  lemma NotOnDiskBefore(d: Session, m: Session, cid: CommandId)
    requires Sound(d) && Behind(d, m) && cid in m.commands && m.commands[cid].status == Running
    ensures cid !in Ids(d.results)
  {
    HeldIsCompleted(d, cid);
    CompletedBehind(d, m, cid);
  }

  // A result that is taken was nowhere before.
  lemma PostedIsNew(s: State, l: Label, sid: SessionId, cid: CommandId)
    requires Inv(s)
    ensures Posts(s, l, sid, cid) ==> !Available(s, sid, cid) && !Consumed(s.hist.log, sid, cid)
  {
    if Posts(s, l, sid, cid) {
      RunningWhenPosted(s.mem[sid], l.call.result);
      RunningIsNowhere(s, sid, cid);
    }
  }

  // --------------------------------------------------------------- the theorem

  // What a handler leaves of one result: in memory, on disk, and in the log.
  ghost predicate Leaves(s: State, k: SessionId, call: Call, ok: bool, t: State, sid: SessionId, cid: CommandId) {
    && (InMemory(t, sid, cid) <==> RemainsHeld(s, k, call, sid, cid))
    && (OnDisk(t, sid, cid) <==> if ok && Commits(s, k, call) then InMemory(t, sid, cid) else OnDisk(s, sid, cid))
    && (Consumed(t.hist.log, sid, cid) <==> Consumed(s.hist.log, sid, cid) || Reads(s, k, call, ok, sid, cid))
  }

  ghost predicate RemainsHeld(s: State, k: SessionId, call: Call, sid: SessionId, cid: CommandId) {
    sid in s.live && sid in s.mem
    && cid in Ids(if sid == k && Commits(s, k, call) then ResultsAfter(s.mem[sid], call) else s.mem[sid].results)
  }

  ghost predicate Reads(s: State, k: SessionId, call: Call, ok: bool, sid: SessionId, cid: CommandId) {
    ok && Commits(s, k, call) && k == sid && call == CallResults(true) && cid in Ids(s.mem[sid].results)
  }

  lemma OnlyReadsConsume(s: State, k: SessionId, call: Call, ok: bool, t: State, sid: SessionId, cid: CommandId)
    requires Core(s) && LoggedTo(s, k, call, ok, t.hist.log) && Consumed(t.hist.log, sid, cid)
    ensures Consumed(s.hist.log, sid, cid) || Reads(s, k, call, ok, sid, cid)
  {
    var e :| e in t.hist.log && e.sid == sid && e.DidConsume? && cid in Ids(e.taken);
    if e !in s.hist.log { assert NewEvent(s, k, call, ok, e); }
  }

  lemma ReadsConsume(s: State, k: SessionId, call: Call, ok: bool, t: State, sid: SessionId, cid: CommandId)
    requires Core(s) && LoggedTo(s, k, call, ok, t.hist.log)
    ensures Consumed(s.hist.log, sid, cid) || Reads(s, k, call, ok, sid, cid) ==> Consumed(t.hist.log, sid, cid)
  {
    if Consumed(s.hist.log, sid, cid) {
      var e :| e in s.hist.log && e.sid == sid && e.DidConsume? && cid in Ids(e.taken);
      assert e in t.hist.log;
    }
    if Reads(s, k, call, ok, sid, cid) {
      var e := DidConsume(s.mem[sid].origin.requestId, s.mem[sid].results);
      assert e in t.hist.log && e.sid == sid;
    }
  }

  lemma HandleHolds(s: State, k: SessionId, call: Call, ok: bool, t: State, sid: SessionId, cid: CommandId)
    requires HandledTo(s, k, call, ok, t)
    ensures InMemory(t, sid, cid) <==> RemainsHeld(s, k, call, sid, cid)
    ensures OnDisk(t, sid, cid) <==> if ok && Commits(s, k, call) then InMemory(t, sid, cid) else OnDisk(s, sid, cid)
  {
    PublishedResults(t.mem, t.live, sid);
  }

  lemma HandleLeaves(s: State, k: SessionId, call: Call, ok: bool, t: State, sid: SessionId, cid: CommandId)
    requires Core(s) && HandledTo(s, k, call, ok, t) && LoggedTo(s, k, call, ok, t.hist.log)
    ensures Leaves(s, k, call, ok, t, sid, cid)
  {
    HandleHolds(s, k, call, ok, t, sid, cid);
    ReadsConsume(s, k, call, ok, t, sid, cid);
    if Consumed(t.hist.log, sid, cid) { OnlyReadsConsume(s, k, call, ok, t, sid, cid); }
  }

  lemma PostLoses(s: State, k: SessionId, r: Result, ok: bool, t: State, sid: SessionId, cid: CommandId)
    requires Inv(s) && Leaves(s, k, CallPost(r), ok, t, sid, cid)
    ensures var l := Handle(k, CallPost(r), ok); Loses(s, l, t, sid, cid) <==> LosesResult(s, l, sid, cid)
  {
    var l := Handle(k, CallPost(r), ok);
    if Posts(s, l, sid, cid) {
      PostedIsNew(s, l, sid, cid);
      IdsAppend(s.mem[k].results, r);
    } else {
      OthersRemain(s, k, r, ok, sid, cid);
      AvailableIsUnread(s, sid, cid);
    }
  }

  lemma OthersRemain(s: State, k: SessionId, r: Result, ok: bool, sid: SessionId, cid: CommandId)
    requires !Posts(s, Handle(k, CallPost(r), ok), sid, cid)
    ensures RemainsHeld(s, k, CallPost(r), sid, cid) <==> InMemory(s, sid, cid)
  {
    if k in s.mem { IdsAppend(s.mem[k].results, r); }
  }

  lemma ReadLoses(s: State, k: SessionId, ok: bool, t: State, sid: SessionId, cid: CommandId)
    requires Inv(s) && Leaves(s, k, CallResults(true), ok, t, sid, cid)
    ensures var l := Handle(k, CallResults(true), ok); Loses(s, l, t, sid, cid) <==> LosesResult(s, l, sid, cid)
  {
    AvailableIsUnread(s, sid, cid);
    EmptyIds();
    if k in s.mem { DecideResults(s.mem[k], CallResults(true)); }
  }

  lemma OtherLoses(s: State, k: SessionId, call: Call, ok: bool, t: State, sid: SessionId, cid: CommandId)
    requires Inv(s) && Leaves(s, k, call, ok, t, sid, cid) && !call.CallPost? && call != CallResults(true)
    ensures var l := Handle(k, call, ok); Loses(s, l, t, sid, cid) <==> LosesResult(s, l, sid, cid)
  {
    AvailableIsUnread(s, sid, cid);
  }

  lemma HandleLoses(s: State, k: SessionId, call: Call, ok: bool, t: State, sid: SessionId, cid: CommandId)
    requires Inv(s) && t == HandleCall(s, k, call, ok)
    ensures Loses(s, Handle(k, call, ok), t, sid, cid) <==> LosesResult(s, Handle(k, call, ok), sid, cid)
  {
    HandleTo(s, k, call, ok);
    HandleLeaves(s, k, call, ok, t, sid, cid);
    if call == CallResults(true) {
      ReadLoses(s, k, ok, t, sid, cid);
    } else if call.CallPost? {
      PostLoses(s, k, call.result, ok, t, sid, cid);
    } else {
      OtherLoses(s, k, call, ok, t, sid, cid);
    }
  }

  lemma EmptyIds()
    ensures Ids([]) == {}
  {}

  lemma SweepLoses(s: State, now: Time, ok: bool, t: State, sid: SessionId, cid: CommandId)
    requires Inv(s) && t == SweepStep(s, now, ok)
    ensures Loses(s, Sweep(now, ok), t, sid, cid) <==> LosesResult(s, Sweep(now, ok), sid, cid)
  {
    AvailableIsUnread(s, sid, cid);
    PublishedResults(t.mem, t.live, sid);
  }

  lemma PairLoses(s: State, origin: Origin, ok: bool, t: State, sid: SessionId, cid: CommandId)
    requires Inv(s) && origin.requestId !in s.hist.used && t == PairStep(s, origin, ok)
    ensures Loses(s, Pair(origin, ok), t, sid, cid) <==> LosesResult(s, Pair(origin, ok), sid, cid)
  {
    AvailableIsUnread(s, sid, cid);
    PublishedResults(t.mem, t.live, sid);
    EmptyIds();
  }

  lemma RestartLoses(s: State, now: Time, next: map<SessionId, Session>, t: State, sid: SessionId, cid: CommandId)
    requires Inv(s) && RecoveredMap(s.disk, now, next) && t == Restarted(s, next)
    ensures Loses(s, CrashRestart(now, next), t, sid, cid) <==> LosesResult(s, CrashRestart(now, next), sid, cid)
  {
    AvailableIsUnread(s, sid, cid);
    PublishedResults(next, next.Keys, sid);
    assert sid in next ==> Repaired(s.disk[sid], next[sid]);
  }

  /** A result is lost in exactly those steps. */
  lemma ResultLostIff(s: State, l: Label, t: State, sid: SessionId, cid: CommandId)
    requires Inv(s) && Enabled(s, l) && t == Apply(s, l)
    ensures Loses(s, l, t, sid, cid) <==> LosesResult(s, l, sid, cid)
  {
    match l
    case Pair(origin, ok) => PairLoses(s, origin, ok, t, sid, cid);
    case Handle(k, call, ok) => HandleLoses(s, k, call, ok, t, sid, cid);
    case Sweep(now, ok) => SweepLoses(s, now, ok, t, sid, cid);
    case CrashRestart(now, next) => RestartLoses(s, now, next, t, sid, cid);
    case _ =>
  }

  // ------------------------------------------- results that only memory holds

  /** The step posted the result, and its save failed. */
  ghost predicate PostedUnsaved(s: State, l: Label, sid: SessionId, cid: CommandId) {
    Posts(s, l, sid, cid) && !l.ok
  }

  ghost predicate MemoryOnly(s: State, sid: SessionId, cid: CommandId) {
    InMemory(s, sid, cid) && !OnDisk(s, sid, cid)
  }

  lemma HandleMemoryOnly(s: State, k: SessionId, call: Call, ok: bool, t: State, sid: SessionId, cid: CommandId)
    requires Inv(s) && t == HandleCall(s, k, call, ok) && MemoryOnly(t, sid, cid)
    ensures !(ok && Commits(s, k, call))
    ensures MemoryOnly(s, sid, cid) || PostedUnsaved(s, Handle(k, call, ok), sid, cid)
  {
    HandleTo(s, k, call, ok);
    HandleHolds(s, k, call, ok, t, sid, cid);
    if call.CallPost? && k in s.mem { IdsAppend(s.mem[k].results, call.result); }
    EmptyIds();
  }

  lemma StepMemoryOnly(s: State, l: Label, t: State, sid: SessionId, cid: CommandId)
    requires Inv(s) && Enabled(s, l) && t == Apply(s, l) && MemoryOnly(t, sid, cid)
    ensures !Publishes(s, l) && !l.CrashRestart?
    ensures MemoryOnly(s, sid, cid) || PostedUnsaved(s, l, sid, cid)
  {
    PublishedResults(t.mem, t.live, sid);
    EmptyIds();
    if l.Handle? { HandleMemoryOnly(s, l.sid, l.call, l.ok, t, sid, cid); }
  }

  // From the i-th step on, up to the k-th state, nothing was published.
  ghost predicate UnpublishedSince(states: seq<State>, labels: seq<Label>, i: nat, k: nat)
    requires i <= k <= |labels| <= |states|
  {
    forall j :: i <= j < k ==> !Publishes(states[j], labels[j]) && !labels[j].CrashRestart?
  }

  // One step back from a state in which the result is there.
  lemma StepBack(states: seq<State>, labels: seq<Label>, m: nat, k: nat, sid: SessionId, cid: CommandId)
    requires IsRun(states, labels) && m <= k < |states| && UnpublishedSince(states, labels, m, k)
    requires MemoryOnly(states[m], sid, cid)
    ensures m > 0 && UnpublishedSince(states, labels, m - 1, k)
    ensures MemoryOnly(states[m - 1], sid, cid) || PostedUnsaved(states[m - 1], labels[m - 1], sid, cid)
  {
    assert states[0] == EMPTY;
    var s, l, t := RunStep(states, labels, m);
    StepMemoryOnly(s, l, t, sid, cid);
    UnpublishedBefore(states, labels, m - 1, k);
  }

  lemma UnpublishedBefore(states: seq<State>, labels: seq<Label>, i: nat, k: nat)
    requires i < k <= |labels| <= |states| && UnpublishedSince(states, labels, i + 1, k)
    requires !Publishes(states[i], labels[i]) && !labels[i].CrashRestart?
    ensures UnpublishedSince(states, labels, i, k)
  {}

  lemma {:induction false} UnsavedSince(states: seq<State>, labels: seq<Label>, m: nat, k: nat,
                                        sid: SessionId, cid: CommandId) returns (i: nat)
    requires IsRun(states, labels) && m <= k < |states| && UnpublishedSince(states, labels, m, k)
    requires MemoryOnly(states[m], sid, cid)
    ensures i < k && PostedUnsaved(states[i], labels[i], sid, cid) && UnpublishedSince(states, labels, i, k)
  {
    StepBack(states, labels, m, k, sid, cid);
    if PostedUnsaved(states[m - 1], labels[m - 1], sid, cid) {
      i := m - 1;
    } else {
      i := UnsavedSince(states, labels, m - 1, k, sid, cid);
    }
  }

  /** In every run, a result in memory and not on disk was posted by a step whose save
      failed, and nothing was published since. */
  lemma MemoryOnlyWasUnsaved(states: seq<State>, labels: seq<Label>, k: nat, sid: SessionId, cid: CommandId)
    returns (i: nat)
    requires IsRun(states, labels) && k < |states| && MemoryOnly(states[k], sid, cid)
    ensures i < k && PostedUnsaved(states[i], labels[i], sid, cid)
    ensures forall j :: i <= j < k ==> !Publishes(states[j], labels[j]) && !labels[j].CrashRestart?
  {
    i := UnsavedSince(states, labels, k, k, sid, cid);
  }
}
