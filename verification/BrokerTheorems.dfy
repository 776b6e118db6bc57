/** What the broker guarantees over every run of requests, lease expiries, failed
    saves, stale references, sweeps, crashes and restarts. */
module BrokerTheorems {
  import opened Records
  import opened Sessions
  import opened Recovery
  import opened Machine
  import opened Guarantees

  /** At most one 202 and one 200 acknowledgement per command, one accepted result,
      one consuming read of it, one approval per session, and none after a rejection
      or a revocation was answered. */
  lemma AtMostOnce(states: seq<State>, labels: seq<Label>, k: nat, i: nat, j: nat)
    requires IsRun(states, labels) && k < |states|
    requires i < j < |states[k].hist.log|
    requires states[k].hist.log[i].sid == states[k].hist.log[j].sid
    ensures var first, later := states[k].hist.log[i], states[k].hist.log[j];
            && (first.DidAdmit? && later.DidAdmit? ==> first.cid != later.cid)
            && (first.DidAck? && later.DidAck? ==> first.cid != later.cid)
            && (first.DidAccept? && later.DidAccept? ==> first.result.id != later.result.id)
            && (first.DidAccept? && later.DidAck? ==> first.result.id != later.cid)
            && (first.DidConsume? && later.DidConsume? ==> Ids(first.taken) * Ids(later.taken) == {})
            && (later.DidApprove? ==> !first.DidApprove? && !first.DidReject? && !first.DidRevoke?)
            && (first.DidReject? || first.DidRevoke? ==> !later.DidAdmit?)
  {
    RunKeepsInv(states, labels, k);
    var first, later := states[k].hist.log[i], states[k].hist.log[j];
    assert !Excludes(first, later);
  }

  /** The queue has no duplicates, lists only queued commands, lists all of them
      while the session is approved, and is empty, like the command map, before. */
  lemma QueueAgrees(states: seq<State>, labels: seq<Label>, k: nat, sid: SessionId)
    requires IsRun(states, labels) && k < |states| && sid in states[k].mem
    ensures var x := states[k].mem[sid];
            && NoDup(x.queue)
            && Elements(x.queue) <= Waiting(x.commands)
            && (x.phase == Approved ==> Elements(x.queue) == Waiting(x.commands))
            && (x.phase == Pending ==> x.queue == [] && x.commands == map[] && x.results == [])
  {
    RunKeepsInv(states, labels, k);
    assert Sound(states[k].mem[sid]);
  }

  /** The disk lags memory by progress only, so a crash takes nothing back that was
      answered with success, and an approved session that has not expired returns
      with its grant and with every command no further than memory had it. */
  lemma CrashLosesNothingAnswered(states: seq<State>, labels: seq<Label>, k: nat,
                                  now: Time, next: map<SessionId, Session>)
    requires IsRun(states, labels) && k < |states| && RecoveredMap(states[k].disk, now, next)
    ensures forall e :: e in states[k].hist.log && e.sid in next ==> Honours(next[e.sid], e)
    ensures forall sid :: sid in states[k].live && sid in states[k].mem && states[k].mem[sid].phase == Approved
                          && IsBefore(now, states[k].mem[sid].expiresAt) ==>
              sid in next && Resumes(states[k].mem[sid], next[sid])
  {
    RunKeepsInv(states, labels, k);
    var s := states[k];
    RestartKeepsPromises(s, now, next);
    forall e | e in s.hist.log && e.sid in next ensures Honours(next[e.sid], e) {
      assert HonouredIn(Restarted(s, next).mem, e);
    }
    forall sid | sid in s.live && s.mem[sid].phase == Approved && IsBefore(now, s.mem[sid].expiresAt)
      ensures sid in next && Resumes(s.mem[sid], next[sid])
    {
      assert Behind(s.disk[sid], s.mem[sid]);
      assert !DeadAtRecovery(s.disk[sid], now);
      ResumesAfterRepair(s.disk[sid], s.mem[sid], next[sid]);
    }
  }

  ghost predicate Resumes(m: Session, y: Session) {
    && y.origin == m.origin && y.phase == Approved && y.expiresAt == m.expiresAt && y.tokenHash == m.tokenHash
    && y.commands.Keys == m.commands.Keys
    && (forall cid :: cid in m.commands ==> CommandStep(y.commands[cid], m.commands[cid]))
    && Elements(y.queue) == Waiting(y.commands)
  }

  lemma ResumesAfterRepair(d: Session, m: Session, y: Session)
    requires Behind(d, m) && m.phase == Approved && Repaired(d, y)
    ensures Resumes(m, y)
  {
    RecoveryRepairs(d, y);
    forall cid | cid in m.commands ensures CommandStep(y.commands[cid], m.commands[cid]) {
      assert CommandStep(d.commands[cid], m.commands[cid]);
    }
  }

  lemma RestartKeepsApproval(s: State, now: Time, next: map<SessionId, Session>, sid: SessionId)
    requires Core(s) && RecoveredMap(s.disk, now, next)
    requires sid in s.live && s.mem[sid].phase == Approved && IsBefore(now, s.mem[sid].expiresAt)
    ensures sid in next && next[sid].phase == Approved && next[sid].expiresAt == s.mem[sid].expiresAt
    ensures next[sid].origin == s.mem[sid].origin
  {}

  /** Nothing but death removes a session: an approved one stays, and stays
      approved, through every step taken before its expiry but a revocation. */
  lemma ActiveSessionKept(s: State, l: Label, sid: SessionId)
    requires Inv(s) && Enabled(s, l) && sid in s.live && s.mem[sid].phase == Approved
    requires l.Sweep? || l.CrashRestart? ==> IsBefore(l.now, s.mem[sid].expiresAt)
    requires l.Handle? && l.sid == sid ==> !l.call.CallAdminRevoke? && !l.call.CallGuestRevoke?
    ensures var t := Apply(s, l);
            && sid in t.live && sid in t.mem && sid in t.disk
            && t.mem[sid].phase == Approved && t.mem[sid].expiresAt == s.mem[sid].expiresAt
            && t.mem[sid].origin == s.mem[sid].origin
  {
    StepIsSaved(s, l);
    match l
    case Pair(origin, ok) => PairKeepsOthers(s, origin, ok, sid);
    case Handle(k, call, ok) => HandleKeepsApproval(s, k, call, ok, sid);
    case Sweep(now, ok) => SweepKeepsLive(s, now, ok, sid);
    case CrashRestart(now, next) => RestartKeepsApproval(s, now, next, sid);
    case _ =>
  }

  // A session in the map is on the disk too.
  lemma StepIsSaved(s: State, l: Label)
    requires Inv(s) && Enabled(s, l)
    ensures Apply(s, l).live <= Apply(s, l).mem.Keys * Apply(s, l).disk.Keys
  {
    StepKeepsInv(s, l);
  }

  lemma PairKeepsOthers(s: State, origin: Origin, ok: bool, sid: SessionId)
    requires Core(s) && sid in s.live && origin.requestId !in s.hist.used
    ensures var t := Apply(s, Pair(origin, ok)); sid in t.live && sid in t.mem && t.mem[sid] == s.mem[sid]
  {}

  lemma SweepKeepsLive(s: State, now: Time, ok: bool, sid: SessionId)
    requires Core(s) && sid in s.live && s.mem[sid].phase == Approved && IsBefore(now, s.mem[sid].expiresAt)
    ensures var t := Apply(s, Sweep(now, ok)); sid in t.live && t.mem == s.mem
  {}

  lemma HandleKeepsApproval(s: State, k: SessionId, call: Call, ok: bool, sid: SessionId)
    requires Inv(s) && sid in s.live && s.mem[sid].phase == Approved
    requires k == sid ==> !call.CallAdminRevoke? && !call.CallGuestRevoke?
    ensures var t := HandleCall(s, k, call, ok);
            && t.live == s.live && t.mem.Keys == s.mem.Keys
            && t.mem[sid].phase == Approved && t.mem[sid].expiresAt == s.mem[sid].expiresAt
            && t.mem[sid].origin == s.mem[sid].origin
  {
    if k in s.mem && (ByReference(call) || k in s.live) {
      HandleIsSettle(s, k, call, ok);
      var d := Decide(s.mem[k], call);
      if k == sid { KeepsApproval(s.mem[sid], call); }
      SettleApproval(s, k, d, ok, sid);
    }
  }

  lemma SettleApproval(s: State, k: SessionId, d: Decision, ok: bool, sid: SessionId)
    requires Core(s) && sid in s.live && k in s.mem
    requires k == sid && d.Local? ==> SameGrant(s.mem[sid], d.next)
    requires k == sid && d.Commit? ==> SameGrant(s.mem[sid], d.good) && SameGrant(s.mem[sid], d.bad)
    ensures var t := Settle(s, k, d, ok);
            t.live == s.live && t.mem.Keys == s.mem.Keys && SameGrant(s.mem[sid], t.mem[sid])
  {}

  ghost predicate SameGrant(x: Session, y: Session) {
    y.phase == x.phase && y.expiresAt == x.expiresAt && y.origin == x.origin
  }

  lemma KeepsApproval(x: Session, call: Call)
    requires x.phase == Approved && Sound(x) && !call.CallAdminRevoke? && !call.CallGuestRevoke?
    ensures var d := Decide(x, call);
            && (d.Local? ==> SameGrant(x, d.next))
            && (d.Commit? ==> SameGrant(x, d.good) && SameGrant(x, d.bad))
  {}

  /** At most one session answers to a token, whatever order the map is searched in. */
  lemma SessionIsUnique(states: seq<State>, labels: seq<Label>, k: nat,
                        token: Token, now: Time, a: SessionId, b: SessionId)
    requires IsRun(states, labels) && k < |states|
    requires a in states[k].mem && Authenticates(states[k].mem[a], token, now)
    requires b in states[k].mem && Authenticates(states[k].mem[b], token, now)
    ensures a == b
  {
    RunKeepsInv(states, labels, k);
    var s := states[k];
    assert OwnedBy(s.mem[a], s.hist.owner, a) && OwnedBy(s.mem[b], s.hist.owner, b);
  }

  /** The token the latest status answer gave keeps authenticating while the session
      is approved and unexpired: before a crash, and after it. A replacement that
      failed to be saved does not disturb it, since it is never the latest answer. */
  lemma HandedTokenWorks(states: seq<State>, labels: seq<Label>, k: nat, sid: SessionId,
                         now: Time, next: map<SessionId, Session>)
    requires IsRun(states, labels) && k < |states| && RecoveredMap(states[k].disk, now, next)
    requires sid in states[k].live && sid in states[k].mem && sid in states[k].hist.handed
    requires states[k].mem[sid].phase == Approved && IsBefore(now, states[k].mem[sid].expiresAt)
    ensures Authenticates(states[k].mem[sid], states[k].hist.handed[sid], now)
    ensures sid in next && Authenticates(next[sid], states[k].hist.handed[sid], now)
  {
    RunKeepsInv(states, labels, k);
    var s := states[k];
    assert StillHanded(s.mem[sid], s.hist.handed, sid);
    CrashLosesNothingAnswered(states, labels, k, now, next);
  }

  /** No snapshot holds a clear token. */
  lemma NoClearTokenOnDisk(states: seq<State>, labels: seq<Label>, k: nat, sid: SessionId)
    requires IsRun(states, labels) && k < |states| && sid in states[k].disk
    ensures states[k].disk[sid].sessionToken == None && states[k].disk[sid].pairingToken == None
  {
    RunKeepsInv(states, labels, k);
    assert Sound(states[k].disk[sid]);
  }

  /** A retried admission in a still approved session reports the existing command
      when name and parameters agree, is refused when they do not, and changes nothing. */
  lemma RetryIsIdempotent(states: seq<State>, labels: seq<Label>, k: nat, e: Event, command: Command, ok: bool)
    requires IsRun(states, labels) && k < |states| && e in states[k].hist.log
    requires e.DidAdmit? && e.cid == command.id && e.sid in states[k].live && e.sid in states[k].mem
    requires states[k].mem[e.sid].phase == Approved
    ensures var s := states[k];
            && Enqueue(s.mem[e.sid], command) ==
                 Answer(if e.payload == Fingerprint(command.name, command.params) then 200 else 409)
            && HandleCall(s, e.sid, CallEnqueue(command), ok) == s
  {
    RetryAnswered(states[k], e, command) by { RunKeepsInv(states, labels, k); }
    AnsweredStays(states[k], e.sid, command, ok);
  }

  lemma RetryAnswered(s: State, e: Event, command: Command)
    requires Inv(s) && e in s.hist.log && e.DidAdmit? && e.cid == command.id
    requires e.sid in s.mem && s.mem[e.sid].phase == Approved
    ensures Enqueue(s.mem[e.sid], command) ==
              Answer(if e.payload == Fingerprint(command.name, command.params) then 200 else 409)
  {
    assert HonouredIn(s.mem, e);
  }

  lemma AnsweredStays(s: State, sid: SessionId, command: Command, ok: bool)
    requires sid in s.mem && Enqueue(s.mem[sid], command).Answer?
    ensures HandleCall(s, sid, CallEnqueue(command), ok) == s
  {}

  /** An approval runs out exactly the minutes after it was given that the administrator
      chose, which are at most the requested time rounded up to minutes, and is never
      changed; and a session holds only commands whose names it
      requested, besides the broker's own first one. */
  lemma GrantIsBounded(states: seq<State>, labels: seq<Label>, k: nat, sid: SessionId)
    requires IsRun(states, labels) && k < |states| && sid in states[k].mem
    ensures forall e :: e in states[k].hist.log && e.sid == sid && e.DidApprove? ==>
              states[k].mem[sid].expiresAt == Some(e.at + e.minutes * MINUTE)
              && 1 <= e.minutes <= 60
              && (e.minutes - 1) * 60 < states[k].mem[sid].origin.request.durationSeconds <= 3600
    ensures forall cid :: cid in states[k].mem[sid].commands ==>
              var name := states[k].mem[sid].commands[cid].command.name;
              name in states[k].mem[sid].origin.request.requested || (cid == INITIAL_ID && name == SYSTEM_INFO)
  {
    RunKeepsInv(states, labels, k);
    var s := states[k];
    forall e | e in s.hist.log && e.sid == sid && e.DidApprove?
      ensures s.mem[sid].expiresAt == Some(e.at + e.minutes * MINUTE) && 1 <= e.minutes <= 60
      ensures (e.minutes - 1) * 60 < s.mem[sid].origin.request.durationSeconds <= 3600
    {
      assert HonouredIn(s.mem, e);
    }
    assert Sound(s.mem[sid]);
    forall cid | cid in s.mem[sid].commands
      ensures var name := s.mem[sid].commands[cid].command.name;
              name in s.mem[sid].origin.request.requested || (cid == INITIAL_ID && name == SYSTEM_INFO)
    {
      assert CommandSound(s.mem[sid], cid);
    }
  }

  /** Results held: distinct ids, at most 128, each of a completed command of that name. */
  lemma ResultsAgree(states: seq<State>, labels: seq<Label>, k: nat, sid: SessionId)
    requires IsRun(states, labels) && k < |states| && sid in states[k].mem
    ensures var x := states[k].mem[sid];
            && |x.results| <= MAX_RESULTS && DistinctIds(x.results)
            && (forall r :: r in x.results ==>
                  r.id in x.commands && x.commands[r.id].status == Completed && x.commands[r.id].command.name == r.name)
  {
    RunKeepsInv(states, labels, k);
    var x := states[k].mem[sid];
    assert Sound(x);
    forall r | r in x.results ensures ResultSound(x, r) {}
  }

  ghost predicate OnlyAs(results: seq<Result>, r: Result) {
    forall h :: h in results && h.id == r.id ==> h == r
  }

  /** A result answered 200 is the only one held under its id from then on, in memory,
      on disk and after a crash, and the only one a consuming read reports under it; if
      it was stored, memory holds it until a consuming read empties the results. */
  lemma AcceptedResultIsKept(states: seq<State>, labels: seq<Label>, k: nat, e: Event,
                             now: Time, next: map<SessionId, Session>)
    requires IsRun(states, labels) && k < |states| && RecoveredMap(states[k].disk, now, next)
    requires e in states[k].hist.log && e.DidAccept?
    ensures var s := states[k];
            && (e.sid in s.mem ==>
                  OnlyAs(s.mem[e.sid].results, e.result)
                  && (e.stored ==> e.result in s.mem[e.sid].results || Settled(s.mem[e.sid], e.result.id)))
            && (e.sid in s.disk ==>
                  OnlyAs(s.disk[e.sid].results, e.result)
                  && (e.stored ==> e.result in s.disk[e.sid].results || Settled(s.disk[e.sid], e.result.id)))
            && (e.sid in next ==> OnlyAs(next[e.sid].results, e.result))
            && (forall f :: f in s.hist.log && f.DidConsume? && f.sid == e.sid ==> OnlyAs(f.taken, e.result))
  {
    RunKeepsInv(states, labels, k);
    var s := states[k];
    assert HonouredIn(s.mem, e) && HonouredIn(s.disk, e);
    if e.sid in s.mem { AcceptedHeld(s.mem[e.sid], e); }
    if e.sid in s.disk { AcceptedHeld(s.disk[e.sid], e); }
    assert e.sid in next ==> Repaired(s.disk[e.sid], next[e.sid]);
    forall f | f in s.hist.log && f.DidConsume? && f.sid == e.sid ensures OnlyAs(f.taken, e.result) {
      var i :| 0 <= i < |s.hist.log| && s.hist.log[i] == e;
      var j :| 0 <= j < |s.hist.log| && s.hist.log[j] == f;
      ConsumedAsAccepted(s.hist.log, i, j);
    }
  }

  lemma AcceptedHeld(x: Session, e: Event)
    requires e.DidAccept? && Honours(x, e)
    ensures OnlyAs(x.results, e.result)
    ensures e.stored ==> e.result in x.results || Settled(x, e.result.id)
  {
    if e.result.id in Ids(x.results) {
      var h :| h in x.results && h.id == e.result.id;
    }
  }

  lemma ConsumedAsAccepted(log: seq<Event>, i: nat, j: nat)
    requires NoRepeats(log) && i < |log| && j < |log| && log[i].sid == log[j].sid
    requires log[i].DidAccept? && log[j].DidConsume?
    ensures OnlyAs(log[j].taken, log[i].result)
  {
    assert i < j ==> !Excludes(log[i], log[j]);
    assert j < i ==> !Excludes(log[j], log[i]);
  }
}
