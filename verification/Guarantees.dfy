/** Every step keeps the machine's invariant. */
module Guarantees {
  import opened Records
  import opened Sessions
  import opened Recovery
  import opened Machine

  // ------------------------------------------------------------ tokens agree

  /** How a decision may touch the token hash. */
  ghost predicate TokenStep(x: Session, y: Session, call: Call) {
    || (y.tokenHash == x.tokenHash && (y.phase == Approved ==> x.phase == Approved))
    || y.tokenHash == NoHash
    || (call.CallApprove? && y.tokenHash == HashOf(call.token) && x.phase == Pending)
    || (call.CallStatus? && y.tokenHash == HashOf(call.replacement) && y.sessionToken == Some(call.replacement)
        && y.phase == Approved)
  }

  lemma DecideTokenStep(x: Session, call: Call)
    requires Sound(x)
    ensures Decide(x, call).Commit? ==>
              TokenStep(x, Decide(x, call).good, call) && TokenStep(x, Decide(x, call).bad, call)
    ensures Decide(x, call).Commit? && call.CallStatus? ==> Decide(x, call).bad == x
  {}

  lemma TokenStepKeeps(x: Session, y: Session, sid: SessionId, call: Call, hist: History)
    requires Sound(x) && Sound(y) && Evolves(x, y) && TokenStep(x, y, call)
    requires OwnedBy(x, hist.owner, sid) && StillHanded(x, hist.handed, sid)
    requires call.CallApprove? ==> call.token !in hist.owner
    requires call.CallStatus? ==> call.replacement !in hist.owner
    ensures OwnedBy(y, Draw(hist.owner, sid, call), sid)
    ensures !call.CallStatus? || y == x ==> StillHanded(y, hist.handed, sid)
  {}

  lemma DrawKeepsTokens(m: map<SessionId, Session>, hist: History, sid: SessionId, call: Call)
    requires TokensOf(m, hist)
    requires call.CallApprove? ==> call.token !in hist.owner
    requires call.CallStatus? ==> call.replacement !in hist.owner
    ensures TokensOf(m, hist.(owner := Draw(hist.owner, sid, call)))
  {}

  lemma SnapshotTokens(mem: map<SessionId, Session>, live: set<SessionId>, hist: History)
    requires TokensOf(mem, hist)
    ensures TokensOf(Snapshot(mem, live), hist)
  {}

  // What settling leaves to be shown about the session itself, when the call hands out a token.
  ghost predicate TokensExcept(m: map<SessionId, Session>, hist: History, sid: SessionId) {
    forall k :: k in m ==> OwnedBy(m[k], hist.owner, k) && (k != sid ==> StillHanded(m[k], hist.handed, k))
  }

  lemma UpdateTokens(m: map<SessionId, Session>, hist: History, sid: SessionId, y: Session,
                     owner: map<Token, SessionId>)
    requires TokensOf(m, hist) && OwnedBy(y, owner, sid)
    requires TokensOf(m, hist.(owner := owner))
    ensures TokensExcept(m[sid := y], hist.(owner := owner), sid)
  {}

  lemma SettleKeepsTokens(s: State, sid: SessionId, call: Call, d: Decision, ok: bool)
    requires Core(s) && Tokens(s) && sid in s.mem && CallEnabled(s, sid, call) && Proper(s.mem[sid], d)
    requires d.Commit? ==> TokenStep(s.mem[sid], d.good, call) && TokenStep(s.mem[sid], d.bad, call)
    ensures var t := Settle(s.(hist := s.hist.(owner := Draw(s.hist.owner, sid, call))), sid, d, ok);
            && TokensExcept(t.mem, t.hist, sid)
            && TokensOf(s.disk, t.hist)
            && (!call.CallStatus? || t.mem[sid] == s.mem[sid] ==> StillHanded(t.mem[sid], t.hist.handed, sid))
  {
    var x := s.mem[sid];
    var owner := Draw(s.hist.owner, sid, call);
    DrawKeepsTokens(s.mem, s.hist, sid, call);
    DrawKeepsTokens(s.disk, s.hist, sid, call);
    var drawn := s.(hist := s.hist.(owner := owner));
    var t := Settle(drawn, sid, d, ok);
    SameTokens(s.disk, drawn.hist, t.hist);
    assert OwnedBy(x, s.hist.owner, sid) && StillHanded(x, s.hist.handed, sid);
    var y := t.mem[sid];
    assert t.mem == s.mem[sid := y];
    assert OwnedBy(x, owner, sid);
    if d.Commit? { TokenStepKeeps(x, y, sid, call, s.hist) by { BadEvolves(x, d); } }
    UpdateTokens(s.mem, s.hist, sid, y, owner);
  }

  lemma BadEvolves(x: Session, d: Decision)
    requires Proper(x, d) && d.Commit?
    ensures Evolves(x, d.good) && Evolves(x, d.bad) && Sound(d.good) && Sound(d.bad)
  {}

  lemma SnapshotTokensExcept(mem: map<SessionId, Session>, live: set<SessionId>, hist: History, sid: SessionId)
    requires TokensExcept(mem, hist, sid)
    ensures TokensExcept(Snapshot(mem, live), hist, sid)
  {}

  lemma RestoreTokens(m: map<SessionId, Session>, hist: History, sid: SessionId)
    requires TokensExcept(m, hist, sid) && (sid in m ==> StillHanded(m[sid], hist.handed, sid))
    ensures TokensOf(m, hist)
  {}

  // A status call that succeeds on an approved session whose token memory has.
  lemma HandingKeepsTokens(m: map<SessionId, Session>, hist: History, sid: SessionId, token: Token)
    requires TokensExcept(m, hist, sid)
    requires sid in m ==> m[sid].phase == Approved && m[sid].tokenHash == HashOf(token)
    ensures TokensOf(m, hist.(handed := hist.handed[sid := token]))
  {}

  lemma TokensToExcept(m: map<SessionId, Session>, hist: History, sid: SessionId)
    requires TokensOf(m, hist)
    ensures TokensExcept(m, hist, sid)
  {}

  // After settling: `t` without, and `Hand(t, ..)` with, a token handed out.
  lemma SettledTokens(s: State, t: State, sid: SessionId)
    requires Core(s) && Core(t) && sid in t.mem
    requires TokensExcept(t.mem, t.hist, sid) && TokensOf(s.disk, t.hist)
    requires t.disk == s.disk || t.disk == Snapshot(t.mem, t.live)
    requires t.hist.handed.Keys <= t.hist.used
    ensures StillHanded(t.mem[sid], t.hist.handed, sid) ==> Tokens(t)
    ensures t.mem[sid].phase == Approved && t.mem[sid].sessionToken.Some? ==>
              Tokens(t.(hist := t.hist.(handed := t.hist.handed[sid := t.mem[sid].sessionToken.value])))
  {
    SnapshotTokensExcept(t.mem, t.live, t.hist, sid);
    TokensToExcept(s.disk, t.hist, sid);
    if StillHanded(t.mem[sid], t.hist.handed, sid) {
      RestoreTokens(t.mem, t.hist, sid);
      SnapshotTokens(t.mem, t.live, t.hist);
    }
    if t.mem[sid].phase == Approved && t.mem[sid].sessionToken.Some? {
      var token := t.mem[sid].sessionToken.value;
      assert Sound(t.mem[sid]);
      assert sid in t.disk ==> Behind(t.disk[sid], t.mem[sid]);
      HandingKeepsTokens(t.mem, t.hist, sid, token);
      HandingKeepsTokens(t.disk, t.hist, sid, token);
    }
  }

  // A status call that hands nothing out leaves the session as it was.
  lemma UnhandedStatus(x: Session, call: Call, ok: bool)
    requires Sound(x) && call.CallStatus?
    ensures var d := Decide(x, call);
            (d.Answer? || d.Commit?)
            && (d.Commit? && ok ==> Answered(d, ok, 200) && d.good.phase == Approved && d.good.sessionToken.Some?)
            && (d.Commit? ==> d.bad == x)
  {}

  // Settling a decision to commit, whatever call it came from.
  lemma CommitKeepsTokens(s: State, sid: SessionId, call: Call, d: Decision, ok: bool)
    requires Core(s) && Tokens(s) && sid in s.mem && CallEnabled(s, sid, call) && Proper(s.mem[sid], d) && d.Commit?
    requires TokenStep(s.mem[sid], d.good, call) && TokenStep(s.mem[sid], d.bad, call)
    ensures var t := Settle(s.(hist := s.hist.(owner := Draw(s.hist.owner, sid, call))), sid, d, ok);
            && (!call.CallStatus? || t.mem[sid] == s.mem[sid] ==> Tokens(t))
            && (t.mem[sid].phase == Approved && t.mem[sid].sessionToken.Some? ==>
                  Tokens(t.(hist := t.hist.(handed := t.hist.handed[sid := t.mem[sid].sessionToken.value]))))
  {
    SettleKeepsTokens(s, sid, call, d, ok);
    var drawn := s.(hist := s.hist.(owner := Draw(s.hist.owner, sid, call)));
    SettleKeepsCore(drawn, sid, d, ok);
    SettledTokens(drawn, Settle(drawn, sid, d, ok), sid);
  }

  lemma HandleKeepsTokens(s: State, sid: SessionId, call: Call, ok: bool)
    requires Core(s) && Tokens(s) && CallEnabled(s, sid, call)
    ensures Tokens(HandleCall(s, sid, call, ok))
  {
    if sid in s.mem && (ByReference(call) || sid in s.live) {
      var x := s.mem[sid];
      var d := Decide(x, call);
      DecideProper(s, sid, call);
      DecideTokenStep(x, call);
      if d.Commit? {
        CommitKeepsTokens(s, sid, call, d, ok);
      } else {
        TokensToExcept(s.mem, s.hist, sid);
        SettledTokens(s, s, sid);
      }
      if call.CallStatus? { UnhandedStatus(x, call, ok); }
    }
  }

  lemma PairKeepsTokens(s: State, origin: Origin, ok: bool)
    requires Core(s) && Tokens(s) && origin.requestId !in s.hist.used
    ensures Tokens(PairStep(s, origin, ok))
  {}

  lemma SweepKeepsTokens(s: State, now: Time, ok: bool)
    requires Tokens(s)
    ensures Tokens(SweepStep(s, now, ok))
  {}

  lemma SameTokens(m: map<SessionId, Session>, h: History, k: History)
    requires TokensOf(m, h) && h.owner == k.owner && h.handed == k.handed
    ensures TokensOf(m, k)
  {}

  lemma RestartKeepsTokens(s: State, now: Time, next: map<SessionId, Session>)
    requires Tokens(s) && RecoveredMap(s.disk, now, next)
    ensures Tokens(Restarted(s, next))
  {}

  // ------------------------------------------------------- promises are kept

  lemma SnapshotHonours(mem: map<SessionId, Session>, live: set<SessionId>, e: Event)
    requires HonouredIn(mem, e) && forall sid :: sid in mem ==> Sound(mem[sid])
    ensures HonouredIn(Snapshot(mem, live), e)
  {}

  lemma SettleHonours(s: State, sid: SessionId, d: Decision, ok: bool, e: Event)
    requires Core(s) && sid in s.mem && Proper(s.mem[sid], d)
    requires HonouredIn(s.mem, e) && HonouredIn(s.disk, e)
    ensures HonouredIn(Settle(s, sid, d, ok).mem, e) && HonouredIn(Settle(s, sid, d, ok).disk, e)
  {
    var t := Settle(s, sid, d, ok);
    if d.Commit? {
      if e.sid == sid { HonoursEvolves(s.mem[sid], t.mem[sid], e); }
      SnapshotHonours(t.mem, t.live, e);
    }
  }

  lemma SettleKeepsPromises(s: State, sid: SessionId, d: Decision, ok: bool)
    requires Core(s) && Promises(s) && sid in s.mem && Proper(s.mem[sid], d)
    ensures Promises(Settle(s, sid, d, ok))
  {
    var t := Settle(s, sid, d, ok);
    forall e | e in t.hist.log
      ensures e.sid in t.hist.used && HonouredIn(t.mem, e) && HonouredIn(t.disk, e)
    {
      if e in s.hist.log {
        SettleHonours(s, sid, d, ok, e);
      } else {
        assert d.Commit? && d.event == Some(e);
        SnapshotHonours(t.mem, t.live, e);
      }
    }
  }

  lemma SettleKeepsNoRepeats(s: State, sid: SessionId, d: Decision, ok: bool)
    requires Core(s) && Promises(s) && NoRepeats(s.hist.log) && sid in s.mem && Proper(s.mem[sid], d)
    ensures NoRepeats(Settle(s, sid, d, ok).hist.log)
  {
    var log := Settle(s, sid, d, ok).hist.log;
    forall i, j | 0 <= i < j < |log| && log[i].sid == log[j].sid ensures !Excludes(log[i], log[j]) {
      assert log[i] == s.hist.log[i];
      if j == |s.hist.log| {
        assert log[i] in s.hist.log;
        HonouredExcludesRepeat(s.mem[sid], log[i], log[j]);
      }
    }
  }

  // A step that changes neither the log nor what any logged session honours.
  lemma PairKeepsPromises(s: State, origin: Origin, ok: bool)
    requires Core(s) && Promises(s) && origin.requestId !in s.hist.used
    ensures Promises(PairStep(s, origin, ok))
  {
    var t := PairStep(s, origin, ok);
    forall e | e in s.hist.log ensures HonouredIn(t.mem, e) && HonouredIn(t.disk, e) {
      assert HonouredIn(s.mem, e) && HonouredIn(s.disk, e);
      PairHonours(s, origin, ok, e);
    }
  }

  lemma PairHonours(s: State, origin: Origin, ok: bool, e: Event)
    requires Core(s) && origin.requestId !in s.hist.used && e.sid in s.hist.used
    requires HonouredIn(s.mem, e) && HonouredIn(s.disk, e)
    ensures HonouredIn(PairStep(s, origin, ok).mem, e) && HonouredIn(PairStep(s, origin, ok).disk, e)
  {
    var t := PairStep(s, origin, ok);
    NewSessionSound(origin);
    SnapshotHonours(t.mem, t.live, e);
  }

  lemma SweepKeepsPromises(s: State, now: Time, ok: bool)
    requires Core(s) && Promises(s)
    ensures Promises(SweepStep(s, now, ok))
  {
    var t := SweepStep(s, now, ok);
    forall e | e in t.hist.log ensures e.sid in t.hist.used && HonouredIn(t.mem, e) && HonouredIn(t.disk, e) {
      SnapshotHonours(s.mem, t.live, e);
    }
  }

  lemma RestartKeepsPromises(s: State, now: Time, next: map<SessionId, Session>)
    requires Core(s) && Promises(s) && RecoveredMap(s.disk, now, next)
    ensures Promises(Restarted(s, next))
  {
    RestartKeepsCore(s, now, next);
    RecoveredKeeps(s, now, next);
    forall e | e in s.hist.log ensures HonouredIn(next, e) {
      if e.sid in next { HonoursEvolves(s.disk[e.sid], next[e.sid], e); }
    }
  }

  // ------------------------------------------------------------- every run

  // Settling does not look at the tokens drawn.
  lemma SettleDrawn(s: State, owner: map<Token, SessionId>, sid: SessionId, d: Decision, ok: bool)
    ensures var u := Settle(s, sid, d, ok);
            Settle(s.(hist := s.hist.(owner := owner)), sid, d, ok) == u.(hist := u.hist.(owner := owner))
  {}

  lemma HandleIsSettle(s: State, sid: SessionId, call: Call, ok: bool)
    requires sid in s.mem && (ByReference(call) || sid in s.live)
    ensures var t := HandleCall(s, sid, call, ok);
            var u := Settle(s, sid, Decide(s.mem[sid], call), ok);
            t == u.(hist := u.hist.(owner := t.hist.owner, handed := t.hist.handed))
  {
    SettleDrawn(s, Draw(s.hist.owner, sid, call), sid, Decide(s.mem[sid], call), ok);
  }

  lemma HandleKeepsInv(s: State, sid: SessionId, call: Call, ok: bool)
    requires Inv(s) && CallEnabled(s, sid, call)
    ensures Inv(HandleCall(s, sid, call, ok))
  {
    HandleKeepsTokens(s, sid, call, ok);
    if sid in s.mem && (ByReference(call) || sid in s.live) {
      var d := Decide(s.mem[sid], call);
      DecideProper(s, sid, call);
      SettleKeepsCore(s, sid, d, ok);
      SettleKeepsPromises(s, sid, d, ok);
      SettleKeepsNoRepeats(s, sid, d, ok);
      HandleIsSettle(s, sid, call, ok);
      var u := Settle(s, sid, d, ok);
      var t := HandleCall(s, sid, call, ok);
      assert Core(t) && Promises(t);
    }
  }

  /** One step, whatever it is and however its save ends, keeps the invariant. */
  lemma StepKeepsInv(s: State, l: Label)
    requires Inv(s) && Enabled(s, l)
    ensures Inv(Apply(s, l))
  {
    match l
    case Pair(origin, ok) =>
      PairKeepsCore(s, origin, ok);
      PairKeepsTokens(s, origin, ok);
      PairKeepsPromises(s, origin, ok);
    case Handle(sid, call, ok) => HandleKeepsInv(s, sid, call, ok);
    case Authenticate(sid, token, now) => 
    case Authorise(sid, name) =>
    case Sweep(now, ok) =>
      SweepKeepsCore(s, now, ok);
      SweepKeepsTokens(s, now, ok);
      SweepKeepsPromises(s, now, ok);
    case CrashRestart(now, next) =>
      RestartKeepsCore(s, now, next);
      RestartKeepsTokens(s, now, next);
      RestartKeepsPromises(s, now, next);
  }

  lemma {:induction false} RunKeepsInv(states: seq<State>, labels: seq<Label>, i: nat)
    requires IsRun(states, labels) && i < |states|
    ensures Inv(states[i])
  {
    if i > 0 {
      RunKeepsInv(states, labels, i - 1);
      assert IsStep(states, labels, i - 1);
      StepKeepsInv(states[i - 1], labels[i - 1]);
    }
  }

  // One step of a run, taken out of it.
  lemma RunStep(states: seq<State>, labels: seq<Label>, k: nat) returns (s: State, l: Label, t: State)
    requires IsRun(states, labels) && 0 < k < |states|
    ensures s == states[k - 1] && l == labels[k - 1] && t == states[k]
    ensures Inv(s) && Enabled(s, l) && t == Apply(s, l)
  {
    RunKeepsInv(states, labels, k - 1);
    s, l, t := states[k - 1], labels[k - 1], states[k];
    assert IsStep(states, labels, k - 1);
  }

  // A run and one more step.
  lemma RunExtends(states: seq<State>, labels: seq<Label>, s: State, l: Label, t: State)
    requires IsRun(states, labels) && s == states[|labels|] && Enabled(s, l) && t == Apply(s, l)
    ensures IsRun(states + [t], labels + [l]) && (states + [t])[|labels + [l]|] == t
  {
    var longer, more := states + [t], labels + [l];
    forall i | 0 <= i < |more| ensures IsStep(longer, more, i) {
      if i < |labels| {
        assert IsStep(states, labels, i);
        assert longer[i] == states[i] && longer[i + 1] == states[i + 1] && more[i] == labels[i];
      }
    }
  }
}
