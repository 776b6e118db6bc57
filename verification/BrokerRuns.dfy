/** The broker at work: whatever requests it serves, in whatever order, with clients that
    hold references and administrators that have passed the capability check, the steps
    it takes are a run of the machine. So what holds of every run holds of the objects. */
module BrokerRuns {
  import opened Records
  import opened Sessions
  import opened Recovery
  import opened Machine
  import opened Guarantees
  import opened BrokerObjects

  /** One critical section to be entered, or a tick, or a crash. `ok` says whether the file
      system would let its save through. A guest handler past `session` names the
      reference it got, an enqueuing past its checks the command it passed them with,
      by position. */
  datatype Request =
    | AskPair(origin: Origin, ok: bool)
    | AskStatus(id: SessionId, pollToken: Token, replacement: Token, now: Time, ok: bool)
    | AskApprove(id: SessionId, minutes: int, token: Token, now: Time, ok: bool)
    | AskReject(id: SessionId, ok: bool)
    | AskAuthorise(id: SessionId, command: Command, now: Time)
    | AskEnqueue(check: nat, ok: bool)
    | AskRevoke(id: SessionId, ok: bool)
    | AskResults(id: SessionId, consume: bool, ok: bool)
    | AskSession(token: Token, now: Time)
    | AskPoll(ref: nat, now: Time, ok: bool)
    | AskAck(ref: nat, cid: CommandId, now: Time, ok: bool)
    | AskPost(ref: nat, result: Result, ok: bool)
    | AskGuestRevoke(ref: nat, ok: bool)
    | Tick(now: Time, ok: bool)
    | Crash(now: Time)

  /** What is under way: the sessions referred to and the commands that passed the checks. */
  datatype Hands = Hands(refs: seq<SessionId>, checks: seq<(SessionId, Command)>)

  function RequestedOf(s: State, id: SessionId): seq<Capability> {
    if id in s.live && id in s.mem then s.mem[id].origin.request.requested else []
  }

  ghost predicate NobodyHas(s: State, token: Token, now: Time) {
    forall sid :: sid in s.live && sid in s.mem ==> !Authenticates(s.mem[sid], token, now)
  }

  /** The step that serving `r` takes from `s`, if any, and what is under way after it. */
  ghost predicate Does(r: Request, s: State, h: Hands, step: Option<Label>, g: Hands) {
    match r
    case AskPair(origin, ok) => step == Some(Pair(origin, ok)) && g == h
    case Tick(now, ok) => step == Some(Sweep(now, ok)) && g == h
    case Crash(now) => step.Some? && step.value.CrashRestart? && step.value.now == now && g == Hands([], [])
    case AskAuthorise(id, command, now) =>
      if PreCheck(RequestedOf(s, id), command, now) == 0
      then step == Some(Authorise(id, command.name)) && g == h.(checks := h.checks + [(id, WithDeadline(command, now))])
      else step == None && g == h
    case AskSession(token, now) =>
      if NobodyHas(s, token, now) then step == None && g == h
      else
        && step.Some? && step.value.Authenticate? && step.value == Authenticate(step.value.sid, token, now)
        && g == h.(refs := h.refs + [step.value.sid])
    case AskPoll(_, _, _) => g == h && DoesBody(r, h, step)
    case AskAck(_, _, _, _) => g == h && DoesBody(r, h, step)
    case AskPost(_, _, _) => g == h && DoesBody(r, h, step)
    case AskGuestRevoke(_, _) => g == h && DoesBody(r, h, step)
    case _ => g == h && DoesCall(r, h, step)
  }

  // The body of a guest handler, on a reference.
  ghost predicate DoesBody(r: Request, h: Hands, step: Option<Label>)
    requires r.AskPoll? || r.AskAck? || r.AskPost? || r.AskGuestRevoke?
  {
    if r.ref >= |h.refs| then step == None
    else
      && step.Some? && step.value.Handle? && step.value.sid == h.refs[r.ref] && step.value.ok == r.ok
      && BodyOf(r, step.value.call)
  }

  ghost predicate BodyOf(r: Request, call: Call) {
    match r
    case AskPoll(_, now, _) => call.CallPoll? && call.now == now
    case AskAck(_, cid, now, _) => call == CallAck(cid, now)
    case AskPost(_, result, _) => call == CallPost(result)
    case AskGuestRevoke(_, _) => call == CallGuestRevoke
    case _ => false
  }

  // The body of any other handler.
  ghost predicate DoesCall(r: Request, h: Hands, step: Option<Label>) {
    match r
    case AskStatus(id, pollToken, replacement, now, ok) =>
      step == Some(Handle(id, CallStatus(pollToken, replacement, now), ok))
    case AskApprove(id, minutes, token, now, ok) => step == Some(Handle(id, CallApprove(minutes, token, now), ok))
    case AskReject(id, ok) => step == Some(Handle(id, CallReject, ok))
    case AskRevoke(id, ok) => step == Some(Handle(id, CallAdminRevoke, ok))
    case AskResults(id, consume, ok) => step == Some(Handle(id, CallResults(consume), ok))
    case AskEnqueue(check, ok) =>
      step == if check < |h.checks| then Some(Handle(h.checks[check].0, CallEnqueue(h.checks[check].1), ok)) else None
    case _ => false
  }

  function LabelsOf(step: Option<Label>): seq<Label> { if step == None then [] else [step.value] }

  function After(s: State, step: Option<Label>): State { if step == None then s else Apply(s, step.value) }

  // The ids and tokens drawn.
  datatype Draws = Draws(ids: set<SessionId>, tokens: set<Token>)

  function DrawsOf(r: Request): Draws {
    match r
    case AskPair(origin, _) => Draws({origin.requestId}, {})
    case AskStatus(_, _, replacement, _, _) => Draws({}, {replacement})
    case AskApprove(_, _, token, _, _) => Draws({}, {token})
    case _ => Draws({}, {})
  }

  /** Ids and tokens are drawn at random: no two requests draw the same one. */
  ghost predicate DrawnAfresh(requests: seq<Request>) {
    forall i, j :: 0 <= i < j < |requests| ==> Apart(DrawsOf(requests[i]), DrawsOf(requests[j]))
  }

  ghost predicate Apart(a: Draws, b: Draws) { a.ids !! b.ids && a.tokens !! b.tokens }

  ghost predicate Undrawn(d: Draws, hist: History) { d.ids !! hist.used && d.tokens !! hist.owner.Keys }

  /** At most these draws are new. */
  ghost predicate DrewOnly(before: History, d: Draws, after: History) {
    after.used <= before.used + d.ids && after.owner.Keys <= before.owner.Keys + d.tokens
  }

  function CallTokens(call: Call): set<Token> {
    if call.CallStatus? then {call.replacement} else if call.CallApprove? then {call.token} else {}
  }

  function DrawnBy(l: Label): Draws {
    match l
    case Pair(origin, _) => Draws({origin.requestId}, {})
    case Handle(_, call, _) => Draws({}, CallTokens(call))
    case _ => Draws({}, {})
  }

  lemma CallDraws(s: State, sid: SessionId, call: Call, ok: bool)
    ensures DrewOnly(s.hist, Draws({}, CallTokens(call)), HandleCall(s, sid, call, ok).hist)
  {}

  lemma StepDraws(s: State, l: Label)
    ensures DrewOnly(s.hist, DrawnBy(l), Apply(s, l).hist)
  {
    if l.Handle? { CallDraws(s, l.sid, l.call, l.ok); }
  }

  // What those under way still have afterwards.
  lemma StepKeepsHands(s: State, l: Label)
    requires !l.CrashRestart?
    ensures s.refs <= Apply(s, l).refs && s.tickets <= Apply(s, l).tickets
  {}

  ghost predicate RefIn(x: Entry, objects: map<SessionId, Entry>, s: State) {
    x.origin.requestId in objects && objects[x.origin.requestId] == x && x.origin.requestId in s.refs
  }

  ghost predicate RefsIn(held: seq<Entry>, objects: map<SessionId, Entry>, s: State) {
    forall i :: 0 <= i < |held| ==> RefIn(held[i], objects, s)
  }

  ghost predicate ChecksIn(passed: seq<(SessionId, Command)>, s: State) {
    forall i :: 0 <= i < |passed| ==> (passed[i].0, passed[i].1.name) in s.tickets && passed[i].1.id != ""
  }

  function Named(held: seq<Entry>): seq<SessionId> {
    seq(|held|, i requires 0 <= i < |held| => held[i].origin.requestId)
  }

  lemma OneMoreName(held: seq<Entry>, x: Entry)
    ensures Named(held + [x]) == Named(held) + [x.origin.requestId]
  {}

  lemma OneMoreRef(held: seq<Entry>, x: Entry, objects: map<SessionId, Entry>, s: State)
    requires RefsIn(held, objects, s) && RefIn(x, objects, s)
    ensures RefsIn(held + [x], objects, s)
  {}

  class Service {
    var broker: Broker
    var held: seq<Entry>
    var passed: seq<(SessionId, Command)>
    ghost var states: seq<State>
    ghost var labels: seq<Label>

    // A first process, which finds no state file.
    constructor (now: Time)
      ensures Valid() && fresh(Repr()) && labels == [] && broker.state == EMPTY && held == [] && passed == []
    {
      var first := new Broker.Open(map[], now, EMPTY);
      broker, held, passed := first, [], [];
      states, labels := [first.state], [];
      new;
      assert first.state.mem == map[];
      assert first.state == EMPTY;
    }

    ghost function Repr(): set<object>
      reads this, broker
    {
      {broker} + broker.objects.Values
    }

    ghost function Grip(): Hands
      reads this`held, this`passed
    {
      Hands(Named(held), passed)
    }

    // The steps so far are a run that has come to the broker's state.
    ghost predicate Valid()
      reads this, Repr()
    {
      broker.Valid() && Ran(broker.state) && HandsIn(broker.objects, broker.state)
    }

    ghost predicate Ran(s: State)
      reads this`states, this`labels
    {
      IsRun(states, labels) && states[|labels|] == s
    }

    ghost predicate HandsIn(objects: map<SessionId, Entry>, s: State)
      reads this`held, this`passed
    {
      RefsIn(held, objects, s) && ChecksIn(passed, s)
    }

    ghost method Extend(l: Label, before: State, after: State)
      requires Ran(before) && Enabled(before, l) && after == Apply(before, l)
      modifies this`states, this`labels
      ensures Ran(after) && labels == old(labels) + [l] && states == old(states) + [after]
      ensures DrewOnly(before.hist, DrawnBy(l), after.hist)
    {
      RunExtends(states, labels, before, l, after);
      StepDraws(before, l);
      states, labels := states + [after], labels + [l];
    }

    // The broker has taken the step `l`.
    ghost method Record(l: Label, before: State)
      requires broker.Valid() && Ran(before)
      requires Enabled(before, l) && broker.state == Apply(before, l) && !l.CrashRestart?
      requires HandsIn(broker.objects, before)
      modifies this`states, this`labels
      ensures Valid() && labels == old(labels) + [l] && states == old(states) + [broker.state]
      ensures DrewOnly(before.hist, DrawnBy(l), broker.state.hist)
    {
      StepKeepsHands(before, l);
      Extend(l, before, broker.state);
    }

    // The same for the body of a handler.
    ghost method RecordCall(sid: SessionId, call: Call, ok: bool, before: State)
      requires broker.Valid() && Ran(before)
      requires (ByReference(call) ==> sid in before.refs) && CallEnabled(before, sid, call)
      requires broker.state == HandleCall(before, sid, call, ok) && HandsIn(broker.objects, before)
      modifies this`states, this`labels
      ensures Valid() && labels == old(labels) + [Handle(sid, call, ok)] && states == old(states) + [broker.state]
      ensures DrewOnly(before.hist, Draws({}, CallTokens(call)), broker.state.hist)
    {
      Record(Handle(sid, call, ok), before);
    }

    // The references and checks under way are the same, and so is the process.
    twostate predicate Unmoved()
      reads this, broker
    {
      broker == old(broker) && broker.objects == old(broker.objects) && held == old(held) && passed == old(passed)
    }

    // The run has gone on by `step`, if any.
    twostate predicate WentOn(step: Option<Label>)
      reads this, broker
    {
      if step != None then Took(step.value)
      else labels == old(labels) && states == old(states) && broker.state == old(broker.state)
    }

    // The run has gone on by the step `l`.
    twostate predicate Took(l: Label)
      reads this, broker
    {
      labels == old(labels) + [l] && states == old(states) + [broker.state]
    }

    /** The service is as it should be, and no more than `d` was drawn. */
    twostate predicate Went(d: Draws)
      reads this, Repr()
    {
      Valid() && fresh(Repr() - old(Repr())) && DrewOnly(old(broker.state.hist), d, broker.state.hist)
    }

    method ServePair(origin: Origin, ok: bool) returns (code: int)
      requires Valid() && origin.requestId !in broker.state.hist.used
      modifies this`states, this`labels, broker
      ensures Went(Draws({origin.requestId}, {})) && Took(Pair(origin, ok))
      ensures broker == old(broker) && held == old(held) && passed == old(passed)
    {
      ghost var before, objects := broker.state, broker.objects;
      IdIsNew(origin.requestId);
      code := broker.PairRequest(origin, ok);
      HandsStay(objects, broker.objects, origin.requestId, before);
      Record(Pair(origin, ok), before);
    }

    lemma HandsStay(objects: map<SessionId, Entry>, more: map<SessionId, Entry>, id: SessionId, s: State)
      requires HandsIn(objects, s) && id !in objects
      requires more == objects || (id in more && more == objects[id := more[id]])
      ensures HandsIn(more, s) && more.Values <= objects.Values + (if id in more then {more[id]} else {})
    {}

    lemma IdIsNew(id: SessionId)
      requires Valid() && id !in broker.state.hist.used
      ensures id !in broker.objects
    {
      RunKeepsInv(states, labels, |labels|);
    }

    method ServeStatus(id: SessionId, pollToken: Token, replacement: Token, now: Time, ok: bool)
      returns (code: int, token: Option<Token>)
      requires Valid() && replacement !in broker.state.hist.owner
      modifies this`states, this`labels, broker, broker.objects.Values
      ensures Went(Draws({}, {replacement})) && Unmoved()
      ensures Took(Handle(id, CallStatus(pollToken, replacement, now), ok))
    {
      ghost var before := broker.state;
      code, token := broker.PairingStatus(id, pollToken, replacement, now, ok);
      RecordCall(id, CallStatus(pollToken, replacement, now), ok, before);
    }

    method ServeApprove(id: SessionId, minutes: int, token: Token, now: Time, ok: bool) returns (code: int)
      requires Valid() && token !in broker.state.hist.owner
      modifies this`states, this`labels, broker, broker.objects.Values
      ensures Went(Draws({}, {token})) && Unmoved() && Took(Handle(id, CallApprove(minutes, token, now), ok))
    {
      ghost var before := broker.state;
      code := broker.ApproveRequest(id, minutes, token, now, ok);
      RecordCall(id, CallApprove(minutes, token, now), ok, before);
    }

    method ServeReject(id: SessionId, ok: bool) returns (code: int)
      requires Valid()
      modifies this`states, this`labels, broker, broker.objects.Values
      ensures Went(Draws({}, {})) && Unmoved() && Took(Handle(id, CallReject, ok))
    {
      ghost var before := broker.state;
      code := broker.RejectRequest(id, ok);
      RecordCall(id, CallReject, ok, before);
    }

    method ServeRevoke(id: SessionId, ok: bool) returns (code: int)
      requires Valid()
      modifies this`states, this`labels, broker, broker.objects.Values
      ensures Went(Draws({}, {})) && Unmoved() && Took(Handle(id, CallAdminRevoke, ok))
    {
      ghost var before := broker.state;
      code := broker.RevokeByAdmin(id, ok);
      RecordCall(id, CallAdminRevoke, ok, before);
    }

    method ServeResults(id: SessionId, consume: bool, ok: bool) returns (code: int, taken: seq<Result>)
      requires Valid()
      modifies this`states, this`labels, broker, broker.objects.Values
      ensures Went(Draws({}, {})) && Unmoved() && Took(Handle(id, CallResults(consume), ok))
    {
      ghost var before := broker.state;
      code, taken := broker.TakeResults(id, consume, ok);
      RecordCall(id, CallResults(consume), ok, before);
    }

    // The first critical section of `enqueue`: a pass is remembered.
    method ServeAuthorise(id: SessionId, command: Command, now: Time) returns (code: int)
      requires Valid()
      modifies this`states, this`labels, this`passed, broker`state
      ensures Went(Draws({}, {})) && broker == old(broker) && held == old(held)
      ensures code == PreCheck(RequestedOf(old(broker.state), id), command, now)
      ensures code == 0 ==> Took(Authorise(id, command.name))
      ensures code == 0 ==> passed == old(passed) + [(id, WithDeadline(command, now))]
      ensures code != 0 ==> WentOn(None) && passed == old(passed)
    {
      ghost var before := broker.state;
      var dated;
      code, dated := Check(id, command, now, before);
      if code == 0 { Pass(id, dated, Authorise(id, command.name), before); }
    }

    method Check(id: SessionId, command: Command, now: Time, ghost before: State) returns (code: int, dated: Command)
      requires broker.Valid() && broker.state == before
      modifies broker`state
      ensures broker.Valid() && dated == WithDeadline(command, now)
      ensures code == PreCheck(RequestedOf(before, id), command, now)
      ensures code != 0 ==> broker.state == before
      ensures code == 0 ==>
                var l := Authorise(id, command.name);
                Enabled(before, l) && broker.state == Apply(before, l)
                && (id, dated.name) in broker.state.tickets && dated.id != ""
    {
      Requested(id);
      code, dated := broker.AuthoriseCommand(id, command, now);
    }

    lemma Requested(id: SessionId)
      requires broker.Valid()
      ensures RequestedOf(broker.state, id) == if id in broker.p then broker.p[id].origin.request.requested else []
    {}

    // The step `l` let a command through.
    method Pass(id: SessionId, command: Command, ghost l: Label, ghost before: State)
      requires broker.Valid() && Ran(before)
      requires Enabled(before, l) && broker.state == Apply(before, l) && !l.CrashRestart?
      requires HandsIn(broker.objects, before) && (id, command.name) in broker.state.tickets && command.id != ""
      modifies this`states, this`labels, this`passed
      ensures Valid() && passed == old(passed) + [(id, command)]
      ensures labels == old(labels) + [l] && states == old(states) + [broker.state]
      ensures DrewOnly(before.hist, DrawnBy(l), broker.state.hist)
    {
      StepKeepsHands(before, l);
      Extend(l, before, broker.state);
      passed := passed + [(id, command)];
    }

    method ServeEnqueue(check: nat, ok: bool) returns (code: int, status: Option<CommandStatus>)
      requires Valid() && check < |passed|
      modifies this`states, this`labels, broker, broker.objects.Values
      ensures Went(Draws({}, {})) && Unmoved() && Took(Handle(passed[check].0, CallEnqueue(passed[check].1), ok))
    {
      ghost var before := broker.state;
      var (id, command) := passed[check];
      code, status := broker.EnqueueCommand(id, command, ok);
      RecordCall(id, CallEnqueue(command), ok, before);
    }

    method Look(token: Token, now: Time, ghost before: State) returns (x: Entry?)
      requires broker.Valid() && broker.state == before
      modifies broker`state
      ensures broker.Valid()
      ensures x == null ==> broker.state == before
      ensures x == null <==> NobodyHas(before, token, now)
      ensures x != null ==>
                var l := Authenticate(x.origin.requestId, token, now);
                Enabled(before, l) && broker.state == Apply(before, l) && RefIn(x, broker.objects, broker.state)
    {
      Searched(token, now);
      x := broker.FindSession(token, now);
    }

    lemma Searched(token: Token, now: Time)
      requires broker.Valid()
      ensures NobodyHas(broker.state, token, now) <==>
              forall sid :: sid in broker.p ==> !broker.Opens(broker.p[sid], token, now)
    {
      assert forall sid :: sid in broker.p ==>
          broker.state.mem[sid] == broker.p[sid].Value()
          && (broker.Opens(broker.p[sid], token, now) <==> Authenticates(broker.state.mem[sid], token, now));
    }

    // `session`: a reference is kept for the body that follows.
    method ServeSession(token: Token, now: Time) returns (found: Entry?)
      requires Valid()
      modifies this`states, this`labels, this`held, broker`state
      ensures Went(Draws({}, {})) && broker == old(broker) && passed == old(passed)
      ensures found == null <==> NobodyHas(old(broker.state), token, now)
      ensures found == null ==> WentOn(None) && held == old(held)
      ensures found != null ==> Took(Authenticate(found.origin.requestId, token, now)) && held == old(held) + [found]
    {
      ghost var before := broker.state;
      found := Look(token, now, before);
      if found != null {
        Keep(found, Authenticate(found.origin.requestId, token, now), before);
      }
    }

    // The step `l` gave out a reference.
    method Keep(x: Entry, ghost l: Label, ghost before: State)
      requires broker.Valid() && Ran(before)
      requires Enabled(before, l) && broker.state == Apply(before, l) && !l.CrashRestart?
      requires HandsIn(broker.objects, before) && RefIn(x, broker.objects, broker.state)
      modifies this`states, this`labels, this`held
      ensures Valid() && held == old(held) + [x]
      ensures labels == old(labels) + [l] && states == old(states) + [broker.state]
    {
      StepKeepsHands(before, l);
      Extend(l, before, broker.state);
      OneMoreRef(held, x, broker.objects, broker.state);
      held := held + [x];
    }

    method ServePoll(ref: nat, now: Time, ok: bool)
      returns (code: int, taken: Option<Command>, ghost order: seq<CommandId>)
      requires Valid() && ref < |held|
      modifies this`states, this`labels, broker, broker.objects.Values
      ensures Went(Draws({}, {})) && Unmoved() && Took(Handle(held[ref].origin.requestId, CallPoll(now, order), ok))
    {
      ghost var before := broker.state;
      var x := held[ref];
      assert RefIn(x, broker.objects, before);
      assert before.mem[x.origin.requestId] == x.Value();
      code, taken, order := broker.PollOnce(x, now, ok);
      RecordCall(x.origin.requestId, CallPoll(now, order), ok, before);
    }

    method ServeAck(ref: nat, cid: CommandId, now: Time, ok: bool) returns (code: int)
      requires Valid() && ref < |held|
      modifies this`states, this`labels, broker, broker.objects.Values
      ensures Went(Draws({}, {})) && Unmoved() && Took(Handle(held[ref].origin.requestId, CallAck(cid, now), ok))
    {
      ghost var before := broker.state;
      var x := held[ref];
      assert RefIn(x, broker.objects, before);
      code := broker.AckCommand(x, cid, now, ok);
      RecordCall(x.origin.requestId, CallAck(cid, now), ok, before);
    }

    method ServePost(ref: nat, result: Result, ok: bool) returns (code: int)
      requires Valid() && ref < |held|
      modifies this`states, this`labels, broker, broker.objects.Values
      ensures Went(Draws({}, {})) && Unmoved() && Took(Handle(held[ref].origin.requestId, CallPost(result), ok))
    {
      ghost var before := broker.state;
      var x := held[ref];
      assert RefIn(x, broker.objects, before);
      code := broker.PostCommandResult(x, result, ok);
      RecordCall(x.origin.requestId, CallPost(result), ok, before);
    }

    method ServeGuestRevoke(ref: nat, ok: bool) returns (code: int)
      requires Valid() && ref < |held|
      modifies this`states, this`labels, broker, broker.objects.Values
      ensures Went(Draws({}, {})) && Unmoved() && Took(Handle(held[ref].origin.requestId, CallGuestRevoke, ok))
    {
      ghost var before := broker.state;
      var x := held[ref];
      assert RefIn(x, broker.objects, before);
      code := broker.RevokeByGuest(x, ok);
      RecordCall(x.origin.requestId, CallGuestRevoke, ok, before);
    }

    method ServeTick(now: Time, ok: bool)
      requires Valid()
      modifies this`states, this`labels, broker
      ensures Went(Draws({}, {})) && Unmoved() && Took(Sweep(now, ok))
    {
      ghost var before := broker.state;
      broker.SweepSessions(now, ok);
      Record(Sweep(now, ok), before);
    }

    // The process dies, with all that was under way, and a new one reads the file.
    method ServeCrash(now: Time)
      requires Valid()
      modifies this
      ensures Went(Draws({}, {})) && |labels| == |old(labels)| + 1 && Took(labels[|old(labels)|])
      ensures labels[|old(labels)|].CrashRestart? && labels[|old(labels)|].now == now
      ensures held == [] && passed == []
    {
      ghost var before := broker.state;
      FileIsKeyed();
      var next := new Broker.Open(broker.disk, now, before);
      Replace(next, CrashRestart(now, next.state.mem), before);
    }

    method Replace(next: Broker, ghost l: Label, ghost before: State)
      requires next.Valid() && Ran(before)
      requires Enabled(before, l) && next.state == Apply(before, l)
      modifies this
      ensures Valid() && Took(l) && broker == next && held == [] && passed == []
      ensures DrewOnly(before.hist, DrawnBy(l), broker.state.hist)
    {
      Extend(l, before, next.state);
      broker, held, passed := next, [], [];
    }

    lemma FileIsKeyed()
      requires Valid()
      ensures broker.disk == broker.state.disk
      ensures forall sid :: sid in broker.disk ==> broker.disk[sid].origin.requestId == sid
    {
      RunKeepsInv(states, labels, |labels|);
    }

    method ServeAdmin(r: Request) returns (ghost step: Option<Label>)
      requires r.AskApprove? || r.AskReject? || r.AskRevoke? || r.AskResults? || r.AskAuthorise? || r.AskEnqueue?
      requires Valid() && Undrawn(DrawsOf(r), broker.state.hist)
      modifies this, Repr()
      ensures Went(DrawsOf(r))
      ensures Does(r, old(broker.state), old(Grip()), step, Grip())
      ensures WentOn(step)
    {
      var code: int;
      step := None;
      match r {
        case AskApprove(id, minutes, token, now, ok) =>
          code := ServeApprove(id, minutes, token, now, ok);
          step := Some(Handle(id, CallApprove(minutes, token, now), ok));
        case AskReject(id, ok) =>
          code := ServeReject(id, ok);
          step := Some(Handle(id, CallReject, ok));
        case AskRevoke(id, ok) =>
          code := ServeRevoke(id, ok);
          step := Some(Handle(id, CallAdminRevoke, ok));
        case AskResults(id, consume, ok) =>
          var taken;
          code, taken := ServeResults(id, consume, ok);
          step := Some(Handle(id, CallResults(consume), ok));
        case AskAuthorise(id, command, now) =>
          code := ServeAuthorise(id, command, now);
          if code == 0 { step := Some(Authorise(id, command.name)); }
        case AskEnqueue(check, ok) =>
          if check < |passed| {
            var status;
            step := Some(Handle(passed[check].0, CallEnqueue(passed[check].1), ok));
            code, status := ServeEnqueue(check, ok);
          }
      }
    }

    method ServeGuest(r: Request) returns (ghost step: Option<Label>)
      requires r.AskStatus? || r.AskSession?
      requires Valid() && Undrawn(DrawsOf(r), broker.state.hist)
      modifies this, Repr()
      ensures Went(DrawsOf(r))
      ensures Does(r, old(broker.state), old(Grip()), step, Grip())
      ensures WentOn(step)
    {
      match r {
        case AskStatus(id, pollToken, replacement, now, ok) =>
          var code, token := ServeStatus(id, pollToken, replacement, now, ok);
          step := Some(Handle(id, CallStatus(pollToken, replacement, now), ok));
        case AskSession(token, now) =>
          ghost var before := held;
          var found := ServeSession(token, now);
          step := None;
          if found != null {
            OneMoreName(before, found);
            step := Some(Authenticate(found.origin.requestId, token, now));
          }
      }
    }

    // Past `session`.
    method ServeHeld(r: Request) returns (ghost call: Call)
      requires r.AskPoll? || r.AskAck? || r.AskPost? || r.AskGuestRevoke?
      requires Valid() && r.ref < |held|
      modifies this`states, this`labels, broker, broker.objects.Values
      ensures Went(Draws({}, {})) && Unmoved() && Took(Handle(held[r.ref].origin.requestId, call, r.ok))
      ensures BodyOf(r, call)
    {
      var code: int;
      match r {
        case AskPoll(ref, now, ok) =>
          var taken;
          ghost var order;
          code, taken, order := ServePoll(ref, now, ok);
          call := CallPoll(now, order);
        case AskAck(ref, cid, now, ok) =>
          code := ServeAck(ref, cid, now, ok);
          call := CallAck(cid, now);
        case AskPost(ref, result, ok) =>
          code := ServePost(ref, result, ok);
          call := CallPost(result);
        case AskGuestRevoke(ref, ok) =>
          code := ServeGuestRevoke(ref, ok);
          call := CallGuestRevoke;
      }
    }

    // The process itself, and `pair`.
    method ServeProcess(r: Request) returns (ghost step: Option<Label>)
      requires r.AskPair? || r.Tick? || r.Crash?
      requires Valid() && Undrawn(DrawsOf(r), broker.state.hist)
      modifies this, Repr()
      ensures Went(DrawsOf(r))
      ensures Does(r, old(broker.state), old(Grip()), step, Grip())
      ensures WentOn(step)
    {
      match r {
        case AskPair(origin, ok) =>
          var code := ServePair(origin, ok);
          step := Some(Pair(origin, ok));
        case Tick(now, ok) =>
          ServeTick(now, ok);
          step := Some(Sweep(now, ok));
        case Crash(now) =>
          ServeCrash(now);
          step := Some(labels[|labels| - 1]);
      }
    }

    method Serve(r: Request) returns (ghost step: Option<Label>)
      requires Valid() && Undrawn(DrawsOf(r), broker.state.hist)
      modifies this, Repr()
      ensures Went(DrawsOf(r))
      ensures Does(r, old(broker.state), old(Grip()), step, Grip())
      ensures WentOn(step)
    {
      if r.AskPair? || r.Tick? || r.Crash? {
        step := ServeProcess(r);
      } else if r.AskPoll? || r.AskAck? || r.AskPost? || r.AskGuestRevoke? {
        step := None;
        if r.ref < |held| {
          ghost var call := ServeHeld(r);
          step := Some(Handle(held[r.ref].origin.requestId, call, r.ok));
        }
      } else if r.AskStatus? || r.AskSession? {
        step := ServeGuest(r);
      } else {
        step := ServeAdmin(r);
      }
    }
  }

  lemma StillUndrawn(before: History, d: Draws, after: History, later: Draws)
    requires DrewOnly(before, d, after) && Undrawn(later, before) && Apart(d, later)
    ensures Undrawn(later, after)
  {}

  /** The run has kept the invariant, and the objects hold what its last state says. */
  ghost predicate Agrees(service: Service)
    reads service, service.broker, service.broker.objects.Values
  {
    var broker := service.broker;
    && Inv(broker.state)
    && broker.disk == broker.state.disk && broker.p.Keys == broker.state.live
    && broker.objects.Keys == broker.state.mem.Keys
    && (forall sid :: sid in broker.p ==> sid in broker.objects && broker.p[sid] == broker.objects[sid])
    && (forall sid :: sid in broker.objects ==> broker.state.mem[sid] == broker.objects[sid].Value())
  }

  lemma ServiceAgrees(service: Service)
    requires service.Valid()
    ensures Agrees(service)
  {
    RunKeepsInv(service.states, service.labels, |service.labels|);
  }

  ghost predicate AllUndrawn(requests: seq<Request>, from: nat, hist: History) {
    forall j :: from <= j < |requests| ==> Undrawn(DrawsOf(requests[j]), hist)
  }

  lemma LaterUndrawn(requests: seq<Request>, i: nat, before: History, after: History)
    requires DrawnAfresh(requests) && i < |requests| && AllUndrawn(requests, i, before)
    requires DrewOnly(before, DrawsOf(requests[i]), after)
    ensures AllUndrawn(requests, i + 1, after)
  {
    forall j | i < j < |requests| ensures Undrawn(DrawsOf(requests[j]), after) {
      StillUndrawn(before, DrawsOf(requests[i]), after, DrawsOf(requests[j]));
    }
  }

  // What has been served: the steps taken, and the state and what was under way before each.
  datatype Trace = Trace(steps: seq<Option<Label>>, befores: seq<State>, hands: seq<Hands>)

  function Joined(steps: seq<Option<Label>>): seq<Label> {
    if steps == [] then [] else Joined(steps[..|steps| - 1]) + LabelsOf(steps[|steps| - 1])
  }

  /** The first `n` requests were served one after the other, each by the step it asks for. */
  ghost predicate Follows(requests: seq<Request>, n: nat, trace: Trace) {
    && n <= |requests| && |trace.steps| == n && |trace.befores| == |trace.hands| == n + 1
    && trace.befores[0] == EMPTY && trace.hands[0] == Hands([], [])
    && forall i :: 0 <= i < n ==> Serves(requests[i], trace, i)
  }

  ghost predicate Serves(r: Request, trace: Trace, i: nat)
    requires i < |trace.steps| && |trace.befores| == |trace.hands| == |trace.steps| + 1
  {
    && Does(r, trace.befores[i], trace.hands[i], trace.steps[i], trace.hands[i + 1])
    && trace.befores[i + 1] == After(trace.befores[i], trace.steps[i])
  }

  function Longer(trace: Trace, step: Option<Label>, s: State, h: Hands): Trace {
    Trace(trace.steps + [step], trace.befores + [s], trace.hands + [h])
  }

  lemma FollowsOn(requests: seq<Request>, n: nat, trace: Trace, step: Option<Label>, h: Hands)
    requires Follows(requests, n, trace) && n < |requests|
    requires Does(requests[n], trace.befores[n], trace.hands[n], step, h)
    ensures Follows(requests, n + 1, Longer(trace, step, After(trace.befores[n], step), h))
    ensures Joined(trace.steps + [step]) == Joined(trace.steps) + LabelsOf(step)
  {
    var longer := Longer(trace, step, After(trace.befores[n], step), h);
    forall i | 0 <= i < n + 1 ensures Serves(requests[i], longer, i) {
      if i < n { assert Serves(requests[i], trace, i); }
    }
    assert (trace.steps + [step])[..n] == trace.steps;
  }

  lemma LastStep(states: seq<State>, labels: seq<Label>, l: Label, t: State)
    requires IsRun(states, labels) && IsRun(states + [t], labels + [l])
    ensures t == Apply(states[|labels|], l)
  {
    var longer, more := states + [t], labels + [l];
    assert IsStep(longer, more, |labels|);
  }

  // What `trace` says is where the service has come to.
  ghost predicate Reached(service: Service, trace: Trace, n: nat)
    requires |trace.befores| == |trace.hands| == n + 1
    reads service, service.broker
  {
    service.labels == Joined(trace.steps)
    && service.broker.state == trace.befores[n] && service.Grip() == trace.hands[n]
  }

  // The service is as it should be, and the draws to come are new to it.
  ghost predicate Ready(service: Service, requests: seq<Request>, n: nat, trace: Trace)
    reads service, service.Repr()
  {
    && service.Valid() && AllUndrawn(requests, n, service.broker.state.hist)
    && Follows(requests, n, trace) && Reached(service, trace, n)
  }

  method ServeNext(service: Service, requests: seq<Request>, n: nat, ghost trace: Trace) returns (ghost longer: Trace)
    requires DrawnAfresh(requests) && n < |requests| && Ready(service, requests, n, trace)
    modifies service, service.Repr()
    ensures Ready(service, requests, n + 1, longer)
    ensures fresh(service.Repr() - old(service.Repr()))
  {
    ghost var before, states, labels := service.broker.state, service.states, service.labels;
    ghost var step := service.Serve(requests[n]);
    LaterUndrawn(requests, n, before.hist, service.broker.state.hist);
    FollowsOn(requests, n, trace, step, service.Grip());
    if step != None { LastStep(states, labels, step.value, service.broker.state); }
    longer := Longer(trace, step, service.broker.state, service.Grip());
  }

  method ServeFrom(service: Service, requests: seq<Request>, n: nat, ghost trace: Trace) returns (ghost full: Trace)
    requires DrawnAfresh(requests) && n <= |requests| && Ready(service, requests, n, trace)
    modifies service, service.Repr()
    ensures Ready(service, requests, |requests|, full)
    decreases |requests| - n
  {
    full := trace;
    if n < |requests| {
      full := ServeNext(service, requests, n, full);
      full := ServeFrom(service, requests, n + 1, full);
    }
  }

  /** Serving any requests, from the first process on, is a run of the machine that takes
      for each request the step it asks for and no other, and the objects it leaves hold
      what the last state of the run says. */
  method ServeAll(requests: seq<Request>, now: Time) returns (service: Service, ghost trace: Trace)
    requires DrawnAfresh(requests)
    ensures fresh(service) && service.Valid() && Agrees(service)
    ensures Follows(requests, |requests|, trace) && Reached(service, trace, |requests|)
  {
    service := new Service(now);
    NoneDrawn(requests);
    trace := Trace([], [EMPTY], [Hands([], [])]);
    trace := ServeFrom(service, requests, 0, trace);
    ServiceAgrees(service);
  }

  lemma NoneDrawn(requests: seq<Request>)
    ensures AllUndrawn(requests, 0, EMPTY.hist)
  {}
}
