/** What each handler of cmd/pairing-broker/main.go decides about one session,
    while it holds the mutex, and the invariant of a session that every decision
    keeps. */
module Sessions {
  import opened Records

  /** The effects a handler reports with a success answer. The queue an admitted command
      found, `ahead`, is noted beside it. */
  datatype Event =
    | DidApprove(sid: SessionId, at: Time, minutes: int, until: Time)
    | DidReject(sid: SessionId)
    | DidRevoke(sid: SessionId)
    | DidAdmit(sid: SessionId, cid: CommandId, payload: Fingerprint, ahead: set<CommandId>)
    | DidAck(sid: SessionId, cid: CommandId)
    | DidAccept(sid: SessionId, result: Result, stored: bool)
    | DidConsume(sid: SessionId, taken: seq<Result>)

  /** The outcome of a critical section.
      - `Answer`: nothing changes.
      - `Local`: memory changes, nothing is saved, the request goes on.
      - `Commit`: the session becomes `good` if the snapshot is published, and the
        answer is `code`; it becomes `bad` and the answer is 500 if saving fails.
        `popped` is the set of ids the handler took off the queue. */
  datatype Decision =
    | Answer(code: int)
    | Local(next: Session)
    | Commit(good: Session, bad: Session, code: int, event: Option<Event>, popped: set<CommandId>)

  // ---------------------------------------------------------------- handlers

  function NewSession(origin: Origin): Session {
    Session(origin, Pending, None, None, None, NoHash, [], map[], [])
  }

  // ceil(DurationSeconds / 60). A negative duration gives less than one minute
  // here and in Go, whose division truncates.
  function MaxMinutes(request: PairRequest): int { (request.durationSeconds + 59) / 60 }

  function Approve(x: Session, minutes: int, token: Token, now: Time): Decision {
    if x.phase != Pending then Answer(404)
    else
      var limit := MaxMinutes(x.origin.request);
      if limit < 1 || limit > 60 || minutes < 1 || minutes > limit then Answer(400)
      else
        var initial := Command(INITIAL_ID, SYSTEM_INFO, Some(now + 15 * SECOND), []);
        var until := now + minutes * MINUTE;
        Commit(
          x.(phase := Approved, tokenHash := HashOf(token), sessionToken := Some(token),
             expiresAt := Some(until),
             commands := x.commands[INITIAL_ID := NewCommandState(initial)],
             queue := x.queue + [INITIAL_ID]),
          x, 200, Some(DidApprove(x.origin.requestId, now, minutes, until)), {})
  }

  function Reject(x: Session): Decision {
    if x.phase != Pending then Answer(404)
    else Commit(x.(phase := Rejected), x, 200, Some(DidReject(x.origin.requestId)), {})
  }

  // How many ids of a lane are listed and still queued.
  function LaneDepth(queue: seq<CommandId>, commands: map<CommandId, CommandState>, control: bool): nat {
    if queue == [] then 0
    else
      var last := queue[|queue| - 1];
      LaneDepth(queue[..|queue| - 1], commands, control) +
      if last in commands && commands[last].status == Queued && IsControl(commands[last].command.name) == control
      then 1 else 0
  }

  const MAX_ID: nat := 128
  const HOUR: int := 60 * MINUTE

  function MaxParams(name: Capability): nat { if name == "files.write-chunk" then 2 * 1024 * 1024 else 32 * 1024 }

  // `enqueue` before it takes the mutex for the second time: the default deadline, and
  // the code of a refusal or 0. `requested` are the capabilities of the session named,
  // none if there is no such session.
  function WithDeadline(command: Command, now: Time): Command {
    if command.deadline == None then command.(deadline := Some(now + 30 * SECOND)) else command
  }

  function PreCheck(requested: seq<Capability>, command: Command, now: Time): int {
    if
      || command.id == "" || |command.id| > MAX_ID
      || command.name !in requested || |command.params| > MaxParams(command.name)
    then 403
    else if IsBefore(now + HOUR, WithDeadline(command, now).deadline) then 400
    else 0
  }

  function LaneLimit(control: bool): nat { if control then 4 else 16 }

  function Enqueue(x: Session, command: Command): Decision {
    var state := NewCommandState(command);
    var control := IsControl(command.name);
    if x.phase != Approved then Answer(409)
    else if command.id in x.commands then
      Answer(if x.commands[command.id].fingerprint == state.fingerprint then 200 else 409)
    else if LaneDepth(x.queue, x.commands, control) >= LaneLimit(control) then Answer(409)
    else
      Commit(
        x.(commands := x.commands[command.id := state],
           queue := if control then [command.id] + x.queue else x.queue + [command.id]),
        x, 202, Some(DidAdmit(x.origin.requestId, command.id, state.fingerprint, Elements(x.queue))), {})
  }

  function AdminRevoke(x: Session): Decision {
    var y := x.(phase := Revoked, tokenHash := NoHash, queue := []);
    Commit(y, y, 200, Some(DidRevoke(x.origin.requestId)), {})
  }

  function GuestRevoke(x: Session): Decision {
    var y := x.(phase := Revoked, tokenHash := NoHash);
    Commit(y, y, 200, Some(DidRevoke(x.origin.requestId)), {})
  }

  function ReadResults(x: Session, consume: bool): Decision {
    if !consume then Answer(200)
    else
      var y := x.(results := []);
      Commit(y, y, 200, Some(DidConsume(x.origin.requestId, x.results)), {})
  }

  function PairStatus(x: Session, pollToken: Token, replacement: Token, now: Time): Decision {
    if x.origin.pairingHash != HashOf(pollToken) then Answer(404)
    else if x.phase == Approved && x.sessionToken == None && IsBefore(now, x.expiresAt) then
      Commit(x.(tokenHash := HashOf(replacement), sessionToken := Some(replacement)), x, 200, None, {})
    else Answer(200)
  }

  predicate Expired(c: CommandState, now: Time) { c.status == Leased && IsAfter(now, c.leaseUntil) }

  function Requeued(c: CommandState): CommandState { c.(status := Queued, leaseUntil := None) }

  // `order` is the order in which the loop over the command map met the expired
  // leases; Go leaves it open.
  predicate ExpiryOrder(x: Session, now: Time, order: seq<CommandId>) {
    NoDup(order) && Elements(order) == set id | id in x.commands && Expired(x.commands[id], now)
  }

  function ExpireLeases(x: Session, now: Time, order: seq<CommandId>): Session {
    x.(commands := map id | id in x.commands ::
         if Expired(x.commands[id], now) then Requeued(x.commands[id]) else x.commands[id],
       queue := x.queue + order)
  }

  lemma NothingExpired(x: Session, now: Time)
    requires ExpiryOrder(x, now, [])
    ensures ExpireLeases(x, now, []) == x
  {
    assert forall id :: id in x.commands && Expired(x.commands[id], now) ==> id in Elements<CommandId>([]);
    assert ExpireLeases(x, now, []).commands == x.commands;
  }

  // One pass of the polling loop.
  function PollPass(x: Session, now: Time, order: seq<CommandId>): Decision {
    var y := ExpireLeases(x, now, order);
    if y.queue == [] then Answer(204)
    else
      var id := y.queue[0];
      if id !in y.commands || y.commands[id].status != Queued then Local(y.(queue := y.queue[1..]))
      else
        var z := y.(queue := y.queue[1..],
                    commands :=
                      y.commands[id := y.commands[id].(status := Leased, leaseUntil := Some(now + 10 * SECOND))]);
        Commit(z, z, 200, None, {id})
  }

  function Ack(x: Session, cid: CommandId, now: Time): Decision {
    if cid == "" then Answer(400)
    else if cid !in x.commands || x.commands[cid].status != Leased || IsAfter(now, x.commands[cid].leaseUntil) then
      Answer(409)
    else
      var y := x.(commands := x.commands[cid := x.commands[cid].(status := Running, leaseUntil := None)]);
      Commit(y, y, 200, Some(DidAck(x.origin.requestId, cid)), {})
  }

  const MAX_RESULTS: nat := 128
  const MAX_RESULT_OUTPUT: nat := 2 * 1024 * 1024

  function PostResult(x: Session, r: Result): Decision {
    if r.id == "" || r.name !in x.origin.request.requested || |r.output| > MAX_RESULT_OUTPUT then Answer(400)
    else if r.id !in x.commands || x.commands[r.id].command.name != r.name || x.commands[r.id].status != Running then
      Answer(409)
    else
      var stored := |x.results| < MAX_RESULTS;
      var y := x.(commands := x.commands[r.id := x.commands[r.id].(status := Completed)],
                  results := if stored then x.results + [r] else x.results);
      Commit(y, y, 200, Some(DidAccept(x.origin.requestId, r, stored)), {})
  }

  // --------------------------------------------------- invariant of a session

  ghost predicate QueueListsQueued(x: Session) {
    NoDup(x.queue) && forall id :: id in x.queue ==> id in x.commands && x.commands[id].status == Queued
  }

  // The other half: nothing that waits is forgotten.
  ghost predicate QueueIsComplete(x: Session) {
    forall id :: id in x.commands && x.commands[id].status == Queued ==> id in x.queue
  }

  ghost predicate CommandSound(x: Session, id: CommandId)
    requires id in x.commands
  {
    var c := x.commands[id];
    && c.command.id == id != ""
    && c.fingerprint == Fingerprint(c.command.name, c.command.params)
    && (c.status == Leased <==> c.leaseUntil.Some?)
    && (c.command.name in x.origin.request.requested || (id == INITIAL_ID && c.command.name == SYSTEM_INFO))
    && (c.status == Completed ==> c.command.name in x.origin.request.requested)
  }

  ghost predicate CommandsSound(x: Session) {
    forall id :: id in x.commands ==> CommandSound(x, id)
  }

  ghost predicate ResultSound(x: Session, r: Result) {
    r.id in x.commands && x.commands[r.id].status == Completed && x.commands[r.id].command.name == r.name
  }

  ghost predicate ResultsSound(x: Session) {
    |x.results| <= MAX_RESULTS && DistinctIds(x.results) && forall r :: r in x.results ==> ResultSound(x, r)
  }

  ghost predicate PhaseSound(x: Session) {
    match x.phase
    case Pending => Untouched(x)
    case Rejected => Untouched(x)
    case Approved =>
      && x.expiresAt.Some?
      && x.tokenHash.HashOf?
      && (x.sessionToken.Some? ==> x.tokenHash == HashOf(x.sessionToken.value))
    case Revoked => x.tokenHash == NoHash
  }

  ghost predicate Untouched(x: Session) {
    x.expiresAt == None && x.sessionToken == None && x.tokenHash == NoHash
    && x.queue == [] && x.commands == map[] && x.results == []
  }

  ghost predicate Sound(x: Session) {
    && QueueListsQueued(x)
    && (x.phase == Approved ==> QueueIsComplete(x))
    && CommandsSound(x)
    && ResultsSound(x)
    && PhaseSound(x)
    && x.pairingToken == None
  }

  // ------------------------------------------- how a session may develop

  ghost predicate PhaseStep(p: Phase, q: Phase) {
    p == q || p == Pending || (p == Approved && q == Revoked) || (p == Rejected && q == Revoked)
  }

  ghost predicate CommandStep(c: CommandState, d: CommandState) {
    c.command == d.command && c.fingerprint == d.fingerprint && Rank(c.status) <= Rank(d.status)
  }

  // A completed command whose result is no longer held.
  ghost predicate Settled(x: Session, id: CommandId) {
    id in x.commands && x.commands[id].status == Completed && id !in Ids(x.results)
  }

  /** `y` is a later version of `x`: nothing that was reported is undone. */
  ghost predicate Evolves(x: Session, y: Session) {
    && x.origin == y.origin
    && PhaseStep(x.phase, y.phase)
    && (x.expiresAt.Some? ==> x.expiresAt == y.expiresAt)
    && (forall id :: id in x.commands ==> id in y.commands && CommandStep(x.commands[id], y.commands[id]))
    && (forall id :: Settled(x, id) ==> Settled(y, id))
    && (forall r :: r in y.results && r.id in x.commands && x.commands[r.id].status == Completed ==> r in x.results)
  }

  /** The disk version `d` is behind the memory version `m`: the same commands, none
      further than in memory, and the same grant unless memory was revoked. */
  ghost predicate Behind(d: Session, m: Session) {
    && Evolves(d, m)
    && d.commands.Keys == m.commands.Keys
    && d.expiresAt == m.expiresAt
    && (m.phase != Revoked ==> d.phase == m.phase && d.tokenHash == m.tokenHash)
  }

  lemma BehindTransitive(x: Session, y: Session, z: Session)
    requires Behind(x, y) && Behind(y, z)
    ensures Behind(x, z)
  {}

  // ------------------------------------------------------------- promises

  /** What an event promises about its session from then on. */
  ghost predicate Honours(x: Session, e: Event) {
    match e
    case DidApprove(_, at, minutes, until) =>
      (x.phase == Approved || x.phase == Revoked) && x.expiresAt == Some(until)
      && until == at + minutes * MINUTE
      && 1 <= minutes <= 60 && (minutes - 1) * 60 < x.origin.request.durationSeconds <= 3600
    case DidReject(_) => x.phase == Rejected || x.phase == Revoked
    case DidRevoke(_) => x.phase == Revoked
    case DidAdmit(_, cid, payload, _) => cid in x.commands && x.commands[cid].fingerprint == payload
    case DidAck(_, cid) => cid in x.commands && Rank(x.commands[cid].status) >= 1
    case DidAccept(_, r, stored) =>
      && r.id in x.commands && x.commands[r.id].status == Completed
      && (forall h :: h in x.results && h.id == r.id ==> h == r)
      && (stored || Settled(x, r.id))
    case DidConsume(_, taken) => forall r :: r in taken ==> Settled(x, r.id)
  }

  lemma HonoursEvolves(x: Session, y: Session, e: Event)
    requires Evolves(x, y) && Honours(x, e)
    ensures Honours(y, e)
  {}

  /** The state in which a handler reports `e`. */
  ghost predicate Allows(x: Session, e: Event) {
    match e
    case DidApprove(_, _, _, _) => x.phase == Pending
    case DidReject(_) => x.phase == Pending
    case DidRevoke(_) => true
    case DidAdmit(_, cid, _, _) => cid !in x.commands && x.phase == Approved
    case DidAck(_, cid) => cid in x.commands && Rank(x.commands[cid].status) == 0
    case DidAccept(_, r, _) => r.id in x.commands && Rank(x.commands[r.id].status) == 1
    case DidConsume(_, taken) => taken == x.results
  }

  /** The reports of one session that can never follow each other. */
  ghost predicate Excludes(first: Event, later: Event) {
    match later
    case DidApprove(_, _, _, _) => first.DidApprove? || first.DidReject? || first.DidRevoke?
    case DidReject(_) => first.DidApprove? || first.DidReject? || first.DidRevoke?
    case DidRevoke(_) => false
    case DidAdmit(_, cid, _, _) =>
      || first.DidReject? || first.DidRevoke?
      || ((first.DidAdmit? || first.DidAck?) && first.cid == cid)
      || (first.DidAccept? && first.result.id == cid)
    case DidAck(_, cid) => (first.DidAck? && first.cid == cid) || (first.DidAccept? && first.result.id == cid)
    case DidAccept(_, r, _) =>
      (first.DidAccept? && first.result.id == r.id) || (first.DidConsume? && r.id in Ids(first.taken))
    case DidConsume(_, taken) =>
      || (first.DidConsume? && Ids(first.taken) * Ids(taken) != {})
      || (first.DidAccept? && exists h :: h in taken && h.id == first.result.id && (!first.stored || h != first.result))
  }

  lemma HonouredExcludesRepeat(x: Session, first: Event, later: Event)
    requires Honours(x, first) && Allows(x, later)
    ensures !Excludes(first, later)
  {}

  // ------------------------------------------------- every decision is proper

  /** The obligations of a decision; the machine needs nothing else about a handler. */
  ghost predicate Proper(x: Session, d: Decision) {
    match d
    case Answer(_) => true
    case Local(_) => false
    case Commit(good, bad, _, event, _) =>
      && Sound(good) && Sound(bad)
      && Evolves(x, good) && Behind(x, bad)
      && (event.Some? ==>
            event.value.sid == x.origin.requestId && Allows(x, event.value) && Honours(good, event.value))
  }

  lemma NewSessionSound(origin: Origin)
    ensures Sound(NewSession(origin))
  {}

  lemma StripKeeps(x: Session)
    requires Sound(x)
    ensures Sound(Strip(x)) && Behind(Strip(x), x) && Evolves(x, Strip(x))
  {}

  lemma ApproveProper(x: Session, minutes: int, token: Token, now: Time)
    requires Sound(x)
    ensures Proper(x, Approve(x, minutes, token, now))
  {}

  lemma RejectProper(x: Session)
    requires Sound(x)
    ensures Proper(x, Reject(x))
  {}

  lemma EnqueueProper(x: Session, command: Command)
    requires Sound(x) && command.name in x.origin.request.requested && command.id != ""
    ensures Proper(x, Enqueue(x, command))
  {
    var d := Enqueue(x, command);
    if d.Commit? {
      var y := d.good;
      var id := command.id;
      assert id !in x.queue;
      if IsControl(command.name) { NoDupConcat([id], x.queue); } else { NoDupConcat(x.queue, [id]); }
      forall i | i in y.commands ensures CommandSound(y, i) {
        if i != id { assert CommandSound(x, i); }
      }
      forall r | r in y.results ensures ResultSound(y, r) { assert ResultSound(x, r); }
      forall i | i in y.commands && y.commands[i].status == Queued ensures i in y.queue {
        if i == id {
          assert y.queue[if IsControl(command.name) then 0 else |x.queue|] == id;
        } else {
          assert i in x.queue;
        }
      }
    }
  }

  lemma RevokeProper(x: Session)
    requires Sound(x)
    ensures Proper(x, AdminRevoke(x)) && Proper(x, GuestRevoke(x))
  {}

  lemma ReadResultsProper(x: Session, consume: bool)
    requires Sound(x)
    ensures Proper(x, ReadResults(x, consume))
  {}

  lemma PairStatusProper(x: Session, pollToken: Token, replacement: Token, now: Time)
    requires Sound(x)
    ensures Proper(x, PairStatus(x, pollToken, replacement, now))
  {}

  lemma ExpireLeasesKeeps(x: Session, now: Time, order: seq<CommandId>)
    requires Sound(x) && ExpiryOrder(x, now, order)
    ensures Sound(ExpireLeases(x, now, order)) && Behind(x, ExpireLeases(x, now, order))
  {
    var y := ExpireLeases(x, now, order);
    forall id | id in order ensures id in x.commands && Expired(x.commands[id], now) && id !in x.queue {
      assert id in Elements(order);
    }
    NoDupConcat(x.queue, order);
    assert x.commands == map[] ==> order == [] && y.commands == map[] by {
      if order != [] { assert order[0] in order; }
    }
    forall id | id in y.commands ensures CommandSound(y, id) { assert CommandSound(x, id); }
    forall r | r in y.results ensures ResultSound(y, r) { assert ResultSound(x, r); }
    forall id | id in y.commands && y.commands[id].status == Queued && x.phase == Approved ensures id in y.queue {
      if x.commands[id].status != Queued {
        assert id in Elements(order);
      }
    }
  }

  lemma PollPassProper(x: Session, now: Time, order: seq<CommandId>)
    requires Sound(x) && ExpiryOrder(x, now, order)
    ensures Proper(x, PollPass(x, now, order))
  {
    ExpireLeasesKeeps(x, now, order);
    var y := ExpireLeases(x, now, order);
    if y.queue != [] {
      var id := y.queue[0];
      assert id in y.queue;
      var z := PollPass(x, now, order).good;
      LeaseHeadKeeps(y, z, now);
      BehindTransitive(x, y, z);
    }
  }

  lemma LeaseHeadKeeps(y: Session, z: Session, now: Time)
    requires Sound(y) && y.queue != [] && y.queue[0] in y.commands
    requires var id := y.queue[0];
             z == y.(queue := y.queue[1..],
                     commands :=
                       y.commands[id := y.commands[id].(status := Leased, leaseUntil := Some(now + 10 * SECOND))])
    ensures Sound(z) && Behind(y, z)
  {}

  lemma AckProper(x: Session, cid: CommandId, now: Time)
    requires Sound(x)
    ensures Proper(x, Ack(x, cid, now))
  {}

  lemma PostResultProper(x: Session, r: Result)
    requires Sound(x)
    ensures Proper(x, PostResult(x, r))
  {
    var d := PostResult(x, r);
    if d.Commit? {
      var y := d.good;
      assert CommandSound(x, r.id);
      forall id | id in y.commands ensures CommandSound(y, id) { assert CommandSound(x, id); }
      PostedResults(x, y, r);
      IdsAppend(x.results, r);
    }
  }

  lemma PostedResults(x: Session, y: Session, r: Result)
    requires ResultsSound(x) && r.id in x.commands && x.commands[r.id].status == Running
    requires x.commands[r.id].command.name == r.name
    requires y.commands == x.commands[r.id := x.commands[r.id].(status := Completed)]
    requires y.results == if |x.results| < MAX_RESULTS then x.results + [r] else x.results
    ensures ResultsSound(y) && r.id !in Ids(x.results)
    ensures forall h :: h in y.results ==> h in x.results || h == r
  {
    forall q | q in x.results ensures q.id != r.id && ResultSound(y, q) { assert ResultSound(x, q); }
    assert ResultSound(y, r);
    assert forall q :: q in y.results ==> q in x.results || q == r;
  }

  predicate InLane(commands: map<CommandId, CommandState>, control: bool, id: CommandId) {
    id in commands && commands[id].status == Queued && IsControl(commands[id].command.name) == control
  }

  // The commands of a lane that wait, and those of them a queue lists.
  function Lane(commands: map<CommandId, CommandState>, control: bool): set<CommandId> {
    set id | id in commands && InLane(commands, control, id)
  }

  function Listed(queue: seq<CommandId>, commands: map<CommandId, CommandState>, control: bool): set<CommandId> {
    set id | id in queue && InLane(commands, control, id)
  }

  lemma ListedLast(queue: seq<CommandId>, commands: map<CommandId, CommandState>, control: bool)
    requires NoDup(queue) && queue != []
    ensures var n := |queue| - 1; var front := Listed(queue[..n], commands, control);
            queue[n] !in front
            && Listed(queue, commands, control) ==
               if InLane(commands, control, queue[n]) then front + {queue[n]} else front
  {}

  lemma {:induction false} LaneDepthCounts(queue: seq<CommandId>, commands: map<CommandId, CommandState>, control: bool)
    requires NoDup(queue)
    ensures LaneDepth(queue, commands, control) == |Listed(queue, commands, control)|
  {
    if queue == [] {
      assert Listed(queue, commands, control) == {};
    } else {
      ListedLast(queue, commands, control);
      LaneDepthCounts(queue[..|queue| - 1], commands, control);
    }
  }

  lemma LaneGrows(commands: map<CommandId, CommandState>, id: CommandId, state: CommandState)
    requires id !in commands && state.status == Queued
    ensures var control := IsControl(state.command.name); var more := commands[id := state];
            Lane(more, control) == Lane(commands, control) + {id} && Lane(more, !control) == Lane(commands, !control)
  {}

  /** Admitting a command adds it to its lane and nothing to the other, and leaves at
      most 16 regular or 4 control commands waiting in that lane. */
  lemma AdmissionFillsLane(x: Session, command: Command)
    requires Sound(x) && Enqueue(x, command).Commit?
    ensures var y := Enqueue(x, command).good; var control := IsControl(command.name);
            && Lane(y.commands, control) == Lane(x.commands, control) + {command.id}
            && |Lane(y.commands, control)| == |Lane(x.commands, control)| + 1 <= (if control then 4 else 16)
            && Lane(y.commands, !control) == Lane(x.commands, !control)
  {
    var control := IsControl(command.name);
    assert Lane(x.commands, control) == Listed(x.queue, x.commands, control);
    LaneDepthCounts(x.queue, x.commands, control);
    LaneGrows(x.commands, command.id, NewCommandState(command));
    assert command.id !in Lane(x.commands, control);
  }

  /** In a sound session the polling loop never takes its skip branch. */
  lemma PollNeverSkips(x: Session, now: Time, order: seq<CommandId>)
    requires Sound(x) && ExpiryOrder(x, now, order)
    ensures !PollPass(x, now, order).Local?
    ensures x.phase == Approved ==>
              (PollPass(x, now, order).Commit? <==>
               exists id :: id in x.commands
                            && (|| x.commands[id].status == Queued
                                || (x.commands[id].status == Leased && x.commands[id].leaseUntil.Some?
                                    && now > x.commands[id].leaseUntil.value)))
  {
    ExpireLeasesKeeps(x, now, order);
    var y := ExpireLeases(x, now, order);
    if y.queue != [] {
      assert y.queue[0] in y.queue;
      assert x.commands[y.queue[0]].status == Queued || Expired(x.commands[y.queue[0]], now);
      assert CommandSound(x, y.queue[0]);
    } else if id :| id in x.commands && (x.commands[id].status == Queued || Expired(x.commands[id], now)) {
      assert id in y.commands;
      assert y.commands[id].status == Queued;
    }
  }
}
