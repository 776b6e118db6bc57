/** The broker as objects: `pending` entries that handlers update in place under the
    mutex, the map `server.p`, and the state file. Each method is one critical
    section; its contract says which step of `Machine` it takes. */
module BrokerObjects {
  import opened Records
  import opened Sessions
  import opened Recovery
  import opened Machine

  // How an update of an entry ends: refused with a code, done as decided (0), or
  // changed only in memory (-1).
  ghost predicate Ends(x: Session, d: Decision, y: Session, code: int) {
    match d
    case Answer(c) => code == c != 0 && y == x
    case Local(next) => code == -1 && y == next
    case Commit(good, _, _, _, _) => code == 0 && y == good
  }

  // The lease is over.
  predicate RanOut(c: CommandState, now: Time) {
    c.status == Leased && (c.leaseUntil == None || now > c.leaseUntil.value)
  }

  lemma NoneRanOut(x: Session, now: Time, order: seq<CommandId>)
    requires ExpiryOrder(x, now, order)
    ensures order == [] <==> !exists id :: id in x.commands && RanOut(x.commands[id], now)
  {
    EmptyElements(order);
    if id :| id in x.commands && RanOut(x.commands[id], now) { assert id in Elements(order); }
    if order != [] {
      assert order[0] in Elements(order);
      assert RanOut(x.commands[order[0]], now);
    }
  }

  class Entry {
    const origin: Origin
    var phase: Phase
    var expiresAt: Option<Time>
    var sessionToken: Option<Token>
    var pairingToken: Option<Token>
    var tokenHash: Hash
    var queue: seq<CommandId>
    var commands: map<CommandId, CommandState>
    var results: seq<Result>

    function Value(): Session
      reads this
    {
      Session(origin, phase, expiresAt, sessionToken, pairingToken, tokenHash, queue, commands, results)
    }

    // An entry with the given fields, as JSON decoding or a composite literal makes it.
    constructor (x: Session)
      ensures Value() == x
    {
      origin, phase, expiresAt := x.origin, x.phase, x.expiresAt;
      sessionToken, pairingToken, tokenHash := x.sessionToken, x.pairingToken, x.tokenHash;
      queue, commands, results := x.queue, x.commands, x.results;
    }

    /** The first loop of `recoverState` over one entry's queue. */
    method SurvivingQueue() returns (queued: seq<CommandId>, alreadyQueued: set<CommandId>)
      ensures queued == Kept(queue, commands)
      ensures alreadyQueued == Elements(queued)
    {
      queued, alreadyQueued := [], {};
      for i := 0 to |queue|
        invariant queued == Kept(queue[..i], commands)
        invariant alreadyQueued == Elements(queued)
      {
        var id := queue[i];
        assert queue[..i + 1][..i] == queue[..i];
        if id in commands && commands[id].status == Queued && id !in alreadyQueued {
          queued := queued + [id];
          alreadyQueued := alreadyQueued + {id};
        }
      }
      assert queue[..|queue|] == queue;
    }

    // The second loop: leases are forgotten, and what waits and is not listed is added,
    // in an arbitrary order.
    method ForgetLeases(kept: seq<CommandId>, alreadyQueued: set<CommandId>)
      returns (queued: seq<CommandId>, ghost rest: seq<CommandId>)
      requires alreadyQueued == Elements(kept)
      modifies this`commands
      ensures commands == Unleased(old(commands))
      ensures queued == kept + rest && NoDup(rest) && Elements(rest) == Waiting(commands) - Elements(kept)
    {
      queued, rest := kept, [];
      ghost var before := commands;
      var todo := commands.Keys;
      while todo != {}
        invariant todo <= before.Keys == commands.Keys
        invariant forall id :: id in before ==>
                    commands[id] ==
                      if id !in todo && before[id].status == Leased then Requeued(before[id]) else before[id]
        invariant queued == kept + rest && NoDup(rest)
        invariant forall id :: id in rest <==>
                    id in before && id !in todo && commands[id].status == Queued && id !in kept
        decreases todo
      {
        var id :| id in todo;
        if commands[id].status == Leased {
          commands := commands[id := commands[id].(status := Queued, leaseUntil := None)];
        }
        if commands[id].status == Queued && id !in alreadyQueued {
          queued := queued + [id];
          rest := rest + [id];
        }
        todo := todo - {id};
      }
      assert commands == Unleased(before);
    }

    /** The repair of one entry by `recoverState`. */
    method Repair()
      modifies this
      ensures Repaired(old(Value()), Value())
    {
      sessionToken := None;
      var queued, alreadyQueued := SurvivingQueue();
      ghost var kept := queued;
      ghost var rest;
      queued, rest := ForgetLeases(queued, alreadyQueued);
      queue := queued;
      assert queue[|kept|..] == rest;
    }

    /** The expiry loop of `poll`, over the command map in an arbitrary order. */
    method ExpireCommands(now: Time) returns (ghost order: seq<CommandId>)
      modifies this
      ensures ExpiryOrder(old(Value()), now, order)
      ensures Value() == ExpireLeases(old(Value()), now, order)
    {
      order := [];
      ghost var before := commands;
      var todo := commands.Keys;
      while todo != {}
        invariant todo <= before.Keys == commands.Keys
        invariant Value() == old(Value()).(commands := commands, queue := old(queue) + order)
        invariant forall id :: id in before ==>
                    commands[id] == if id !in todo && Expired(before[id], now) then Requeued(before[id]) else before[id]
        invariant NoDup(order)
        invariant forall id :: id in order <==> id in before && id !in todo && Expired(before[id], now)
        decreases todo
      {
        var id :| id in todo;
        if commands[id].status == Leased && IsAfter(now, commands[id].leaseUntil) {
          commands := commands[id := commands[id].(status := Queued, leaseUntil := None)];
          queue := queue + [id];
          order := order + [id];
        }
        todo := todo - {id};
      }
      assert commands == ExpireLeases(old(Value()), now, order).commands;
    }

    /** `queueDepths`: how many listed commands of each lane are still queued. */
    method QueueDepths() returns (regular: nat, control: nat)
      ensures regular == LaneDepth(queue, commands, false)
      ensures control == LaneDepth(queue, commands, true)
    {
      regular, control := 0, 0;
      for i := 0 to |queue|
        invariant regular == LaneDepth(queue[..i], commands, false)
        invariant control == LaneDepth(queue[..i], commands, true)
      {
        var id := queue[i];
        assert queue[..i + 1][..i] == queue[..i];
        if id in commands && commands[id].status == Queued {
          if IsControl(commands[id].command.name) {
            control := control + 1;
          } else {
            regular := regular + 1;
          }
        }
      }
      assert queue[..|queue|] == queue;
    }

    // At most the reply, the token hash, the queue and one command differ from `before`.
    ghost predicate Differs(before: Session, id: CommandId)
      reads this
    {
      && Value() == before.(phase := phase, sessionToken := sessionToken, expiresAt := expiresAt,
                            tokenHash := tokenHash, queue := queue, commands := commands)
      && commands == if id in commands then before.commands[id := commands[id]] else before.commands
    }

    method Grant(minutes: int, token: Token, now: Time) returns (code: int)
      modifies this
      ensures Ends(old(Value()), Approve(old(Value()), minutes, token, now), Value(), code)
      ensures Differs(old(Value()), INITIAL_ID)
      ensures code == 0 <==> old(phase) == Pending && 1 <= minutes && minutes - 1 < 60
                             && (minutes - 1) * 60 < origin.request.durationSeconds <= 3600
      ensures code == 404 <==> old(phase) != Pending
      ensures code == 0 ==>
                && phase == Approved && expiresAt == Some(now + minutes * MINUTE)
                && tokenHash == HashOf(token) && sessionToken == Some(token)
                && queue == old(queue) + [INITIAL_ID]
                && INITIAL_ID in commands && commands[INITIAL_ID].command.deadline == Some(now + 15 * SECOND)
    {
      if phase != Pending { return 404; }
      var maxMinutes := (origin.request.durationSeconds + 59) / 60;
      if maxMinutes < 1 || maxMinutes > 60 || minutes < 1 || minutes > maxMinutes { return 400; }
      tokenHash := HashOf(token);
      phase := Approved;
      sessionToken := Some(token);
      expiresAt := Some(now + minutes * MINUTE);
      var initial := Command(INITIAL_ID, SYSTEM_INFO, Some(now + 15 * SECOND), []);
      commands := commands[initial.id := NewCommandState(initial)];
      queue := queue + [initial.id];
      code := 0;
    }

    // The rollback of `approveRequest`, field by field.
    method Ungrant(previous: Session)
      requires Differs(previous, INITIAL_ID)
      modifies this
      ensures Value() == previous
    {
      phase, sessionToken, expiresAt := previous.phase, previous.sessionToken, previous.expiresAt;
      tokenHash := previous.tokenHash;
      queue := previous.queue;
      if INITIAL_ID in previous.commands {
        commands := commands[INITIAL_ID := previous.commands[INITIAL_ID]];
      } else {
        commands := commands - {INITIAL_ID};
      }
      assert commands == previous.commands;
    }

    method Refuse() returns (code: int)
      modifies this
      ensures Ends(old(Value()), Sessions.Reject(old(Value())), Value(), code)
      ensures Value() == old(Value()).(phase := phase) && (code == 0 ==> old(phase) == Pending)
    {
      if phase != Pending { return 404; }
      phase := Rejected;
      code := 0;
    }

    // The rollback of `enqueue`.
    method Withdraw(command: Command, previousQueue: seq<CommandId>, ghost before: Session)
      requires command.id !in before.commands && Differs(before, command.id) && previousQueue == before.queue
      requires (phase, sessionToken, expiresAt, tokenHash)
               == (before.phase, before.sessionToken, before.expiresAt, before.tokenHash)
      modifies this
      ensures Value() == before
    {
      commands := commands - {command.id};
      queue := previousQueue;
      assert commands == before.commands;
    }

    // `status`: 0 if a replacement token was put in place.
    method Show(pollToken: Token, replacement: Token, now: Time) returns (code: int)
      modifies this
      ensures Ends(old(Value()), PairStatus(old(Value()), pollToken, replacement, now), Value(), code)
      ensures code == 0 ==>
                && old(sessionToken) == None
                && Value() == old(Value()).(tokenHash := tokenHash, sessionToken := sessionToken)
      ensures code == 404 <==> origin.pairingHash != HashOf(pollToken)
      ensures code == 0 <==>
                && origin.pairingHash == HashOf(pollToken) && phase == Approved
                && old(sessionToken) == None && expiresAt.Some? && now < expiresAt.value
      ensures code == 0 ==> tokenHash == HashOf(replacement) && sessionToken == Some(replacement)
    {
      if origin.pairingHash != HashOf(pollToken) { return 404; }
      if phase == Approved && sessionToken == None && IsBefore(now, expiresAt) {
        tokenHash := HashOf(replacement);
        sessionToken := Some(replacement);
        return 0;
      }
      code := 200;
    }

    // The rollback of `status`.
    method Unshow(previousHash: Hash, ghost before: Session)
      requires before.sessionToken == None && previousHash == before.tokenHash
      requires Value() == before.(tokenHash := tokenHash, sessionToken := sessionToken)
      modifies this
      ensures Value() == before
    {
      tokenHash := previousHash;
      sessionToken := None;
    }

    method Admit(command: Command) returns (code: int, status: Option<CommandStatus>)
      modifies this
      ensures Ends(old(Value()), Enqueue(old(Value()), command), Value(), code)
      ensures code == 0 ==>
                command.id !in old(commands) && Differs(old(Value()), command.id)
                && (phase, sessionToken, expiresAt, tokenHash) == old((phase, sessionToken, expiresAt, tokenHash))
      ensures status == if code == 0 then Some(Queued)
                        else if code == 200 && command.id in old(commands) then Some(old(commands[command.id]).status)
                        else None
      ensures code == 0 <==>
                && old(phase) == Approved && command.id !in old(commands)
                && LaneDepth(old(queue), old(commands), IsControl(command.name))
                   < (if IsControl(command.name) then 4 else 16)
      ensures code == 0 ==> queue == if IsControl(command.name) then [command.id] + old(queue)
                                     else old(queue) + [command.id]
    {
      if phase != Approved { return 409, None; }
      var state := NewCommandState(command);
      if command.id in commands {
        if commands[command.id].fingerprint == state.fingerprint { return 200, Some(commands[command.id].status); }
        return 409, None;
      }
      var regularDepth, controlDepth := QueueDepths();
      var isControl := IsControl(command.name);
      if (!isControl && regularDepth >= 16) || (isControl && controlDepth >= 4) { return 409, None; }
      commands := commands[command.id := state];
      if isControl {
        queue := [command.id] + queue;
      } else {
        queue := queue + [command.id];
      }
      code, status := 0, Some(Queued);
    }

    method TakeNext(now: Time) returns (code: int, taken: Option<Command>, ghost order: seq<CommandId>)
      modifies this
      ensures ExpiryOrder(old(Value()), now, order)
      ensures Ends(old(Value()), PollPass(old(Value()), now, order), Value(), code)
      ensures var d := PollPass(old(Value()), now, order);
              d.Commit? ==>
                taken.Some? && exists id :: d.popped == {id} && id in d.good.commands
                                            && taken.value == d.good.commands[id].command
      ensures code == 204 <==> old(queue) == [] && !exists id :: id in old(commands) && RanOut(old(commands[id]), now)
    {
      order := ExpireCommands(now);
      NoneRanOut(old(Value()), now, order);
      taken := None;
      if |queue| > 0 {
        var id := queue[0];
        queue := queue[1..];
        if id !in commands || commands[id].status != Queued { return -1, None, order; }
        commands := commands[id := commands[id].(status := Leased, leaseUntil := Some(now + 10 * SECOND))];
        taken := Some(commands[id].command);
        ghost var d := PollPass(old(Value()), now, order);
        assert d.popped == {id};
        code := 0;
      } else {
        assert order == [];
        NothingExpired(old(Value()), now);
        code := 204;
      }
    }

    /** `ack`: the lease was active, and the command is now running. */
    method Acknowledge(cid: CommandId, now: Time) returns (code: int)
      modifies this
      ensures Ends(old(Value()), Ack(old(Value()), cid, now), Value(), code)
      ensures Value() == old(Value()).(commands := commands) && commands.Keys == old(commands).Keys
      ensures forall id :: id in commands && id != cid ==> commands[id] == old(commands)[id]
      ensures code == 0 <==>
                && cid != "" && cid in old(commands) && old(commands[cid]).status == Leased
                && old(commands[cid]).leaseUntil.Some? && now <= old(commands[cid]).leaseUntil.value
      ensures code == 0 ==> cid in commands && commands[cid].status == Running
    {
      if cid == "" { return 400; }
      if cid !in commands || commands[cid].status != Leased || IsAfter(now, commands[cid].leaseUntil) { return 409; }
      commands := commands[cid := commands[cid].(status := Running, leaseUntil := None)];
      code := 0;
    }

    method Complete(r: Result) returns (code: int)
      modifies this
      ensures Ends(old(Value()), PostResult(old(Value()), r), Value(), code)
      ensures code == 0 <==>
                && r.id != "" && r.name in origin.request.requested && |r.output| <= 2 * 1024 * 1024
                && r.id in old(commands) && old(commands[r.id]).status == Running
                && old(commands[r.id]).command.name == r.name
      ensures code == 0 ==>
                && r.id in commands && commands[r.id].status == Completed
                && results == if |old(results)| < 128 then old(results) + [r] else old(results)
    {
      if r.id == "" || r.name !in origin.request.requested || |r.output| > MAX_RESULT_OUTPUT { return 400; }
      if r.id !in commands || commands[r.id].command.name != r.name || commands[r.id].status != Running { return 409; }
      commands := commands[r.id := commands[r.id].(status := Completed)];
      if |results| < 128 { results := results + [r]; }
      code := 0;
    }
  }

  /** The loop of `recoverState` over the loaded entries, in an arbitrary order. An
      item may be null, and the `Commands` of those in `noCommands` are null. */
  method RecoverState(loaded: map<SessionId, Entry?>, noCommands: set<SessionId>, now: Time)
    returns (entries: map<SessionId, Entry>)
    requires forall a, b :: a in loaded && b in loaded && a != b && loaded[a] != null ==> loaded[a] != loaded[b]
    modifies set sid | sid in loaded && loaded[sid] != null :: loaded[sid]
    ensures entries.Keys == set sid | sid in loaded && loaded[sid] != null && sid !in noCommands
                                       && !DeadAtRecovery(old(loaded[sid].Value()), now)
    ensures forall sid :: sid in entries ==>
              entries[sid] == loaded[sid] && Repaired(old(loaded[sid].Value()), entries[sid].Value())
  {
    entries := map[];
    var todo := loaded.Keys;
    while todo != {}
      invariant todo <= loaded.Keys
      invariant forall sid :: sid in todo && loaded[sid] != null ==> loaded[sid].Value() == old(loaded[sid].Value())
      invariant entries.Keys == set sid | sid in loaded && sid !in todo && loaded[sid] != null && sid !in noCommands
                                          && !DeadAtRecovery(old(loaded[sid].Value()), now)
      invariant forall sid :: sid in entries ==>
                  entries[sid] == loaded[sid] && Repaired(old(loaded[sid].Value()), entries[sid].Value())
      decreases todo
    {
      var sid :| sid in todo;
      var item := loaded[sid];
      todo := todo - {sid};
      if item != null && sid !in noCommands && !DeadAtRecovery(item.Value(), now) {
        item.Repair();
        entries := entries[sid := item];
      }
    }
  }

  // The status code of a call; 0 when the request goes on.
  function Code(s: State, sid: SessionId, call: Call, ok: bool): int {
    if sid !in s.mem || (!ByReference(call) && sid !in s.live) then
      (if call.CallEnqueue? then 409 else 404)
    else
      match Decide(s.mem[sid], call)
      case Answer(code) => code
      case Local(_) => 0
      case Commit(_, _, code, _, _) => if ok then code else 500
  }

  ghost predicate Begun(s: State, sid: SessionId, call: Call) {
    sid in s.mem && (ByReference(call) || sid in s.live)
  }

  // What a call leaves, given the update `y` of its session.
  lemma Ended(s: State, sid: SessionId, call: Call, ended: int, y: Session, ok: bool)
    requires Begun(s, sid, call) && Ends(s.mem[sid], Decide(s.mem[sid], call), y, ended)
    ensures var t := HandleCall(s, sid, call, ok);
            && t.live == s.live && t.refs == s.refs
            && t.mem == s.mem[sid := if ended == 0 && !ok then Decide(s.mem[sid], call).bad else y]
            && t.disk == if ended == 0 && ok then Snapshot(t.mem, s.live) else s.disk
  {
    assert Decide(s.mem[sid], call).Answer? ==> s.mem[sid := y] == s.mem;
  }

  lemma EndedCode(s: State, sid: SessionId, call: Call, ended: int, y: Session, ok: bool)
    requires Begun(s, sid, call) && Ends(s.mem[sid], Decide(s.mem[sid], call), y, ended)
    ensures Code(s, sid, call, ok) ==
              if ended == -1 then 0 else if ended != 0 then ended else if ok then Decide(s.mem[sid], call).code else 500
  {}

  predicate RollsBack(call: Call) {
    call.CallApprove? || call.CallReject? || call.CallEnqueue? || call.CallStatus?
  }

  lemma WhatFailureLeaves(x: Session, call: Call)
    ensures Decide(x, call).Commit? ==>
              Decide(x, call).bad == if RollsBack(call) then x else Decide(x, call).good
  {}

  lemma Paired(s: State, item: Session, ok: bool)
    requires s.live <= s.mem.Keys && item == NewSession(item.origin)
    ensures var t := PairStep(s, item.origin, ok);
            && t.mem == (if ok then s.mem[item.origin.requestId := item] else s.mem)
            && t.live == (if ok then s.live + {item.origin.requestId} else s.live)
            && t.disk == if ok then Snapshot(t.mem, t.live) else s.disk
  {}

  lemma SweptTo(s: State, now: Time, ok: bool, gone: set<SessionId>)
    requires gone == set sid | sid in s.live && sid in s.mem && Swept(s.mem[sid], now)
    ensures var t := SweepStep(s, now, ok);
            && t.mem == s.mem && t.live == s.live - gone
            && t.disk == if gone != {} && ok then Snapshot(s.mem, t.live) else s.disk
  {}

  lemma RestartedTo(s: State, next: map<SessionId, Session>)
    ensures var t := Restarted(s, next); t.mem == next && t.live == next.Keys && t.disk == Snapshot(next, next.Keys)
  {}

  class Broker {
    var p: map<SessionId, Entry>
    var disk: map<SessionId, Session>

    // Every entry this process ever made, and the machine's view of the whole.
    ghost var objects: map<SessionId, Entry>
    ghost var state: State

    ghost predicate Valid()
      reads this, objects.Values
    {
      ValidBut({})
    }

    // The entries of `changing` are being updated.
    ghost predicate ValidBut(changing: set<SessionId>)
      reads this, objects.Values
    {
      && (forall sid :: sid in objects ==> objects[sid].origin.requestId == sid)
      && (forall sid :: sid in p ==> sid in objects && p[sid] == objects[sid])
      && state.mem.Keys == objects.Keys
      && state.live == p.Keys
      && state.disk == disk
      && (forall sid :: sid in objects && sid !in changing ==> state.mem[sid] == objects[sid].Value())
    }

    ghost predicate Holds(x: Entry)
      reads this
    {
      x.origin.requestId in objects && objects[x.origin.requestId] == x
    }

    /** `save`: a copied map, each copy without its clear token, replaces the snapshot
        unless the file system fails. The live entries are only read. */
    method Save(ok: bool, ghost mem: map<SessionId, Session>) returns (failed: bool)
      requires forall sid :: sid in p ==> sid in mem && mem[sid] == p[sid].Value()
      modifies this`disk
      ensures failed == !ok
      ensures disk == if ok then Snapshot(mem, p.Keys) else old(disk)
    {
      var safeEntries: map<SessionId, Session> := map[];
      var todo := p.Keys;
      while todo != {}
        invariant todo <= p.Keys
        invariant safeEntries.Keys == p.Keys - todo
        invariant forall sid :: sid in safeEntries ==> safeEntries[sid] == Strip(mem[sid])
        decreases todo
      {
        var sid :| sid in todo;
        var copyItem := p[sid].Value();
        copyItem := copyItem.(sessionToken := None);
        safeEntries := safeEntries[sid := copyItem];
        todo := todo - {sid};
      }
      if ok { disk := safeEntries; }
      failed := !ok;
    }

    // Saving an updated entry, where `next` is the machine's state from then on and
    // `bad` the value owed to the entry if saving fails.
    method Conclude(x: Entry, ended: int, success: int, ok: bool, ghost bad: Session, ghost next: State)
      returns (code: int, failed: bool)
      requires Holds(x) && ValidBut({x.origin.requestId})
      requires next.live == state.live
      requires next.mem == state.mem[x.origin.requestId := if ended == 0 && !ok then bad else x.Value()]
      requires next.disk == if ended == 0 && ok then Snapshot(next.mem, state.live) else state.disk
      modifies this`disk, this`state
      ensures failed <==> ended == 0 && !ok
      ensures code == if ended == -1 then 0 else if ended != 0 then ended else if ok then success else 500
      ensures state == next && ValidBut({x.origin.requestId})
      ensures !failed || bad == x.Value() ==> Valid()
    {
      failed := false;
      code := if ended == -1 then 0 else ended;
      if ended == 0 {
        failed := Save(ok, state.mem[x.origin.requestId := x.Value()]);
        code := if failed then 500 else success;
      }
      state := next;
    }

    /** What every handler does once its entry is updated: answer at once, or save and
        answer. A handler that rolls back owes the entry its old value if `failed`. */
    method Finish(x: Entry, ghost call: Call, ended: int, success: int, ok: bool) returns (code: int, failed: bool)
      requires Holds(x) && ValidBut({x.origin.requestId}) && Begun(state, x.origin.requestId, call)
      requires Ends(state.mem[x.origin.requestId], Decide(state.mem[x.origin.requestId], call), x.Value(), ended)
      requires ended == 0 ==> success == Decide(state.mem[x.origin.requestId], call).code
      modifies this`disk, this`state
      ensures failed <==> ended == 0 && !ok
      ensures code == Code(old(state), x.origin.requestId, call, ok)
      ensures code == if ended == -1 then 0 else if ended != 0 then ended else if ok then success else 500
      ensures state == HandleCall(old(state), x.origin.requestId, call, ok)
      ensures ValidBut({x.origin.requestId})
      ensures failed && RollsBack(call) ==> state.mem[x.origin.requestId] == old(state).mem[x.origin.requestId]
      ensures !failed || !RollsBack(call) ==> Valid()
    {
      ghost var before, sid := state.mem[x.origin.requestId], x.origin.requestId;
      Ended(state, sid, call, ended, x.Value(), ok);
      EndedCode(state, sid, call, ended, x.Value(), ok);
      WhatFailureLeaves(before, call);
      ghost var bad := if ended == 0 then Decide(before, call).bad else x.Value();
      code, failed := Conclude(x, ended, success, ok, bad, HandleCall(state, sid, call, ok));
    }

    lemma Restored(x: Entry)
      requires Holds(x) && ValidBut({x.origin.requestId}) && state.mem[x.origin.requestId] == x.Value()
      ensures Valid()
    {}

    /** The critical section of `pair`: the entry is in the map before it is saved, and
        out of it again if saving fails. */
    method PairRequest(origin: Origin, ok: bool) returns (code: int)
      requires Valid() && origin.requestId !in objects
      modifies this`p, this`disk, this`objects, this`state
      ensures Valid()
      ensures state == PairStep(old(state), origin, ok)
      ensures code == if ok then 202 else 500
      ensures p.Keys == if ok then old(p).Keys + {origin.requestId} else old(p).Keys
      ensures ok ==>
                var x := p[origin.requestId];
                x.origin == origin && x.phase == Pending && x.queue == [] && x.commands == map[] && x.results == []
      ensures ok ==> origin.requestId in objects && fresh(objects[origin.requestId])
      ensures objects == if ok then old(objects)[origin.requestId := objects[origin.requestId]] else old(objects)
    {
      var item := new Entry(NewSession(origin));
      Paired(state, item.Value(), ok);
      code := AddEntry(item, ok, PairStep(state, origin, ok));
    }

    // `item` is in the map, and in nobody's hands yet.
    ghost predicate Joining(item: Entry)
      reads this`p, this`objects, this`state, objects.Values, item
    {
      var id := item.origin.requestId;
      && id in p && p[id] == item && id !in objects
      && state.mem.Keys == objects.Keys && state.live == p.Keys - {id}
      && (forall sid :: sid in objects ==>
            objects[sid].origin.requestId == sid && state.mem[sid] == objects[sid].Value())
      && (forall sid :: sid in p && sid != id ==> sid in objects && p[sid] == objects[sid])
    }

    method Insert(item: Entry, ghost mem: map<SessionId, Session>)
      requires Valid() && item.origin.requestId !in objects && mem == state.mem[item.origin.requestId := item.Value()]
      modifies this`p
      ensures Joining(item) && p.Keys == state.live + {item.origin.requestId}
      ensures forall sid :: sid in p ==> sid in mem && mem[sid] == p[sid].Value()
    {
      p := p[item.origin.requestId := item];
    }

    // The state owed once the save has failed or not.
    ghost predicate Owed(next: State, item: Entry, ok: bool)
      reads this`state, item
    {
      && next.mem == (if ok then state.mem[item.origin.requestId := item.Value()] else state.mem)
      && next.live == (if ok then state.live + {item.origin.requestId} else state.live)
      && next.disk == if ok then Snapshot(next.mem, next.live) else state.disk
    }

    method AddEntry(item: Entry, ok: bool, ghost next: State) returns (code: int)
      requires Valid() && item.origin.requestId !in objects && Owed(next, item, ok)
      modifies this`p, this`disk, this`objects, this`state
      ensures Valid() && state == next
      ensures code == if ok then 202 else 500
      ensures objects == if ok then old(objects)[item.origin.requestId := item] else old(objects)
    {
      ghost var mem := state.mem[item.origin.requestId := item.Value()];
      Insert(item, mem);
      var failed := Save(ok, mem);
      code := Resolve(item, failed, next);
    }

    method Resolve(item: Entry, failed: bool, ghost next: State) returns (code: int)
      requires Joining(item) && Owed(next, item, !failed) && next.disk == disk
      modifies this`p, this`objects, this`state
      ensures Valid() && state == next
      ensures code == if failed then 500 else 202
      ensures objects == if failed then old(objects) else old(objects)[item.origin.requestId := item]
    {
      if failed {
        Forget(item, next);
        code := 500;
      } else {
        Adopt(item, next);
        code := 202;
      }
    }

    // `delete(s.p, id)` after a failed save.
    method Forget(item: Entry, ghost next: State)
      requires Joining(item) && next.disk == disk
      requires next.mem == state.mem && next.live == state.live
      modifies this`p, this`state
      ensures Valid() && state == next
    {
      p := p - {item.origin.requestId};
      state := next;
    }

    // From now on the entry may be referred to.
    ghost method Adopt(item: Entry, next: State)
      requires Joining(item) && next.live == p.Keys && next.disk == disk
      requires next.mem == state.mem[item.origin.requestId := item.Value()]
      modifies this`objects, this`state
      ensures Valid() && state == next && objects == old(objects)[item.origin.requestId := item]
    {
      objects := objects[item.origin.requestId := item];
      state := next;
    }

    method HideToken(x: Entry, previousHash: Hash, ghost before: Session)
      requires Holds(x) && ValidBut({x.origin.requestId}) && state.mem[x.origin.requestId] == before
      requires before.sessionToken == None && previousHash == before.tokenHash
      requires x.Value() == before.(tokenHash := x.tokenHash, sessionToken := x.sessionToken)
      modifies x
      ensures Valid() && x.Value() == before
    {
      x.Unshow(previousHash, before);
      Restored(x);
    }

    // An approved session whose clear token memory does not have, before it expires.
    ghost predicate Collectable(x: Entry, now: Time)
      reads x
    {
      x.phase == Approved && x.sessionToken == None && x.expiresAt.Some? && now < x.expiresAt.value
    }

    method ShowEntry(x: Entry, pollToken: Token, replacement: Token, now: Time, ok: bool) returns (code: int)
      requires Valid() && Holds(x) && x.origin.requestId in p
      modifies this`disk, this`state, x
      ensures Valid()
      ensures state == HandleCall(old(state), x.origin.requestId, CallStatus(pollToken, replacement, now), ok)
      ensures code == Code(old(state), x.origin.requestId, CallStatus(pollToken, replacement, now), ok)
      ensures code == 404 <==> x.origin.pairingHash != HashOf(pollToken)
      ensures code == 500 <==> !ok && x.origin.pairingHash == HashOf(pollToken) && old(Collectable(x, now))
      ensures x.sessionToken == if code == 200 && old(Collectable(x, now)) then Some(replacement)
                                else old(x.sessionToken)
    {
      ghost var before := x.Value();
      var previousHash := x.tokenHash;
      var ended := x.Show(pollToken, replacement, now);
      var failed;
      code, failed := Finish(x, CallStatus(pollToken, replacement, now), ended, 200, ok);
      if failed {
        HideToken(x, previousHash, before);
      }
    }

    method PairingStatus(requestID: SessionId, pollToken: Token, replacement: Token, now: Time, ok: bool)
      returns (code: int, token: Option<Token>)
      requires Valid()
      modifies this`disk, this`state, p.Values
      ensures Valid()
      ensures state == HandleCall(old(state), requestID, CallStatus(pollToken, replacement, now), ok)
      ensures code == Code(old(state), requestID, CallStatus(pollToken, replacement, now), ok)
      ensures code == 404 <==> requestID !in p || p[requestID].origin.pairingHash != HashOf(pollToken)
      ensures code == 500 <==> code != 404 && !ok && old(Collectable(p[requestID], now))
      ensures code == 200 ==> token == if old(Collectable(p[requestID], now)) then Some(replacement)
                                       else old(p[requestID].sessionToken)
      ensures code == 200 ==> requestID in p && token == p[requestID].sessionToken
    {
      if requestID !in p { return 404, None; }
      code := ShowEntry(p[requestID], pollToken, replacement, now, ok);
      token := p[requestID].sessionToken;
    }

    method ApproveEntry(x: Entry, minutes: int, token: Token, now: Time, ok: bool) returns (code: int)
      requires Valid() && Holds(x) && x.origin.requestId in p
      modifies this`disk, this`state, x
      ensures Valid()
      ensures state == HandleCall(old(state), x.origin.requestId, CallApprove(minutes, token, now), ok)
      ensures code == Code(old(state), x.origin.requestId, CallApprove(minutes, token, now), ok)
      ensures code == 200 <==>
                && ok && old(x.phase) == Pending && 1 <= minutes <= 60
                && (minutes - 1) * 60 < x.origin.request.durationSeconds <= 3600
      ensures code == 200 ==>
                && x.phase == Approved && x.expiresAt == Some(now + minutes * MINUTE)
                && x.tokenHash == HashOf(token) && x.sessionToken == Some(token)
    {
      var previous := x.Value();
      var ended := x.Grant(minutes, token, now);
      var failed;
      code, failed := Finish(x, CallApprove(minutes, token, now), ended, 200, ok);
      if failed {
        x.Ungrant(previous);
        Restored(x);
      }
    }

    method ApproveRequest(requestID: SessionId, minutes: int, token: Token, now: Time, ok: bool) returns (code: int)
      requires Valid()
      modifies this`disk, this`state, p.Values
      ensures Valid()
      ensures state == HandleCall(old(state), requestID, CallApprove(minutes, token, now), ok)
      ensures code == Code(old(state), requestID, CallApprove(minutes, token, now), ok)
      ensures code == 200 <==>
                && ok && requestID in p && old(p[requestID].phase) == Pending && 1 <= minutes <= 60
                && (minutes - 1) * 60 < p[requestID].origin.request.durationSeconds <= 3600
      ensures code == 200 ==>
                && p[requestID].phase == Approved && p[requestID].expiresAt == Some(now + minutes * MINUTE)
                && p[requestID].tokenHash == HashOf(token) && p[requestID].sessionToken == Some(token)
    {
      if requestID !in p { return 404; }
      code := ApproveEntry(p[requestID], minutes, token, now, ok);
    }

    method RejectEntry(x: Entry, ok: bool) returns (code: int)
      requires Valid() && Holds(x) && x.origin.requestId in p
      modifies this`disk, this`state, x
      ensures Valid()
      ensures state == HandleCall(old(state), x.origin.requestId, CallReject, ok)
      ensures code == Code(old(state), x.origin.requestId, CallReject, ok)
      ensures code == 200 <==> ok && old(x.phase) == Pending
      ensures x.phase == if code == 200 then Rejected else old(x.phase)
    {
      ghost var before := x.Value();
      var ended := x.Refuse();
      var failed;
      code, failed := Finish(x, CallReject, ended, 200, ok);
      if failed {
        Reopen(x, before);
      }
    }

    method Reopen(x: Entry, ghost before: Session)
      requires Holds(x) && ValidBut({x.origin.requestId}) && state.mem[x.origin.requestId] == before
      requires before.phase == Pending && x.Value() == before.(phase := x.phase)
      modifies x
      ensures Valid() && x.Value() == before
    {
      x.phase := Pending;
      Restored(x);
    }

    method RejectRequest(requestID: SessionId, ok: bool) returns (code: int)
      requires Valid()
      modifies this`disk, this`state, p.Values
      ensures Valid()
      ensures state == HandleCall(old(state), requestID, CallReject, ok)
      ensures code == Code(old(state), requestID, CallReject, ok)
      ensures code == 200 <==> ok && requestID in p && old(p[requestID].phase) == Pending
      ensures code == 200 ==> p[requestID].phase == Rejected
    {
      if requestID !in p { return 404; }
      code := RejectEntry(p[requestID], ok);
    }

    /** `enqueue` up to its second critical section. */
    method AuthoriseCommand(requestID: SessionId, command: Command, now: Time) returns (code: int, dated: Command)
      requires Valid()
      modifies this`state
      ensures Valid()
      ensures code == PreCheck(if requestID in p then p[requestID].origin.request.requested else [], command, now)
      ensures code == 0 <==>
                && requestID in p && command.name in p[requestID].origin.request.requested
                && command.id != "" && |command.id| <= 128
                && |command.params| <= (if command.name == "files.write-chunk" then 2_097_152 else 32_768)
                && (command.deadline.Some? ==> command.deadline.value <= now + 60 * MINUTE)
      ensures dated == WithDeadline(command, now)
      ensures dated == command.(deadline := Some(if command.deadline.Some? then command.deadline.value
                                                 else now + 30 * SECOND))
      ensures code == 0 ==> Enabled(old(state), Authorise(requestID, command.name))
      ensures state == if code == 0 then Apply(old(state), Authorise(requestID, command.name)) else old(state)
    {
      dated := WithDeadline(command, now);
      var requested: seq<Capability> := [];
      if requestID in p { requested := p[requestID].origin.request.requested; }
      code := PreCheck(requested, command, now);
      if code == 0 { state := Apply(state, Authorise(requestID, command.name)); }
    }

    // The status reported beside a code: the new command's, or the existing one's.
    function Reported(code: int, before: map<CommandId, CommandState>, id: CommandId): Option<CommandStatus> {
      if code == 202 then Some(Queued) else if code == 200 && id in before then Some(before[id].status) else None
    }

    // The entry still has the command whose save failed, and nothing else new.
    ghost predicate Owes(x: Entry, command: Command, before: Session)
      reads x
    {
      && command.id !in before.commands && x.Differs(before, command.id)
      && (x.phase, x.sessionToken, x.expiresAt, x.tokenHash)
         == (before.phase, before.sessionToken, before.expiresAt, before.tokenHash)
    }

    method TakeBack(x: Entry, command: Command, previousQueue: seq<CommandId>, ghost before: Session)
      requires Holds(x) && ValidBut({x.origin.requestId}) && state.mem[x.origin.requestId] == before
      requires Owes(x, command, before) && previousQueue == before.queue
      modifies x
      ensures Valid() && x.Value() == before
    {
      x.Withdraw(command, previousQueue, before);
      Restored(x);
    }

    method TryEnqueue(x: Entry, command: Command, ok: bool, ghost before: Session)
      returns (code: int, status: Option<CommandStatus>, failed: bool)
      requires Valid() && Holds(x) && x.origin.requestId in p && before == x.Value()
      modifies this`disk, this`state, x
      ensures ValidBut({x.origin.requestId}) && (!failed ==> Valid())
      ensures failed ==> state.mem[x.origin.requestId] == before && Owes(x, command, before)
      ensures status == if failed then None else Reported(code, before.commands, command.id)
      ensures state == HandleCall(old(state), x.origin.requestId, CallEnqueue(command), ok)
      ensures code == Code(old(state), x.origin.requestId, CallEnqueue(command), ok)
      ensures code == 202 <==>
                && ok && before.phase == Approved && command.id !in before.commands
                && LaneDepth(before.queue, before.commands, IsControl(command.name))
                   < (if IsControl(command.name) then 4 else 16)
      ensures code == 202 ==> x.queue == if IsControl(command.name) then [command.id] + before.queue
                                         else before.queue + [command.id]
      ensures failed ==> code == 500
    {
      var ended;
      ended, status := x.Admit(command);
      code, failed := Finish(x, CallEnqueue(command), ended, 202, ok);
      if failed { status := None; }
    }

    method EnqueueOn(x: Entry, command: Command, ok: bool) returns (code: int, status: Option<CommandStatus>)
      requires Valid() && Holds(x) && x.origin.requestId in p
      modifies this`disk, this`state, x
      ensures Valid()
      ensures status == Reported(code, old(x.commands), command.id)
      ensures state == HandleCall(old(state), x.origin.requestId, CallEnqueue(command), ok)
      ensures code == Code(old(state), x.origin.requestId, CallEnqueue(command), ok)
      ensures code == 202 <==>
                && ok && old(x.phase) == Approved && command.id !in old(x.commands)
                && LaneDepth(old(x.queue), old(x.commands), IsControl(command.name))
                   < (if IsControl(command.name) then 4 else 16)
      ensures code == 202 ==> x.queue == if IsControl(command.name) then [command.id] + old(x.queue)
                                         else old(x.queue) + [command.id]
    {
      ghost var before := x.Value();
      var previousQueue := x.queue;
      var failed;
      code, status, failed := TryEnqueue(x, command, ok, before);
      if failed {
        TakeBack(x, command, previousQueue, before);
      }
    }

    /** The second critical section of `enqueue`. A repeated command is answered with
        the status it has. */
    method EnqueueCommand(requestID: SessionId, command: Command, ok: bool)
      returns (code: int, status: Option<CommandStatus>)
      requires Valid()
      modifies this`disk, this`state, p.Values
      ensures Valid()
      ensures requestID in p ==> status == Reported(code, old(p[requestID].commands), command.id)
      ensures state == HandleCall(old(state), requestID, CallEnqueue(command), ok)
      ensures code == Code(old(state), requestID, CallEnqueue(command), ok)
      ensures code == 202 <==>
                && ok && requestID in p && old(p[requestID].phase) == Approved
                && command.id !in old(p[requestID].commands)
                && LaneDepth(old(p[requestID].queue), old(p[requestID].commands), IsControl(command.name))
                   < (if IsControl(command.name) then 4 else 16)
    {
      if requestID !in p { return 409, None; }
      code, status := EnqueueOn(p[requestID], command, ok);
    }

    method RevokeEntry(x: Entry, ok: bool) returns (code: int)
      requires Valid() && Holds(x) && x.origin.requestId in p
      modifies this`disk, this`state, x
      ensures Valid()
      ensures state == HandleCall(old(state), x.origin.requestId, CallAdminRevoke, ok)
      ensures code == Code(old(state), x.origin.requestId, CallAdminRevoke, ok)
      ensures code == 200 <==> ok
      ensures x.Value() == old(x.Value()).(phase := Revoked, tokenHash := NoHash, queue := [])
    {
      x.phase, x.tokenHash, x.queue := Revoked, NoHash, [];
      var failed;
      code, failed := Finish(x, CallAdminRevoke, 0, 200, ok);
    }

    method RevokeByAdmin(requestID: SessionId, ok: bool) returns (code: int)
      requires Valid()
      modifies this`disk, this`state, p.Values
      ensures Valid()
      ensures state == HandleCall(old(state), requestID, CallAdminRevoke, ok)
      ensures code == Code(old(state), requestID, CallAdminRevoke, ok)
      ensures code == 200 <==> ok && requestID in p
      ensures requestID in p ==>
                p[requestID].phase == Revoked && p[requestID].tokenHash == NoHash && p[requestID].queue == []
    {
      if requestID !in p { return 404; }
      code := RevokeEntry(p[requestID], ok);
    }

    method RevokeByGuest(x: Entry, ok: bool) returns (code: int)
      requires Valid() && Holds(x)
      modifies this`disk, this`state, x
      ensures Valid()
      ensures state == HandleCall(old(state), x.origin.requestId, CallGuestRevoke, ok)
      ensures code == Code(old(state), x.origin.requestId, CallGuestRevoke, ok)
      ensures code == 200 <==> ok
      ensures x.Value() == old(x.Value()).(phase := Revoked, tokenHash := NoHash)
    {
      x.phase, x.tokenHash := Revoked, NoHash;
      var failed;
      code, failed := Finish(x, CallGuestRevoke, 0, 200, ok);
    }

    method TakeResultsOf(x: Entry, consume: bool, ok: bool) returns (code: int, taken: seq<Result>)
      requires Valid() && Holds(x) && x.origin.requestId in p
      modifies this`disk, this`state, x
      ensures Valid()
      ensures state == HandleCall(old(state), x.origin.requestId, CallResults(consume), ok)
      ensures code == Code(old(state), x.origin.requestId, CallResults(consume), ok)
      ensures code == 200 <==> ok || !consume
      ensures x.results == if consume then [] else old(x.results)
      ensures code == 200 ==> taken == old(x.results)
    {
      taken := x.results;
      if consume { x.results := []; }
      var failed;
      code, failed := Finish(x, CallResults(consume), if consume then 0 else 200, 200, ok);
      if failed { taken := []; }
    }

    /** `adminResults`: the results as they were, and none of them left if consumed. */
    method TakeResults(requestID: SessionId, consume: bool, ok: bool) returns (code: int, taken: seq<Result>)
      requires Valid()
      modifies this`disk, this`state, p.Values
      ensures Valid()
      ensures state == HandleCall(old(state), requestID, CallResults(consume), ok)
      ensures code == Code(old(state), requestID, CallResults(consume), ok)
      ensures code == 200 <==> requestID in p && (ok || !consume)
      ensures requestID in p ==> p[requestID].results == if consume then [] else old(p[requestID].results)
      ensures code == 200 ==> requestID in old(p) && taken == old(p[requestID].results)
    {
      if requestID !in p { return 404, []; }
      code, taken := TakeResultsOf(p[requestID], consume, ok);
    }

    /** One pass of the loop of `poll`: 200 with a command, 204, 500, or 0 to go round again. */
    method PollOnce(x: Entry, now: Time, ok: bool)
      returns (code: int, taken: Option<Command>, ghost order: seq<CommandId>)
      requires Valid() && Holds(x)
      modifies this`disk, this`state, x
      ensures Valid()
      ensures state == HandleCall(old(state), x.origin.requestId, CallPoll(now, order), ok)
      ensures code == Code(old(state), x.origin.requestId, CallPoll(now, order), ok)
      ensures ExpiryOrder(old(x.Value()), now, order)
      ensures code == 200 ==>
                taken.Some? && exists id :: PollPass(old(x.Value()), now, order).popped == {id}
                                            && id in x.commands && taken.value == x.commands[id].command
      ensures code == 204 <==>
                old(x.queue) == [] && !exists id :: id in old(x.commands) && RanOut(old(x.commands[id]), now)
    {
      var ended;
      ended, taken, order := x.TakeNext(now);
      var failed;
      code, failed := Finish(x, CallPoll(now, order), ended, 200, ok);
    }

    method AckCommand(x: Entry, cid: CommandId, now: Time, ok: bool) returns (code: int)
      requires Valid() && Holds(x)
      modifies this`disk, this`state, x
      ensures Valid()
      ensures state == HandleCall(old(state), x.origin.requestId, CallAck(cid, now), ok)
      ensures code == Code(old(state), x.origin.requestId, CallAck(cid, now), ok)
      ensures code == 200 <==>
                && ok && cid != "" && cid in old(x.commands) && old(x.commands[cid]).status == Leased
                && old(x.commands[cid]).leaseUntil.Some? && now <= old(x.commands[cid]).leaseUntil.value
      ensures code == 200 ==> cid in x.commands && x.commands[cid].status == Running
      ensures x.Value() == old(x.Value()).(commands := x.commands) && x.commands.Keys == old(x.commands).Keys
      ensures forall id :: id in x.commands && id != cid ==> x.commands[id] == old(x.commands)[id]
    {
      var ended := x.Acknowledge(cid, now);
      var failed;
      code, failed := Finish(x, CallAck(cid, now), ended, 200, ok);
    }

    method PostCommandResult(x: Entry, r: Result, ok: bool) returns (code: int)
      requires Valid() && Holds(x)
      modifies this`disk, this`state, x
      ensures Valid()
      ensures state == HandleCall(old(state), x.origin.requestId, CallPost(r), ok)
      ensures code == Code(old(state), x.origin.requestId, CallPost(r), ok)
      ensures code == 200 <==>
                && ok && r.id != "" && r.name in x.origin.request.requested && |r.output| <= 2 * 1024 * 1024
                && r.id in old(x.commands) && old(x.commands[r.id]).status == Running
                && old(x.commands[r.id]).command.name == r.name
      ensures code == 200 ==> x.results == if |old(x.results)| < 128 then old(x.results) + [r] else old(x.results)
    {
      var ended := x.Complete(r);
      var failed;
      code, failed := Finish(x, CallPost(r), ended, 200, ok);
    }

    // The loop of `session` over the map, in an arbitrary order.
    method Search(token: Token, now: Time) returns (found: Option<SessionId>)
      ensures found == None ==> forall sid :: sid in p ==> !Opens(p[sid], token, now)
      ensures found.Some? ==> found.value in p && Opens(p[found.value], token, now)
    {
      var todo := p.Keys;
      while todo != {}
        invariant todo <= p.Keys
        invariant forall sid :: sid in p && sid !in todo ==> !Opens(p[sid], token, now)
        decreases todo
      {
        var sid :| sid in todo;
        var x := p[sid];
        if x.tokenHash != NoHash && x.tokenHash == HashOf(token) && x.phase == Approved && IsBefore(now, x.expiresAt) {
          return Some(sid);
        }
        todo := todo - {sid};
      }
      found := None;
    }

    /** The token is the one of an approved session that has not expired. */
    ghost predicate Opens(x: Entry, token: Token, now: Time)
      reads x
    {
      x.tokenHash == HashOf(token) && x.phase == Approved && x.expiresAt.Some? && now < x.expiresAt.value
    }

    /** `session`: a reference to a session the token opens, if there is one. */
    method FindSession(token: Token, now: Time) returns (found: Entry?)
      requires Valid()
      modifies this`state
      ensures Valid()
      ensures found == null <==> forall sid :: sid in p ==> !Opens(p[sid], token, now)
      ensures found != null ==>
                && found.tokenHash == HashOf(token) && found.phase == Approved
                && found.expiresAt.Some? && now < found.expiresAt.value
      ensures found != null ==> Holds(found) && Enabled(old(state), Authenticate(found.origin.requestId, token, now))
      ensures state == if found == null then old(state)
                       else Apply(old(state), Authenticate(found.origin.requestId, token, now))
    {
      var sid := Search(token, now);
      if sid == None { return null; }
      found := p[sid.value];
      state := Apply(state, Authenticate(sid.value, token, now));
      assert Opens(p[sid.value], token, now);
    }

    /** More than ten minutes old, and pending, rejected, revoked or past its expiry. */
    ghost predicate TooOld(x: Entry, now: Time)
      reads x
    {
      && now - x.origin.createdAt > 10 * MINUTE
      && (|| x.phase == Pending || x.phase == Rejected || x.phase == Revoked
          || (x.expiresAt.Some? && now > x.expiresAt.value))
    }

    // The loop of `janitor` over the map, in an arbitrary order.
    method DropDead(now: Time) returns (changed: bool, ghost gone: set<SessionId>)
      modifies this`p
      ensures gone == set sid | sid in old(p) && Swept(old(p)[sid].Value(), now)
      ensures forall sid :: sid in old(p) ==> (sid !in p <==> TooOld(old(p)[sid], now))
      ensures p == map sid | sid in old(p) && sid !in gone :: old(p)[sid]
      ensures changed <==> gone != {}
    {
      changed, gone := false, {};
      var todo := p.Keys;
      while todo != {}
        invariant todo <= p.Keys <= old(p).Keys && gone !! p.Keys && p.Keys + gone == old(p).Keys
        invariant forall sid :: sid in p ==> p[sid] == old(p)[sid]
        invariant forall sid :: sid in old(p) && sid !in todo ==> (sid in gone <==> Swept(old(p)[sid].Value(), now))
        invariant changed <==> gone != {}
        decreases todo
      {
        var id :| id in todo;
        var x := p[id];
        if Swept(x.Value(), now) {
          p := p - {id};
          gone := gone + {id};
          changed := true;
        }
        todo := todo - {id};
      }
    }

    method SaveSwept(changed: bool, ghost gone: set<SessionId>, ok: bool, ghost next: State)
      requires forall sid :: sid in objects ==>
                 objects[sid].origin.requestId == sid && sid in state.mem && state.mem[sid] == objects[sid].Value()
      requires forall sid :: sid in p ==> sid in objects && p[sid] == objects[sid]
      requires state.mem.Keys == objects.Keys && state.disk == disk
      requires next.mem == state.mem && next.live == p.Keys
      requires next.disk == if changed && ok then Snapshot(next.mem, next.live) else state.disk
      modifies this`disk, this`state
      ensures Valid() && state == next
    {
      if changed {
        var failed := Save(ok, state.mem);
      }
      state := next;
    }

    /** One tick of `janitor`. */
    method SweepSessions(now: Time, ok: bool)
      requires Valid()
      modifies this`p, this`disk, this`state
      ensures Valid()
      ensures state == SweepStep(old(state), now, ok)
      ensures p.Keys <= old(p).Keys
      ensures forall sid :: sid in old(p) ==> (sid !in p <==> TooOld(old(p)[sid], now))
    {
      ghost var before := state;
      var changed, gone := DropDead(now);
      DeadAre(gone, old(p), now);
      SweptTo(before, now, ok, gone);
      SaveSwept(changed, gone, ok, SweepStep(before, now, ok));
    }

    // What is dead by its entries is so by the machine's view of them.
    lemma DeadAre(gone: set<SessionId>, entries: map<SessionId, Entry>, now: Time)
      requires state.live == entries.Keys && entries.Keys <= state.mem.Keys
      requires forall sid :: sid in entries ==> state.mem[sid] == entries[sid].Value()
      requires gone == set sid | sid in entries && Swept(entries[sid].Value(), now)
      ensures gone == set sid | sid in state.live && sid in state.mem && Swept(state.mem[sid], now)
    {}

    /** A new process: `openStateStore` on the file the last one left, then the save
        that `main` insists on. */
    constructor Open(file: map<SessionId, Session>, now: Time, ghost before: State)
      requires before.disk == file && forall sid :: sid in file ==> file[sid].origin.requestId == sid
      ensures Valid()
      ensures RecoveredMap(file, now, state.mem)
      ensures state == Restarted(before, state.mem)
      ensures fresh(objects.Values)
    {
      var entries := LoadState(file, now);
      p, objects, disk := entries, entries, file;
      ghost var next := map sid | sid in entries :: entries[sid].Value();
      state := Restarted(before, next);
      new;
      RestartedTo(before, next);
      var failed := Save(true, next);
    }
  }

  /** Decoding the file, a new entry per key, and repairing it. */
  method LoadState(file: map<SessionId, Session>, now: Time) returns (entries: map<SessionId, Entry>)
    ensures forall sid :: sid in entries ==> fresh(entries[sid])
    ensures entries.Keys == set sid | sid in file && !DeadAtRecovery(file[sid], now)
    ensures forall sid :: sid in entries <==>
              sid in file && file[sid].phase != Revoked
              && (file[sid].phase == Pending ==> now - file[sid].origin.createdAt <= 10 * MINUTE)
              && (file[sid].expiresAt.Some? ==> now < file[sid].expiresAt.value)
    ensures forall sid :: sid in entries ==> Repaired(file[sid], entries[sid].Value())
    ensures forall sid :: sid in entries ==> entries[sid].origin == file[sid].origin
  {
    var loaded: map<SessionId, Entry?> := map[];
    var todo := file.Keys;
    while todo != {}
      invariant todo <= file.Keys && loaded.Keys == file.Keys - todo
      invariant forall sid :: sid in loaded ==>
                  loaded[sid] != null && fresh(loaded[sid]) && loaded[sid].Value() == file[sid]
      invariant forall a, b :: a in loaded && b in loaded && a != b ==> loaded[a] != loaded[b]
      decreases todo
    {
      var sid :| sid in todo;
      var item := new Entry(file[sid]);
      loaded := loaded[sid := item];
      todo := todo - {sid};
    }
    assert forall sid :: sid in file ==> sid in loaded && loaded[sid].Value() == file[sid];
    entries := RecoverState(loaded, {}, now);
  }
}
