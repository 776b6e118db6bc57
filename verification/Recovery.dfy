/** What `recoverState` (cmd/pairing-broker/state.go) makes of a loaded snapshot.

    Go visits maps in an arbitrary order, so the result is a relation: `Repaired`
    leaves the order of the re-added commands open. */
module Recovery {
  import opened Records
  import opened Sessions

  const PENDING_LIFETIME: int := 10 * MINUTE

  predicate DeadAtRecovery(x: Session, now: Time) {
    || (x.phase == Pending && now - x.origin.createdAt > PENDING_LIFETIME)
    || x.phase == Revoked
    || (x.expiresAt.Some? && !IsBefore(now, x.expiresAt))
  }

  predicate Waits(commands: map<CommandId, CommandState>, id: CommandId) {
    id in commands && commands[id].status == Queued
  }

  /** The surviving part of a loaded queue: listed, still queued, first mention only. */
  function Kept(queue: seq<CommandId>, commands: map<CommandId, CommandState>): seq<CommandId> {
    if queue == [] then []
    else
      var front := Kept(queue[..|queue| - 1], commands);
      var last := queue[|queue| - 1];
      if Waits(commands, last) && last !in front then front + [last] else front
  }

  function Unleased(commands: map<CommandId, CommandState>): map<CommandId, CommandState> {
    map id | id in commands :: if commands[id].status == Leased then Requeued(commands[id]) else commands[id]
  }

  function Waiting(commands: map<CommandId, CommandState>): set<CommandId> {
    set id | id in commands && commands[id].status == Queued
  }

  ghost predicate Repaired(x: Session, y: Session) {
    var kept := Kept(x.queue, x.commands);
    && y == x.(sessionToken := None, commands := Unleased(x.commands), queue := y.queue)
    && kept <= y.queue
    && NoDup(y.queue[|kept|..])
    && Elements(y.queue[|kept|..]) == Waiting(y.commands) - Elements(kept)
  }

  ghost predicate RecoveredMap(disk: map<SessionId, Session>, now: Time, next: map<SessionId, Session>) {
    && next.Keys == (set sid | sid in disk && !DeadAtRecovery(disk[sid], now))
    && forall sid :: sid in next ==> Repaired(disk[sid], next[sid])
  }

  // ------------------------------------------------------- the surviving queue

  lemma {:induction false} KeptMembers(queue: seq<CommandId>, commands: map<CommandId, CommandState>)
    ensures NoDup(Kept(queue, commands))
    ensures forall id :: id in Kept(queue, commands) <==> id in queue && Waits(commands, id)
  {
    if queue != [] {
      KeptMembers(queue[..|queue| - 1], commands);
      assert queue == queue[..|queue| - 1] + [queue[|queue| - 1]];
    }
  }

  function First(queue: seq<CommandId>, id: CommandId): (k: nat)
    requires id in queue
    ensures k < |queue| && queue[k] == id && id !in queue[..k]
  {
    if queue[0] == id then 0
    else
      assert queue == [queue[0]] + queue[1..];
      var k := First(queue[1..], id);
      assert queue[..k + 1] == [queue[0]] + queue[1..][..k];
      1 + k
  }

  lemma FirstIsLeast(queue: seq<CommandId>, id: CommandId, k: nat)
    requires k < |queue| && queue[k] == id && id !in queue[..k]
    ensures First(queue, id) == k
  {}

  /** The survivors stand in the order of their first mention. */
  lemma {:induction false} KeptInOrder(queue: seq<CommandId>, commands: map<CommandId, CommandState>, i: nat, j: nat)
    requires i < j < |Kept(queue, commands)|
    ensures Kept(queue, commands)[i] in queue && Kept(queue, commands)[j] in queue
    ensures First(queue, Kept(queue, commands)[i]) < First(queue, Kept(queue, commands)[j])
  {
    var n := |queue| - 1;
    var front := Kept(queue[..n], commands);
    KeptMembers(queue, commands);
    KeptMembers(queue[..n], commands);
    var kept := Kept(queue, commands);
    assert kept[i] in kept && kept[j] in kept;
    assert kept[i] in front by { assert kept[i] == front[i]; }
    FirstOfPrefix(queue, n, kept[i]);
    if j < |front| {
      KeptInOrder(queue[..n], commands, i, j);
      FirstOfPrefix(queue, n, kept[j]);
    } else {
      assert kept[j] == queue[n] && kept[j] !in front;
      assert queue[n] !in queue[..n];
      FirstIsLeast(queue, queue[n], n);
    }
  }

  lemma FirstOfPrefix(queue: seq<CommandId>, n: nat, id: CommandId)
    requires n <= |queue| && id in queue[..n]
    ensures id in queue && First(queue, id) == First(queue[..n], id) < n
  {}

  lemma {:induction false} KeptOfListedQueue(queue: seq<CommandId>, commands: map<CommandId, CommandState>)
    requires NoDup(queue) && forall id :: id in queue ==> Waits(commands, id)
    ensures Kept(queue, commands) == queue
  {
    if queue != [] {
      var n := |queue| - 1;
      KeptOfListedQueue(queue[..n], commands);
      assert queue[n] !in queue[..n];
      assert queue == queue[..n] + [queue[n]];
    }
  }

  // ------------------------------------------------------------- the repair

  lemma RepairedQueue(x: Session, y: Session)
    requires Repaired(x, y)
    ensures NoDup(y.queue)
    ensures forall id :: id in y.queue <==> Waits(y.commands, id)
  {
    var kept := Kept(x.queue, x.commands);
    var rest := y.queue[|kept|..];
    KeptMembers(x.queue, x.commands);
    assert y.queue == kept + rest;
    forall id | id in rest ensures id !in kept && Waits(y.commands, id) { assert id in Elements(rest); }
    NoDupConcat(kept, rest);
    forall id | Waits(y.commands, id) ensures id in y.queue {
      if id !in kept { assert id in Elements(rest); }
    }
  }

  /** Whatever was loaded, the repaired session has no lease, a duplicate-free queue
      that lists exactly the queued commands and begins with the survivors of the
      loaded queue, its started commands as they were, and no clear token. */
  lemma RecoveryRepairs(x: Session, y: Session)
    requires Repaired(x, y)
    ensures forall id :: id in y.commands ==> y.commands[id].status != Leased
    ensures NoDup(y.queue) && Elements(y.queue) == Waiting(y.commands)
    ensures Kept(x.queue, x.commands) <= y.queue
    ensures y.commands.Keys == x.commands.Keys
    ensures forall id :: id in x.commands && Rank(x.commands[id].status) > 0 ==> y.commands[id] == x.commands[id]
    ensures forall id :: id in x.commands && Rank(x.commands[id].status) == 0 ==>
              y.commands[id].status == Queued && CommandStep(x.commands[id], y.commands[id])
    ensures y.sessionToken == None && y.tokenHash == x.tokenHash && y.results == x.results
  {
    RepairedQueue(x, y);
  }

  /** A second repair has nothing left to do, in whatever order it runs. */
  lemma RepairIsFinal(x: Session, y: Session, z: Session)
    requires Repaired(x, y) && Repaired(y, z)
    ensures z == y
  {
    RepairedQueue(x, y);
    KeptOfListedQueue(y.queue, y.commands);
    assert Unleased(y.commands) == y.commands;
    var rest := z.queue[|y.queue|..];
    EmptyElements(rest);
    assert z.queue == y.queue + rest;
  }

  lemma RecoveryIdempotent(disk: map<SessionId, Session>, now: Time,
                           next: map<SessionId, Session>, again: map<SessionId, Session>)
    requires RecoveredMap(disk, now, next) && RecoveredMap(next, now, again)
    ensures again == next
    ensures forall sid :: sid in next ==> !DeadAtRecovery(next[sid], now)
  {
    forall sid | sid in next ensures !DeadAtRecovery(next[sid], now) { assert Repaired(disk[sid], next[sid]); }
    forall sid | sid in next ensures again[sid] == next[sid] {
      RepairIsFinal(disk[sid], next[sid], again[sid]);
    }
  }

  lemma RepairedCommands(x: Session, y: Session)
    requires CommandsSound(x) && ResultsSound(x) && Repaired(x, y)
    ensures CommandsSound(y) && ResultsSound(y)
    ensures forall id :: id in x.commands ==> id in y.commands && CommandStep(x.commands[id], y.commands[id])
    ensures forall id :: Settled(x, id) ==> Settled(y, id)
  {}

  lemma RepairedListing(x: Session, y: Session)
    requires QueueListsQueued(x) && Repaired(x, y)
    ensures QueueListsQueued(y) && QueueIsComplete(y) && x.queue <= y.queue
    ensures x.commands == map[] ==> y.commands == map[] && y.queue == []
  {
    RepairedQueue(x, y);
    KeptOfListedQueue(x.queue, x.commands);
    assert forall id :: id in y.queue ==> Waits(y.commands, id);
    EmptyElements(y.queue);
    assert x.commands == map[] ==> Elements(y.queue) == {};
  }

  lemma RepairKeeps(x: Session, y: Session)
    requires Sound(x) && Repaired(x, y)
    ensures Sound(y) && Evolves(x, y) && x.queue <= y.queue && y.phase == x.phase && y.tokenHash == x.tokenHash
    ensures Strip(y) == y
  {
    RepairedCommands(x, y);
    RepairedListing(x, y);
  }
}
