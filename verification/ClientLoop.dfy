/** The guest's side of the protocol: the loop of cmd/bridge-client/main.go. */
module ClientLoop {
  import opened Records
  import opened Sessions
  import opened Machine
  import opened Guarantees

  /** What one HTTP call of the client came to: the time before it, the status code
      (0 if no response arrived), and the command in the body, whose name is empty
      when there was none. */
  datatype Outcome = Outcome(now: Time, status: int, command: Command)

  // `call` returns no error. A 204 has no body, so its command is the zero value.
  predicate Succeeded(o: Outcome) { 200 <= o.status < 300 }

  predicate Terminal(o: Outcome) { o.status == 401 || o.status == 403 || o.status == 404 || o.status == 410 }

  /** `n` is the position of a poll that brought a command, and its acknowledgement,
      the next call, succeeded. */
  predicate Cleared(calls: seq<Outcome>, n: nat) {
    n + 1 < |calls| && Succeeded(calls[n]) && calls[n].command.name != "" && Succeeded(calls[n + 1])
  }

  datatype Ending = SessionEnded | Disconnected | Cut

  predicate Lapsed(o: Outcome, expiresAt: Option<Time>) { expiresAt.Some? && o.now >= expiresAt.value }

  predicate StopsPolling(o: Outcome, expiresAt: Option<Time>) {
    Lapsed(o, expiresAt) || Succeeded(o) || Terminal(o)
  }

  // Where polling from `start` stops: a poll that succeeds, is refused for good, or
  // finds the session lapsed; the end of the observed calls if there is none.
  function PollStop(calls: seq<Outcome>, start: nat, expiresAt: Option<Time>): (n: nat)
    requires start <= |calls|
    ensures start <= n <= |calls|
    ensures n < |calls| ==> StopsPolling(calls[n], expiresAt)
    ensures forall k :: start <= k < n ==> !StopsPolling(calls[k], expiresAt)
    decreases |calls| - start
  {
    if start == |calls| || Lapsed(calls[start], expiresAt) then start
    else if Succeeded(calls[start]) || Terminal(calls[start]) then start
    else PollStop(calls, start + 1, expiresAt)
  }

  /** The polls, from `start` on, whose commands are due to be executed. */
  function Due(calls: seq<Outcome>, start: nat, expiresAt: Option<Time>): seq<nat>
    requires start <= |calls|
    decreases |calls| - start, 1
  {
    DueAt(calls, PollStop(calls, start, expiresAt), expiresAt)
  }

  // The same, when polling has stopped at `n`.
  function DueAt(calls: seq<Outcome>, n: nat, expiresAt: Option<Time>): seq<nat>
    requires n <= |calls|
    decreases |calls| - n, 0
  {
    if n + 1 >= |calls| || Lapsed(calls[n], expiresAt) || !Succeeded(calls[n]) then []
    else if calls[n].command.name == "" then Due(calls, n + 1, expiresAt)
    else if !Succeeded(calls[n + 1]) then Due(calls, n + 2, expiresAt)
    else if calls[n].command.name == "session.disconnect" then [n]
    else [n] + Due(calls, AfterResult(calls, n), expiresAt)
  }

  // The call that posts the result is made whether or not it was observed.
  function AfterResult(calls: seq<Outcome>, n: nat): (m: nat)
    requires n + 1 < |calls|
    ensures n + 2 <= m <= |calls|
  {
    if n + 3 <= |calls| then n + 3 else |calls|
  }

  // ------------------------------------------------- the loop, said of the calls alone

  // The call brings a command.
  predicate Brings(o: Outcome) { Succeeded(o) && o.command.name != "" }

  /** After the poll at `n` there is another turn: the session has not lapsed, it was not
      refused for good, and what it brought was no acknowledged `session.disconnect`. */
  predicate GoesOn(calls: seq<Outcome>, expiresAt: Option<Time>, n: nat) {
    && n < |calls| && !Lapsed(calls[n], expiresAt) && !Terminal(calls[n])
    && (Brings(calls[n]) ==>
          n + 1 < |calls| && (Succeeded(calls[n + 1]) ==> calls[n].command.name != "session.disconnect"))
  }

  /** The poll after the one at `n` is the next call if that failed or brought nothing,
      the next but one if its command was not acknowledged, and else the one after the
      posting of the result. */
  function Following(calls: seq<Outcome>, n: nat): nat
    requires n < |calls| && (Brings(calls[n]) ==> n + 1 < |calls|)
  {
    if !Brings(calls[n]) then n + 1
    else if !Succeeded(calls[n + 1]) then n + 2
    else if n + 3 <= |calls| then n + 3
    else |calls|
  }

  /** `polls` are the positions of the polls, the first at `start`; the last of them may
      not have been observed. */
  ghost predicate PollsFrom(calls: seq<Outcome>, expiresAt: Option<Time>, start: nat, polls: seq<nat>) {
    && polls != [] && polls[0] == start
    && (forall i :: 0 <= i < |polls| - 1 ==>
          GoesOn(calls, expiresAt, polls[i]) && polls[i + 1] == Following(calls, polls[i]))
    && !GoesOn(calls, expiresAt, polls[|polls| - 1])
  }

  /** `executed` are those of the polls that brought a command whose acknowledgement was
      answered with success, before the session lapsed, in order. */
  ghost predicate ExecutesExactly(calls: seq<Outcome>, expiresAt: Option<Time>, polls: seq<nat>, executed: seq<nat>) {
    && (forall n :: n in executed <==> n in polls && Executes(calls, expiresAt, n))
    && (forall j, k :: 0 <= j < k < |executed| ==> executed[j] < executed[k])
  }

  predicate Executes(calls: seq<Outcome>, expiresAt: Option<Time>, n: nat) {
    Cleared(calls, n) && !Lapsed(calls[n], expiresAt)
  }

  /** How the loop ends, by its last poll. */
  ghost predicate EndsAs(calls: seq<Outcome>, expiresAt: Option<Time>, last: nat, ending: Ending) {
    match ending
    case Disconnected => Executes(calls, expiresAt, last) && calls[last].command.name == "session.disconnect"
    case SessionEnded => last < |calls| && (Lapsed(calls[last], expiresAt) || Terminal(calls[last]))
    case Cut => last >= |calls| || (last + 1 == |calls| && Brings(calls[last]) && !Lapsed(calls[last], expiresAt))
  }

  function Polls(calls: seq<Outcome>, start: nat, expiresAt: Option<Time>): (polls: seq<nat>)
    requires start <= |calls|
    ensures polls != []
    decreases |calls| - start
  {
    [start] + if GoesOn(calls, expiresAt, start) then Polls(calls, Following(calls, start), expiresAt) else []
  }

  function LastPoll(calls: seq<Outcome>, start: nat, expiresAt: Option<Time>): nat
    requires start <= |calls|
  {
    var polls := Polls(calls, start, expiresAt);
    polls[|polls| - 1]
  }

  lemma {:induction false} PollsFollow(calls: seq<Outcome>, start: nat, expiresAt: Option<Time>)
    requires start <= |calls|
    ensures PollsFrom(calls, expiresAt, start, Polls(calls, start, expiresAt))
    ensures forall n :: n in Polls(calls, start, expiresAt) ==> n >= start
    decreases |calls| - start
  {
    if GoesOn(calls, expiresAt, start) {
      PollsFollow(calls, Following(calls, start), expiresAt);
    }
  }

  lemma DueStep(calls: seq<Outcome>, start: nat, expiresAt: Option<Time>)
    requires start <= |calls|
    ensures Due(calls, start, expiresAt) ==
              (if Executes(calls, expiresAt, start) then [start] else [])
              + (if GoesOn(calls, expiresAt, start) then Due(calls, Following(calls, start), expiresAt) else [])
  {}

  /** What is due, exactly. */
  lemma {:induction false} DueIsExact(calls: seq<Outcome>, start: nat, expiresAt: Option<Time>)
    requires start <= |calls|
    ensures ExecutesExactly(calls, expiresAt, Polls(calls, start, expiresAt), Due(calls, start, expiresAt))
    decreases |calls| - start
  {
    DueStep(calls, start, expiresAt);
    if GoesOn(calls, expiresAt, start) {
      var next := Following(calls, start);
      DueIsExact(calls, next, expiresAt);
      PollsFollow(calls, next, expiresAt);
      ExactCons(calls, expiresAt, start, Polls(calls, next, expiresAt), Due(calls, next, expiresAt));
    }
  }

  lemma ExactCons(calls: seq<Outcome>, expiresAt: Option<Time>, n: nat, polls: seq<nat>, executed: seq<nat>)
    requires ExecutesExactly(calls, expiresAt, polls, executed) && forall m :: m in polls ==> m > n
    ensures ExecutesExactly(calls, expiresAt, [n] + polls,
                            (if Executes(calls, expiresAt, n) then [n] else []) + executed)
  {
    assert forall j :: 0 <= j < |executed| ==> executed[j] in executed;
  }

  // ------------------------------------------------------------------ the loop itself

  /** `pollResilient`, on the calls from `start` on. */
  method PollResilient(calls: seq<Outcome>, start: nat, expiresAt: Option<Time>)
    returns (next: nat, ending: Option<Ending>)
    requires start <= |calls|
    ensures next == PollStop(calls, start, expiresAt)
    ensures forall k :: start <= k < next ==>
              !(200 <= calls[k].status < 300) && calls[k].status !in {401, 403, 404, 410}
              && (expiresAt.Some? ==> calls[k].now < expiresAt.value)
    ensures ending == Some(SessionEnded) <==>
              next < |calls| && (calls[next].status in {401, 403, 404, 410}
                                 || (expiresAt.Some? && calls[next].now >= expiresAt.value))
    ensures LastPoll(calls, start, expiresAt) == LastPoll(calls, next, expiresAt)
    ensures ending == if next == |calls| then Some(Cut)
                      else if !Lapsed(calls[next], expiresAt) && Succeeded(calls[next]) then None
                      else Some(SessionEnded)
  {
    next := start;
    while next < |calls|
      invariant start <= next <= |calls|
      invariant PollStop(calls, start, expiresAt) == PollStop(calls, next, expiresAt)
      invariant LastPoll(calls, start, expiresAt) == LastPoll(calls, next, expiresAt)
    {
      if Lapsed(calls[next], expiresAt) { return next, Some(SessionEnded); }
      if Succeeded(calls[next]) { return next, None; }
      if Terminal(calls[next]) { return next, Some(SessionEnded); }
      next := next + 1;
    }
    ending := Some(Cut);
  }

  /** One turn of the main loop: a poll, its acknowledgement, the execution if that was
      answered with success, and the posting of the result. */
  method Turn(calls: seq<Outcome>, start: nat, expiresAt: Option<Time>)
    returns (next: nat, got: Option<nat>, ending: Option<Ending>, ghost rest: seq<nat>)
    requires start < |calls|
    ensures got.Some? ==> got.value < |calls|
    ensures ending == None ==> start < next <= |calls|
    ensures if ending == None then LastPoll(calls, start, expiresAt) == LastPoll(calls, next, expiresAt)
            else EndsAs(calls, expiresAt, LastPoll(calls, start, expiresAt), ending.value)
    ensures rest == if ending == None then Due(calls, next, expiresAt) else []
    ensures Due(calls, start, expiresAt) == if got.Some? then [got.value] + rest else rest
  {
    next, ending := PollResilient(calls, start, expiresAt);
    LastStep(calls, next, expiresAt);
    got, rest := None, [];
    if ending == None {
      next, got, ending, rest := Obey(calls, next, expiresAt);
    }
  }

  lemma LastStep(calls: seq<Outcome>, n: nat, expiresAt: Option<Time>)
    requires n <= |calls|
    ensures LastPoll(calls, n, expiresAt) ==
              if GoesOn(calls, expiresAt, n) then LastPoll(calls, Following(calls, n), expiresAt) else n
  {}

  // The rest of the turn, after a poll that succeeded.
  method Obey(calls: seq<Outcome>, n: nat, expiresAt: Option<Time>)
    returns (next: nat, got: Option<nat>, ending: Option<Ending>, ghost rest: seq<nat>)
    requires n < |calls| && Succeeded(calls[n]) && !Lapsed(calls[n], expiresAt)
    ensures got.Some? ==> got.value < |calls|
    ensures if ending == None
            then n < next <= |calls| && LastPoll(calls, n, expiresAt) == LastPoll(calls, next, expiresAt)
            else EndsAs(calls, expiresAt, LastPoll(calls, n, expiresAt), ending.value)
    ensures rest == if ending == None then Due(calls, next, expiresAt) else []
    ensures DueAt(calls, n, expiresAt) == if got.Some? then [got.value] + rest else rest
  {
    LastStep(calls, n, expiresAt);
    next, got, ending := n, None, None;
    var cmd := calls[n].command;
    if cmd.name == "" {
      next := n + 1;
    } else if n + 1 == |calls| {
      ending := Some(Cut);
    } else if !Succeeded(calls[n + 1]) {
      next := n + 2;
    } else {
      got := Some(n);
      if cmd.name == "session.disconnect" {
        ending := Some(Disconnected);
      } else {
        next := AfterResult(calls, n);
      }
    }
    rest := if ending == None then Due(calls, next, expiresAt) else [];
  }

  lemma Moved(done: seq<nat>, n: nat, rest: seq<nat>)
    ensures done + ([n] + rest) == (done + [n]) + rest
  {}

  /** The main loop. `executed` lists the polls whose commands were handed to the executor:
      every poll it makes whose command was acknowledged in time, and no other. */
  method Run(calls: seq<Outcome>, expiresAt: Option<Time>)
    returns (executed: seq<nat>, ending: Ending, ghost polls: seq<nat>)
    ensures PollsFrom(calls, expiresAt, 0, polls) && ExecutesExactly(calls, expiresAt, polls, executed)
    ensures EndsAs(calls, expiresAt, polls[|polls| - 1], ending)
    ensures executed == Due(calls, 0, expiresAt)
  {
    executed, ending := [], Cut;
    var at, stop := 0, None;
    polls := Polls(calls, 0, expiresAt);
    PollsFollow(calls, 0, expiresAt);
    DueIsExact(calls, 0, expiresAt);
    ghost var last, due := LastPoll(calls, 0, expiresAt), Due(calls, 0, expiresAt);
    ghost var rest := due;
    while at < |calls| && stop == None
      invariant at <= |calls|
      invariant rest == if stop == None then Due(calls, at, expiresAt) else []
      invariant executed + rest == due
      invariant if stop == None then LastPoll(calls, at, expiresAt) == last
                else EndsAs(calls, expiresAt, last, stop.value)
      decreases |calls| - at, stop == None
    {
      var next, got;
      next, got, stop, rest := Turn(calls, at, expiresAt);
      if got.Some? {
        Moved(executed, got.value, rest);
        executed := executed + [got.value];
      }
      if stop == None { at := next; }
    }
    if stop.Some? { ending := stop.value; }
    assert executed == due;
  }

  ghost predicate ClearedFrom(calls: seq<Outcome>, start: nat, due: seq<nat>) {
    && (forall k :: 0 <= k < |due| ==> start <= due[k] && Cleared(calls, due[k]))
    && (forall j, k :: 0 <= j < k < |due| ==> due[j] + 2 <= due[k])
    && (forall j :: 0 <= j < |due| - 1 ==> due[j] < |calls| && calls[due[j]].command.name != "session.disconnect")
  }

  /** Every execution was cleared by the acknowledgement right after its poll, which
      serves no other execution, and nothing follows `session.disconnect`. */
  lemma {:induction false} ExecutionsAreCleared(calls: seq<Outcome>, start: nat, expiresAt: Option<Time>)
    requires start <= |calls|
    ensures ClearedFrom(calls, start, Due(calls, start, expiresAt))
    decreases |calls| - start
  {
    var n := PollStop(calls, start, expiresAt);
    if n + 1 < |calls| && !Lapsed(calls[n], expiresAt) && Succeeded(calls[n]) {
      if calls[n].command.name == "" {
        ExecutionsAreCleared(calls, n + 1, expiresAt);
        ClearedEarlier(calls, start, n + 1, Due(calls, n + 1, expiresAt));
      } else if !Succeeded(calls[n + 1]) {
        ExecutionsAreCleared(calls, n + 2, expiresAt);
        ClearedEarlier(calls, start, n + 2, Due(calls, n + 2, expiresAt));
      } else if calls[n].command.name != "session.disconnect" {
        ExecutionsAreCleared(calls, AfterResult(calls, n), expiresAt);
        ClearedCons(calls, start, n, AfterResult(calls, n), Due(calls, AfterResult(calls, n), expiresAt));
      }
    }
  }

  lemma ClearedEarlier(calls: seq<Outcome>, start: nat, from: nat, due: seq<nat>)
    requires ClearedFrom(calls, from, due) && start <= from
    ensures ClearedFrom(calls, start, due)
  {}

  lemma ClearedCons(calls: seq<Outcome>, start: nat, n: nat, from: nat, later: seq<nat>)
    requires Cleared(calls, n) && calls[n].command.name != "session.disconnect"
    requires ClearedFrom(calls, from, later) && start <= n && n + 2 <= from
    ensures ClearedFrom(calls, start, [n] + later)
  {}

  /** The acknowledgements of several client processes in the broker's log: `answer`
      takes the acknowledgement after poll `n` of client `c` to the log entry it was
      the response to, and no entry is the response to two requests. */
  ghost predicate Answers(clients: seq<seq<Outcome>>, log: seq<Event>, sid: SessionId, answer: map<(nat, nat), nat>) {
    && (forall c, n :: 0 <= c < |clients| && 0 <= n && Cleared(clients[c], n) ==>
          (c, n) in answer && answer[(c, n)] < |log| && log[answer[(c, n)]] == DidAck(sid, clients[c][n].command.id))
    && (forall p, q :: p in answer && q in answer && p != q ==> answer[p] != answer[q])
  }

  /** However many clients poll a session, and whatever the broker goes through, no
      command id is due for execution twice. */
  lemma NoDoubleExecution(states: seq<State>, labels: seq<Label>, k: nat, sid: SessionId,
                          clients: seq<seq<Outcome>>, limits: seq<Option<Time>>, answer: map<(nat, nat), nat>,
                          c: nat, n: nat, d: nat, m: nat)
    requires IsRun(states, labels) && k < |states|
    requires |limits| == |clients| && Answers(clients, states[k].hist.log, sid, answer)
    requires c < |clients| && n in Due(clients[c], 0, limits[c])
    requires d < |clients| && m in Due(clients[d], 0, limits[d])
    requires (c, n) != (d, m)
    ensures n < |clients[c]| && m < |clients[d]| && clients[c][n].command.id != clients[d][m].command.id
  {
    RunKeepsInv(states, labels, k);
    ExecutionsAreCleared(clients[c], 0, limits[c]);
    ExecutionsAreCleared(clients[d], 0, limits[d]);
    assert Cleared(clients[c], n) && Cleared(clients[d], m);
    var log := states[k].hist.log;
    var i, j := answer[(c, n)], answer[(d, m)];
    assert i != j;
    assert i < j ==> !Excludes(log[i], log[j]);
    assert j < i ==> !Excludes(log[j], log[i]);
  }
}
