/** What `allowPair` bounds over runs in which the broker may be restarted. Neither of its
    maps is saved: a new process starts with both empty (cmd/pairing-broker/main.go). */
module PairRuns {
  import opened Records
  import opened PairLimiter

  datatype Arrival = Asks(request: Request) | Restarts

  const FRESH: Limits := Limits(map[], map[])

  function StateAfter(es: seq<Arrival>): Limits {
    if es == [] then FRESH
    else
      var last := es[|es| - 1];
      if last.Restarts? then FRESH else Allow(StateAfter(es[..|es| - 1]), last.request)
  }

  predicate AcceptedAt(es: seq<Arrival>, i: nat)
    requires i < |es|
  {
    es[i].Asks? && Allows(StateAfter(es[..i]), es[i].request)
  }

  ghost predicate NoRestart(es: seq<Arrival>, from: nat, to: nat)
    requires to <= |es|
  {
    forall k :: from <= k < to ==> es[k].Asks?
  }

  // The clock is read before the lock is taken, so a request may carry a time up to
  // `skew` older than one served before it.
  ghost predicate SkewedRun(es: seq<Arrival>, skew: int) {
    skew >= 0
    && forall i, j :: 0 <= i < j < |es| && es[i].Asks? && es[j].Asks? ==> es[j].request.now >= es[i].request.now - skew
  }

  // ------------------------------------------------------------- one process

  // Where the process that serves `es[n]` starts.
  function Since(es: seq<Arrival>, n: nat): (from: nat)
    requires n <= |es|
    ensures from <= n && NoRestart(es, from, n)
  {
    if n == 0 || es[n - 1].Restarts? then n else Since(es, n - 1)
  }

  function Requests(es: seq<Arrival>, from: nat, to: nat): (rs: seq<Request>)
    requires from <= to <= |es| && NoRestart(es, from, to)
    ensures |rs| == to - from && forall k :: 0 <= k < |rs| ==> rs[k] == es[from + k].request
  {
    seq(to - from, k requires 0 <= k < to - from => es[from + k].request)
  }

  lemma RequestsPrefix(es: seq<Arrival>, from: nat, mid: nat, to: nat)
    requires from <= mid <= to <= |es| && NoRestart(es, from, to)
    ensures Requests(es, from, to)[..mid - from] == Requests(es, from, mid)
  {}

  lemma StateStep(es: seq<Arrival>, n: nat)
    requires 0 < n <= |es|
    ensures StateAfter(es[..n]) ==
              if es[n - 1].Restarts? then FRESH else Allow(StateAfter(es[..n - 1]), es[n - 1].request)
  {
    assert es[..n][..n - 1] == es[..n - 1];
  }

  lemma RequestsStep(es: seq<Arrival>, from: nat, n: nat)
    requires from < n <= |es| && NoRestart(es, from, n)
    ensures After(Requests(es, from, n)) == Allow(After(Requests(es, from, n - 1)), es[n - 1].request)
  {
    var rs := Requests(es, from, n);
    RequestsPrefix(es, from, n - 1, n);
    assert rs != [] && rs[|rs| - 1] == es[n - 1].request;
  }

  lemma NoRequests(es: seq<Arrival>, n: nat)
    requires n <= |es|
    ensures After(Requests(es, n, n)) == FRESH
  {}

  lemma {:induction false} StateOfProcess(es: seq<Arrival>, n: nat)
    requires n <= |es|
    ensures StateAfter(es[..n]) == After(Requests(es, Since(es, n), n))
    decreases n
  {
    NoRequests(es, n);
    if n == 0 {
      assert es[..0] == [];
    } else {
      StateStep(es, n);
      if es[n - 1].Asks? {
        StateOfProcess(es, n - 1);
        RequestsStep(es, Since(es, n - 1), n);
      }
    }
  }

  lemma {:induction false} SinceIsLatest(es: seq<Arrival>, i: nat, n: nat)
    requires i <= n <= |es| && NoRestart(es, i, n)
    ensures Since(es, n) == Since(es, i) <= i
    decreases n
  {
    if i < n { SinceIsLatest(es, i, n - 1); }
  }

  // `rs` are the requests served before `es[n]` by the process that serves it.
  ghost predicate Served(es: seq<Arrival>, n: nat, rs: seq<Request>)
    requires n <= |es|
  {
    rs == Requests(es, Since(es, n), n)
  }

  lemma AcceptedInProcess(es: seq<Arrival>, n: nat, rs: seq<Request>, i: nat) returns (k: nat)
    requires i < n <= |es| && NoRestart(es, i, n) && AcceptedAt(es, i) && Served(es, n, rs)
    ensures k == i - Since(es, n) && k < |rs| && rs[k] == es[i].request && Accepted(rs, k)
  {
    SinceIsLatest(es, i, n);
    StateOfProcess(es, i);
    RequestsPrefix(es, Since(es, n), i, n);
    k := i - Since(es, n);
  }

  lemma ProcessIsSkewed(es: seq<Arrival>, skew: int, n: nat, rs: seq<Request>)
    requires n <= |es| && SkewedRun(es, skew) && Served(es, n, rs)
    ensures Skewed(rs, skew)
  {}

  lemma {:induction false} ShiftedCount(s: set<nat>, from: nat) returns (t: set<nat>)
    requires forall i :: i in s ==> i >= from
    ensures |t| == |s| && forall j :: j in t <==> j + from in s
    decreases |s|
  {
    if s == {} {
      t := {};
    } else {
      var i :| i in s;
      var rest := ShiftedCount(s - {i}, from);
      t := rest + {i - from};
    }
  }

  /** Accepted requests of one host, in one process, closer together than `within`. */
  ghost predicate Together(es: seq<Arrival>, host: Host, accepted: set<nat>, within: int) {
    && (forall i :: i in accepted ==> i < |es| && AcceptedAt(es, i) && es[i].request.host == host)
    && (forall i, j :: i in accepted && j in accepted && i < |es| && j < |es| ==> Earlier(es, i, j, within))
  }

  ghost predicate Earlier(es: seq<Arrival>, i: nat, j: nat, within: int)
    requires i < |es| && j < |es|
  {
    es[i].Asks? && es[j].Asks? ==>
      es[i].request.now - es[j].request.now < within && (i < j ==> NoRestart(es, i, j))
  }

  // `es[i]` is the accepted request `rs[i - from]` of one process.
  ghost predicate Stands(es: seq<Arrival>, from: nat, rs: seq<Request>, host: Host, i: nat) {
    && from <= i < from + |rs| && i < |es| && es[i] == Asks(rs[i - from])
    && rs[i - from].host == host && Accepted(rs, i - from)
  }

  lemma OfOneProcess(es: seq<Arrival>, host: Host, last: nat, i: nat, rs: seq<Request>)
    requires i <= last < |es| && AcceptedAt(es, i) && es[i].request.host == host
    requires NoRestart(es, i, last + 1) && Served(es, last + 1, rs)
    ensures Stands(es, Since(es, last + 1), rs, host, i)
  {
    var k := AcceptedInProcess(es, last + 1, rs, i);
  }

  ghost predicate AllStand(es: seq<Arrival>, from: nat, rs: seq<Request>, host: Host, accepted: set<nat>) {
    forall i :: i in accepted ==> Stands(es, from, rs, host, i)
  }

  lemma NoneSince(es: seq<Arrival>, host: Host, accepted: set<nat>, within: int, last: nat, i: nat)
    requires Together(es, host, accepted, within) && i in accepted && last in accepted && i <= last
    ensures last < |es| && AcceptedAt(es, i) && es[i].request.host == host && NoRestart(es, i, last + 1)
  {
    assert Earlier(es, i, last, within);
  }

  lemma AllOfOneProcess(es: seq<Arrival>, host: Host, accepted: set<nat>, within: int, last: nat)
    returns (from: nat, rs: seq<Request>)
    requires Together(es, host, accepted, within)
    requires last in accepted && forall i :: i in accepted ==> i <= last
    ensures last < |es| && from == Since(es, last + 1) && Served(es, last + 1, rs)
    ensures AllStand(es, from, rs, host, accepted)
  {
    NoneSince(es, host, accepted, within, last, last);
    from := Since(es, last + 1);
    rs := Requests(es, from, last + 1);
    forall i | i in accepted ensures Stands(es, from, rs, host, i) {
      NoneSince(es, host, accepted, within, last, i);
      OfOneProcess(es, host, last, i, rs);
    }
  }

  lemma ShiftedWindow(es: seq<Arrival>, from: nat, rs: seq<Request>, skew: int, host: Host,
                      accepted: set<nat>, shifted: set<nat>)
    requires Skewed(rs, skew) && Together(es, host, accepted, WINDOW - skew)
    requires AllStand(es, from, rs, host, accepted)
    requires forall j :: j in shifted <==> j + from in accepted
    ensures |shifted| <= MAX_PER_WINDOW
  {
    forall j | j in shifted ensures j < |rs| && rs[j].host == host && Accepted(rs, j) {
      assert Stands(es, from, rs, host, j + from);
    }
    forall i, j | i in shifted && j in shifted ensures rs[i].now - rs[j].now < WINDOW - skew {
      assert Stands(es, from, rs, host, i + from) && Stands(es, from, rs, host, j + from);
      assert Earlier(es, i + from, j + from, WINDOW - skew);
    }
    WindowInProcess(rs, skew, host, shifted);
  }

  lemma AllLater(es: seq<Arrival>, from: nat, rs: seq<Request>, host: Host, accepted: set<nat>)
    requires AllStand(es, from, rs, host, accepted)
    ensures forall i :: i in accepted ==> i >= from
  {
    assert forall i :: i in accepted ==> Stands(es, from, rs, host, i);
  }

  lemma WindowFrom(es: seq<Arrival>, from: nat, rs: seq<Request>, skew: int, host: Host, accepted: set<nat>)
    requires Skewed(rs, skew) && Together(es, host, accepted, WINDOW - skew)
    requires AllStand(es, from, rs, host, accepted)
    ensures |accepted| <= MAX_PER_WINDOW
  {
    AllLater(es, from, rs, host, accepted);
    var shifted := ShiftedCount(accepted, from);
    ShiftedWindow(es, from, rs, skew, host, accepted, shifted);
  }

  /** At most ten requests of one host are accepted within any interval shorter than a
      minute less the clock skew, as long as the broker is not restarted between them.
      With times that do not decrease in the order of the lock, that is a minute. */
  lemma SlidingWindow(es: seq<Arrival>, skew: int, host: Host, accepted: set<nat>)
    requires SkewedRun(es, skew) && Together(es, host, accepted, MINUTE - skew)
    ensures |accepted| <= 10
  {
    if accepted != {} {
      var last := Latest(accepted);
      var from, rs := AllOfOneProcess(es, host, accepted, WINDOW - skew, last);
      ProcessIsSkewed(es, skew, last + 1, rs);
      WindowFrom(es, from, rs, skew, host, accepted);
    }
  }

  lemma NoReplayServed(es: seq<Arrival>, skew: int, i: nat, j: nat, rs: seq<Request>)
    requires SkewedRun(es, skew) && i < j < |es| && NoRestart(es, i, j + 1) && Served(es, j + 1, rs)
    requires AcceptedAt(es, i) && AcceptedAt(es, j) && es[i].request.key == es[j].request.key
    ensures es[j].request.now - es[i].request.now > REPLAY_WINDOW - skew
  {
    ProcessIsSkewed(es, skew, j + 1, rs);
    var m := AcceptedInProcess(es, j + 1, rs, i);
    var n := AcceptedInProcess(es, j + 1, rs, j);
    NoReplayInProcess(rs, skew, m, n);
  }

  /** Two acceptances of one replay key are more than ten minutes, less the skew, apart,
      unless the broker is restarted between them. */
  lemma NoReplay(es: seq<Arrival>, skew: int, i: nat, j: nat)
    requires SkewedRun(es, skew) && i < j < |es| && NoRestart(es, i, j)
    requires AcceptedAt(es, i) && AcceptedAt(es, j) && es[i].request.key == es[j].request.key
    ensures es[j].request.now - es[i].request.now > 10 * MINUTE - skew
  {
    NoReplayServed(es, skew, i, j, Requests(es, Since(es, j + 1), j + 1));
  }

  // ------------------------------------------------------ a restart forgets all

  /** Whatever was served before, the first request after a restart is accepted. */
  lemma FreshProcessAccepts(es: seq<Arrival>, r: Request)
    ensures AcceptedAt(es + [Restarts, Asks(r)], |es| + 1)
  {
    var run := es + [Restarts, Asks(r)];
    assert run[..|es| + 1][|es|] == Restarts;
    assert Recent([], r.now) == [];
  }

  /** So one request may be accepted twice at the same instant, with a restart between. */
  lemma RestartAllowsReplay(r: Request)
    ensures var es := [Asks(r), Restarts, Asks(r)]; SkewedRun(es, 0) && AcceptedAt(es, 0) && AcceptedAt(es, 2)
  {
    var es := [Asks(r), Restarts, Asks(r)];
    FreshProcessAccepts([Asks(r)], r);
    assert [Asks(r)] + [Restarts, Asks(r)] == es;
    assert es[..0] == [] && Recent([], r.now) == [];
  }

  // ------------------------------------------------------------ why one is refused

  lemma AcceptedOfProcess(es: seq<Arrival>, n: nat, rs: seq<Request>, k: nat)
    requires n <= |es| && Served(es, n, rs) && k < |rs|
    ensures var i := Since(es, n) + k;
            i < n && es[i] == Asks(rs[k]) && (AcceptedAt(es, i) <==> Accepted(rs, k)) && NoRestart(es, i, n)
  {
    var i := Since(es, n) + k;
    assert NoRestart(es, Since(es, n), n);
    SinceIsLatest(es, i, n);
    StateOfProcess(es, i);
    RequestsPrefix(es, Since(es, n), i, n);
  }

  ghost predicate ReplaysAt(es: seq<Arrival>, n: nat, i: nat)
    requires n < |es| && es[n].Asks?
  {
    && i < n && NoRestart(es, i, n) && AcceptedAt(es, i)
    && es[i].request.key == es[n].request.key && es[n].request.now - es[i].request.now <= 10 * MINUTE
  }

  ghost predicate JustBeforeAt(es: seq<Arrival>, n: nat, i: nat)
    requires n < |es| && es[n].Asks?
  {
    && i < n && NoRestart(es, i, n) && AcceptedAt(es, i)
    && es[i].request.host == es[n].request.host && es[n].request.now - es[i].request.now < MINUTE
  }

  ghost predicate CrowdsAt(es: seq<Arrival>, n: nat, others: set<nat>)
    requires n < |es| && es[n].Asks?
  {
    |others| >= 10 && forall i :: i in others ==> JustBeforeAt(es, n, i)
  }

  // The request at `n` is the last of the process's, which started at `from`.
  ghost predicate LastOf(es: seq<Arrival>, n: nat, from: nat, rs: seq<Request>) {
    && n < |es| && from == Since(es, n + 1) <= n && Served(es, n + 1, rs)
    && |rs| == n + 1 - from && es[n] == Asks(rs[|rs| - 1])
  }

  lemma JustBeforeHere(es: seq<Arrival>, n: nat, from: nat, rs: seq<Request>, k: nat)
    requires LastOf(es, n, from, rs) && JustBefore(rs, |rs| - 1, k)
    ensures JustBeforeAt(es, n, from + k)
  {
    AcceptedOfProcess(es, n + 1, rs, k);
  }

  lemma ReplaysHere(es: seq<Arrival>, n: nat, from: nat, rs: seq<Request>, k: nat)
    requires LastOf(es, n, from, rs) && Replays(rs, |rs| - 1, k)
    ensures ReplaysAt(es, n, from + k)
  {
    AcceptedOfProcess(es, n + 1, rs, k);
  }

  lemma {:induction false} ShiftUp(s: set<nat>, from: nat) returns (t: set<nat>)
    ensures |t| == |s| && forall j :: j in t <==> j >= from && j - from in s
    decreases |s|
  {
    if s == {} {
      t := {};
    } else {
      var i :| i in s;
      var rest := ShiftUp(s - {i}, from);
      t := rest + {i + from};
    }
  }

  lemma CrowdsHere(es: seq<Arrival>, n: nat, from: nat, rs: seq<Request>, others: set<nat>) returns (here: set<nat>)
    requires LastOf(es, n, from, rs) && Crowds(rs, |rs| - 1, others)
    ensures CrowdsAt(es, n, here)
  {
    here := ShiftUp(others, from);
    forall i | i in here ensures JustBeforeAt(es, n, i) {
      JustBeforeHere(es, n, from, rs, i - from);
    }
  }

  lemma RefusedInProcess(es: seq<Arrival>, n: nat) returns (from: nat, rs: seq<Request>)
    requires n < |es| && es[n].Asks? && !AcceptedAt(es, n)
    ensures LastOf(es, n, from, rs) && !Accepted(rs, |rs| - 1)
  {
    from := Since(es, n + 1);
    assert from <= n;
    rs := Requests(es, from, n + 1);
    AcceptedOfProcess(es, n + 1, rs, |rs| - 1);
  }

  /** The converse of both bounds: a request is refused only because, since the last
      restart, its key was accepted in the ten minutes before or ten requests of its host
      in the minute before. */
  lemma RefusedForCauseAt(es: seq<Arrival>, n: nat)
    requires n < |es| && es[n].Asks? && !AcceptedAt(es, n)
    ensures (exists i :: ReplaysAt(es, n, i)) || (exists others :: CrowdsAt(es, n, others))
  {
    var from, rs := RefusedInProcess(es, n);
    var last := |rs| - 1;
    RefusedForCause(rs, last);
    if i :| Replays(rs, last, i) {
      ReplaysHere(es, n, from, rs, i);
    } else {
      var others :| Crowds(rs, last, others);
      var here := CrowdsHere(es, n, from, rs, others);
    }
  }

  // ------------------------------------------------------------ runs that attain

  // Replay keys of growing length.
  function Key(n: nat): ReplayKey { seq(n + 1, _ => 'k') }

  function Burst(host: Host, t: Time, n: nat): seq<Arrival> {
    seq(n, k requires 0 <= k < n => Asks(Request(host, Key(k), t)))
  }

  lemma {:induction false} RecentBurst(times: seq<Time>, t: Time)
    requires forall k :: 0 <= k < |times| ==> times[k] == t
    ensures Recent(times, t) == times
  {
    if times != [] {
      RecentBurst(times[..|times| - 1], t);
    }
  }

  ghost predicate AfterBurst(s: Limits, host: Host, t: Time, n: nat) {
    RatesOf(s, host) == seq(n, _ => t) && forall key :: key in s.seen ==> |key| <= n
  }

  lemma {:induction false} BurstAccepted(host: Host, t: Time, n: nat)
    requires n <= MAX_PER_WINDOW
    ensures AfterBurst(StateAfter(Burst(host, t, n)), host, t, n)
    ensures forall i :: 0 <= i < n ==> AcceptedAt(Burst(host, t, n), i)
  {
    var es := Burst(host, t, n);
    if n > 0 {
      var front := Burst(host, t, n - 1);
      BurstAccepted(host, t, n - 1);
      BurstGrows(StateAfter(front), host, t, n - 1);
      assert es[..n - 1] == front;
      forall i | 0 <= i < n - 1 ensures AcceptedAt(es, i) {
        assert es[..i] == front[..i] && AcceptedAt(front, i);
      }
    } else {
      assert es == [];
    }
  }

  lemma BurstGrows(s: Limits, host: Host, t: Time, n: nat)
    requires n < MAX_PER_WINDOW && AfterBurst(s, host, t, n)
    ensures var r := Request(host, Key(n), t); Allows(s, r) && AfterBurst(Allow(s, r), host, t, n + 1)
  {
    RecentBurst(RatesOf(s, host), t);
    assert |Key(n)| == n + 1;
    assert seq(n + 1, _ => t) == seq(n, _ => t) + [t];
  }

  /** Ten requests with new keys at `t`, one a minute later, and one that read its clock
      `skew` before that. */
  function TightRun(host: Host, t: Time, skew: int): seq<Arrival> {
    Burst(host, t, 10) + [Asks(Request(host, Key(10), t + WINDOW)), Asks(Request(host, Key(11), t + WINDOW - skew))]
  }

  lemma {:induction false} AllPast(times: seq<Time>, now: Time)
    requires forall k :: 0 <= k < |times| ==> now - times[k] >= WINDOW
    ensures Recent(times, now) == []
  {
    if times != [] { AllPast(times[..|times| - 1], now); }
  }

  // The state the ten requests leave, and the two that follow.
  lemma TwoMore(s: Limits, host: Host, t: Time, skew: int)
    requires AfterBurst(s, host, t, 10)
    ensures var a, b := Request(host, Key(10), t + WINDOW), Request(host, Key(11), t + WINDOW - skew);
            Allows(s, a) && Allows(Allow(s, a), b)
  {
    var a, b := Request(host, Key(10), t + WINDOW), Request(host, Key(11), t + WINDOW - skew);
    AllPast(RatesOf(s, host), a.now);
    assert |Key(10)| == 11 && |Key(11)| == 12;
    assert RatesOf(Allow(s, a), host) == [] + [a.now] == [a.now];
    assert |Recent([a.now], b.now)| <= 1;
  }

  lemma AcceptedInFront(es: seq<Arrival>, front: seq<Arrival>, i: nat)
    requires front <= es && i < |front| && AcceptedAt(front, i)
    ensures AcceptedAt(es, i)
  {
    assert es[..i] == front[..i];
  }

  lemma TightAccepted(host: Host, t: Time, skew: int)
    ensures forall i :: 0 <= i < 12 ==> AcceptedAt(TightRun(host, t, skew), i)
  {
    var es, ten := TightRun(host, t, skew), Burst(host, t, 10);
    BurstAccepted(host, t, 10);
    TwoMore(StateAfter(ten), host, t, skew);
    assert es[..10] == ten && es[..11][..10] == ten;
    forall i | 0 <= i < 10 ensures AcceptedAt(es, i) { AcceptedInFront(es, ten, i); }
  }

  /** The skew is really lost: all twelve requests are accepted in one process, and all
      but the eleventh lie within a minute less the skew. */
  lemma SkewIsTight(host: Host, t: Time, skew: int)
    requires 0 <= skew <= WINDOW
    ensures var es := TightRun(host, t, skew);
            && |es| == 12 && SkewedRun(es, skew) && NoRestart(es, 0, 12)
            && (forall i :: 0 <= i < 12 ==> AcceptedAt(es, i) && es[i].request.host == host)
            && (forall i :: 0 <= i < 10 ==> es[11].request.now - es[i].request.now == WINDOW - skew)
  {
    TightAccepted(host, t, skew);
  }

  lemma FirstAsk(host: Host, key: ReplayKey, t: Time)
    ensures Allows(FRESH, Request(host, key, t))
    ensures Allow(FRESH, Request(host, key, t)) == Limits(map[key := t], map[host := [t]])
  {
    assert Remembered(map[], t) == map[] && Recent([], t) + [t] == [t];
  }

  lemma LateAsk(host: Host, key: ReplayKey, other: ReplayKey, t: Time, now: Time)
    requires now - t > REPLAY_WINDOW
    ensures var s := Limits(map[key := t], map[host := [t]]); var r := Request(host, other, now);
            Allows(s, r) && Allow(s, r) == Limits(map[other := now], map[host := [now]])
  {
    AllPast([t], now);
    assert Remembered(map[key := t], now) == map[];
    assert [] + [now] == [now];
    assert map[host := [t]][host := [now]] == map[host := [now]];
  }

  lemma Next(es: seq<Arrival>, r: Request)
    ensures StateAfter(es + [Asks(r)]) == Allow(StateAfter(es), r)
    ensures AcceptedAt(es + [Asks(r)], |es|) <==> Allows(StateAfter(es), r)
  {
    assert (es + [Asks(r)])[..|es|] == es;
  }

  lemma ThreeAsks(a: Request, b: Request, c: Request)
    requires Allows(FRESH, a) && Allows(Allow(FRESH, a), b) && Allows(Allow(Allow(FRESH, a), b), c)
    ensures var es := [Asks(a), Asks(b), Asks(c)]; AcceptedAt(es, 0) && AcceptedAt(es, 1) && AcceptedAt(es, 2)
  {
    var one, two, three := [Asks(a)], [Asks(a), Asks(b)], [Asks(a), Asks(b), Asks(c)];
    assert [] + [Asks(a)] == one && one + [Asks(b)] == two && two + [Asks(c)] == three;
    Next([], a);
    Next(one, b);
    Next(two, c);
    AcceptedInFront(three, one, 0);
    AcceptedInFront(three, two, 1);
  }

  // A key, another one just past ten minutes later, and the first again.
  function ReplayRun(host: Host, t: Time, skew: int, key: ReplayKey, other: ReplayKey): seq<Arrival> {
    var later := t + REPLAY_WINDOW + 1;
    [Asks(Request(host, key, t)), Asks(Request(host, other, later)), Asks(Request(host, key, later - skew))]
  }

  lemma ReplayAccepted(host: Host, t: Time, skew: int, key: ReplayKey, other: ReplayKey)
    requires key != other
    ensures forall i :: 0 <= i < 3 ==> AcceptedAt(ReplayRun(host, t, skew, key, other), i)
  {
    var later := t + REPLAY_WINDOW + 1;
    var a, b, c := Request(host, key, t), Request(host, other, later), Request(host, key, later - skew);
    FirstAsk(host, key, t);
    LateAsk(host, key, other, t, later);
    assert |Recent([later], c.now)| <= 1;
    ThreeAsks(a, b, c);
  }

  /** So it is for the replay cache: all three requests are accepted in one process, the
      last of them with a clock `skew` behind. */
  lemma ReplaySkewIsTight(host: Host, t: Time, skew: int, key: ReplayKey, other: ReplayKey)
    requires skew >= 0 && key != other
    ensures var es := ReplayRun(host, t, skew, key, other);
            && |es| == 3 && SkewedRun(es, skew) && NoRestart(es, 0, 3)
            && (forall i :: 0 <= i < 3 ==> AcceptedAt(es, i))
            && es[0].request.key == es[2].request.key
            && es[2].request.now - es[0].request.now == REPLAY_WINDOW - skew + 1
  {
    ReplayAccepted(host, t, skew, key, other);
  }
}
