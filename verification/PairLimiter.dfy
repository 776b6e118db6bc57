/** `allowPair` of cmd/pairing-broker/main.go: a replay cache whose entries expire, and
    a sliding window per host, filtered in place in its own backing array. */
module PairLimiter {
  import opened Records

  type Host = string
  type ReplayKey = string

  const WINDOW: int := MINUTE
  const REPLAY_WINDOW: int := 10 * MINUTE
  const MAX_PER_WINDOW: nat := 10

  // ------------------------------------------------------------ specification

  datatype Limits = Limits(seen: map<ReplayKey, Time>, rates: map<Host, seq<Time>>)

  datatype Request = Request(host: Host, key: ReplayKey, now: Time)

  function Remembered(seen: map<ReplayKey, Time>, now: Time): map<ReplayKey, Time> {
    map k | k in seen && now - seen[k] <= REPLAY_WINDOW :: seen[k]
  }

  function Recent(times: seq<Time>, now: Time): seq<Time> {
    if times == [] then []
    else
      var front, last := Recent(times[..|times| - 1], now), times[|times| - 1];
      if now - last < WINDOW then front + [last] else front
  }

  function RatesOf(s: Limits, host: Host): seq<Time> { if host in s.rates then s.rates[host] else [] }

  function Allows(s: Limits, r: Request): bool {
    r.key !in Remembered(s.seen, r.now) && |Recent(RatesOf(s, r.host), r.now)| < MAX_PER_WINDOW
  }

  function Allow(s: Limits, r: Request): Limits {
    var seen := Remembered(s.seen, r.now);
    var recent := Recent(RatesOf(s, r.host), r.now);
    if r.key in seen then s.(seen := seen)
    else if |recent| >= MAX_PER_WINDOW then Limits(seen, s.rates[r.host := recent])
    else Limits(seen[r.key := r.now], s.rates[r.host := recent + [r.now]])
  }

  // ------------------------------------------------------------ the two maps

  // A Go slice: the first `len` elements of a backing array.
  datatype Slice = Slice(arr: array<Time>, len: nat)

  class Limiter {
    var seen: map<ReplayKey, Time>
    var rates: map<Host, Slice>

    ghost function Arrays(): set<array<Time>>
      reads this
    {
      set h | h in rates :: rates[h].arr
    }

    // The contents of both maps.
    ghost var limits: Limits

    // No two hosts share a backing array, and each slice holds the host's times.
    ghost predicate Valid()
      reads this, Arrays()
    {
      limits.seen == seen && ValidBut({})
    }

    ghost predicate ValidBut(changing: set<Host>)
      reads this, Arrays()
    {
      && limits.rates.Keys == rates.Keys
      && (forall h :: h in rates && h !in changing ==>
            rates[h].len <= rates[h].arr.Length && rates[h].arr[..rates[h].len] == limits.rates[h])
      && (forall g, h :: g in rates && h in rates && g != h ==> rates[g].arr != rates[h].arr)
    }

    constructor ()
      ensures Valid() && limits == Limits(map[], map[])
    {
      seen, rates, limits := map[], map[], Limits(map[], map[]);
    }

    // The loop that forgets old keys, over the map in an arbitrary order.
    method ForgetKeys(now: Time)
      modifies this`seen
      ensures seen == Remembered(old(seen), now)
    {
      var todo := seen.Keys;
      while todo != {}
        invariant todo <= seen.Keys <= old(seen).Keys
        invariant forall k :: k in seen ==> seen[k] == old(seen)[k]
        invariant forall k :: k in old(seen) && k !in todo ==> (k in seen <==> now - old(seen)[k] <= REPLAY_WINDOW)
        decreases todo
      {
        var k :| k in todo;
        if now - seen[k] > REPLAY_WINDOW { seen := seen - {k}; }
        todo := todo - {k};
      }
    }

    /** Appending to `rates[host][:0]` while ranging over `rates[host]`: reads stay ahead
        of writes, so the aliased filter is the functional one. */
    static method FilterInPlace(s: Slice, now: Time) returns (kept: nat)
      requires s.len <= s.arr.Length
      modifies s.arr
      ensures kept <= s.len && s.arr[..kept] == Recent(old(s.arr[..s.len]), now)
    {
      ghost var before := s.arr[..s.len];
      kept := 0;
      for i := 0 to s.len
        invariant kept <= i
        invariant s.arr[..kept] == Recent(before[..i], now)
        invariant forall k :: i <= k < s.len ==> s.arr[k] == before[k]
      {
        var t := s.arr[i];
        assert before[..i + 1][..i] == before[..i];
        if now - t < WINDOW {
          s.arr[kept] := t;
          kept := kept + 1;
        }
      }
      assert before[..s.len] == before;
    }

    /** `append(recent, now)`: in place if the capacity allows it, else in a new array of
        `spare` more elements. */
    static method Append(s: Slice, now: Time, spare: nat) returns (t: Slice)
      requires s.len <= s.arr.Length
      modifies s.arr
      ensures t.len == s.len + 1 <= t.arr.Length && t.arr[..t.len] == old(s.arr[..s.len]) + [now]
      ensures t.arr == s.arr || fresh(t.arr)
    {
      if s.len < s.arr.Length {
        s.arr[s.len] := now;
        t := Slice(s.arr, s.len + 1);
      } else {
        var grown := new Time[s.len + 1 + spare];
        for i := 0 to s.len
          invariant grown[..i] == s.arr[..i]
          modifies grown
        {
          grown[i] := s.arr[i];
        }
        grown[s.len] := now;
        t := Slice(grown, s.len + 1);
      }
    }

    // The slice of a host; a missing one is the nil slice.
    method SliceOf(host: Host) returns (s: Slice)
      requires ValidBut({})
      ensures s.len <= s.arr.Length && s.arr[..s.len] == RatesOf(limits, host)
      ensures if host in rates then s == rates[host] else fresh(s.arr)
    {
      if host in rates { return rates[host]; }
      var empty := new Time[0];
      s := Slice(empty, 0);
    }

    // The window of one host: filtered in place, then extended if there is room.
    method Slide(host: Host, now: Time, spare: nat) returns (s: Slice, room: bool)
      requires ValidBut({})
      modifies Arrays()
      ensures s.len <= s.arr.Length
      ensures var recent := Recent(RatesOf(limits, host), now);
              room == (|recent| < MAX_PER_WINDOW) && s.arr[..s.len] == if room then recent + [now] else recent
      ensures ValidBut({host})
      ensures fresh(s.arr) || (host in rates && s.arr == rates[host].arr)
    {
      s := SliceOf(host);
      var kept := FilterInPlace(s, now);
      s := Slice(s.arr, kept);
      room := kept < 10;
      if room { s := Append(s, now, spare); }
    }

    method SetSlice(host: Host, s: Slice, ghost next: Limits)
      requires ValidBut({host}) && s.len <= s.arr.Length
      requires forall h :: h in rates && h != host ==> rates[h].arr != s.arr
      requires next.seen == seen && next.rates == limits.rates[host := s.arr[..s.len]]
      modifies this`rates, this`limits
      ensures Valid() && limits == next && rates == old(rates)[host := s]
      ensures Arrays() <= old(Arrays()) + {s.arr}
    {
      rates := rates[host := s];
      limits := next;
    }

    // `allowPair` from the rate check on.
    method CountRequest(r: Request, spare: nat) returns (allowed: bool)
      requires ValidBut({}) && seen == Remembered(limits.seen, r.now) && r.key !in seen
      modifies this, Arrays()
      ensures Valid()
      ensures limits == Allow(old(limits), r)
      ensures allowed == Allows(old(limits), r)
      ensures Arrays() <= old(Arrays()) + {rates[r.host].arr}
      ensures rates[r.host].arr in old(Arrays()) || fresh(rates[r.host].arr)
    {
      var s;
      s, allowed := Slide(r.host, r.now, spare);
      assert forall h :: h in rates && h != r.host ==> rates[h].arr != s.arr;
      if allowed { seen := seen[r.key := r.now]; }
      SetSlice(r.host, s, Allow(limits, r));
    }

    method AllowPair(r: Request, spare: nat) returns (allowed: bool)
      requires Valid()
      modifies this, Arrays()
      ensures Valid()
      ensures limits == Allow(old(limits), r)
      ensures allowed == Allows(old(limits), r)
      ensures fresh(Arrays() - old(Arrays()))
    {
      ForgetKeys(r.now);
      if r.key in seen {
        limits := Allow(limits, r);
        return false;
      }
      allowed := CountRequest(r, spare);
    }
  }

  // ---------------------------------------------------- any run of one process

  function After(rs: seq<Request>): Limits {
    if rs == [] then Limits(map[], map[]) else Allow(After(rs[..|rs| - 1]), rs[|rs| - 1])
  }

  predicate Accepted(rs: seq<Request>, i: nat)
    requires i < |rs|
  {
    Allows(After(rs[..i]), rs[i])
  }

  // The clock is read before the lock is taken, so a request may carry a time up to
  // `skew` older than one served before it.
  ghost predicate Skewed(rs: seq<Request>, skew: int) {
    skew >= 0 && forall i, j :: 0 <= i < j < |rs| ==> rs[j].now >= rs[i].now - skew
  }

  // The accepted requests behind a host's recorded times.
  function Held(rs: seq<Request>, host: Host): seq<nat> {
    if rs == [] then []
    else
      var n := |rs| - 1;
      var r, held := rs[n], Held(rs[..n], host);
      if r.host != host || r.key in Remembered(After(rs[..n]).seen, r.now) then held
      else
        var recent := RecentIndices(rs, held, r.now);
        if |recent| >= MAX_PER_WINDOW then recent else recent + [n]
  }

  function RecentIndices(rs: seq<Request>, held: seq<nat>, now: Time): seq<nat> {
    if held == [] then []
    else
      var front, last := RecentIndices(rs, held[..|held| - 1], now), held[|held| - 1];
      if last < |rs| && now - rs[last].now < WINDOW then front + [last] else front
  }

  predicate Below(held: seq<nat>, n: nat) { forall k :: 0 <= k < |held| ==> held[k] < n }

  function Times(rs: seq<Request>, held: seq<nat>): seq<Time>
    requires Below(held, |rs|)
  {
    seq(|held|, k requires 0 <= k < |held| => rs[held[k]].now)
  }

  lemma {:induction false} RecentIndicesKept(rs: seq<Request>, held: seq<nat>, now: Time)
    requires Below(held, |rs|)
    ensures forall i :: i in RecentIndices(rs, held, now) <==> i in held && i < |rs| && now - rs[i].now < WINDOW
  {
    if held != [] {
      var n := |held| - 1;
      assert held == held[..n] + [held[n]];
      RecentIndicesKept(rs, held[..n], now);
    }
  }

  lemma TimesOfFront(rs: seq<Request>, held: seq<nat>)
    requires Below(held, |rs|) && held != []
    ensures var n := |held| - 1; Times(rs, held) == Times(rs, held[..n]) + [rs[held[n]].now]
  {}

  lemma RecentOfFront(front: seq<Time>, last: Time, now: Time)
    ensures Recent(front + [last], now) ==
              if now - last < WINDOW then Recent(front, now) + [last] else Recent(front, now)
  {
    assert (front + [last])[..|front|] == front;
  }

  lemma {:induction false} RecentIndicesMembers(rs: seq<Request>, held: seq<nat>, now: Time)
    requires Below(held, |rs|)
    ensures Below(RecentIndices(rs, held, now), |rs|)
    ensures forall i :: i in RecentIndices(rs, held, now) <==> i in held && i < |rs| && now - rs[i].now < WINDOW
    ensures Times(rs, RecentIndices(rs, held, now)) == Recent(Times(rs, held), now)
  {
    RecentIndicesKept(rs, held, now);
    if held != [] {
      var n := |held| - 1;
      RecentIndicesMembers(rs, held[..n], now);
      TimesOfFront(rs, held);
      RecentOfFront(Times(rs, held[..n]), rs[held[n]].now, now);
      if now - rs[held[n]].now < WINDOW { TimesAppend(rs, RecentIndices(rs, held[..n], now), held[n]); }
    }
  }

  lemma TimesOfPrefix(rs: seq<Request>, n: nat, held: seq<nat>)
    requires n <= |rs| && Below(held, n)
    ensures Below(held, |rs|) && Times(rs[..n], held) == Times(rs, held)
  {}

  lemma TimesAppend(rs: seq<Request>, held: seq<nat>, n: nat)
    requires Below(held, |rs|) && n < |rs|
    ensures Below(held + [n], |rs|) && Times(rs, held + [n]) == Times(rs, held) + [rs[n].now]
  {}

  lemma RatesAfterAllow(s: Limits, r: Request, host: Host)
    ensures RatesOf(Allow(s, r), host) ==
              if r.host != host || r.key in Remembered(s.seen, r.now) then RatesOf(s, host)
              else
                var recent := Recent(RatesOf(s, host), r.now);
                if |recent| >= MAX_PER_WINDOW then recent else recent + [r.now]
  {}

  lemma {:induction false} HeldRecords(rs: seq<Request>, host: Host)
    ensures Below(Held(rs, host), |rs|)
    ensures RatesOf(After(rs), host) == Times(rs, Held(rs, host))
  {
    if rs != [] {
      var n := |rs| - 1;
      var r, held := rs[n], Held(rs[..n], host);
      HeldRecords(rs[..n], host);
      TimesOfPrefix(rs, n, held);
      RatesAfterAllow(After(rs[..n]), r, host);
      RecentIndicesMembers(rs, held, r.now);
      TimesAppend(rs, RecentIndices(rs, held, r.now), n);
    }
  }

  // What the last request leaves of the requests held for a host.
  lemma HeldStep(rs: seq<Request>, host: Host)
    requires rs != []
    ensures var n := |rs| - 1;
            forall i :: i in Held(rs[..n], host) && i < n && i !in Held(rs, host) ==> rs[n].now - rs[i].now >= WINDOW
    ensures var n := |rs| - 1; Accepted(rs, n) && rs[n].host == host ==> n in Held(rs, host)
  {
    var n := |rs| - 1;
    HeldRecords(rs[..n], host);
    var held := Held(rs[..n], host);
    TimesOfPrefix(rs, n, held);
    RecentIndicesMembers(rs, held, rs[n].now);
    assert |RecentIndices(rs, held, rs[n].now)| == |Recent(Times(rs, held), rs[n].now)|;
  }

  lemma HeldKept(rs: seq<Request>, host: Host, i: nat, n: nat)
    requires n < |rs| && i in Held(rs[..n], host)
    ensures i < n && (i in Held(rs[..n + 1], host) || rs[n].now - rs[i].now >= WINDOW)
  {
    assert rs[..n + 1][..n] == rs[..n];
    HeldRecords(rs[..n], host);
    HeldStep(rs[..n + 1], host);
  }

  lemma HeldNext(rs: seq<Request>, n: nat)
    requires n < |rs| && Accepted(rs, n)
    ensures n in Held(rs[..n + 1], rs[n].host)
  {
    assert rs[..n + 1][..n] == rs[..n];
    HeldStep(rs[..n + 1], rs[n].host);
  }

  // One of the requests between the i-th and the n-th was served `gap` after the i-th.
  ghost predicate Past(rs: seq<Request>, i: nat, n: nat, gap: int)
    requires i < n <= |rs|
  {
    exists m :: i < m < n && rs[m].now - rs[i].now >= gap
  }

  lemma NotPast(rs: seq<Request>, skew: int, i: nat, n: nat, gap: int)
    requires Skewed(rs, skew) && i < n < |rs| && rs[n].now - rs[i].now < gap - skew
    ensures !Past(rs, i, n, gap)
  {}

  // A request that is held stays so, or another is served a minute after it.
  lemma {:induction false} HeldStays(rs: seq<Request>, host: Host, i: nat, m: nat, n: nat)
    requires i < m <= n <= |rs| && i in Held(rs[..m], host)
    ensures i in Held(rs[..n], host) || Past(rs, i, n, WINDOW)
    decreases n - m
  {
    if m < n && rs[m].now - rs[i].now < WINDOW {
      HeldKept(rs, host, i, m);
      HeldStays(rs, host, i, m + 1, n);
    }
  }

  lemma {:induction false} CardinalityAtMost(s: set<nat>, list: seq<nat>)
    requires forall i :: i in s ==> i in list
    ensures |s| <= |list|
  {
    if list != [] {
      var n := |list| - 1;
      assert list == list[..n] + [list[n]];
      CardinalityAtMost(s - {list[n]}, list[..n]);
      assert s <= (s - {list[n]}) + {list[n]};
      assert |s| <= |s - {list[n]}| + 1;
    } else {
      assert s == {};
    }
  }

  lemma {:induction false} Latest(s: set<nat>) returns (last: nat)
    requires s != {}
    ensures last in s && forall i :: i in s ==> i <= last
  {
    var i :| i in s;
    var rest := s - {i};
    if rest == {} {
      last := i;
      assert s == {i};
    } else {
      var later := Latest(rest);
      last := if later > i then later else i;
      forall k | k in s ensures k <= last { assert k == i || k in rest; }
    }
  }

  // At the time of a later request an acceptance less than a window old is still held.
  lemma EarlierIsRecent(rs: seq<Request>, skew: int, i: nat, n: nat)
    requires Skewed(rs, skew) && i < n < |rs| && Accepted(rs, i)
    requires rs[n].now - rs[i].now < WINDOW - skew
    ensures i in RecentIndices(rs[..n], Held(rs[..n], rs[i].host), rs[n].now)
  {
    HeldRecords(rs[..n], rs[i].host);
    RecentIndicesKept(rs[..n], Held(rs[..n], rs[i].host), rs[n].now);
    HeldNext(rs, i);
    HeldStays(rs, rs[i].host, i, i + 1, n);
    NotPast(rs, skew, i, n, WINDOW);
  }

  lemma AcceptedHasRoom(rs: seq<Request>, n: nat)
    requires n < |rs| && Accepted(rs, n)
    ensures |RecentIndices(rs[..n], Held(rs[..n], rs[n].host), rs[n].now)| < MAX_PER_WINDOW
  {
    var before := rs[..n];
    var held := Held(before, rs[n].host);
    HeldRecords(before, rs[n].host);
    RecentIndicesMembers(before, held, rs[n].now);
    assert |Times(before, RecentIndices(before, held, rs[n].now))| == |RecentIndices(before, held, rs[n].now)|;
  }

  // The sliding window, from the start of the process on.
  lemma WindowInProcess(rs: seq<Request>, skew: int, host: Host, accepted: set<nat>)
    requires Skewed(rs, skew)
    requires forall i :: i in accepted ==> i < |rs| && rs[i].host == host && Accepted(rs, i)
    requires forall i, j :: i in accepted && j in accepted ==> rs[i].now - rs[j].now < WINDOW - skew
    ensures |accepted| <= MAX_PER_WINDOW
  {
    if accepted != {} {
      var last := Latest(accepted);
      var recent := RecentIndices(rs[..last], Held(rs[..last], host), rs[last].now);
      forall i | i in accepted - {last} ensures i in recent {
        EarlierIsRecent(rs, skew, i, last);
      }
      CardinalityAtMost(accepted - {last}, recent);
      AcceptedHasRoom(rs, last);
      assert |accepted| == |accepted - {last}| + 1;
    }
  }

  // The time at which a request's key was accepted is remembered.
  predicate Known(seen: map<ReplayKey, Time>, r: Request) { r.key in seen && seen[r.key] == r.now }

  lemma KnownStep(s: Limits, r: Request, next: Request)
    requires Known(s.seen, r) && next.now - r.now <= REPLAY_WINDOW
    ensures Known(Allow(s, next).seen, r)
  {
    assert r.key in Remembered(s.seen, next.now);
  }

  lemma AfterStep(rs: seq<Request>, n: nat)
    requires n < |rs|
    ensures After(rs[..n + 1]) == Allow(After(rs[..n]), rs[n])
  {
    assert rs[..n + 1][..n] == rs[..n];
  }

  // A key that is known stays so, or another request is served past the end of its time.
  lemma {:induction false} KnownStays(rs: seq<Request>, i: nat, m: nat, n: nat)
    requires i < m <= n <= |rs| && Known(After(rs[..m]).seen, rs[i])
    ensures Known(After(rs[..n]).seen, rs[i]) || Past(rs, i, n, REPLAY_WINDOW + 1)
    decreases n - m
  {
    if m < n && rs[m].now - rs[i].now <= REPLAY_WINDOW {
      AfterStep(rs, m);
      KnownStep(After(rs[..m]), rs[i], rs[m]);
      KnownStays(rs, i, m + 1, n);
    }
  }

  // The replay cache, from the start of the process on.
  lemma NoReplayInProcess(rs: seq<Request>, skew: int, i: nat, j: nat)
    requires Skewed(rs, skew) && i < j < |rs| && rs[i].key == rs[j].key
    requires Accepted(rs, i) && Accepted(rs, j)
    ensures rs[j].now - rs[i].now > REPLAY_WINDOW - skew
  {
    AfterStep(rs, i);
    KnownStays(rs, i, i + 1, j);
    if rs[j].now - rs[i].now <= REPLAY_WINDOW - skew { NotPast(rs, skew, i, j, REPLAY_WINDOW + 1); }
  }

  // ------------------------------------------------------------ why one is refused

  // The recorded times are of accepted requests of the host, each once.
  ghost predicate HeldAccepted(rs: seq<Request>, held: seq<nat>, host: Host) {
    NoDup(held) && forall i :: i in held ==> i < |rs| && rs[i].host == host && Accepted(rs, i)
  }

  lemma AcceptedInPrefix(rs: seq<Request>, n: nat, i: nat)
    requires i < n <= |rs|
    ensures Accepted(rs[..n], i) == Accepted(rs, i)
  {
    assert rs[..n][..i] == rs[..i];
  }

  lemma AcceptedStays(rs: seq<Request>, n: nat, held: seq<nat>, host: Host)
    requires n <= |rs| && HeldAccepted(rs[..n], held, host)
    ensures HeldAccepted(rs, held, host)
  {
    forall i | i in held ensures i < |rs| && rs[i].host == host && Accepted(rs, i) {
      AcceptedInPrefix(rs, n, i);
    }
  }

  lemma {:induction false} RecentAccepted(rs: seq<Request>, held: seq<nat>, now: Time)
    requires NoDup(held)
    ensures NoDup(RecentIndices(rs, held, now))
    ensures forall i :: i in RecentIndices(rs, held, now) ==> i in held && i < |rs| && rs[i].now > now - MINUTE
  {
    if held != [] {
      var n := |held| - 1;
      assert held == held[..n] + [held[n]];
      RecentAccepted(rs, held[..n], now);
    }
  }

  lemma AppendAccepted(rs: seq<Request>, held: seq<nat>, n: nat, host: Host)
    requires HeldAccepted(rs, held, host) && n !in held
    requires n < |rs| && rs[n].host == host && Accepted(rs, n)
    ensures HeldAccepted(rs, held + [n], host)
  {
    NoDupConcat(held, [n]);
  }

  lemma LastAccepted(rs: seq<Request>, held: seq<nat>)
    requires rs != [] && held == Held(rs[..|rs| - 1], rs[|rs| - 1].host)
    requires var n := |rs| - 1;
             rs[n].key !in Remembered(After(rs[..n]).seen, rs[n].now)
             && |RecentIndices(rs, held, rs[n].now)| < MAX_PER_WINDOW
    ensures Accepted(rs, |rs| - 1)
  {
    var n := |rs| - 1;
    HeldRecords(rs[..n], rs[n].host);
    TimesOfPrefix(rs, n, held);
    RecentIndicesMembers(rs, held, rs[n].now);
    assert |Times(rs, RecentIndices(rs, held, rs[n].now))| == |RecentIndices(rs, held, rs[n].now)|;
  }

  lemma HeldStepAccepted(rs: seq<Request>, host: Host, held: seq<nat>, recent: seq<nat>)
    requires rs != [] && held == Held(rs[..|rs| - 1], host) && recent == RecentIndices(rs, held, rs[|rs| - 1].now)
    requires HeldAccepted(rs, held, host) && NoDup(recent) && (forall i :: i in recent ==> i in held)
    requires |rs| - 1 !in recent
    ensures HeldAccepted(rs, Held(rs, host), host)
  {
    var n := |rs| - 1;
    if rs[n].host == host && rs[n].key !in Remembered(After(rs[..n]).seen, rs[n].now) && |recent| < MAX_PER_WINDOW {
      LastAccepted(rs, held);
      AppendAccepted(rs, recent, n, host);
    }
  }

  lemma {:induction false} HeldAreAccepted(rs: seq<Request>, host: Host)
    ensures HeldAccepted(rs, Held(rs, host), host)
  {
    if rs != [] {
      var n := |rs| - 1;
      var held := Held(rs[..n], host);
      HeldAreAccepted(rs[..n], host);
      AcceptedStays(rs, n, held, host);
      RecentAccepted(rs, held, rs[n].now);
      HeldStepAccepted(rs, host, held, RecentIndices(rs, held, rs[n].now));
    }
  }

  // A key that is remembered was accepted at that time.
  lemma {:induction false} SeenWasAccepted(rs: seq<Request>, key: ReplayKey) returns (i: nat)
    requires key in After(rs).seen
    ensures i < |rs| && rs[i].key == key && rs[i].now == After(rs).seen[key] && Accepted(rs, i)
  {
    var n := |rs| - 1;
    assert rs[..n] == rs[..n][..n];
    if rs[n].key == key && Accepted(rs, n) {
      i := n;
    } else {
      i := SeenWasAccepted(rs[..n], key);
      AcceptedInPrefix(rs, n, i);
    }
  }

  ghost predicate Replays(rs: seq<Request>, n: nat, i: nat)
    requires n < |rs|
  {
    i < n && rs[i].key == rs[n].key && Accepted(rs, i) && rs[n].now - rs[i].now <= 10 * MINUTE
  }

  ghost predicate Crowds(rs: seq<Request>, n: nat, others: set<nat>)
    requires n < |rs|
  {
    |others| >= 10 && forall i :: i in others ==> JustBefore(rs, n, i)
  }

  ghost predicate JustBefore(rs: seq<Request>, n: nat, i: nat)
    requires n < |rs|
  {
    i < n && rs[i].host == rs[n].host && Accepted(rs, i) && rs[n].now - rs[i].now < MINUTE
  }

  lemma {:induction false} NoDupCount(list: seq<nat>)
    requires NoDup(list)
    ensures |Elements(list)| == |list|
  {
    if list != [] {
      var n := |list| - 1;
      NoDupCount(list[..n]);
      assert Elements(list) == Elements(list[..n]) + {list[n]};
    }
  }

  lemma CrowdedOut(rs: seq<Request>, n: nat) returns (others: set<nat>)
    requires n < |rs| && |Recent(RatesOf(After(rs[..n]), rs[n].host), rs[n].now)| >= MAX_PER_WINDOW
    ensures Crowds(rs, n, others)
  {
    var front, host, now := rs[..n], rs[n].host, rs[n].now;
    var held := Held(front, host);
    HeldAreAccepted(front, host);
    RecentAccepted(front, held, now);
    HeldRecords(front, host);
    RecentIndicesMembers(front, held, now);
    var recent := RecentIndices(front, held, now);
    assert |Times(front, recent)| == |recent|;
    others := Elements(recent);
    NoDupCount(recent);
    forall i | i in others ensures JustBefore(rs, n, i) {
      AcceptedInPrefix(rs, n, i);
    }
  }

  /** A request is refused only because its key was accepted in the ten minutes before, or
      ten requests of its host in the minute before. */
  lemma RefusedForCause(rs: seq<Request>, n: nat)
    requires n < |rs| && !Accepted(rs, n)
    ensures (exists i :: Replays(rs, n, i)) || (exists others :: Crowds(rs, n, others))
  {
    if rs[n].key in Remembered(After(rs[..n]).seen, rs[n].now) {
      var i := SeenWasAccepted(rs[..n], rs[n].key);
      AcceptedInPrefix(rs, n, i);
      assert Replays(rs, n, i);
    } else {
      var others := CrowdedOut(rs, n);
    }
  }
}
