/** The records the broker keeps: the wire types of internal/protocol and the
    per-session state of cmd/pairing-broker.

    Library cryptography is symbolic. A SHA-256 value is a constructor applied to
    what was hashed, so it is injective by construction; the empty string in
    `TokenHash` is the separate value `NoHash`. */
module Records {

  datatype Option<+T> = None | Some(value: T)

  type Byte = b: int | 0 <= b < 256
  type Bytes = seq<Byte>

  // SHA-256 of a content.
  datatype Digest = Sha256Of(content: Bytes)

  // Instants and durations, in nanoseconds.
  type Time = int
  const SECOND: int := 1_000_000_000
  const MINUTE: int := 60 * SECOND

  type SessionId = string
  type CommandId = string
  type Capability = string
  type Token = string

  datatype Hash = NoHash | HashOf(clear: Token)

  datatype PairRequest = PairRequest(
    protocol: int,
    usbId: Bytes, hostname: Bytes, os: Bytes, arch: Bytes, user: Bytes,
    publicKey: Bytes, nonce: Bytes, signature: Bytes,
    requested: seq<Capability>,
    durationSeconds: int)

  datatype Command = Command(id: CommandId, name: Capability, deadline: Option<Time>, params: Bytes)

  // SHA-256 of the JSON object holding exactly the name and the parameters.
  datatype Fingerprint = Fingerprint(name: Capability, params: Bytes)

  datatype CommandStatus = Queued | Leased | Running | Completed

  datatype CommandState = CommandState(
    command: Command,
    fingerprint: Fingerprint,
    status: CommandStatus,
    leaseUntil: Option<Time>)

  datatype Result = Result(
    id: CommandId, name: Capability, startedAt: Time, finishedAt: Time,
    output: Bytes, error: Bytes)

  datatype Phase = Pending | Approved | Rejected | Revoked

  // The fields of a session that no handler ever writes after `pair` made it.
  datatype Origin = Origin(
    requestId: SessionId,
    request: PairRequest,
    compareCode: string,
    pairingHash: Hash,
    createdAt: Time)

  // The value of one `pending` entry.
  datatype Session = Session(
    origin: Origin,
    phase: Phase,
    expiresAt: Option<Time>,
    sessionToken: Option<Token>,
    pairingToken: Option<Token>,
    tokenHash: Hash,
    queue: seq<CommandId>,
    commands: map<CommandId, CommandState>,
    results: seq<Result>)

  const INITIAL_ID: CommandId := "initial-system-info"
  const SYSTEM_INFO: Capability := "system.info"

  // The zero time is never after an instant and never before one that matters:
  // time.Now().Before(zero) is false, time.Now().After(zero) is true.
  predicate IsBefore(now: Time, limit: Option<Time>) { limit.Some? && now < limit.value }

  predicate IsAfter(now: Time, limit: Option<Time>) { limit.None? || now > limit.value }

  predicate IsControl(name: Capability) {
    name == "shell.cancel" || name == "process.stop-owned" || name == "session.disconnect"
  }

  function NewCommandState(command: Command): CommandState {
    CommandState(command, Fingerprint(command.name, command.params), Queued, None)
  }

  // How far a command has got, as far as a restart can tell: a lease is forgotten.
  function Rank(status: CommandStatus): nat {
    match status
    case Queued => 0
    case Leased => 0
    case Running => 1
    case Completed => 2
  }

  predicate NoDup<T(==)>(s: seq<T>) { forall i, j :: 0 <= i < j < |s| ==> s[i] != s[j] }

  function Elements<T>(s: seq<T>): set<T> { set x | x in s }

  function Ids(results: seq<Result>): set<CommandId> { set r | r in results :: r.id }

  predicate DistinctIds(results: seq<Result>) {
    forall i, j :: 0 <= i < j < |results| ==> results[i].id != results[j].id
  }

  // The part of a session that reaches the disk: no clear session token.
  function Strip(x: Session): Session { x.(sessionToken := None) }

  lemma EmptyElements<T>(s: seq<T>)
    ensures s == [] <==> Elements(s) == {}
  {
    if s != [] { assert s[0] in Elements(s); }
  }

  lemma IdsAppend(results: seq<Result>, r: Result)
    ensures Ids(results + [r]) == Ids(results) + {r.id}
  {}

  lemma NoDupConcat<T>(a: seq<T>, b: seq<T>)
    requires NoDup(a) && NoDup(b) && (forall x :: x in a ==> x !in b)
    ensures NoDup(a + b)
  {
    forall i, j | 0 <= i < j < |a + b|
      ensures (a + b)[i] != (a + b)[j]
    {
      if i < |a| <= j { assert a[i] in a && b[j - |a|] in b; }
    }
  }
}
