/** The chunked transfer of internal/executor/executor.go: uploads grow a part file and
    are renamed to the target once the whole content has the announced digest;
    downloads follow `nextOffset`. Paths are the resolved ones. */
module Transfer {
  import opened Records

  type Path = string
  const MAX_TRANSFER: nat := 10 * 1024 * 1024
  const MAX_CHUNK: nat := 1024 * 1024
  const INT64: int := 0x1_0000_0000_0000_0000
  const PART_SUFFIX: Path := ".openclaw-part"

  // Go's int64 addition wraps around.
  function Wrap64(n: int): int { (n + INT64 / 2) % INT64 - INT64 / 2 }

  function Part(target: Path): Path { target + PART_SUFFIX }

  predicate IsPart(path: Path) {
    |path| >= |PART_SUFFIX| && path[|path| - |PART_SUFFIX|..] == PART_SUFFIX
  }

  // The file operation that fails, if any. A failed write writes nothing.
  datatype Fault = NoFault | OpenFails | WriteFails | ReadFails | RenameFails

  datatype Chunk = Chunk(offset: int, data: Bytes, final: bool, expected: Option<Digest>)

  datatype Reply = Failed | Stored(nextOffset: int) | Published(size: nat)

  function ContentOf(files: map<Path, Bytes>, path: Path): Bytes { if path in files then files[path] else [] }

  // ---------------------------------------------------------------- handlers

  // The part file as opening leaves it: created, and emptied by a chunk at offset 0.
  function Opened(files: map<Path, Bytes>, part: Path, offset: int): Bytes {
    if offset == 0 then [] else ContentOf(files, part)
  }

  predicate Oversized(c: Chunk) { |c.data| > MAX_CHUNK || Wrap64(c.offset + |c.data|) > MAX_TRANSFER }

  function WriteChunk(files: map<Path, Bytes>, target: Path, c: Chunk, fault: Fault): (map<Path, Bytes>, Reply) {
    var part := Part(target);
    if c.offset < 0 || Oversized(c) || fault == OpenFails then (files, Failed)
    else
      var base := Opened(files, part, c.offset);
      if |base| != c.offset || fault == WriteFails then (files[part := base], Failed)
      else
        var grown := files[part := base + c.data];
        if !c.final then (grown, Stored(c.offset + |c.data|))
        else if c.expected == None || fault == ReadFails then (grown, Failed)
        else if c.expected != Some(Sha256Of(base + c.data)) then (grown - {part}, Failed)
        else if target in grown || fault == RenameFails then (grown, Failed)
        else ((grown - {part})[target := base + c.data], Published(|base + c.data|))
  }

  function WriteFile(files: map<Path, Bytes>, target: Path, data: Bytes, fault: Fault): (map<Path, Bytes>, Reply) {
    if |data| > MAX_TRANSFER || target in files || fault == WriteFails then (files, Failed)
    else (files[target := data], Published(|data|))
  }

  datatype Piece = Refused | Piece(data: Bytes, nextOffset: int, eof: bool)

  function ReadChunk(files: map<Path, Bytes>, path: Path, offset: int, limit: int): Piece {
    if offset < 0 || limit < 0 || limit > MAX_TRANSFER || path !in files || offset > |files[path]| then Refused
    else
      var most := if limit == 0 then MAX_CHUNK else limit;
      var n := if most <= |files[path]| - offset then most else |files[path]| - offset;
      Piece(files[path][offset..offset + n], offset + n, offset + n >= |files[path]|)
  }

  /** A piece is as long as the limit, or 1 MiB without one, unless the file ends before;
      it is refused exactly for a bad offset or limit or a missing file. */
  lemma PieceIsFull(files: map<Path, Bytes>, path: Path, offset: int, limit: int)
    ensures var piece := ReadChunk(files, path, offset, limit);
            if path !in files || !(0 <= offset <= |files[path]|) || !(0 <= limit <= 10 * 1024 * 1024)
            then piece == Refused
            else
              var most := if limit == 0 then 1024 * 1024 else limit;
              && piece.Piece? && piece.nextOffset == offset + |piece.data| <= |files[path]|
              && files[path][offset..piece.nextOffset] == piece.data
              && (piece.eof <==> piece.nextOffset == |files[path]|)
              && |piece.data| <= most && (piece.eof || |piece.data| == most)
  {}

  // What the part file holds before a chunk is written to it.
  function Begun(files: map<Path, Bytes>, target: Path, offset: int): Bytes {
    if offset == 0 || Part(target) !in files then [] else files[Part(target)]
  }

  /** The chunk continues the part file, within 1 MiB for itself and 10 MiB for all. */
  predicate Fits(files: map<Path, Bytes>, target: Path, c: Chunk) {
    && c.offset == |Begun(files, target, c.offset)| && |c.data| <= 1024 * 1024
    && c.offset + |c.data| <= 10 * 1024 * 1024
  }

  /** The executor's files, changed in place. */
  class Workspace {
    var files: map<Path, Bytes>

    method FilesWriteChunk(target: Path, c: Chunk, fault: Fault) returns (reply: Reply)
      modifies this
      ensures (files, reply) == WriteChunk(old(files), target, c, fault)
      ensures c.offset + |c.data| < INT64 / 2 ==>
                (reply.Stored? <==>
                   Fits(old(files), target, c) && !c.final && fault != OpenFails && fault != WriteFails)
      ensures c.offset + |c.data| < INT64 / 2 ==>
                (reply.Published? <==>
                   && Fits(old(files), target, c) && c.final && fault == NoFault && target !in old(files)
                   && c.expected == Some(Sha256Of(Begun(old(files), target, c.offset) + c.data)))
      ensures reply.Stored? ==>
                && files == old(files)[Part(target) := Begun(old(files), target, c.offset) + c.data]
                && reply.nextOffset == c.offset + |c.data|
      ensures reply.Published? ==>
                && files == (old(files) - {Part(target)})[target := Begun(old(files), target, c.offset) + c.data]
                && reply.size == c.offset + |c.data|
    {
      if c.offset < 0 { return Failed; }
      if |c.data| > MAX_CHUNK || Wrap64(c.offset + |c.data|) > MAX_TRANSFER { return Failed; }
      var part := target + PART_SUFFIX;
      if fault == OpenFails { return Failed; }
      if c.offset == 0 || part !in files { files := files[part := []]; }
      assert files == old(files)[part := Opened(old(files), part, c.offset)];
      if |files[part]| != c.offset || fault == WriteFails { return Failed; }
      files := files[part := files[part] + c.data];
      assert files == old(files)[part := Opened(old(files), part, c.offset) + c.data];
      if !c.final { return Stored(c.offset + |c.data|); }
      if c.expected == None || fault == ReadFails { return Failed; }
      var all := files[part];
      if c.expected != Some(Sha256Of(all)) {
        files := files - {part};
        return Failed;
      }
      if target in files || fault == RenameFails { return Failed; }
      files := (files - {part})[target := all];
      reply := Published(|all|);
    }

    method FilesWrite(target: Path, data: Bytes, fault: Fault) returns (reply: Reply)
      modifies this
      ensures (files, reply) == WriteFile(old(files), target, data, fault)
      ensures reply.Published? <==> |data| <= 10 * 1024 * 1024 && target !in old(files) && fault != WriteFails
      ensures files == if reply.Published? then old(files)[target := data] else old(files)
    {
      if |data| > MAX_TRANSFER || target in files || fault == WriteFails { return Failed; }
      files := files[target := data];
      reply := Published(|data|);
    }

    /** Reading on from `nextOffset` until `eof` ends, and yields exactly the file. */
    method Download(path: Path, limit: int) returns (got: Bytes)
      requires path in files && 0 <= limit <= MAX_TRANSFER
      ensures got == files[path]
    {
      got := [];
      var piece := ReadChunk(files, path, 0, limit);
      got := piece.data;
      while !piece.eof
        invariant piece.Piece? && 0 <= piece.nextOffset <= |files[path]|
        invariant piece.eof <==> piece.nextOffset == |files[path]|
        invariant got == files[path][..piece.nextOffset]
        decreases |files[path]| - piece.nextOffset
      {
        piece := ReadChunk(files, path, piece.nextOffset, limit);
        got := got + piece.data;
      }
    }
  }

  // ------------------------------------------------------------------ any run

  datatype Op = OpChunk(target: Path, chunk: Chunk, fault: Fault) | OpFile(target: Path, data: Bytes, fault: Fault)

  // `sent` holds, for each part file begun in this run, the chunks written to it since
  // it was last created or emptied.
  datatype Disk = Disk(files: map<Path, Bytes>, sent: map<Path, seq<Bytes>>)

  function Joined(chunks: seq<Bytes>): Bytes {
    if chunks == [] then [] else Joined(chunks[..|chunks| - 1]) + chunks[|chunks| - 1]
  }

  function SentAfter(d: Disk, target: Path, c: Chunk, fault: Fault): map<Path, seq<Bytes>> {
    var part := Part(target);
    if c.offset < 0 || Oversized(c) || fault == OpenFails then d.sent
    else
      var begun := if c.offset == 0 || part !in d.files then d.sent[part := []] else d.sent;
      if |Opened(d.files, part, c.offset)| != c.offset || fault == WriteFails then begun
      else if part !in WriteChunk(d.files, target, c, fault).0 then begun - {part}
      else if part in begun then begun[part := begun[part] + [c.data]]
      else begun
  }

  function Perform(d: Disk, op: Op): Disk {
    match op
    case OpChunk(target, chunk, fault) =>
      Disk(WriteChunk(d.files, target, chunk, fault).0, SentAfter(d, target, chunk, fault))
    case OpFile(target, data, fault) => d.(files := WriteFile(d.files, target, data, fault).0)
  }

  function PerformAll(d: Disk, ops: seq<Op>): Disk {
    if ops == [] then d else Perform(PerformAll(d, ops[..|ops| - 1]), ops[|ops| - 1])
  }

  ghost predicate Wanted(ops: seq<Op>) { forall i :: 0 <= i < |ops| ==> !IsPart(ops[i].target) }

  ghost predicate PartsAreSent(d: Disk) {
    forall p :: p in d.sent ==>
      IsPart(p) && p in d.files && d.files[p] == Joined(d.sent[p]) && |d.files[p]| <= MAX_TRANSFER
  }

  lemma PartIsPart(target: Path)
    ensures IsPart(Part(target))
  {}

  lemma NoWrap(n: int)
    requires 0 <= n < INT64 / 2
    ensures Wrap64(n) == n
  {}

  lemma ChunkOnPart(d: Disk, target: Path, c: Chunk, fault: Fault)
    requires PartsAreSent(d) && target != Part(target)
    ensures var e := Perform(d, OpChunk(target, c, fault)); var part := Part(target);
            part in e.sent ==>
              part in e.files && e.files[part] == Joined(e.sent[part]) && |e.files[part]| <= MAX_TRANSFER
  {}

  lemma OtherFiles(d: Disk, op: Op, p: Path)
    requires p != op.target && p != Part(op.target)
    ensures p in Perform(d, op).files <==> p in d.files
    ensures p in d.files ==> Perform(d, op).files[p] == d.files[p]
    ensures p in Perform(d, op).sent <==> p in d.sent
    ensures p in d.sent ==> Perform(d, op).sent[p] == d.sent[p]
  {}

  lemma PerformKeepsParts(d: Disk, op: Op)
    requires PartsAreSent(d) && !IsPart(op.target)
    ensures PartsAreSent(Perform(d, op))
  {
    var e := Perform(d, op);
    PartIsPart(op.target);
    if op.OpChunk? { ChunkOnPart(d, op.target, op.chunk, op.fault); }
    forall p | p in e.sent
      ensures IsPart(p) && p in e.files && e.files[p] == Joined(e.sent[p]) && |e.files[p]| <= MAX_TRANSFER
    {
      if p != Part(op.target) {
        TargetNotSent(d, op, p);
        OtherFiles(d, op, p);
      }
    }
  }

  lemma TargetNotSent(d: Disk, op: Op, p: Path)
    requires PartsAreSent(d) && !IsPart(op.target) && p != Part(op.target) && p in Perform(d, op).sent
    ensures p in d.sent && p != op.target
  {}

  /** Over every run on targets that are not part files: a part file begun in it is the
      concatenation of the chunks written since it was begun, and no longer than the
      limit, although the sum in the bound check may wrap. */
  lemma {:induction false} PartsGrowByChunks(d: Disk, ops: seq<Op>)
    requires PartsAreSent(d) && Wanted(ops)
    ensures PartsAreSent(PerformAll(d, ops))
  {
    if ops != [] {
      PartsGrowByChunks(d, ops[..|ops| - 1]);
      PerformKeepsParts(PerformAll(d, ops[..|ops| - 1]), ops[|ops| - 1]);
    }
  }

  // What an operation may do to a file that is not a part file.
  ghost predicate Appears(op: Op, path: Path, content: Bytes) {
    path == op.target &&
    match op
    case OpChunk(_, chunk, _) => chunk.final && chunk.expected == Some(Sha256Of(content))
    case OpFile(_, data, _) => content == data
  }

  lemma PerformKeepsTargets(d: Disk, op: Op, path: Path)
    requires !IsPart(path) && !IsPart(op.target)
    ensures path in d.files ==> path in Perform(d, op).files && Perform(d, op).files[path] == d.files[path]
    ensures path !in d.files && path in Perform(d, op).files ==> Appears(op, path, Perform(d, op).files[path])
  {}

  /** A target is never changed once it exists, and it appears only with the content
      whose digest the final chunk announced, or as a file written whole. */
  lemma {:induction false} TargetsAreFinal(d: Disk, ops: seq<Op>, path: Path)
    requires Wanted(ops) && !IsPart(path) && path in PerformAll(d, ops).files
    ensures var content := PerformAll(d, ops).files[path];
            (path in d.files && d.files[path] == content)
            || (path !in d.files && exists i :: 0 <= i < |ops| && Appears(ops[i], path, content))
  {
    if ops != [] {
      var n := |ops| - 1;
      PerformKeepsTargets(PerformAll(d, ops[..n]), ops[n], path);
      if path in PerformAll(d, ops[..n]).files {
        TargetsAreFinal(d, ops[..n], path);
        var content := PerformAll(d, ops).files[path];
        if path !in d.files {
          var i :| 0 <= i < n && Appears(ops[..n][i], path, content);
          assert Appears(ops[i], path, content);
        }
      } else {
        StaysTarget(d, ops[..n], path);
        assert Appears(ops[n], path, PerformAll(d, ops).files[path]);
      }
    }
  }

  lemma {:induction false} StaysTarget(d: Disk, ops: seq<Op>, path: Path)
    requires Wanted(ops) && !IsPart(path)
    ensures path in d.files ==> path in PerformAll(d, ops).files && PerformAll(d, ops).files[path] == d.files[path]
  {
    if ops != [] {
      var n := |ops| - 1;
      StaysTarget(d, ops[..n], path);
      PerformKeepsTargets(PerformAll(d, ops[..n]), ops[n], path);
    }
  }

  // -------------------------------------------------------------- round trip

  // The chunks of an upload, in order, the last one announcing the digest of the whole.
  function Upload(target: Path, chunks: seq<Bytes>, whole: Bytes): seq<Op> {
    seq(|chunks|, i requires 0 <= i < |chunks| =>
      OpChunk(target,
              Chunk(|Joined(chunks[..i])|, chunks[i], i == |chunks| - 1,
                    if i == |chunks| - 1 then Some(Sha256Of(whole)) else None),
              NoFault))
  }

  lemma MiddleChunk(files: map<Path, Bytes>, target: Path, front: Bytes, data: Bytes)
    requires Opened(files, Part(target), |front|) == front && |data| <= MAX_CHUNK && |front + data| <= MAX_TRANSFER
    ensures WriteChunk(files, target, Chunk(|front|, data, false, None), NoFault).0
            == files[Part(target) := front + data]
  {}

  lemma PerformNext(d: Disk, ops: seq<Op>, n: nat)
    requires 0 < n <= |ops|
    ensures PerformAll(d, ops[..n]) == Perform(PerformAll(d, ops[..n - 1]), ops[n - 1])
  {
    assert ops[..n][..n - 1] == ops[..n - 1];
  }

  lemma JoinedNext(chunks: seq<Bytes>, n: nat)
    requires 0 < n <= |chunks|
    ensures Joined(chunks[..n]) == Joined(chunks[..n - 1]) + chunks[n - 1]
  {
    assert chunks[..n][..n - 1] == chunks[..n - 1];
  }

  lemma Overwritten(files: map<Path, Bytes>, path: Path, a: Bytes, b: Bytes)
    ensures files[path := a][path := b] == files[path := b] && ContentOf(files[path := a], path) == a
  {}

  // One chunk but the last, on the part file the others left.
  lemma UploadedNext(files: map<Path, Bytes>, d: Disk, target: Path, chunks: seq<Bytes>, whole: Bytes, n: nat)
    requires 0 < n < |chunks| && whole == Joined(chunks) && |whole| <= MAX_TRANSFER && |chunks[n - 1]| <= MAX_CHUNK
    requires Opened(d.files, Part(target), |Joined(chunks[..n - 1])|) == Joined(chunks[..n - 1])
    requires d.files[Part(target) := Joined(chunks[..n])] == files[Part(target) := Joined(chunks[..n])]
    ensures Perform(d, Upload(target, chunks, whole)[n - 1]).files == files[Part(target) := Joined(chunks[..n])]
  {
    JoinedPrefix(chunks, n);
    JoinedNext(chunks, n);
    MiddleChunk(d.files, target, Joined(chunks[..n - 1]), chunks[n - 1]);
  }

  lemma {:induction false} UploadedSoFar(d: Disk, target: Path, chunks: seq<Bytes>, whole: Bytes, n: nat)
    requires 0 < n < |chunks| && whole == Joined(chunks) && |whole| <= MAX_TRANSFER
    requires forall i :: 0 <= i < |chunks| ==> |chunks[i]| <= MAX_CHUNK
    ensures PerformAll(d, Upload(target, chunks, whole)[..n]).files == d.files[Part(target) := Joined(chunks[..n])]
  {
    var ops := Upload(target, chunks, whole);
    var before := PerformAll(d, ops[..n - 1]);
    PerformNext(d, ops, n);
    if n > 1 {
      UploadedSoFar(d, target, chunks, whole, n - 1);
      Overwritten(d.files, Part(target), Joined(chunks[..n - 1]), Joined(chunks[..n]));
    } else {
      assert ops[..0] == [] && chunks[..0] == [];
    }
    UploadedNext(d.files, before, target, chunks, whole, n);
  }

  lemma {:induction false} JoinedPrefix(chunks: seq<Bytes>, n: nat)
    requires n <= |chunks|
    ensures |Joined(chunks[..n])| <= |Joined(chunks)|
  {
    if n < |chunks| {
      JoinedPrefix(chunks[..|chunks| - 1], n);
      assert chunks[..|chunks| - 1][..n] == chunks[..n];
    } else {
      assert chunks[..n] == chunks;
    }
  }

  // The final chunk of an upload, on the part file the others left.
  lemma LastChunk(files: map<Path, Bytes>, target: Path, front: Bytes, data: Bytes)
    requires target !in files && target != Part(target)
    requires Opened(files, Part(target), |front|) == front && |data| <= MAX_CHUNK && |front + data| <= MAX_TRANSFER
    ensures WriteChunk(files, target, Chunk(|front|, data, true, Some(Sha256Of(front + data))), NoFault)
            == ((files - {Part(target)})[target := front + data], Published(|front + data|))
  {
    NoWrap(|front| + |data|);
    assert files[Part(target) := front + data] - {Part(target)} == files - {Part(target)};
  }

  /** Uploading a file in any chunks of at most 1 MiB, up to 10 MiB in all, to
      a target that does not exist, makes it exist with that content and leaves every
      other file as it was, except that the part file is gone. */
  lemma UploadRoundTrip(d: Disk, target: Path, chunks: seq<Bytes>)
    requires target !in d.files
    requires chunks != [] && |Joined(chunks)| <= MAX_TRANSFER
    requires forall i :: 0 <= i < |chunks| ==> |chunks[i]| <= MAX_CHUNK
    ensures PerformAll(d, Upload(target, chunks, Joined(chunks))).files
            == (d.files - {Part(target)})[target := Joined(chunks)]
  {
    var whole, part := Joined(chunks), Part(target);
    var ops := Upload(target, chunks, whole);
    var n := |chunks| - 1;
    var before := PerformAll(d, ops[..n]);
    var front := Joined(chunks[..n]);
    assert |target| < |part|;
    assert whole == front + chunks[n];
    assert ops[n] == OpChunk(target, Chunk(|front|, chunks[n], true, Some(Sha256Of(whole))), NoFault);
    if n > 0 {
      UploadedSoFar(d, target, chunks, whole, n);
      assert before.files == d.files[part := front];
    } else {
      assert ops[..0] == [] && chunks[..0] == [];
    }
    LastChunk(before.files, target, front, chunks[n]);
    assert before.files - {part} == d.files - {part};
  }
}
