/** The captured output of a background job (internal/executor/executor.go): the capped
    writer, and `shellStatus`, which hands it out piece by piece. */
module JobOutput {
  import opened Records
  import opened Utf8
  import opened Utf16

  const MAX_OUTPUT: nat := 1024 * 1024

  /** What is kept of everything a job wrote. */
  function Captured(written: Bytes): Bytes {
    if |written| <= MAX_OUTPUT then written else written[..MAX_OUTPUT]
  }

  class Capped {
    var b: Bytes
    var n: nat
    ghost var written: Bytes

    ghost predicate Valid()
      reads this
    {
      n == |b| && b == Captured(written)
    }

    constructor ()
      ensures Valid() && written == []
    {
      b, n, written := [], 0, [];
    }

    method Write(p: Bytes) returns (count: nat)
      requires Valid()
      modifies this
      ensures Valid() && written == old(written) + p && count == |p|
    {
      count := |p|;
      var remain := MAX_OUTPUT - n;
      if remain > 0 {
        var part := p;
        if |part| > remain { part := part[..remain]; }
        b := b + part;
        n := n + |part|;
      }
      written := written + p;
      assert old(n) < MAX_OUTPUT ==> old(b) == old(written);
      assert old(n) == MAX_OUTPUT ==> written[..MAX_OUTPUT] == old(written)[..MAX_OUTPUT];
    }

    method Snapshot() returns (raw: Bytes, total: nat)
      requires Valid()
      ensures raw == Captured(written) && total == |raw|
      ensures raw <= written && |raw| == if |written| < 1024 * 1024 then |written| else 1024 * 1024
    {
      return b, n;
    }
  }

  /** One answer of `shellStatus`: `raw` is the slice whose text is reported. */
  datatype Slice = Slice(raw: Bytes, output: Bytes, nextOffset: nat, totalBytes: nat)

  function SliceFrom(captured: Bytes, offset: nat): Slice {
    var start := if offset > |captured| then |captured| else offset;
    Slice(captured[start..], Portable(captured[start..]), |captured|, |captured|)
  }

  method ShellStatus(jobs: map<string, Capped>, jobId: string, offset: int) returns (r: Option<Slice>)
    requires forall id :: id in jobs ==> jobs[id].Valid()
    ensures r.Some? <==> jobId != "" && offset >= 0 && jobId in jobs
    ensures r.Some? ==> r.value == SliceFrom(Captured(jobs[jobId].written), offset)
    ensures r.Some? ==>
              var captured := Captured(jobs[jobId].written);
              && (if offset <= |captured| then captured[..offset] + r.value.raw == captured else r.value.raw == [])
              && r.value.output == Portable(r.value.raw)
              && r.value.nextOffset == r.value.totalBytes == |captured|
  {
    if jobId == "" || offset < 0 { return None; }
    if jobId !in jobs { return None; }
    var raw, total := jobs[jobId].Snapshot();
    var start := offset;
    if start > |raw| { start := |raw|; }
    var output := NormalizePortableOutput(raw[start..]);
    r := Some(Slice(raw[start..], output, |raw|, total));
  }

  // ------------------------------------------------------ following a stream

  /** What happens to a job's stream: the job writes, or a reader asks from where the
      last answer left off. */
  datatype Happening = Wrote(p: Bytes) | Asked

  function WrittenAfter(written: Bytes, run: seq<Happening>): Bytes
    decreases |run|
  {
    if run == [] then written
    else WrittenAfter(if run[0].Wrote? then written + run[0].p else written, run[1..])
  }

  function Slices(written: Bytes, offset: nat, run: seq<Happening>): seq<Slice>
    decreases |run|
  {
    if run == [] then []
    else if run[0].Wrote? then Slices(written + run[0].p, offset, run[1..])
    else
      var slice := SliceFrom(Captured(written), offset);
      [slice] + Slices(written, slice.nextOffset, run[1..])
  }

  function Joined(slices: seq<Slice>): Bytes {
    if slices == [] then [] else slices[0].raw + Joined(slices[1..])
  }

  function LastOffset(offset: nat, slices: seq<Slice>): nat {
    if slices == [] then offset else slices[|slices| - 1].nextOffset
  }

  lemma CapturedGrows(written: Bytes, p: Bytes)
    ensures Captured(written) <= Captured(written + p)
  {}

  lemma FirstSlice(slice: Slice, later: seq<Slice>, offset: nat)
    ensures Joined([slice] + later) == slice.raw + Joined(later)
    ensures LastOffset(offset, [slice] + later) == LastOffset(slice.nextOffset, later)
  {
    assert ([slice] + later)[1..] == later;
  }

  lemma Spliced(final: Bytes, captured: Bytes, offset: nat, last: nat)
    requires captured <= final && offset <= |captured| <= last <= |final|
    ensures final[offset..last] == captured[offset..] + final[|captured|..last]
  {
    assert final[..|captured|] == captured;
  }

  /** However writes and questions interleave, the slices joined together are the
      captured output from the first offset to the last: no gap, no repeat. */
  lemma {:induction false} SlicesJoin(written: Bytes, offset: nat, run: seq<Happening>)
    requires offset <= |Captured(written)|
    ensures var slices := Slices(written, offset, run); var last := LastOffset(offset, slices);
            && offset <= last <= |Captured(WrittenAfter(written, run))|
            && Joined(slices) == Captured(WrittenAfter(written, run))[offset..last]
            && Captured(written) <= Captured(WrittenAfter(written, run))
    decreases |run|
  {
    if run != [] {
      if run[0].Wrote? {
        CapturedGrows(written, run[0].p);
        SlicesJoin(written + run[0].p, offset, run[1..]);
      } else {
        var captured, final := Captured(written), Captured(WrittenAfter(written, run));
        var slice := SliceFrom(captured, offset);
        var later := Slices(written, |captured|, run[1..]);
        SlicesJoin(written, |captured|, run[1..]);
        FirstSlice(slice, later, offset);
        Spliced(final, captured, offset, LastOffset(|captured|, later));
      }
    }
  }

  /** A reader that starts at 0 and asks once more after the job has ended has read the
      first `MAX_OUTPUT` bytes the job wrote, or all of them. */
  lemma ReaderGetsCaptured(run: seq<Happening>)
    requires run != [] && run[|run| - 1].Asked?
    ensures Joined(Slices([], 0, run)) == Captured(WrittenAfter([], run))
  {
    SlicesJoin([], 0, run);
    LastAsked([], 0, run);
  }

  lemma {:induction false} LastAsked(written: Bytes, offset: nat, run: seq<Happening>)
    requires run != [] && run[|run| - 1].Asked?
    ensures Slices(written, offset, run) != []
    ensures LastOffset(offset, Slices(written, offset, run)) == |Captured(WrittenAfter(written, run))|
    decreases |run|
  {
    if |run| > 1 {
      if run[0].Wrote? {
        LastAsked(written + run[0].p, offset, run[1..]);
      } else {
        LastAsked(written, SliceFrom(Captured(written), offset).nextOffset, run[1..]);
      }
    }
  }

  /** The foreground commands report `truncated` when the count reached the cap: that
      is right unless the output fills the cap exactly. */
  lemma TruncatedFlag(written: Bytes)
    ensures (|Captured(written)| >= MAX_OUTPUT <==> Captured(written) != written) <==> |written| != MAX_OUTPUT
  {}
}
