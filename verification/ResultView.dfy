/** `agentResultEnvelope` of cmd/pairing-broker/result_view.go: guest results as an
    agent is shown them, within one budget for all of them together. */
module ResultView {
  import opened Records
  import opened Utf8

  const TOTAL_LIMIT: nat := 256 * 1024
  const ERROR_LIMIT: nat := 4 * 1024

  datatype View = View(
    id: CommandId, name: Capability, output: Bytes, error: Bytes,
    outputBytes: nat, digest: Digest, truncated: bool)

  function Min(a: int, b: int): int { if a <= b then a else b }

  // What is left of the budget after `results`.
  function BudgetAfter(results: seq<Result>, maxOutput: int): nat {
    if results == [] then TOTAL_LIMIT
    else
      var left := BudgetAfter(results[..|results| - 1], maxOutput);
      left - |Shown(results[|results| - 1], maxOutput, left)|
  }

  function Shown(r: Result, maxOutput: int, left: nat): (out: Bytes)
    ensures |out| <= left
  {
    Truncated(Sanitize(r.output), Min(maxOutput, left))
  }

  /** The view of a result when `left` of the budget remains. */
  ghost predicate Presents(v: View, r: Result, maxOutput: int, left: nat) {
    && v.id == r.id && v.name == r.name
    && v.output == Shown(r, maxOutput, left)
    && (v.truncated <==> |Sanitize(r.output)| > Max0(Min(maxOutput, left)))
    && v.error == Truncated(Sanitize(r.error), 4 * 1024)
    && v.outputBytes == |r.output| && v.digest == Sha256Of(r.output)
  }

  method Present(r: Result, maxOutput: int, remaining: nat) returns (v: View)
    ensures Presents(v, r, maxOutput, remaining)
  {
    var limit := if maxOutput <= remaining then maxOutput else remaining;
    var output, truncated := TruncateUTF8(Sanitize(r.output), limit);
    var errorText, _ := TruncateUTF8(Sanitize(r.error), ERROR_LIMIT);
    v := View(r.id, r.name, output, errorText, |r.output|, Sha256Of(r.output), truncated);
  }

  function RawBytes(results: seq<Result>): nat {
    if results == [] then 0 else RawBytes(results[..|results| - 1]) + |results[|results| - 1].output|
  }

  function ShownBytes(views: seq<View>): nat {
    if views == [] then 0 else ShownBytes(views[..|views| - 1]) + |views[|views| - 1].output|
  }

  ghost predicate Presented(views: seq<View>, results: seq<Result>, maxOutput: int) {
    |views| <= |results|
    && forall i :: 0 <= i < |views| ==> Presents(views[i], results[i], maxOutput, BudgetAfter(results[..i], maxOutput))
  }

  lemma OneMore(views: seq<View>, view: View, results: seq<Result>, maxOutput: int)
    requires Presented(views, results, maxOutput) && |views| < |results|
    requires Presents(view, results[|views|], maxOutput, BudgetAfter(results[..|views|], maxOutput))
    ensures Presented(views + [view], results, maxOutput)
  {
    var n, more := |views|, views + [view];
    forall i | 0 <= i <= n ensures Presents(more[i], results[i], maxOutput, BudgetAfter(results[..i], maxOutput)) {
      if i < n { assert more[i] == views[i]; } else { assert more[i] == view; }
    }
  }

  lemma BudgetStep(results: seq<Result>, n: nat, maxOutput: int)
    requires n < |results|
    ensures BudgetAfter(results[..n + 1], maxOutput)
            == BudgetAfter(results[..n], maxOutput)
               - |Shown(results[n], maxOutput, BudgetAfter(results[..n], maxOutput))|
    ensures RawBytes(results[..n + 1]) == RawBytes(results[..n]) + |results[n].output|
  {
    assert results[..n + 1][..n] == results[..n];
  }

  /** What is shown of all results and what is left make up the budget. */
  lemma {:induction false} ViewsFit(views: seq<View>, results: seq<Result>, maxOutput: int)
    requires Presented(views, results, maxOutput) && |views| == |results|
    ensures ShownBytes(views) + BudgetAfter(results, maxOutput) == TOTAL_LIMIT
  {
    if views != [] {
      var n := |views| - 1;
      forall i | 0 <= i < n
        ensures Presents(views[..n][i], results[..n][i], maxOutput, BudgetAfter(results[..n][..i], maxOutput))
      {
        assert results[..n][..i] == results[..i];
      }
      ViewsFit(views[..n], results[..n], maxOutput);
    }
  }

  /** Each view carries the longest prefix of whole runes of its sanitised output within
      both limits; all together stay within the budget; the raw lengths add up. */
  method AgentResultEnvelope(results: seq<Result>, maxOutput: int) returns (views: seq<View>, totalBytes: nat)
    ensures |views| == |results| && Presented(views, results, maxOutput)
    ensures ShownBytes(views) + BudgetAfter(results, maxOutput) == 256 * 1024
    ensures totalBytes == RawBytes(results)
  {
    views, totalBytes := [], 0;
    var remaining := TOTAL_LIMIT;
    for n := 0 to |results|
      invariant |views| == n && Presented(views, results, maxOutput)
      invariant remaining == BudgetAfter(results[..n], maxOutput)
      invariant totalBytes == RawBytes(results[..n])
    {
      var result := results[n];
      var view := Present(result, maxOutput, remaining);
      BudgetStep(results, n, maxOutput);
      remaining := remaining - |view.output|;
      totalBytes := totalBytes + |result.output|;
      OneMore(views, view, results, maxOutput);
      views := views + [view];
    }
    assert results[..|results|] == results;
    ViewsFit(views, results, maxOutput);
  }

  /** What a later result is shown of depends on the budget the earlier ones left. */
  lemma {:induction false} BudgetShrinks(results: seq<Result>, maxOutput: int, n: nat)
    requires n <= |results|
    ensures BudgetAfter(results, maxOutput) <= BudgetAfter(results[..n], maxOutput) <= TOTAL_LIMIT
  {
    if n < |results| {
      BudgetShrinks(results[..|results| - 1], maxOutput, n);
      assert results[..|results| - 1][..n] == results[..n];
    } else {
      assert results[..n] == results;
      if results != [] {
        BudgetShrinks(results[..|results| - 1], maxOutput, |results| - 1);
        assert results[..|results| - 1][..|results| - 1] == results[..|results| - 1];
      }
    }
  }
}
