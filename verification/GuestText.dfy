/** What becomes of guest text, said of its runes: `sanitizeGuestText` and the view of it in
    cmd/pairing-broker/result_view.go repair ill-formed bytes, drop control characters and
    nothing else, and cut. */
module GuestText {
  import opened Records
  import opened Utf8
  import opened Utf16
  import opened ResultView
  import Pairing

  // ------------------------------------------------------------------ repairing

  lemma ToValidFront(front: Bytes, rest: Bytes)
    requires Width(front) == |front| > 0
    ensures ToValid(front + rest, false) == front + ToValid(rest, false)
  {
    FrontAndRest(front, rest);
    assert (front + rest)[..|front|] == front;
  }

  lemma Regroup(a: Bytes, w: nat, b: Bytes)
    requires w <= |a|
    ensures a + b == a[..w] + (a[w..] + b)
  {}

  // What is well-formed stays, whatever follows it.
  lemma {:induction false} ToValidKeeps(a: Bytes, b: Bytes)
    requires Utf8.Valid(a)
    ensures ToValid(a + b, false) == a + ToValid(b, false)
  {
    if a == [] {
      assert a + b == b;
    } else {
      var w := Width(a);
      ToValidKeeps(a[w..], b);
      Regroup(a, w, b);
      Regroup(a, w, ToValid(b, false));
      FrontAlone(a);
      ToValidFront(a[..w], a[w..] + b);
    }
  }

  /** The first `k` bytes are a longest run in which no well-formed sequence starts. */
  ghost predicate BrokenRun(s: Bytes, k: nat) {
    && 0 < k <= |s| && (forall i :: 0 <= i < k ==> Width(s[i..]) == 0)
    && (k == |s| || Width(s[k..]) > 0)
  }

  lemma {:induction false} RunInside(s: Bytes, k: nat)
    requires k <= |s| && (forall i :: 0 <= i < k ==> Width(s[i..]) == 0)
    requires k == |s| || Width(s[k..]) > 0
    ensures ToValid(s, true) == ToValid(s[k..], false)
  {
    if k > 0 {
      assert s[0..] == s;
      forall i | 0 <= i < k - 1 ensures Width(s[1..][i..]) == 0 { assert s[1..][i..] == s[i + 1..]; }
      assert s[1..][k - 1..] == s[k..];
      RunInside(s[1..], k - 1);
      assert ToValid(s, true) == ToValid(s[1..], true);
    } else {
      assert s[0..] == s;
    }
  }

  // A run of ill-formed bytes becomes one replacement character.
  lemma ToValidReplaces(s: Bytes, k: nat)
    requires BrokenRun(s, k)
    ensures ToValid(s, false) == REPLACEMENT + ToValid(s[k..], false)
  {
    assert s[0..] == s;
    RunInside(s, k);
    assert ToValid(s, true) == ToValid(s[1..], true);
  }

  /** Repair is fixed by these: text in front stays, a run of ill-formed bytes in front
      becomes one U+FFFD, and the rest is repaired alike. */
  lemma RepairByRuns(a: Bytes, b: Bytes, k: nat)
    requires Utf8.Valid(a) && (b == [] || BrokenRun(b, k))
    ensures ToValid(a + b, false) == if b == [] then a else a + REPLACEMENT + ToValid(b[k..], false)
  {
    ToValidKeeps(a, b);
    if b == [] {
      assert a + [] == a;
    } else {
      ToValidReplaces(b, k);
      assert a + (REPLACEMENT + ToValid(b[k..], false)) == a + REPLACEMENT + ToValid(b[k..], false);
    }
  }

  // ------------------------------------------------------------------ dropping controls

  // All runes but the C0 and C1 controls and DEL; tab, line feed and carriage return stay.
  function WithoutControls(runes: seq<Scalar>): seq<Scalar> {
    if runes == [] then []
    else
      var r := runes[0];
      (if r == 0x09 || r == 0x0A || r == 0x0D || 0x20 <= r < 0x7F || r >= 0xA0 then [r] else [])
      + WithoutControls(runes[1..])
  }

  lemma RunesOfFront(front: Bytes, rest: Bytes)
    requires Width(front) == |front| > 0
    ensures Runes(front + rest) == [Rune(front)] + Runes(rest)
  {
    FrontAndRest(front, rest);
  }

  lemma {:induction false} RunesWithoutControls(t: Bytes)
    requires Utf8.Valid(t)
    ensures Runes(DropControls(t)) == WithoutControls(Runes(t))
  {
    if t != [] {
      var w := Width(t);
      RunesWithoutControls(t[w..]);
      FrontAlone(t);
      assert Runes(t)[1..] == Runes(t[w..]);
      if IsKept(Rune(t)) {
        RunesOfFront(t[..w], DropControls(t[w..]));
      } else {
        assert DropControls(t) == DropControls(t[w..]);
      }
    }
  }

  /** Sanitised text is well-formed, and its runes are those of the repaired text without
      the controls, all of them and in order. */
  lemma SanitizedRunes(s: Bytes)
    ensures Utf8.Valid(Sanitize(s))
    ensures Runes(Sanitize(s)) == WithoutControls(Runes(ToValid(s, false)))
  {
    SanitizeIsCleanAndIdempotent(s);
    ToValidIsValid(s, false);
    RunesWithoutControls(ToValid(s, false));
  }

  // ------------------------------------------------------------------ the agent's view

  // A prefix of whole runes, without its first.
  lemma PrefixRest(t: Bytes, k: nat)
    requires Width(t) > 0 && Width(t) <= k <= |t|
    ensures Width(t[..k]) == Width(t) && Rune(t[..k]) == Rune(t) && t[..k][Width(t)..] == t[Width(t)..][..k - Width(t)]
  {
    assert t[..k][..Width(t)] == t[..Width(t)];
    WidthLocal(t, t[..k]);
  }

  lemma {:induction false} RunesOfPrefix(t: Bytes, k: nat)
    requires Utf8.Valid(t) && Boundary(t, k) && k <= |t|
    ensures Runes(t[..k]) <= Runes(t)
    decreases |t|
  {
    if k > 0 {
      PrefixRest(t, k);
      RunesOfPrefix(t[Width(t)..], k - Width(t));
    } else {
      assert t[..0] == [];
    }
  }

  /** An agent sees of a result the runes that were sent, repaired and without controls,
      from the first on, and as many of them as fit both limits; the view says that it is
      truncated exactly when that is not all. */
  lemma AgentSees(v: View, r: Result, maxOutput: int, left: nat)
    requires Presents(v, r, maxOutput, left)
    ensures var sent := WithoutControls(Runes(ToValid(r.output, false)));
            Runes(v.output) <= sent && (!v.truncated ==> Runes(v.output) == sent)
    ensures |v.output| <= left && (|v.output| <= maxOutput || v.output == [])
    ensures forall k :: 0 <= k <= maxOutput && k <= left && Boundary(Sanitize(r.output), k) ==> k <= |v.output|
    ensures v.truncated <==> v.output != Sanitize(r.output)
  {
    var t := Sanitize(r.output);
    SanitizedRunes(r.output);
    TruncateSanitized(r.output, ResultView.Min(maxOutput, left));
    RunesOfPrefix(t, |v.output|);
    assert v.output == t[..|v.output|];
  }

  /** Coloured output loses its escape characters and no more. */
  lemma ColouredOutput()
    ensures Sanitize([0x61, 0x1B, 0x62, 0x0A]) == [0x61, 0x62, 0x0A]
  {
    var s: Bytes := [0x61, 0x1B, 0x62, 0x0A];
    assert Utf8.Valid(s) by {
      assert s[1..] == [0x1B, 0x62, 0x0A] && s[1..][1..] == [0x62, 0x0A] && s[1..][1..][1..] == [0x0A];
      assert s[1..][1..][1..][1..] == [];
      assert Utf8.Valid(s[1..][1..][1..]) && Utf8.Valid(s[1..][1..]) && Utf8.Valid(s[1..]);
    }
    ToValidOfValid(s, false);
    assert s[1..] == [0x1B, 0x62, 0x0A] && s[1..][1..] == [0x62, 0x0A] && s[1..][1..][1..] == [0x0A];
    assert DropControls([0x0A]) == [0x0A];
    assert DropControls([0x62, 0x0A]) == [0x62] + DropControls([0x0A]);
  }

  // ------------------------------------------------------------------ labels

  // A graphic character.
  predicate Graphic(r: Scalar) { r >= 0x20 && !(0x7F <= r < 0xA0) && r != 0xFFFD }

  predicate AllGraphic(runes: seq<Scalar>) { forall i :: 0 <= i < |runes| ==> Graphic(runes[i]) }

  lemma GraphicCons(r: Scalar, rest: seq<Scalar>)
    ensures AllGraphic([r] + rest) <==> Graphic(r) && AllGraphic(rest)
  {
    var all := [r] + rest;
    assert all[0] == r && all[1..] == rest;
    assert forall i :: 0 <= i < |rest| ==> all[i + 1] == rest[i];
    assert forall i :: 0 < i < |all| ==> all[i] == rest[i - 1];
  }

  lemma {:induction false} PrintableRunes(t: Bytes)
    requires Utf8.Valid(t)
    ensures Pairing.Printable(t) <==> AllGraphic(Runes(t))
    ensures RuneCount(t) == |Runes(t)|
  {
    if t != [] {
      var rest := t[Width(t)..];
      PrintableRunes(rest);
      assert Runes(t) == [Rune(t)] + Runes(rest);
      GraphicCons(Rune(t), Runes(rest));
    }
  }

  lemma {:induction false} IllFormedIsNotPrintable(s: Bytes)
    requires !Utf8.Valid(s)
    ensures !Pairing.Printable(ToValid(s, false))
  {
    if Width(s) == 0 {
      FrontAndRest(REPLACEMENT, ToValid(s[1..], true));
    } else {
      var w := Width(s);
      IllFormedIsNotPrintable(s[w..]);
      FrontAlone(s);
      FrontAndRest(s[..w], ToValid(s[w..], false));
    }
  }

  /** A label is valid exactly if it is well-formed, not empty, of at most that many runes,
      and none of them is a control character or U+FFFD. */
  lemma LabelExactly(value: Bytes, maxRunes: nat)
    ensures Pairing.ValidLabel(value, maxRunes) <==>
            Utf8.Valid(value) && value != [] && |Runes(value)| <= maxRunes && AllGraphic(Runes(value))
  {
    if Utf8.Valid(value) {
      ToValidOfValid(value, false);
      PrintableRunes(value);
    } else {
      IllFormedIsNotPrintable(value);
    }
  }
}
