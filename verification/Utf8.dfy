/** UTF-8 as the Go standard library reads it (section 4 of RFC 3629), and the two
    operations of cmd/pairing-broker/result_view.go on guest text. */
module Utf8 {
  import opened Records

  const RUNE_ERROR: int := 0xFFFD
  const REPLACEMENT: Bytes := [0xEF, 0xBF, 0xBD]

  predicate IsTail(b: Byte) { 0x80 <= b <= 0xBF }

  // The second byte that may follow a lead byte of a sequence of three or four.
  predicate IsSecond(lead: Byte, b: Byte) {
    if lead == 0xE0 then 0xA0 <= b <= 0xBF
    else if lead == 0xED then 0x80 <= b <= 0x9F
    else if lead == 0xF0 then 0x90 <= b <= 0xBF
    else if lead == 0xF4 then 0x80 <= b <= 0x8F
    else IsTail(b)
  }

  // The length of the well-formed sequence at the front, 0 if there is none.
  function Width(s: Bytes): (w: nat)
    ensures w <= |s| && w <= 4
  {
    if s == [] then 0
    else if s[0] <= 0x7F then 1
    else if 0xC2 <= s[0] <= 0xDF then (if |s| >= 2 && IsTail(s[1]) then 2 else 0)
    else if 0xE0 <= s[0] <= 0xEF then (if |s| >= 3 && IsSecond(s[0], s[1]) && IsTail(s[2]) then 3 else 0)
    else if 0xF0 <= s[0] <= 0xF4 then
      (if |s| >= 4 && IsSecond(s[0], s[1]) && IsTail(s[2]) && IsTail(s[3]) then 4 else 0)
    else 0
  }

  // The code point of that sequence, a Unicode scalar value.
  function Rune(s: Bytes): (r: int)
    requires Width(s) > 0
    ensures 0 <= r < 0xD800 || 0xE000 <= r <= 0x10FFFF
  {
    var lead: int := s[0];
    match Width(s)
    case 1 => lead
    case 2 => (lead - 0xC0) * 0x40 + Tail(s, 1)
    case 3 => (lead - 0xE0) * 0x1000 + Tail(s, 1) * 0x40 + Tail(s, 2)
    case _ => (lead - 0xF0) * 0x40000 + Tail(s, 1) * 0x1000 + Tail(s, 2) * 0x40 + Tail(s, 3)
  }

  // The six bits of a continuation byte.
  function Tail(s: Bytes, k: nat): int
    requires k < |s|
  {
    s[k] as int - 0x80
  }

  // utf8.DecodeRune: an ill-formed byte is U+FFFD of width 1.
  function DecodeRune(s: Bytes): (int, nat) {
    (if Width(s) == 0 then RUNE_ERROR else Rune(s), Step(s))
  }

  // How far `DecodeRune` advances.
  function Step(s: Bytes): (n: nat)
    ensures s != [] ==> 0 < n <= |s|
  {
    if s == [] then 0 else if Width(s) == 0 then 1 else Width(s)
  }

  // utf8.RuneCount.
  function RuneCount(s: Bytes): nat { if s == [] then 0 else 1 + RuneCount(s[Step(s)..]) }

  predicate Valid(s: Bytes) { s == [] || (Width(s) > 0 && Valid(s[Width(s)..])) }

  // strings.ToValidUTF8(s, "\uFFFD"): each run of ill-formed bytes becomes one U+FFFD.
  function ToValid(s: Bytes, inRun: bool): Bytes {
    if s == [] then []
    else if Width(s) == 0 then (if inRun then [] else REPLACEMENT) + ToValid(s[1..], true)
    else s[..Width(s)] + ToValid(s[Width(s)..], false)
  }

  // unicode.IsControl: category Cc.
  predicate IsControl(r: int) { 0 <= r < 0x20 || 0x7F <= r < 0xA0 }

  predicate IsKept(r: int) { r == 0x0A || r == 0x0D || r == 0x09 || !IsControl(r) }

  // strings.Map with the function that drops what is not kept.
  function DropControls(s: Bytes): Bytes {
    if s == [] then []
    else
      var (r, w) := DecodeRune(s);
      (if !IsKept(r) then [] else if Width(s) == 0 then REPLACEMENT else s[..w]) + DropControls(s[w..])
  }

  function Sanitize(s: Bytes): Bytes { DropControls(ToValid(s, false)) }

  /** Well-formed, and every character kept. */
  predicate Clean(s: Bytes) { s == [] || (Width(s) > 0 && IsKept(Rune(s)) && Clean(s[Width(s)..])) }

  // ------------------------------------------------------------------ sanitising

  // The front sequence does not depend on what follows it.
  lemma WidthLocal(s: Bytes, t: Bytes)
    requires Width(s) > 0 && Width(s) <= |t| && t[..Width(s)] == s[..Width(s)]
    ensures Width(t) == Width(s) && Rune(t) == Rune(s)
  {
    var w := Width(s);
    assert forall k :: 0 <= k < w ==> t[k] == t[..w][k] == s[..w][k] == s[k];
  }

  lemma FrontAndRest(front: Bytes, rest: Bytes)
    requires Width(front) == |front| > 0
    ensures Width(front + rest) == |front| && Rune(front + rest) == Rune(front) && (front + rest)[|front|..] == rest
  {}

  lemma FrontAlone(s: Bytes)
    requires Width(s) > 0
    ensures Width(s[..Width(s)]) == Width(s) && Rune(s[..Width(s)]) == Rune(s)
  {}

  lemma {:induction false} ToValidIsValid(s: Bytes, inRun: bool)
    ensures Valid(ToValid(s, inRun))
  {
    if s != [] {
      if Width(s) == 0 {
        ToValidIsValid(s[1..], true);
        FrontAndRest(REPLACEMENT, ToValid(s[1..], true));
        assert inRun ==> ToValid(s, inRun) == ToValid(s[1..], true);
      } else {
        ToValidIsValid(s[Width(s)..], false);
        FrontAlone(s);
        FrontAndRest(s[..Width(s)], ToValid(s[Width(s)..], false));
      }
    }
  }

  lemma {:induction false} ToValidOfValid(s: Bytes, inRun: bool)
    requires Valid(s)
    ensures ToValid(s, inRun) == s
  {
    if s != [] { ToValidOfValid(s[Width(s)..], false); }
  }

  lemma {:induction false} DropControlsCleans(s: Bytes)
    requires Valid(s)
    ensures Clean(DropControls(s))
  {
    if s != [] {
      var w := Width(s);
      DropControlsCleans(s[w..]);
      if IsKept(Rune(s)) {
        FrontAlone(s);
        FrontAndRest(s[..w], DropControls(s[w..]));
      } else {
        assert DropControls(s) == DropControls(s[w..]);
      }
    }
  }

  lemma {:induction false} CleanIsValidAndKept(s: Bytes)
    requires Clean(s)
    ensures Valid(s) && DropControls(s) == s
  {
    if s != [] { CleanIsValidAndKept(s[Width(s)..]); }
  }

  /** Whatever bytes a guest sent, sanitising makes them clean, and changes nothing in
      text that is clean already; so it is idempotent. */
  lemma SanitizeIsCleanAndIdempotent(s: Bytes)
    ensures Clean(Sanitize(s)) && Valid(Sanitize(s))
    ensures Clean(s) ==> Sanitize(s) == s
    ensures Sanitize(Sanitize(s)) == Sanitize(s)
  {
    ToValidIsValid(s, false);
    DropControlsCleans(ToValid(s, false));
    SanitizeClean(Sanitize(s));
    if Clean(s) { SanitizeClean(s); }
  }

  lemma SanitizeClean(s: Bytes)
    requires Clean(s)
    ensures Sanitize(s) == s && Valid(s)
  {
    CleanIsValidAndKept(s);
    ToValidOfValid(s, false);
  }

  // ------------------------------------------------------------------ truncating

  /** `k` bytes are a whole number of runes of `s`. */
  predicate Boundary(s: Bytes, k: int)
    decreases |s|
  {
    k == 0 || (s != [] && Step(s) <= k && Boundary(s[Step(s)..], k - Step(s)))
  }

  function CutAt(s: Bytes, max: nat): (n: nat)
    ensures n <= max && n <= |s|
    decreases |s|
  {
    if s == [] || Step(s) > max then 0 else Step(s) + CutAt(s[Step(s)..], max - Step(s))
  }

  lemma {:induction false} CutIsLongest(s: Bytes, max: nat)
    ensures Boundary(s, CutAt(s, max))
    ensures forall k :: 0 <= k <= max && Boundary(s, k) ==> k <= CutAt(s, max)
    ensures CutAt(s, max) == |s| <==> |s| <= max
    decreases |s|
  {
    if s != [] && Step(s) <= max {
      CutIsLongest(s[Step(s)..], max - Step(s));
      forall k | 0 <= k <= max && Boundary(s, k) ensures k <= CutAt(s, max) {
        if k != 0 { assert Boundary(s[Step(s)..], k - Step(s)); }
      }
    }
  }

  lemma {:induction false} CleanPrefix(s: Bytes, k: nat)
    requires Clean(s) && Boundary(s, k) && k <= |s|
    ensures Clean(s[..k])
    decreases |s|
  {
    if k > 0 {
      var w := Width(s);
      CleanPrefix(s[w..], k - w);
      assert s[..k][..w] == s[..w];
      WidthLocal(s, s[..k]);
      assert s[..k][w..] == s[w..][..k - w];
    }
  }

  function Max0(n: int): nat { if n < 0 then 0 else n }

  function Truncated(s: Bytes, max: int): Bytes { s[..CutAt(s, Max0(max))] }

  lemma CutStep(value: Bytes, start: nat, limit: nat, width: nat, end: nat)
    requires start < |value| && start <= limit && width == Step(value[start..])
    requires end == if start + width <= limit then start + width else start
    ensures end <= |value| && (start + width <= limit <==> start < end)
    ensures CutAt(value[start..], limit - start) ==
              if start < end then end - start + CutAt(value[end..], limit - end) else 0
  {
    assert value[start..][width..] == value[start + width..];
  }

  method TruncateUTF8(value: Bytes, maxBytes: int) returns (out: Bytes, cut: bool)
    ensures out == Truncated(value, maxBytes)
    ensures cut <==> |value| > Max0(maxBytes)
  {
    var limit := maxBytes;
    if limit < 0 { limit := 0; }
    CutIsLongest(value, limit);
    if |value| <= limit { return value, false; }
    var end := CutLoop(value, limit);
    return value[..end], true;
  }

  // The loop of `truncateUTF8`.
  method CutLoop(value: Bytes, limit: nat) returns (end: nat)
    ensures end == CutAt(value, limit)
  {
    end := 0;
    ghost var rest := CutAt(value, limit);
    assert value[0..] == value;
    var more := true;
    while end < |value| && more
      invariant 0 <= end <= limit && end <= |value|
      invariant rest == if more then CutAt(value[end..], limit - end) else 0
      invariant CutAt(value, limit) == end + rest
      decreases |value| - end, more
    {
      more, rest, end := Advance(value, end, limit);
    }
    assert end == |value| ==> value[end..] == [];
  }

  method Advance(value: Bytes, start: nat, limit: nat) returns (more: bool, ghost rest: nat, end: nat)
    requires start < |value| && start <= limit
    ensures start <= end <= limit && end <= |value| && (more <==> start < end)
    ensures rest == if more then CutAt(value[end..], limit - end) else 0
    ensures CutAt(value[start..], limit - start) == end - start + rest
  {
    var width := Step(value[start..]);
    more := start + width <= limit;
    end := if more then start + width else start;
    CutStep(value, start, limit, width, end);
    rest := if more then CutAt(value[end..], limit - end) else 0;
  }

  /** Truncating sanitised text gives its longest prefix of whole runes within the
      limit, still clean, and shorter exactly when the text was too long. */
  lemma TruncateSanitized(s: Bytes, max: int)
    ensures var t := Sanitize(s); var out := Truncated(t, max);
            && Clean(out) && out <= t && |out| <= Max0(max) && Boundary(t, |out|)
            && (forall k :: 0 <= k <= Max0(max) && Boundary(t, k) ==> k <= |out|)
            && (out == t <==> |t| <= Max0(max))
  {
    SanitizeIsCleanAndIdempotent(s);
    CutIsLongest(Sanitize(s), Max0(max));
    CleanPrefix(Sanitize(s), CutAt(Sanitize(s), Max0(max)));
  }
}
