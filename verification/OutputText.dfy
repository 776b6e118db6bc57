/** The text `shellStatus` reports of a job's output. Each slice is turned into text by
    itself, so the texts joined may differ from the text of the whole: a rune may be
    cut, and a slice with many zero bytes is read as UTF-16. */
module OutputText {
  import opened Records
  import opened Utf8
  import opened Utf16
  import opened JobOutput

  function Concat(parts: seq<Bytes>): Bytes { if parts == [] then [] else parts[0] + Concat(parts[1..]) }

  // What a reader puts together.
  function Texts(parts: seq<Bytes>): Bytes { if parts == [] then [] else Portable(parts[0]) + Texts(parts[1..]) }

  // ------------------------------------------------------- how runes are counted

  lemma FrontStays(a: Bytes, b: Bytes)
    requires Width(a) > 0
    ensures Width(a + b) == Width(a) && (a + b)[Width(a)..] == a[Width(a)..] + b
  {
    assert (a + b)[..Width(a)] == a[..Width(a)];
    WidthLocal(a, a + b);
  }

  lemma CountFront(s: Bytes)
    requires Width(s) > 0
    ensures RuneCount(s) == 1 + RuneCount(s[Width(s)..]) && (Utf8.Valid(s) <==> Utf8.Valid(s[Width(s)..]))
  {}

  lemma {:induction false} ValidAppend(a: Bytes, b: Bytes)
    requires Utf8.Valid(a)
    ensures RuneCount(a + b) == RuneCount(a) + RuneCount(b)
    ensures Utf8.Valid(a + b) <==> Utf8.Valid(b)
  {
    if a == [] {
      assert a + b == b;
    } else {
      FrontStays(a, b);
      CountFront(a);
      CountFront(a + b);
      ValidAppend(a[Width(a)..], b);
    }
  }

  // Continuation bytes without a lead are one run of ill-formed bytes.
  ghost predicate AllTails(s: Bytes) { forall i :: 0 <= i < |s| ==> IsTail(s[i]) }

  lemma LooseTail(b: Bytes, inRun: bool)
    requires b != [] && IsTail(b[0])
    ensures ToValid(b, inRun) == (if inRun then [] else REPLACEMENT) + ToValid(b[1..], true)
  {}

  lemma FewerTails(u: Bytes)
    requires u != [] && AllTails(u)
    ensures IsTail(u[0]) && AllTails(u[1..])
  {}

  lemma {:induction false} LooseTails(u: Bytes, b: Bytes, inRun: bool)
    requires u != [] && AllTails(u)
    ensures ToValid(u + b, inRun) == (if inRun then [] else REPLACEMENT) + ToValid(b, true)
  {
    FewerTails(u);
    LooseTail(u + b, inRun);
    assert (u + b)[1..] == u[1..] + b;
    if u[1..] == [] {
      assert [] + b == b;
    } else {
      LooseTails(u[1..], b, true);
    }
  }

  lemma ReplacementCounts(s: Bytes)
    ensures RuneCount(REPLACEMENT) == 1 && Utf8.Valid(REPLACEMENT)
    ensures RuneCount(REPLACEMENT + s) == 1 + RuneCount(s)
  {
    assert REPLACEMENT[3..] == [];
    ValidAppend(REPLACEMENT, s);
  }

  function Count(s: Bytes, inRun: bool): nat { RuneCount(ToValid(s, inRun)) }

  // A sequence cut short is ill-formed all through.
  lemma {:induction false} ShortSequence(s: Bytes, n: nat, k: nat, inRun: bool)
    requires Width(s) > n && k <= n
    ensures ToValid(s[k..n], inRun) == if inRun || k == n then [] else REPLACEMENT
    decreases n - k
  {
    var t := s[k..n];
    if k < n {
      assert Width(t) == 0 by { assert forall i :: 0 <= i < |t| ==> t[i] == s[k + i]; }
      assert t[1..] == s[k + 1..n];
      ShortSequence(s, n, k + 1, true);
    }
  }

  lemma TailsOfSequence(s: Bytes, n: nat)
    requires 0 < n <= Width(s)
    ensures AllTails(s[n..Width(s)])
  {
    forall i | 0 <= i < Width(s) - n ensures IsTail(s[n..Width(s)][i]) { assert s[n..Width(s)][i] == s[n + i]; }
  }

  // Text cut within or before the rune that `cut` is left of.
  ghost predicate Pieces(front: Bytes, cut: Bytes, after: Bytes, whole: Bytes, inRun: bool) {
    && AllTails(cut) && Utf8.Valid(after)
    && (cut == [] <==> Utf8.Valid(front))
    && (cut != [] ==> front != [])
    && Shares(|cut|, Count(front, inRun), RuneCount(after), RuneCount(whole), inRun)
  }

  // The runes before and after a cut make up the whole, less the rune that was cut; that
  // one shows before the cut too, unless it joins a run of ill-formed bytes.
  predicate Shares(t: nat, front: nat, after: nat, whole: nat, inRun: bool) {
    if t == 0 then front + after == whole else front + after + (if inRun then 1 else 0) >= whole
  }

  lemma CutInFirst(y: Bytes, n: nat, inRun: bool)
    requires Utf8.Valid(y) && 0 < n < Width(y)
    ensures Pieces(y[..n], y[n..Width(y)], y[Width(y)..], y, inRun)
  {
    ShortSequence(y, n, 0, inRun);
    TailsOfSequence(y, n);
    CountFront(y);
    assert y[0..n] == y[..n];
    assert Width(y[..n]) == 0 by { assert forall i :: 0 <= i < n ==> y[..n][i] == y[i]; }
    ReplacementCounts([]);
  }

  lemma PiecesGrow(first: Bytes, front: Bytes, cut: Bytes, after: Bytes, whole: Bytes, inRun: bool)
    requires Width(first) == |first| > 0 && Pieces(front, cut, after, whole, false)
    ensures Pieces(first + front, cut, after, first + whole, inRun)
  {
    assert
      && Count(first + front, inRun) == 1 + Count(front, false)
      && (Utf8.Valid(first + front) <==> Utf8.Valid(front))
    by {
      RuneThenText(first, front, inRun);
    }
    assert RuneCount(first + whole) == 1 + RuneCount(whole) by {
      FrontAndRest(first, whole);
      CountFront(first + whole);
    }
  }

  lemma RuneThenText(first: Bytes, front: Bytes, inRun: bool)
    requires Width(first) == |first| > 0
    ensures Count(first + front, inRun) == 1 + Count(front, false)
    ensures Utf8.Valid(first + front) <==> Utf8.Valid(front)
  {
    FrontAndRest(first, front);
    CountFront(first + front);
    assert (first + front)[..|first|] == first;
    assert ToValid(first + front, inRun) == first + ToValid(front, false);
    FrontAndRest(first, ToValid(front, false));
    CountFront(first + ToValid(front, false));
  }

  /** The front of well-formed text up to any byte: a cut inside a rune costs one rune
      more on this side, and leaves continuation bytes on the other. */
  lemma {:induction false} FrontCounts(y: Bytes, n: nat, inRun: bool) returns (cut: Bytes, after: Bytes)
    requires Utf8.Valid(y) && n <= |y|
    ensures y[n..] == cut + after && Pieces(y[..n], cut, after, y, inRun)
    decreases |y|
  {
    if n == 0 {
      cut, after := [], y;
      assert y[..0] == [] && y[0..] == y == [] + y;
    } else if n < Width(y) {
      cut, after := y[n..Width(y)], y[Width(y)..];
      assert y[n..] == cut + after;
      CutInFirst(y, n, inRun);
    } else {
      var first, rest, m := y[..Width(y)], y[Width(y)..], n - Width(y);
      cut, after := FrontCounts(rest, m, false);
      FrontAlone(y);
      PiecesGrow(first, rest[..m], cut, after, rest, inRun);
      CutLater(y, Width(y), n);
    }
  }

  lemma CutLater(y: Bytes, w: nat, n: nat)
    requires w <= n <= |y|
    ensures y == y[..w] + y[w..]
    ensures y[..n] == y[..w] + y[w..][..n - w]
    ensures y[n..] == y[w..][n - w..]
  {}

  // ----------------------------------------------------- slices not read as UTF-16

  ghost predicate Narrow(parts: seq<Bytes>) { forall i :: 0 <= i < |parts| ==> !LooksWide(parts[i]) }

  ghost predicate AllValid(parts: seq<Bytes>) { forall i :: 0 <= i < |parts| ==> Utf8.Valid(parts[i]) }

  lemma TextsCount(parts: seq<Bytes>)
    requires parts != [] && Narrow(parts)
    ensures RuneCount(Texts(parts)) == Count(parts[0], false) + RuneCount(Texts(parts[1..]))
  {
    ToValidIsValid(parts[0], false);
    ValidAppend(ToValid(parts[0], false), Texts(parts[1..]));
  }

  // A slice that ends within the tails a cut left.
  lemma TailsOnly(a: Bytes)
    requires AllTails(a)
    ensures Count(a, false) == (if a == [] then 0 else 1) && (Utf8.Valid(a) <==> a == [])
  {
    if a != [] {
      LooseTails(a, [], false);
      assert a + [] == a;
      ReplacementCounts([]);
      assert Width(a) == 0;
    }
  }

  // A slice that reaches past them.
  lemma PastTails(u: Bytes, b: Bytes)
    requires AllTails(u)
    ensures Count(u + b, false) == if u == [] then Count(b, false) else 1 + Count(b, true)
  {
    if u == [] {
      assert u + b == b;
    } else {
      LooseTails(u, b, false);
      ReplacementCounts(ToValid(b, true));
    }
  }

  // `v` is what is left of well-formed text after a cut: `t` continuation bytes, and more
  // well-formed text. The slices of it never read as fewer runes, and as more if a cut
  // is within a rune.
  ghost predicate Remainder(v: Bytes, t: nat) {
    t <= |v| && AllTails(v[..t]) && Utf8.Valid(v[t..])
  }

  ghost predicate CountsUp(parts: seq<Bytes>, v: Bytes, t: nat)
    requires t <= |v|
  {
    && RuneCount(Texts(parts)) >= RuneCount(v[t..]) + (if t > 0 then 1 else 0)
    && (t == 0 && !AllValid(parts) ==> RuneCount(Texts(parts)) > RuneCount(v))
  }

  lemma {:induction false} CutsAddRunes(parts: seq<Bytes>, v: Bytes, t: nat)
    requires v == Concat(parts) && Remainder(v, t) && Narrow(parts)
    ensures CountsUp(parts, v, t)
    decreases |parts|
  {
    if parts != [] {
      var a, rest, w := parts[0], parts[1..], Concat(parts[1..]);
      TextsCount(parts);
      assert v == a + w;
      var next := CutRemainder(a, w, t);
      CutsAddRunes(rest, w, next);
      assert AllValid(parts) <== Utf8.Valid(a) && AllValid(rest);
      assert v[0..] == v && w[0..] == w;
    } else {
      assert v[0..] == [];
    }
  }

  // What one slice more reads as, and what it leaves.
  ghost predicate Follows(a: Bytes, w: Bytes, t: nat, next: nat)
    requires t <= |a + w|
  {
    && Remainder(w, next)
    && Count(a, false) + RuneCount(w[next..]) + (if next > 0 then 1 else 0)
       >= RuneCount((a + w)[t..]) + (if t > 0 then 1 else 0)
    && (t == 0 && !Utf8.Valid(a) ==> next > 0)
    && (t == 0 && next > 0 ==> Count(a, false) + RuneCount(w[next..]) >= RuneCount(a + w))
  }

  lemma WithinTails(a: Bytes, w: Bytes, t: nat)
    requires Remainder(a + w, t) && |a| <= t
    ensures Follows(a, w, t, t - |a|)
  {
    var v := a + w;
    assert a == v[..t][..|a|] && w[..t - |a|] == v[..t][|a|..] && w[t - |a|..] == v[t..];
    TailsOnly(a);
    assert a == [] ==> v == w;
  }

  lemma RestIsRemainder(cut: Bytes, after: Bytes)
    requires AllTails(cut) && Utf8.Valid(after)
    ensures Remainder(cut + after, |cut|) && (cut + after)[|cut|..] == after
  {
    assert (cut + after)[..|cut|] == cut;
  }

  // The slice begins with the text: no tails before it.
  lemma NoTailsBefore(front: Bytes, cut: Bytes, after: Bytes)
    requires Pieces(front, cut, after, front + (cut + after), false)
    ensures Follows(front, cut + after, 0, |cut|)
  {
    var whole := front + (cut + after);
    RestIsRemainder(cut, after);
    assert whole[0..] == whole;
  }

  lemma SomeTailsBefore(u: Bytes, front: Bytes, cut: Bytes, after: Bytes)
    requires u != [] && AllTails(u) && Pieces(front, cut, after, front + (cut + after), true)
    ensures Follows(u + front, cut + after, |u|, |cut|)
  {
    RestIsRemainder(cut, after);
    assert ((u + front) + (cut + after))[|u|..] == front + (cut + after);
    PastTails(u, front);
  }

  lemma CutRemainder(a: Bytes, w: Bytes, t: nat) returns (next: nat)
    requires Remainder(a + w, t)
    ensures Follows(a, w, t, next)
  {
    var v := a + w;
    if |a| <= t {
      next := t - |a|;
      WithinTails(a, w, t);
    } else {
      var u, y, n := v[..t], v[t..], |a| - t;
      var cut, after := FrontCounts(y, n, u != []);
      next := |cut|;
      assert a == u + y[..n] && w == y[n..] == cut + after && y == y[..n] + (cut + after);
      if u == [] {
        NoTailsBefore(y[..n], cut, after);
        assert a == y[..n];
      } else {
        SomeTailsBefore(u, y[..n], cut, after);
      }
    }
  }

  lemma {:induction false} ValidTexts(parts: seq<Bytes>)
    requires Narrow(parts) && AllValid(parts)
    ensures Texts(parts) == Concat(parts)
  {
    if parts != [] {
      ToValidOfValid(parts[0], false);
      ValidTexts(parts[1..]);
    }
  }

  lemma NarrowTexts(parts: seq<Bytes>)
    requires Utf8.Valid(Concat(parts)) && Narrow(parts)
    ensures Texts(parts) == Concat(parts) <==> AllValid(parts)
  {
    if AllValid(parts) {
      ValidTexts(parts);
    } else {
      var v := Concat(parts);
      assert v[..0] == [] && v[0..] == v;
      CutsAddRunes(parts, v, 0);
    }
  }

  // ------------------------------------------------------------ zero bytes are lost

  lemma {:induction false} ZerosAppend(a: Bytes, b: Bytes)
    ensures Zeros(a + b) == Zeros(a) + Zeros(b)
  {
    if a == [] {
      assert a + b == b;
    } else {
      assert (a + b)[1..] == a[1..] + b;
      ZerosAppend(a[1..], b);
    }
  }

  lemma {:induction false} NoZeros(s: Bytes)
    ensures 0 !in s ==> Zeros(s) == 0
  {
    if s != [] {
      assert s == [s[0]] + s[1..];
      NoZeros(s[1..]);
    }
  }

  lemma {:induction false} ZerosRepaired(s: Bytes, inRun: bool)
    ensures Zeros(ToValid(s, inRun)) == Zeros(s)
  {
    if s != [] {
      if Width(s) == 0 {
        ZerosRepaired(s[1..], true);
        NoZeros(REPLACEMENT);
        ZerosAppend(REPLACEMENT, ToValid(s[1..], true));
        assert [] + ToValid(s[1..], true) == ToValid(s[1..], true);
      } else {
        var w := Width(s);
        ZerosRepaired(s[w..], false);
        ZerosAppend(s[..w], ToValid(s[w..], false));
        ZerosAppend(s[..w], s[w..]);
        assert s == s[..w] + s[w..];
      }
    }
  }

  function ZeroWords(words: seq<Word>): nat {
    if words == [] then 0 else (if words[0] == 0 then 1 else 0) + ZeroWords(words[1..])
  }

  function ZeroRunes(runes: seq<Scalar>): nat {
    if runes == [] then 0 else (if runes[0] == 0 then 1 else 0) + ZeroRunes(runes[1..])
  }

  lemma {:induction false} ZerosOfText(runes: seq<Scalar>)
    ensures Zeros(Text(runes)) == ZeroRunes(runes)
  {
    if runes != [] {
      ZerosOfText(runes[1..]);
      NoZeros(EncodeRune(runes[0]));
      ZerosAppend(EncodeRune(runes[0]), Text(runes[1..]));
    }
  }

  lemma {:induction false} ZeroRunesDecoded(words: seq<Word>)
    ensures ZeroRunes(Decoded(words)) == ZeroWords(words)
  {
    if words != [] {
      if IsPair(words) {
        assert words[1..][1..] == words[2..];
        ZeroRunesDecoded(words[2..]);
      } else {
        ZeroRunesDecoded(words[1..]);
      }
    }
  }

  lemma {:induction false} ZeroWordsIn(b: Bytes)
    ensures 2 * ZeroWords(WordsIn(b, false)) <= Zeros(b)
  {
    if |b| >= 2 {
      ZeroWordsIn(b[2..]);
      assert WordsIn(b, false)[1..] == WordsIn(b[2..], false);
      assert b[1..][1..] == b[2..];
    } else {
      assert WordsIn(b, false) == [];
    }
  }

  // A slice without a mark that reads as UTF-16 loses at least half of its zero bytes.
  lemma ZerosReported(b: Bytes)
    requires !HasMark(b)
    ensures Zeros(Portable(b)) <= Zeros(b)
    ensures LooksWide(b) ==> Zeros(Portable(b)) < Zeros(b)
  {
    if LooksWide(b) {
      ZeroWordsIn(b);
      ZeroRunesDecoded(WordsIn(b, false));
      ZerosOfText(Decoded(WordsIn(b, false)));
    } else {
      ZerosRepaired(b, false);
    }
  }

  ghost predicate Unmarked(parts: seq<Bytes>) { forall i :: 0 <= i < |parts| ==> !HasMark(parts[i]) }

  lemma {:induction false} TextsLoseZeros(parts: seq<Bytes>)
    requires Unmarked(parts)
    ensures Zeros(Texts(parts)) <= Zeros(Concat(parts))
    ensures !Narrow(parts) ==> Zeros(Texts(parts)) < Zeros(Concat(parts))
  {
    if parts != [] {
      TextsLoseZeros(parts[1..]);
      ZerosReported(parts[0]);
      ZerosAppend(Portable(parts[0]), Texts(parts[1..]));
      ZerosAppend(parts[0], Concat(parts[1..]));
      assert !LooksWide(parts[0]) && Narrow(parts[1..]) ==> Narrow(parts);
    }
  }

  lemma {:induction false} NoMarkByte(s: Bytes)
    requires Utf8.Valid(s)
    ensures 0xFF !in s
  {
    if s != [] {
      NoMarkByte(s[Width(s)..]);
      assert s == s[..Width(s)] + s[Width(s)..];
    }
  }

  lemma {:induction false} PartsInside(parts: seq<Bytes>)
    ensures forall i, b :: 0 <= i < |parts| && b in parts[i] ==> b in Concat(parts)
  {
    if parts != [] {
      PartsInside(parts[1..]);
      forall i, b | 0 <= i < |parts| && b in parts[i] ensures b in Concat(parts) {
        if i > 0 { assert b in parts[1..][i - 1]; }
      }
    }
  }

  lemma MarkByte(b: Bytes)
    ensures HasMark(b) ==> 0xFF in b
  {
    if b != [] { assert b[0] in b; }
  }

  lemma NoMarks(parts: seq<Bytes>)
    requires Utf8.Valid(Concat(parts))
    ensures !HasMark(Concat(parts)) && Unmarked(parts)
  {
    NoMarkByte(Concat(parts));
    PartsInside(parts);
    MarkByte(Concat(parts));
    forall i | 0 <= i < |parts| ensures !HasMark(parts[i]) { MarkByte(parts[i]); }
  }

  /** Well-formed output comes back as it was exactly when no slice has zero bytes in
      more than a quarter of it (from two bytes on) and no cut falls inside a rune, for
      any number of slices. */
  lemma OutputComesBack(parts: seq<Bytes>)
    requires Utf8.Valid(Concat(parts))
    ensures Texts(parts) == Concat(parts) <==> Narrow(parts) && AllValid(parts)
  {
    NoMarks(parts);
    if Narrow(parts) {
      NarrowTexts(parts);
    } else {
      TextsLoseZeros(parts);
    }
  }

  lemma WholeAsOneSlice(w: Bytes)
    ensures Concat([w]) == w && Texts([w]) == Portable(w)
  {
    assert w + [] == w && Portable(w) + [] == Portable(w);
  }

  lemma ReportedWhole(w: Bytes)
    requires Utf8.Valid(w)
    ensures Portable(w) == w <==> !LooksWide(w)
  {
    WholeAsOneSlice(w);
    OutputComesBack([w]);
    assert Narrow([w]) <==> !LooksWide([w][0]);
  }

  /** So, unless the whole itself reads as UTF-16, that is when the texts of the slices
      are the text of the whole. */
  lemma TextsAreTextOfWhole(parts: seq<Bytes>)
    requires Utf8.Valid(Concat(parts)) && !LooksWide(Concat(parts))
    ensures Texts(parts) == Portable(Concat(parts)) <==> Narrow(parts) && AllValid(parts)
  {
    OutputComesBack(parts);
    ReportedWhole(Concat(parts));
  }

  /** Without zero bytes only the cuts matter. */
  lemma PlainOutput(parts: seq<Bytes>)
    requires Utf8.Valid(Concat(parts)) && 0 !in Concat(parts)
    ensures Texts(parts) == Portable(Concat(parts)) <==> AllValid(parts)
  {
    PartsInside(parts);
    NoMarks(parts);
    NoZeros(Concat(parts));
    forall i | 0 <= i < |parts| ensures !LooksWide(parts[i]) { NoZeros(parts[i]); }
    TextsAreTextOfWhole(parts);
  }

  // --------------------------------------------------------- slices read as UTF-16

  // The words a slice is read as.
  function WordsOf(part: Bytes): seq<Word> { WordsIn(if HasMark(part) then part[2..] else part, false) }

  /** The slices of UTF-16 output: each is recognised as such, all but the last have an
      even length, and only the first may have the byte order mark. */
  ghost predicate WideParts(parts: seq<Bytes>) {
    && parts != []
    && (forall i :: 0 <= i < |parts| ==> LooksWide(parts[i]))
    && (forall i :: 0 <= i < |parts| - 1 ==> |parts[i]| % 2 == 0)
    && (forall i :: 0 < i < |parts| ==> !HasMark(parts[i]))
  }

  // A cut after `front` parts a high surrogate from its low one.
  predicate SplitsPair(front: seq<Word>, after: seq<Word>) {
    front != [] && after != [] && IsHigh(front[|front| - 1]) && IsLow(after[0])
  }

  ghost predicate PairsWhole(parts: seq<Bytes>) {
    forall i :: 0 <= i < |parts| - 1 ==> !SplitsPair(WordsOf(parts[i]), WordsOf(parts[i + 1]))
  }

  lemma {:induction false} TextAppend(a: seq<Scalar>, b: seq<Scalar>)
    ensures Text(a + b) == Text(a) + Text(b)
  {
    if a == [] {
      assert a + b == b;
    } else {
      assert (a + b)[1..] == a[1..] + b;
      TextAppend(a[1..], b);
    }
  }

  lemma TextInjective(a: seq<Scalar>, b: seq<Scalar>)
    ensures Text(a) == Text(b) <==> a == b
  {
    TextIsValid(a);
    TextIsValid(b);
  }

  lemma SplitsLater(a: seq<Word>, b: seq<Word>, n: nat)
    requires 0 < n <= |a|
    ensures SplitsPair(a[n..], b) <==> |a| > n && SplitsPair(a, b)
  {}

  lemma DecodedPair(a: seq<Word>, b: seq<Word>)
    requires IsPair(a)
    ensures Decoded(a) == [Decoded(a)[0]] + Decoded(a[2..])
    ensures Decoded(a + b) == [Decoded(a)[0]] + Decoded(a[2..] + b)
  {
    assert (a + b)[2..] == a[2..] + b;
  }

  lemma DecodedSingle(a: seq<Word>, b: seq<Word>)
    requires a != [] && !IsPair(a) && !IsPair(a + b)
    ensures Decoded(a) == [Decoded(a)[0]] + Decoded(a[1..])
    ensures Decoded(a + b) == [Decoded(a)[0]] + Decoded(a[1..] + b)
  {
    assert (a + b)[1..] == a[1..] + b;
  }

  // One step of decoding, when it does not reach into what is appended.
  lemma DecodedStep(a: seq<Word>, b: seq<Word>, n: nat)
    requires a != [] && n == (if IsPair(a) then 2 else 1) && !(SplitsPair(a, b) && |a| == 1)
    ensures Decoded(a) == [Decoded(a)[0]] + Decoded(a[n..])
    ensures Decoded(a + b) == [Decoded(a)[0]] + Decoded(a[n..] + b)
  {
    if IsPair(a) { DecodedPair(a, b); } else { DecodedSingle(a, b); }
  }

  lemma PairAcross(a: seq<Word>, b: seq<Word>)
    requires SplitsPair(a, b) && |a| == 1
    ensures |Decoded(a + b)| == |Decoded(a)| + |Decoded(b)| - 1
  {
    assert IsPair(a + b) && (a + b)[2..] == b[1..];
    assert Decoded(a) == [RUNE_ERROR] + Decoded(a[1..]) && a[1..] == [];
  }

  // The claim for `a`, from the claim for what is left of it after a step.
  lemma StepAppends(x: Scalar, tail: seq<Scalar>, whole: seq<Scalar>, after: seq<Scalar>, split: bool)
    requires if split then |whole| == |tail| + |after| - 1 else whole == tail + after
    ensures if split then |[x] + whole| == |[x] + tail| + |after| - 1 else [x] + whole == ([x] + tail) + after
  {}

  lemma {:induction false} DecodedAppend(a: seq<Word>, b: seq<Word>)
    ensures if SplitsPair(a, b) then |Decoded(a + b)| == |Decoded(a)| + |Decoded(b)| - 1
            else Decoded(a + b) == Decoded(a) + Decoded(b)
  {
    if a == [] {
      assert a + b == b;
    } else if SplitsPair(a, b) && |a| == 1 {
      PairAcross(a, b);
    } else {
      var n := if IsPair(a) then 2 else 1;
      DecodedAppend(a[n..], b);
      SplitsLater(a, b, n);
      DecodedStep(a, b, n);
      StepAppends(Decoded(a)[0], Decoded(a[n..]), Decoded(a[n..] + b), Decoded(b), SplitsPair(a, b));
    }
  }

  function AllWords(parts: seq<Bytes>): seq<Word> {
    if parts == [] then [] else WordsOf(parts[0]) + AllWords(parts[1..])
  }

  function AllDecoded(parts: seq<Bytes>): seq<Scalar> {
    if parts == [] then [] else Decoded(WordsOf(parts[0])) + AllDecoded(parts[1..])
  }

  lemma WideRest(parts: seq<Bytes>)
    requires WideParts(parts) && |parts| > 1
    ensures WideParts(parts[1..]) && !HasMark(parts[1]) && WordsOf(parts[1]) != []
    ensures PairsWhole(parts) <==> !SplitsPair(WordsOf(parts[0]), WordsOf(parts[1])) && PairsWhole(parts[1..])
  {
    var rest := parts[1..];
    assert forall i :: 0 <= i < |rest| ==> rest[i] == parts[i + 1];
    assert WordsOf(parts[1]) == WordsIn(parts[1], false);
    if PairsWhole(rest) && !SplitsPair(WordsOf(parts[0]), WordsOf(parts[1])) {
      forall i | 0 <= i < |parts| - 1 ensures !SplitsPair(WordsOf(parts[i]), WordsOf(parts[i + 1])) {
        if i > 0 { assert !SplitsPair(WordsOf(rest[i - 1]), WordsOf(rest[i])); }
      }
    }
    if PairsWhole(parts) {
      forall i | 0 <= i < |rest| - 1 ensures !SplitsPair(WordsOf(rest[i]), WordsOf(rest[i + 1])) {
        assert !SplitsPair(WordsOf(parts[i + 1]), WordsOf(parts[i + 2]));
      }
    }
  }

  lemma {:induction false} DecodedParts(parts: seq<Bytes>)
    requires WideParts(parts)
    ensures |Decoded(AllWords(parts))| <= |AllDecoded(parts)|
    ensures Decoded(AllWords(parts)) == AllDecoded(parts) <==> PairsWhole(parts)
  {
    var front, rest := WordsOf(parts[0]), parts[1..];
    DecodedAppend(front, AllWords(rest));
    if |parts| == 1 {
      assert AllWords(rest) == [] && AllDecoded(rest) == [];
      assert Decoded([]) == [];
    } else {
      WideRest(parts);
      DecodedParts(rest);
      assert AllWords(rest)[0] == WordsOf(parts[1])[0];
      assert Decoded(front) + Decoded(AllWords(rest)) == Decoded(front) + AllDecoded(rest)
             <==> Decoded(AllWords(rest)) == AllDecoded(rest) by {
        SameAfterFront(Decoded(front), Decoded(AllWords(rest)), AllDecoded(rest));
      }
    }
  }

  lemma SameAfterFront(front: seq<Scalar>, x: seq<Scalar>, y: seq<Scalar>)
    ensures front + x == front + y <==> x == y
  {
    assert (front + x)[|front|..] == x && (front + y)[|front|..] == y;
  }

  lemma {:induction false} TextsDecode(parts: seq<Bytes>)
    requires WideParts(parts)
    ensures Texts(parts) == Text(AllDecoded(parts))
  {
    var rest := parts[1..];
    TextAppend(Decoded(WordsOf(parts[0])), AllDecoded(rest));
    if |parts| > 1 {
      WideRest(parts);
      TextsDecode(rest);
    } else {
      assert Texts(rest) == [] && AllDecoded(rest) == [] && Text([]) == [];
    }
  }

  lemma WordsAppend(a: Bytes, b: Bytes)
    requires |a| % 2 == 0
    ensures WordsIn(a + b, false) == WordsIn(a, false) + WordsIn(b, false)
  {
    forall i | 0 <= i < |a + b| / 2 ensures WordsIn(a + b, false)[i] == (WordsIn(a, false) + WordsIn(b, false))[i] {
      if 2 * i >= |a| { assert (a + b)[2 * i] == b[2 * (i - |a| / 2)]; }
    }
  }

  lemma {:induction false} WideZeros(parts: seq<Bytes>)
    requires WideParts(parts) && !HasMark(parts[0])
    ensures 4 * Zeros(Concat(parts)) > |Concat(parts)|
  {
    ZerosAppend(parts[0], Concat(parts[1..]));
    if |parts| > 1 {
      WideRest(parts);
      WideZeros(parts[1..]);
    } else {
      assert Concat(parts[1..]) == [];
    }
  }

  lemma MarkInFront(a: Bytes, b: Bytes)
    requires |a| >= 2
    ensures HasMark(a + b) == HasMark(a) && (a + b)[2..] == a[2..] + b
  {
    assert (a + b)[0] == a[0] && (a + b)[1] == a[1];
  }

  lemma {:induction false} WideWords(parts: seq<Bytes>)
    requires WideParts(parts)
    ensures HasMark(Concat(parts)) == HasMark(parts[0]) && |Concat(parts)| >= 2
    ensures WordsOf(Concat(parts)) == AllWords(parts)
  {
    MarkInFront(parts[0], Concat(parts[1..]));
    if |parts| == 1 {
      WholeAsOneSlice(parts[0]);
      assert parts == [parts[0]];
      assert AllWords(parts[1..]) == [] && WordsOf(parts[0]) + [] == WordsOf(parts[0]);
    } else {
      WideRest(parts);
      WideWords(parts[1..]);
      WordsAppend(if HasMark(parts[0]) then parts[0][2..] else parts[0], Concat(parts[1..]));
    }
  }

  /** UTF-16 output read in recognisable slices of whole words: the texts of the slices
      are the text of the whole exactly when no cut parts a surrogate pair. */
  lemma WideOutput(parts: seq<Bytes>)
    requires WideParts(parts)
    ensures LooksWide(Concat(parts))
    ensures Texts(parts) == Portable(Concat(parts)) <==> PairsWhole(parts)
  {
    WideWords(parts);
    if !HasMark(parts[0]) { WideZeros(parts); }
    TextsDecode(parts);
    DecodedParts(parts);
    TextInjective(AllDecoded(parts), Decoded(AllWords(parts)));
  }

  // ----------------------------------------------------------------- two examples

  lemma TwoSlices(a: Bytes, b: Bytes)
    ensures Concat([a, b]) == a + b && Texts([a, b]) == Portable(a) + Portable(b)
  {
    WholeAsOneSlice(b);
    assert [a, b][1..] == [b];
  }

  // The same for one cut.
  lemma OneCut(a: Bytes, b: Bytes)
    requires Utf8.Valid(a + b)
    ensures Portable(a) + Portable(b) == a + b ==> !LooksWide(a) && !LooksWide(b)
  {
    TwoSlices(a, b);
    OutputComesBack([a, b]);
    assert Narrow([a, b]) ==> !LooksWide([a, b][0]) && !LooksWide([a, b][1]);
  }

  lemma SliceTexts(a: Bytes, b: Bytes)
    ensures SliceFrom(a, 0).output == Portable(a) && SliceFrom(a + b, |a|).output == Portable(b)
  {
    assert a[0..] == a && (a + b)[|a|..] == b;
  }

  /** A cut between two runes is not enough: these slices of well-formed output, which
      comes back whole, do not come back. */
  lemma ZeroByteIsLost()
    ensures var a: Bytes, b: Bytes := [0x78, 0], [0x79, 0x7A];
            && Utf8.Valid(a + b) && SliceFrom(a + b, 0).output == a + b && Utf8.Valid(a) && Utf8.Valid(b)
            && SliceFrom(a, 0).output + SliceFrom(a + b, |a|).output != a + b
  {
    var a: Bytes, b: Bytes := [0x78, 0], [0x79, 0x7A];
    AsciiIsValid(a);
    AsciiIsValid(b);
    AsciiIsValid(a + b);
    ZerosAppend(a, b);
    NoZeros(b);
    ZerosOfA();
    OneCut(a, b);
    ReportedWhole(a + b);
    SliceTexts(a, b);
    SliceTexts(a + b, []);
  }

  lemma ZerosOfA()
    ensures Zeros([0x78, 0]) == 1
  {
    assert [0x78, 0][1..] == [0] && [0][1..] == [];
  }

  lemma {:induction false} AsciiIsValid(s: Bytes)
    requires forall k :: 0 <= k < |s| ==> s[k] < 0x80
    ensures Utf8.Valid(s)
  {
    if s != [] { AsciiIsValid(s[1..]); }
  }

  /** Nor are whole words needed when the whole reads as UTF-16: four zero bytes cut after
      the first read as two zero characters either way. */
  lemma OddCutMayAgree()
    ensures Texts([[0], [0, 0, 0]]) == Portable(Concat([[0], [0, 0, 0]])) == [0, 0]
    ensures !LooksWide([0]) && LooksWide([0, 0, 0]) && LooksWide(Concat([[0], [0, 0, 0]]))
  {
    var parts: seq<Bytes> := [[0], [0, 0, 0]];
    assert parts[1..] == [[0, 0, 0]] && parts[1..][1..] == [];
    assert Concat(parts) == [0, 0, 0, 0];
    assert WordsIn([0, 0, 0, 0], false) == [0, 0] && WordsIn([0, 0, 0], false) == [0];
    assert Zeros([0, 0, 0]) == 3 by { assert [0, 0, 0][1..] == [0, 0]; assert [0, 0][1..] == [0]; }
    assert Zeros([0, 0, 0, 0]) == 4 by { assert [0, 0, 0, 0][1..] == [0, 0, 0]; }
    assert Decoded([0]) == [0] && Decoded([0, 0]) == [0, 0];
    assert Text([0]) == [0] && Text([0, 0]) == [0, 0];
    AsciiIsValid([0]);
    ToValidOfValid([0], false);
  }

  // ----------------------------------------------------------------- over any run

  function Raws(slices: seq<Slice>): seq<Bytes> { seq(|slices|, i requires 0 <= i < |slices| => slices[i].raw) }

  function Outputs(slices: seq<Slice>): Bytes {
    if slices == [] then [] else slices[0].output + Outputs(slices[1..])
  }

  lemma {:induction false} OutputsAreTexts(written: Bytes, offset: nat, run: seq<Happening>)
    ensures var slices := Slices(written, offset, run);
            Outputs(slices) == Texts(Raws(slices)) && Joined(slices) == Concat(Raws(slices))
    decreases |run|
  {
    if run != [] {
      if run[0].Wrote? {
        OutputsAreTexts(written + run[0].p, offset, run[1..]);
      } else {
        var slice := SliceFrom(Captured(written), offset);
        var later := Slices(written, slice.nextOffset, run[1..]);
        OutputsAreTexts(written, slice.nextOffset, run[1..]);
        assert ([slice] + later)[1..] == later;
        assert Raws([slice] + later) == [slice.raw] + Raws(later);
      }
    }
  }

  /** A reader that starts at 0, follows `nextOffset` and asks once more after the job has
      ended: well-formed output is what it has put together exactly when no slice read
      as UTF-16 and none ended inside a rune. */
  lemma ReaderGetsText(run: seq<Happening>)
    requires run != [] && run[|run| - 1].Asked? && Utf8.Valid(Captured(WrittenAfter([], run)))
    ensures var slices := Slices([], 0, run);
            Outputs(slices) == Captured(WrittenAfter([], run)) <==> Narrow(Raws(slices)) && AllValid(Raws(slices))
  {
    ReaderGetsCaptured(run);
    OutputsAreTexts([], 0, run);
    OutputComesBack(Raws(Slices([], 0, run)));
  }
}
