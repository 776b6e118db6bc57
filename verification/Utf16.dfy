/** UTF-16 as the executor writes it for PowerShell and reads it back from a command's
    output (sections 2.1 and 2.2 of RFC 2781): `encodePowerShell` before base64,
    `normalizePortableOutput` and `decodeUTF16`. */
module Utf16 {
  import opened Records
  import opened Utf8

  type Scalar = r: int | 0 <= r < 0xD800 || 0xE000 <= r <= 0x10FFFF

  type Word = w: int | 0 <= w < 0x1_0000

  predicate IsHigh(w: Word) { 0xD800 <= w < 0xDC00 }

  predicate IsLow(w: Word) { 0xDC00 <= w < 0xE000 }

  // ------------------------------------------------- strings as runes and back

  // The conversion []rune(s).
  function Runes(s: Bytes): seq<Scalar> {
    if s == [] then []
    else
      var r: Scalar := if Width(s) == 0 then RUNE_ERROR else Rune(s);
      [r] + Runes(s[Step(s)..])
  }

  function EncodeRune(r: Scalar): Bytes {
    if r < 0x80 then [r]
    else if r < 0x800 then [0xC0 + r / 0x40, 0x80 + r % 0x40]
    else if r < 0x1_0000 then [0xE0 + r / 0x1000, 0x80 + r / 0x40 % 0x40, 0x80 + r % 0x40]
    else [0xF0 + r / 0x40000, 0x80 + r / 0x1000 % 0x40, 0x80 + r / 0x40 % 0x40, 0x80 + r % 0x40]
  }

  // The conversion string(runes).
  function Text(runes: seq<Scalar>): Bytes {
    if runes == [] then [] else EncodeRune(runes[0]) + Text(runes[1..])
  }

  /** Encoding a rune gives the one well-formed sequence that decodes to it. */
  lemma RuneRoundTrip(r: Scalar)
    ensures Width(EncodeRune(r)) == |EncodeRune(r)| > 0 && Rune(EncodeRune(r)) == r
  {
    assert r == r / 0x40 * 0x40 + r % 0x40;
    assert r / 0x40 == r / 0x1000 * 0x40 + r / 0x40 % 0x40;
    assert r / 0x1000 == r / 0x40000 * 0x40 + r / 0x1000 % 0x40;
  }

  lemma SixBits(q: nat, t: nat)
    requires t < 0x40
    ensures (q * 0x40 + t) / 0x40 == q && (q * 0x40 + t) % 0x40 == t
  {}

  lemma Shifts(r: nat)
    ensures r / 0x40 / 0x40 == r / 0x1000 && r / 0x1000 / 0x40 == r / 0x40000
  {}

  lemma ThreeBytes(s: Bytes)
    requires Width(s) == 3
    ensures EncodeRune(Rune(s)) == s[..3]
  {
    var q := (s[0] - 0xE0) * 0x40 + Tail(s, 1);
    SixBits(s[0] - 0xE0, Tail(s, 1));
    SixBits(q, Tail(s, 2));
    Shifts(Rune(s));
  }

  lemma FourBytes(s: Bytes)
    requires Width(s) == 4
    ensures EncodeRune(Rune(s)) == s[..4]
  {
    var p := (s[0] - 0xF0) * 0x40 + Tail(s, 1);
    var q := p * 0x40 + Tail(s, 2);
    SixBits(s[0] - 0xF0, Tail(s, 1));
    SixBits(p, Tail(s, 2));
    SixBits(q, Tail(s, 3));
    Shifts(Rune(s));
  }

  lemma FrontIsEncoded(s: Bytes)
    requires Width(s) > 0
    ensures EncodeRune(Rune(s)) == s[..Width(s)]
  {
    match Width(s)
    case 1 =>
    case 2 => SixBits(s[0] - 0xC0, Tail(s, 1));
    case 3 => ThreeBytes(s);
    case _ => FourBytes(s);
  }

  lemma TextCons(r: Scalar, rest: seq<Scalar>)
    ensures Text([r] + rest) == EncodeRune(r) + Text(rest)
  {}

  lemma EncodedError()
    ensures EncodeRune(RUNE_ERROR) == REPLACEMENT
  {}

  lemma TextStep(s: Bytes)
    requires s != []
    ensures Text(Runes(s)) == (if Width(s) == 0 then REPLACEMENT else s[..Width(s)]) + Text(Runes(s[Step(s)..]))
  {
    TextCons(Runes(s)[0], Runes(s[Step(s)..]));
    if Width(s) > 0 { FrontIsEncoded(s); } else { EncodedError(); }
  }

  // How many ill-formed bytes there are.
  function Faults(s: Bytes): nat {
    if s == [] then 0 else (if Width(s) == 0 then 1 else 0) + Faults(s[Step(s)..])
  }

  lemma {:induction false} FaultsOfValid(s: Bytes)
    ensures Faults(s) == 0 <==> Utf8.Valid(s)
  {
    if s != [] { FaultsOfValid(s[Step(s)..]); }
  }

  lemma FrontAndTail(s: Bytes, text: Bytes, tail: Bytes)
    requires s != [] && text == (if Width(s) == 0 then REPLACEMENT else s[..Width(s)]) + tail
    ensures |text| == Step(s) + (if Width(s) == 0 then 2 else 0) + |tail|
    ensures Width(s) > 0 && tail == s[Step(s)..] ==> text == s
  {}

  lemma TextStepLength(s: Bytes)
    requires s != []
    ensures |Text(Runes(s))| == Step(s) + (if Width(s) == 0 then 2 else 0) + |Text(Runes(s[Step(s)..]))|
    ensures Width(s) > 0 && Text(Runes(s[Step(s)..])) == s[Step(s)..] ==> Text(Runes(s)) == s
  {
    TextStep(s);
    FrontAndTail(s, Text(Runes(s)), Text(Runes(s[Step(s)..])));
  }

  /** Ill-formed bytes are replaced one by one, each by three; everything else comes back. */
  lemma {:induction false} TextOfRunes(s: Bytes)
    ensures |Text(Runes(s))| == |s| + 2 * Faults(s)
    ensures Faults(s) == 0 ==> Text(Runes(s)) == s
    ensures Faults(s) == 0 <==> Utf8.Valid(s)
  {
    FaultsOfValid(s);
    if s != [] {
      TextStepLength(s);
      TextOfRunes(s[Step(s)..]);
    }
  }

  lemma {:induction false} TextIsValid(runes: seq<Scalar>)
    ensures Valid(Text(runes)) && Runes(Text(runes)) == runes
  {
    if runes != [] {
      TextIsValid(runes[1..]);
      RuneRoundTrip(runes[0]);
      FrontAndRest(EncodeRune(runes[0]), Text(runes[1..]));
      assert runes == [runes[0]] + runes[1..];
    }
  }

  // -------------------------------------------------------------------- words

  function RuneWords(r: Scalar): seq<Word> {
    if r < 0x1_0000 then [r] else [0xD800 + (r - 0x1_0000) / 0x400, 0xDC00 + (r - 0x1_0000) % 0x400]
  }

  // utf16.Encode.
  function Words(runes: seq<Scalar>): seq<Word> {
    if runes == [] then [] else RuneWords(runes[0]) + Words(runes[1..])
  }

  predicate IsPair(w: seq<Word>) { |w| >= 2 && IsHigh(w[0]) && IsLow(w[1]) }

  // utf16.Decode: a surrogate outside a pair becomes U+FFFD.
  function Decoded(w: seq<Word>): seq<Scalar> {
    if w == [] then []
    else if IsPair(w) then [0x1_0000 + (w[0] - 0xD800) * 0x400 + (w[1] - 0xDC00)] + Decoded(w[2..])
    else if IsHigh(w[0]) || IsLow(w[0]) then [RUNE_ERROR] + Decoded(w[1..])
    else [w[0]] + Decoded(w[1..])
  }

  predicate Paired(w: seq<Word>) {
    w == [] || (if IsPair(w) then Paired(w[2..]) else !IsHigh(w[0]) && !IsLow(w[0]) && Paired(w[1..]))
  }

  lemma {:induction false} DecodedOfWords(runes: seq<Scalar>)
    ensures Decoded(Words(runes)) == runes && Paired(Words(runes))
  {
    if runes != [] {
      DecodedOfWords(runes[1..]);
      var front, rest := RuneWords(runes[0]), Words(runes[1..]);
      assert (front + rest)[|front|..] == rest;
      assert runes == [runes[0]] + runes[1..];
    }
  }

  /** Decoding loses nothing exactly when every surrogate has its partner. */
  lemma {:induction false} WordsOfDecoded(w: seq<Word>)
    ensures |Words(Decoded(w))| == |w|
    ensures Words(Decoded(w)) == w <==> Paired(w)
  {
    if w != [] {
      var n := if IsPair(w) then 2 else 1;
      var rest := w[n..];
      WordsOfDecoded(rest);
      var front := RuneWords(Decoded(w)[0]);
      assert Decoded(w)[1..] == Decoded(rest);
      assert Words(Decoded(w)) == front + Words(Decoded(rest));
      assert w == w[..n] + rest && |front| == n;
      assert (front + Words(Decoded(rest)))[n..] == Words(Decoded(rest));
      if IsPair(w) {
        assert front == w[..2];
      } else {
        assert front == w[..1] <==> !IsHigh(w[0]) && !IsLow(w[0]);
        assert front + Words(Decoded(rest)) == w ==> front == w[..1];
      }
    }
  }

  // -------------------------------------------------------------------- bytes

  function WordBytes(w: Word, bigEndian: bool): Bytes {
    if bigEndian then [w / 0x100, w % 0x100] else [w % 0x100, w / 0x100]
  }

  function Layout(words: seq<Word>, bigEndian: bool): Bytes {
    if words == [] then [] else WordBytes(words[0], bigEndian) + Layout(words[1..], bigEndian)
  }

  function WordAt(b: Bytes, i: nat, bigEndian: bool): Word
    requires i + 1 < |b|
  {
    var first: int, second: int := b[i], b[i + 1];
    if bigEndian then first * 0x100 + second else first + second * 0x100
  }

  // The whole words; an odd last byte is dropped.
  function WordsIn(b: Bytes, bigEndian: bool): seq<Word> {
    seq(|b| / 2, i requires 0 <= i < |b| / 2 => WordAt(b, 2 * i, bigEndian))
  }

  lemma {:induction false} LayoutAppend(words: seq<Word>, w: Word, bigEndian: bool)
    ensures Layout(words + [w], bigEndian) == Layout(words, bigEndian) + WordBytes(w, bigEndian)
  {
    if words == [] {
      assert words + [w] == [w];
    } else {
      LayoutAppend(words[1..], w, bigEndian);
      assert (words + [w])[1..] == words[1..] + [w];
    }
  }

  lemma WordsInLayout(words: seq<Word>, bigEndian: bool)
    ensures WordsIn(Layout(words, bigEndian), bigEndian) == words
  {}

  lemma WordAtRest(b: Bytes, i: nat, bigEndian: bool)
    requires 2 * i + 3 < |b|
    ensures WordAt(b[2..], 2 * i, bigEndian) == WordAt(b, 2 * (i + 1), bigEndian)
  {}

  lemma WordsRest(b: Bytes, bigEndian: bool)
    requires |b| >= 2
    ensures WordsIn(b, bigEndian) == [WordAt(b, 0, bigEndian)] + WordsIn(b[2..], bigEndian)
  {
    forall i | 0 <= i < |b| / 2 - 1 ensures WordsIn(b[2..], bigEndian)[i] == WordsIn(b, bigEndian)[i + 1] {
      WordAtRest(b, i, bigEndian);
    }
  }

  lemma WholeBytes(b: Bytes)
    requires |b| >= 2
    ensures b[..|b| - |b| % 2] == b[..2] + b[2..][..|b[2..]| - |b[2..]| % 2]
  {}

  /** Decoding bytes into words loses nothing but an odd last byte. */
  lemma {:induction false} OddByteIsDropped(b: Bytes, bigEndian: bool)
    ensures Layout(WordsIn(b, bigEndian), bigEndian) == b[..|b| - |b| % 2]
  {
    if |b| >= 2 {
      OddByteIsDropped(b[2..], bigEndian);
      WordsRest(b, bigEndian);
      WholeBytes(b);
      assert WordBytes(WordAt(b, 0, bigEndian), bigEndian) == b[..2];
    } else {
      assert WordsIn(b, bigEndian) == [] && b[..|b| - |b| % 2] == [];
    }
  }

  // -------------------------------------------------------------- the methods

  /** `encodePowerShell`, before base64: the loop over the words. */
  method EncodePowerShell(s: Bytes) returns (b: array<Byte>)
    ensures fresh(b) && b[..] == Layout(Words(Runes(s)), false)
  {
    var words := Words(Runes(s));
    b := new Byte[|words| * 2](_ => 0);
    for i := 0 to |words|
      invariant b[..2 * i] == Layout(words[..i], false)
    {
      b[i * 2] := words[i] % 0x100;
      b[i * 2 + 1] := words[i] / 0x100;
      LayoutAppend(words[..i], words[i], false);
      assert words[..i + 1] == words[..i] + [words[i]];
      assert b[..2 * (i + 1)] == b[..2 * i] + [b[2 * i], b[2 * i + 1]];
    }
    assert words[..|words|] == words && b[..2 * |words|] == b[..];
  }

  /** `decodeUTF16`. */
  method DecodeUTF16(b: Bytes, bigEndian: bool) returns (text: Bytes)
    ensures text == Text(Decoded(WordsIn(b, bigEndian)))
  {
    var words: seq<Word> := [];
    var i := 0;
    while i + 1 < |b|
      invariant i == 2 * |words| && i <= |b|
      invariant words == WordsIn(b, bigEndian)[..|words|]
    {
      var first: int, second: int := b[i], b[i + 1];
      var word := first + second * 0x100;
      if bigEndian { word := first * 0x100 + second; }
      assert word == WordsIn(b, bigEndian)[|words|];
      words := words + [word];
      i := i + 2;
    }
    assert WordsIn(b, bigEndian)[..|b| / 2] == WordsIn(b, bigEndian);
    text := Text(Decoded(words));
  }

  function Zeros(data: Bytes): (n: nat)
    ensures n <= |data|
  {
    if data == [] then 0 else (if data[0] == 0 then 1 else 0) + Zeros(data[1..])
  }

  lemma {:induction false} ZerosCounted(data: Bytes)
    ensures Zeros(data) == multiset(data)[0]
  {
    if data != [] {
      ZerosCounted(data[1..]);
      assert data == [data[0]] + data[1..];
    }
  }

  predicate HasMark(data: Bytes) { |data| >= 2 && data[0] == 0xFF && data[1] == 0xFE }

  predicate LooksWide(data: Bytes) { |data| >= 2 && (HasMark(data) || Zeros(data) > |data| / 4) }

  function Portable(data: Bytes): Bytes {
    if LooksWide(data) then Text(Decoded(WordsIn(if HasMark(data) then data[2..] else data, false)))
    else ToValid(data, false)
  }

  // A byte order mark in front, or more than a quarter of zero bytes.
  ghost predicate Recognised(data: Bytes) {
    |data| >= 2 && (data[..2] == [0xFF, 0xFE] || multiset(data)[0] > |data| / 4)
  }

  lemma ByCount(data: Bytes)
    ensures LooksWide(data) <==> Recognised(data)
    ensures |data| >= 2 ==> (HasMark(data) <==> data[..2] == [0xFF, 0xFE])
  {
    ZerosCounted(data);
  }

  /** `normalizePortableOutput`. */
  method NormalizePortableOutput(data: Bytes) returns (text: Bytes)
    ensures text == Portable(data)
    ensures text == if Recognised(data)
                    then Text(Decoded(WordsIn(if data[..2] == [0xFF, 0xFE] then data[2..] else data, false)))
                    else ToValid(data, false)
  {
    ByCount(data);
    if |data| >= 2 && ((data[0] == 0xFF && data[1] == 0xFE) || Zeros(data) > |data| / 4) {
      var rest := data;
      if data[0] == 0xFF && data[1] == 0xFE { rest := data[2..]; }
      text := DecodeUTF16(rest, false);
    } else {
      text := ToValid(data, false);
    }
  }

  // ------------------------------------------------------------- round trips

  /** Every sequence of scalar values comes back, surrogate pairs included, in either
      byte order. */
  lemma ScalarsRoundTrip(runes: seq<Scalar>, bigEndian: bool)
    ensures Decoded(WordsIn(Layout(Words(runes), bigEndian), bigEndian)) == runes
  {
    WordsInLayout(Words(runes), bigEndian);
    DecodedOfWords(runes);
  }

  /** A string survives the trip through UTF-16, read directly in either byte order or
      behind a byte order mark, exactly when it is well-formed UTF-8. */
  lemma StringRoundTrip(s: Bytes, bigEndian: bool)
    ensures Text(Decoded(WordsIn(Layout(Words(Runes(s)), bigEndian), bigEndian))) == s <==> Valid(s)
    ensures Portable([0xFF, 0xFE] + Layout(Words(Runes(s)), false)) == s <==> Valid(s)
  {
    TextOfRunes(s);
    ScalarsRoundTrip(Runes(s), bigEndian);
    ScalarsRoundTrip(Runes(s), false);
    var data := [0xFF, 0xFE] + Layout(Words(Runes(s)), false);
    assert data[2..] == Layout(Words(Runes(s)), false);
  }

  /** Whatever bytes a command wrote, what is reported is well-formed UTF-8. */
  lemma PortableIsValid(data: Bytes)
    ensures Valid(Portable(data))
  {
    if LooksWide(data) {
      TextIsValid(Decoded(WordsIn(if HasMark(data) then data[2..] else data, false)));
    } else {
      ToValidIsValid(data, false);
    }
  }

  // Without the mark the text is recognised by its zero bytes.
  lemma {:induction false} AsciiZeros(s: Bytes)
    requires forall k :: 0 <= k < |s| ==> s[k] < 0x80
    ensures Valid(s) && |Layout(Words(Runes(s)), false)| == 2 * |s|
    ensures Zeros(Layout(Words(Runes(s)), false)) >= |s|
    ensures s != [] ==> Layout(Words(Runes(s)), false)[0] == s[0]
  {
    if s != [] {
      AsciiZeros(s[1..]);
      assert Step(s) == 1;
      var rest := Layout(Words(Runes(s[1..])), false);
      assert Runes(s) == [s[0]] + Runes(s[1..]);
      assert Words(Runes(s)) == [s[0]] + Words(Runes(s[1..]));
      var b := Layout(Words(Runes(s)), false);
      assert b == [s[0], 0] + rest;
      assert b[1..] == [0] + rest && b[1..][1..] == rest;
    }
  }

  /** ASCII text comes back even when it is written without a byte order mark. */
  lemma AsciiRoundTrip(s: Bytes)
    requires forall k :: 0 <= k < |s| ==> s[k] < 0x80
    ensures Portable(Layout(Words(Runes(s)), false)) == s
  {
    var data := Layout(Words(Runes(s)), false);
    if s == [] {
      assert data == [];
    } else {
      AsciiZeros(s);
      StringRoundTrip(s, false);
      assert LooksWide(data) && !HasMark(data);
    }
  }
}
