/** The signed form of a pairing request (internal/protocol/protocol.go) and the checks
    a request passes before its signature is looked at. */
module Pairing {
  import opened Records
  import opened Utf8

  const NEWLINE: Byte := 0x0A

  // ------------------------------------------------------------------ checks

  const ALLOWED: set<Capability> := {
    "system.info", "system.network", "disk.list", "service.list", "process.list", "process.start",
    "process.stop-owned", "shell.run", "shell.run-admin", "powershell.run", "shell.start", "shell.status",
    "shell.cancel", "files.list", "files.read", "files.read-chunk", "files.write", "files.write-chunk",
    "files.upload", "files.download", "session.disconnect"}

  ghost predicate ValidCapabilities(v: seq<Capability>) {
    0 < |v| <= 32 && NoDup(v) && forall i :: 0 <= i < |v| ==> v[i] in ALLOWED
  }

  /** `validCapabilities`. */
  method CheckCapabilities(v: seq<Capability>) returns (ok: bool)
    ensures ok <==> ValidCapabilities(v)
  {
    if |v| == 0 || |v| > 32 { return false; }
    var seen: set<Capability> := {};
    for i := 0 to |v|
      invariant seen == Elements(v[..i])
      invariant NoDup(v[..i]) && forall k :: 0 <= k < i ==> v[k] in ALLOWED
    {
      if v[i] !in ALLOWED { return false; }
      if v[i] in seen {
        var k :| 0 <= k < i && v[..i][k] == v[i];
        assert v[k] == v[i];
        return false;
      }
      seen := seen + {v[i]};
      assert v[..i + 1] == v[..i] + [v[i]];
    }
    assert v[..|v|] == v;
    return true;
  }

  // Well-formed runes, none of them a control character or U+FFFD.
  predicate Printable(s: Bytes) {
    s == [] || (Width(s) > 0 && Rune(s) != RUNE_ERROR && !Utf8.IsControl(Rune(s)) && Printable(s[Width(s)..]))
  }

  predicate ValidLabel(value: Bytes, maxRunes: nat) {
    value != [] && Printable(ToValid(value, false)) && RuneCount(ToValid(value, false)) <= maxRunes
  }

  /** `validGuestLabel`: ranging over the repaired text, rune by rune. */
  method CheckLabel(value: Bytes, maxRunes: nat) returns (ok: bool)
    ensures ok <==> ValidLabel(value, maxRunes)
  {
    if value == [] { return false; }
    var rest, count := ToValid(value, false), 0;
    ghost var all := rest;
    ToValidIsValid(value, false);
    while rest != []
      invariant Valid(rest) && count <= maxRunes
      invariant Printable(all) <==> Printable(rest)
      invariant RuneCount(all) == count + RuneCount(rest)
      decreases |rest|
    {
      var (r, w) := DecodeRune(rest);
      if r == RUNE_ERROR || Utf8.IsControl(r) { return false; }
      count := count + 1;
      if count > maxRunes { return false; }
      rest := rest[w..];
    }
    return true;
  }

  ghost predicate ValidPairRequest(q: PairRequest) {
    && 60 <= q.durationSeconds <= 3600
    && ValidLabel(q.usbId, 128) && ValidLabel(q.hostname, 255) && ValidLabel(q.user, 256)
    && ValidLabel(q.os, 32) && ValidLabel(q.arch, 32)
    && 0 < |q.publicKey| <= 128 && 0 < |q.nonce| <= 128 && 0 < |q.signature| <= 256
    && ValidCapabilities(q.requested)
  }

  lemma NoNewlineInside(s: Bytes)
    requires Width(s) > 0 && s[0] != NEWLINE
    ensures NEWLINE !in s[..Width(s)]
  {}

  lemma {:induction false} NewlineIsNotPrintable(s: Bytes, inRun: bool)
    requires NEWLINE in s
    ensures !Printable(ToValid(s, inRun))
  {
    var t := ToValid(s, inRun);
    if Width(s) == 0 {
      assert s == [s[0]] + s[1..];
      NewlineIsNotPrintable(s[1..], true);
      if inRun {
        assert t == ToValid(s[1..], true);
      } else {
        FrontAndRest(REPLACEMENT, ToValid(s[1..], true));
      }
    } else {
      var w := Width(s);
      FrontAlone(s);
      FrontAndRest(s[..w], ToValid(s[w..], false));
      if s[0] != NEWLINE {
        assert s == s[..w] + s[w..];
        NoNewlineInside(s);
        NewlineIsNotPrintable(s[w..], false);
      }
    }
  }

  // ---------------------------------------------------------------- encoding

  function Digit(d: int): Byte
    requires 0 <= d < 10
  {
    0x30 + d
  }

  // %d of a natural number.
  function Digits(n: nat): Bytes {
    if n < 10 then [Digit(n)] else Digits(n / 10) + [Digit(n % 10)]
  }

  function Decimal(n: int): Bytes { if n < 0 then [0x2D] + Digits(-n) else Digits(n) }

  function NameBytes(name: Capability): Bytes { seq(|name|, i requires 0 <= i < |name| => name[i] as int % 256) }

  function Lines(lines: seq<Bytes>): Bytes {
    if lines == [] then [] else Lines(lines[..|lines| - 1]) + lines[|lines| - 1] + [NEWLINE]
  }

  function Names(requested: seq<Capability>): seq<Bytes> {
    seq(|requested|, i requires 0 <= i < |requested| => NameBytes(requested[i]))
  }

  function Fields(q: PairRequest): seq<Bytes> {
    [Decimal(q.protocol), q.usbId, q.publicKey, q.nonce, Decimal(q.durationSeconds),
     q.hostname, q.os, q.arch, q.user]
  }

  function Canonical(q: PairRequest): Bytes { Lines(Fields(q) + Names(q.requested)) }

  lemma LinesSnoc(lines: seq<Bytes>, n: nat)
    requires n < |lines|
    ensures Lines(lines[..n + 1]) == Lines(lines[..n]) + lines[n] + [NEWLINE]
  {
    assert lines[..n + 1][..n] == lines[..n];
  }

  lemma FourLines(f: seq<Bytes>)
    requires |f| == 9
    ensures Lines(f[..4]) == f[0] + [NEWLINE] + f[1] + [NEWLINE] + f[2] + [NEWLINE] + f[3] + [NEWLINE]
  {
    LinesSnoc(f, 0);
    assert f[..0] == [] && [] + f[0] == f[0];
    LinesSnoc(f, 1);
    LinesSnoc(f, 2);
    LinesSnoc(f, 3);
  }

  lemma FiveMore(f: seq<Bytes>, front: Bytes)
    requires |f| == 9 && Lines(f[..4]) == front
    ensures Lines(f) == front + f[4] + [NEWLINE] + f[5] + [NEWLINE] + f[6] + [NEWLINE] + f[7] + [NEWLINE]
                        + f[8] + [NEWLINE]
  {
    LinesSnoc(f, 4);
    LinesSnoc(f, 5);
    LinesSnoc(f, 6);
    LinesSnoc(f, 7);
    LinesSnoc(f, 8);
    assert f[..9] == f;
  }

  lemma Spelled(q: PairRequest)
    ensures Canonical(q) ==
              Decimal(q.protocol) + [0x0A] + q.usbId + [0x0A] + q.publicKey + [0x0A] + q.nonce + [0x0A]
              + Decimal(q.durationSeconds) + [0x0A] + q.hostname + [0x0A] + q.os + [0x0A] + q.arch + [0x0A]
              + q.user + [0x0A] + Lines(Names(q.requested))
  {
    var f := Fields(q);
    FourLines(f);
    FiveMore(f, f[0] + [NEWLINE] + f[1] + [NEWLINE] + f[2] + [NEWLINE] + f[3] + [NEWLINE]);
    LinesOfConcat(Fields(q), Names(q.requested));
  }

  /** `CanonicalPairRequest`: the fixed fields, then a line per capability. */
  method CanonicalPairRequest(q: PairRequest) returns (b: Bytes)
    ensures b == Canonical(q)
    ensures b == Decimal(q.protocol) + [0x0A] + q.usbId + [0x0A] + q.publicKey + [0x0A] + q.nonce + [0x0A]
                 + Decimal(q.durationSeconds) + [0x0A] + q.hostname + [0x0A] + q.os + [0x0A] + q.arch + [0x0A]
                 + q.user + [0x0A] + Lines(Names(q.requested))
  {
    b := Lines(Fields(q));
    assert Fields(q) + Names(q.requested[..0]) == Fields(q);
    for i := 0 to |q.requested|
      invariant b == Lines(Fields(q) + Names(q.requested[..i]))
    {
      var all := Fields(q) + Names(q.requested[..i + 1]);
      assert all[..|all| - 1] == Fields(q) + Names(q.requested[..i]);
      b := b + NameBytes(q.requested[i]) + [NEWLINE];
    }
    assert q.requested[..|q.requested|] == q.requested;
    Spelled(q);
  }

  // ----------------------------------------------------------------- parsing

  function Value(digits: Bytes): int {
    if digits == [] then 0 else Value(digits[..|digits| - 1]) * 10 + (digits[|digits| - 1] as int - 0x30)
  }

  function ParseDecimal(b: Bytes): int { if b != [] && b[0] == 0x2D then -Value(b[1..]) else Value(b) }

  // The lines of a text each of whose lines is ended by a newline.
  function Split(b: Bytes): seq<Bytes> {
    if b == [] then []
    else if b[0] == NEWLINE then [[]] + Split(b[1..])
    else
      var rest := Split(b[1..]);
      if rest == [] then [[b[0]]] else [[b[0]] + rest[0]] + rest[1..]
  }

  function NameOf(b: Bytes): Capability { seq(|b|, i requires 0 <= i < |b| => b[i] as char) }

  function Parse(b: Bytes): Option<PairRequest> { ParseFields(Split(b)) }

  function ParseFields(f: seq<Bytes>): Option<PairRequest> {
    if |f| < 9 then None
    else Some(PairRequest(
      ParseDecimal(f[0]), f[1], f[5], f[6], f[7], f[8], f[2], f[3], [],
      seq(|f| - 9, i requires 0 <= i < |f| - 9 => NameOf(f[9 + i])),
      ParseDecimal(f[4])))
  }

  lemma {:induction false} DigitsRoundTrip(n: nat)
    ensures Value(Digits(n)) == n && NEWLINE !in Digits(n) && 0x2D !in Digits(n)
    ensures Digits(n) != []
  {
    if n >= 10 {
      DigitsRoundTrip(n / 10);
      assert Digits(n)[..|Digits(n)| - 1] == Digits(n / 10);
    } else {
      assert Digits(n)[..0] == [];
    }
  }

  /** Decimal digits, the first of several not a zero. */
  predicate Numeral(b: Bytes) {
    b != [] && (forall i :: 0 <= i < |b| ==> 0x30 <= b[i] <= 0x39) && (|b| > 1 ==> b[0] != 0x30)
  }

  /** A natural number is written as the one such numeral that means it. */
  lemma {:induction false} DigitsAreTheNumeral(b: Bytes, n: nat)
    ensures Numeral(Digits(n)) && Value(Digits(n)) == n
    ensures Numeral(b) && Value(b) == n ==> b == Digits(n)
    decreases n
  {
    DigitsRoundTrip(n);
    if n >= 10 { DigitsAreTheNumeral([], n / 10); }
    NumeralOfDigits(n);
    if Numeral(b) && Value(b) == n { NumeralIsUnique(b, n); }
  }

  lemma {:induction false} NumeralOfDigits(n: nat)
    ensures Numeral(Digits(n)) && (n > 0 ==> Digits(n)[0] != 0x30)
  {
    if n >= 10 { NumeralOfDigits(n / 10); }
  }

  lemma {:induction false} NumeralIsUnique(b: Bytes, n: nat)
    requires Numeral(b) && Value(b) == n
    ensures b == Digits(n)
    decreases n
  {
    var k := |b| - 1;
    var d := b[k] as int - 0x30;
    if k == 0 {
      assert Value(b[..0]) == 0;
      assert b == [b[0]];
    } else {
      NumeralPositive(b[..k]);
      assert n == Value(b[..k]) * 10 + d && n / 10 == Value(b[..k]) && n % 10 == d;
      NumeralIsUnique(b[..k], n / 10);
      assert b == b[..k] + [b[k]];
    }
  }

  lemma {:induction false} NumeralPositive(b: Bytes)
    requires Numeral(b)
    ensures Value(b) >= 0 && (b[0] != 0x30 ==> Value(b) > 0)
  {
    var k := |b| - 1;
    if k > 0 { NumeralPositive(b[..k]); } else { assert Value(b[..0]) == 0; }
  }

  lemma DecimalRoundTrip(n: int)
    ensures ParseDecimal(Decimal(n)) == n && NEWLINE !in Decimal(n)
  {
    if n < 0 {
      DigitsRoundTrip(-n);
      assert Decimal(n)[1..] == Digits(-n);
    } else {
      DigitsRoundTrip(n);
      assert Digits(n)[0] in Digits(n);
    }
  }

  lemma {:induction false} LinesCons(line: Bytes, lines: seq<Bytes>)
    ensures Lines([line] + lines) == line + [NEWLINE] + Lines(lines)
  {
    var all := [line] + lines;
    if lines == [] {
      assert all[..0] == [];
      assert Lines(all) == [] + line + [NEWLINE];
    } else {
      LinesCons(line, lines[..|lines| - 1]);
      assert all[..|all| - 1] == [line] + lines[..|lines| - 1];
      assert all[|all| - 1] == lines[|lines| - 1];
    }
  }

  lemma {:induction false} SplitFirst(line: Bytes, rest: Bytes)
    requires NEWLINE !in line
    ensures Split(line + [NEWLINE] + rest) == [line] + Split(rest)
  {
    var b := line + [NEWLINE] + rest;
    if line == [] {
      assert b == [NEWLINE] + rest;
    } else {
      assert line[0] in line && (forall k :: k in line[1..] ==> k in line);
      SplitFirst(line[1..], rest);
      assert b[1..] == line[1..] + [NEWLINE] + rest;
      assert [line[0]] + line[1..] == line;
    }
  }

  lemma {:induction false} SplitLines(lines: seq<Bytes>)
    requires forall i :: 0 <= i < |lines| ==> NEWLINE !in lines[i]
    ensures Split(Lines(lines)) == lines
  {
    if lines != [] {
      assert lines == [lines[0]] + lines[1..];
      LinesCons(lines[0], lines[1..]);
      SplitFirst(lines[0], Lines(lines[1..]));
      SplitLines(lines[1..]);
    }
  }

  lemma AllowedName(name: Capability)
    requires name in ALLOWED
    ensures NEWLINE !in NameBytes(name) && NameOf(NameBytes(name)) == name
  {
    assert forall i :: 0 <= i < |name| ==> 0x20 < name[i] as int < 0x80;
    assert forall i :: 0 <= i < |name| ==> NameBytes(name)[i] == name[i] as int;
  }

  lemma {:induction false} SplitHasNoNewline(b: Bytes)
    ensures forall i :: 0 <= i < |Split(b)| ==> NEWLINE !in Split(b)[i]
  {
    if b != [] {
      SplitHasNoNewline(b[1..]);
    }
  }

  lemma NamesAreLines(q: PairRequest)
    requires ValidPairRequest(q)
    ensures forall i :: 0 <= i < |q.requested| ==>
              NEWLINE !in Names(q.requested)[i] && NameOf(Names(q.requested)[i]) == q.requested[i]
  {
    forall i | 0 <= i < |q.requested|
      ensures NEWLINE !in Names(q.requested)[i] && NameOf(Names(q.requested)[i]) == q.requested[i]
    {
      AllowedName(q.requested[i]);
    }
  }

  lemma ParsedFields(q: PairRequest)
    requires forall i :: 0 <= i < |q.requested| ==> NameOf(Names(q.requested)[i]) == q.requested[i]
    ensures ParseFields(Fields(q) + Names(q.requested)) == Some(q.(signature := []))
  {
    DecimalRoundTrip(q.protocol);
    DecimalRoundTrip(q.durationSeconds);
    assert ParseFields(Fields(q) + Names(q.requested)).value.requested == q.requested;
  }

  lemma FieldsAreLines(q: PairRequest)
    requires NEWLINE !in q.publicKey && NEWLINE !in q.nonce && LabelsAreWhole(q)
    ensures forall i :: 0 <= i < |Fields(q)| ==> NEWLINE !in Fields(q)[i]
  {
    DecimalRoundTrip(q.protocol);
    DecimalRoundTrip(q.durationSeconds);
  }

  lemma ParseInvertsLines(q: PairRequest)
    requires ValidPairRequest(q) && NEWLINE !in q.publicKey && NEWLINE !in q.nonce
    ensures Parse(Canonical(q)) == Some(q.(signature := []))
  {
    LabelsAreLines(q);
    FieldsAreLines(q);
    NamesAreLines(q);
    SplitLines(Fields(q) + Names(q.requested));
    ParsedFields(q);
  }

  /** Parsing inverts the encoding of a valid request, up to the signature, which is
      not part of it, exactly when the key and the nonce have no newline. */
  lemma ParseInvertsCanonical(q: PairRequest)
    requires ValidPairRequest(q)
    ensures Parse(Canonical(q)) == Some(q.(signature := [])) <==> NEWLINE !in q.publicKey && NEWLINE !in q.nonce
  {
    if NEWLINE !in q.publicKey && NEWLINE !in q.nonce {
      ParseInvertsLines(q);
    } else {
      SplitHasNoNewline(Canonical(q));
    }
  }

  predicate LabelsAreWhole(q: PairRequest) {
    NEWLINE !in q.usbId && NEWLINE !in q.hostname && NEWLINE !in q.os && NEWLINE !in q.arch && NEWLINE !in q.user
  }

  lemma LabelsAreLines(q: PairRequest)
    requires ValidPairRequest(q)
    ensures LabelsAreWhole(q)
  {
    LabelIsLine(q.usbId, 128);
    LabelIsLine(q.hostname, 255);
    LabelIsLine(q.user, 256);
    LabelIsLine(q.os, 32);
    LabelIsLine(q.arch, 32);
  }

  lemma LabelIsLine(value: Bytes, maxRunes: nat)
    requires ValidLabel(value, maxRunes)
    ensures NEWLINE !in value
  {
    if NEWLINE in value { NewlineIsNotPrintable(value, false); }
  }

  /** So no two such requests share a signed form. */
  lemma CanonicalInjective(q: PairRequest, r: PairRequest)
    requires ValidPairRequest(q) && NEWLINE !in q.publicKey && NEWLINE !in q.nonce
    requires ValidPairRequest(r) && NEWLINE !in r.publicKey && NEWLINE !in r.nonce
    requires Canonical(q) == Canonical(r)
    ensures q.(signature := []) == r.(signature := [])
  {
    ParseInvertsCanonical(q);
    ParseInvertsCanonical(r);
  }

  // What base64 decoding looks at: it skips line breaks.
  function Significant(text: Bytes): Bytes {
    if text == [] then []
    else (if text[0] == NEWLINE || text[0] == 0x0D then [] else [text[0]]) + Significant(text[1..])
  }

  lemma {:induction false} SignificantAppend(text: Bytes)
    ensures Significant(text + [NEWLINE]) == Significant(text)
  {
    if text == [] {
      assert text + [NEWLINE] == [NEWLINE];
    } else {
      SignificantAppend(text[1..]);
      assert (text + [NEWLINE])[1..] == text[1..] + [NEWLINE];
    }
  }

  // The signed form around the key and the nonce.
  lemma KeyAndNonce(q: PairRequest)
    ensures Canonical(q) == Lines([Decimal(q.protocol), q.usbId])
                            + (q.publicKey + [NEWLINE] + q.nonce + [NEWLINE]
                               + Lines(Fields(q)[4..] + Names(q.requested)))
  {
    var head, rest := [Decimal(q.protocol), q.usbId], Fields(q)[4..] + Names(q.requested);
    assert Fields(q) + Names(q.requested) == head + ([q.publicKey, q.nonce] + rest);
    LinesOfConcat(head, [q.publicKey, q.nonce] + rest);
    LinesOfPair(q.publicKey, q.nonce, rest);
  }

  /** The checks do not keep a newline out of the key and the nonce. Whatever the request,
      one newline after its key or before its nonce gives two valid requests that differ
      and are signed alike; and as decoding skips the newline, the key the signature is
      checked with is the same, so both pass that check or neither does. */
  lemma NewlineIsAmbiguous(q: PairRequest)
    requires ValidPairRequest(q) && |q.publicKey| < 128 && |q.nonce| < 128
    ensures var a, b := q.(publicKey := q.publicKey + [NEWLINE]), q.(nonce := [NEWLINE] + q.nonce);
            && ValidPairRequest(a) && ValidPairRequest(b) && a != b && Canonical(a) == Canonical(b)
            && Significant(a.publicKey) == Significant(b.publicKey) && a.signature == b.signature
  {
    var a, b := q.(publicKey := q.publicKey + [NEWLINE]), q.(nonce := [NEWLINE] + q.nonce);
    assert |a.publicKey| != |b.publicKey|;
    SignificantAppend(q.publicKey);
    SignedAlike(a, b);
  }

  lemma SignedAlike(a: PairRequest, b: PairRequest)
    requires b == a.(publicKey := b.publicKey, nonce := b.nonce)
    requires a.publicKey + [NEWLINE] + a.nonce == b.publicKey + [NEWLINE] + b.nonce
    ensures Canonical(a) == Canonical(b)
  {
    KeyAndNonce(a);
    KeyAndNonce(b);
    assert Fields(a)[4..] == Fields(b)[4..];
  }

  lemma LinesOfPair(a: Bytes, b: Bytes, rest: seq<Bytes>)
    ensures Lines([a, b] + rest) == a + [NEWLINE] + b + [NEWLINE] + Lines(rest)
  {
    LinesCons(a, [b] + rest);
    LinesCons(b, rest);
    assert [a, b] + rest == [a] + ([b] + rest);
    assert a + [NEWLINE] + (b + [NEWLINE] + Lines(rest)) == a + [NEWLINE] + b + [NEWLINE] + Lines(rest);
  }

  lemma LinesLast(lines: seq<Bytes>, line: Bytes)
    ensures Lines(lines + [line]) == Lines(lines) + (line + [NEWLINE])
  {
    assert (lines + [line])[..|lines|] == lines;
  }

  lemma {:induction false} LinesOfConcat(a: seq<Bytes>, b: seq<Bytes>)
    ensures Lines(a + b) == Lines(a) + Lines(b)
  {
    if b == [] {
      assert a + b == a;
    } else {
      var n := |b| - 1;
      LinesOfConcat(a, b[..n]);
      LinesLast(b[..n], b[n]);
      LinesLast(a + b[..n], b[n]);
      assert a + b == (a + b[..n]) + [b[n]] && b == b[..n] + [b[n]];
    }
  }
}
