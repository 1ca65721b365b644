/**
 The timestamp validator of the transcript importers (src/codex.rs:1374-1481 and, line
 for line, src/claude_code.rs:1360-1457), over bytes with their wrapping arithmetic
 shown never to wrap.
 */
module Rfc3339 {
  import opened Wrappers

  newtype u8 = x: int | 0 <= x < 0x100
  newtype u16 = x: int | 0 <= x < 0x1_0000

  const DASH: u8 := 45
  const PLUS: u8 := 43
  const DOT: u8 := 46
  const COLON: u8 := 58
  const UPPER_T: u8 := 84
  const UPPER_Z: u8 := 90
  const ZERO: u8 := 48

  predicate IsDigit(c: u8) {
    48 <= c <= 57
  }

  // ---------------------------------------------------------------- the grammar

  // What a timestamp denotes: the productions of section 5.6 of RFC 3339, with the
  // separators in upper case and the bounds of section 5.7.
  datatype Zone = Zulu | Offset(negative: bool, hours: nat, minutes: nat)

  datatype DateTime = DateTime(year: nat, month: nat, day: nat, hour: nat, minute: nat, second: nat,
                               fraction: seq<nat>, zone: Zone)

  predicate IsLeap(year: nat) {
    (year % 4 == 0 && year % 100 != 0) || year % 400 == 0
  }

  function DaysInMonth(year: nat, month: nat): nat {
    if month in {1, 3, 5, 7, 8, 10, 12} then 31
    else if month in {4, 6, 9, 11} then 30
    else if IsLeap(year) then 29
    else 28
  }

  predicate ValidZone(z: Zone) {
    z.Offset? ==> z.hours <= 23 && z.minutes <= 59
  }

  predicate Digits(fraction: seq<nat>) {
    forall i :: 0 <= i < |fraction| ==> fraction[i] <= 9
  }

  predicate Valid(t: DateTime) {
    && t.year <= 9999 && 1 <= t.month <= 12 && 1 <= t.day <= DaysInMonth(t.year, t.month)
    && t.hour <= 23 && t.minute <= 59 && t.second <= 60
    && Digits(t.fraction) && ValidZone(t.zone)
  }

  function D(n: nat): u8
    requires n <= 9
  {
    (48 + n) as u8
  }

  function FormatHead(t: DateTime): (s: seq<u8>)
    requires Valid(t)
    ensures |s| == 19
  {
    [D(t.year / 100 / 10), D(t.year / 100 % 10), D(t.year % 100 / 10), D(t.year % 100 % 10), DASH,
     D(t.month / 10), D(t.month % 10), DASH, D(t.day / 10), D(t.day % 10), UPPER_T,
     D(t.hour / 10), D(t.hour % 10), COLON, D(t.minute / 10), D(t.minute % 10), COLON,
     D(t.second / 10), D(t.second % 10)]
  }

  function FormatFraction(fraction: seq<nat>): seq<u8>
    requires Digits(fraction)
  {
    if fraction == [] then [] else [DOT] + seq(|fraction|, i requires 0 <= i < |fraction| => D(fraction[i]))
  }

  function FormatZone(z: Zone): seq<u8>
    requires ValidZone(z)
  {
    match z
    case Zulu => [UPPER_Z]
    case Offset(negative, h, m) =>
      [if negative then DASH else PLUS, D(h / 10), D(h % 10), COLON, D(m / 10), D(m % 10)]
  }

  function Format(t: DateTime): seq<u8>
    requires Valid(t)
  {
    FormatHead(t) + (FormatFraction(t.fraction) + FormatZone(t.zone))
  }

  ghost predicate IsTimestamp(b: seq<u8>) {
    exists t :: Valid(t) && Format(t) == b
  }

  // ---------------------------------------------------------------- the same, byte by byte

  // The value of two digits.
  function Two(x: u8, y: u8): (n: nat)
    requires IsDigit(x) && IsDigit(y)
    ensures n <= 99 && D(n / 10) == x && D(n % 10) == y
  {
    (x as int - 48) * 10 + (y as int - 48)
  }

  function Four(w: u8, x: u8, y: u8, z: u8): (n: nat)
    requires IsDigit(w) && IsDigit(x) && IsDigit(y) && IsDigit(z)
    ensures n <= 9999 && n / 100 == Two(w, x) && n % 100 == Two(y, z)
  {
    Two(w, x) * 100 + Two(y, z)
  }

  predicate DigitsAt(b: seq<u8>) {
    |b| >= 19 && forall p :: 0 <= p < 19 && p !in {4, 7, 10, 13, 16} ==> IsDigit(b[p])
  }

  predicate HeadShape(b: seq<u8>) {
    DigitsAt(b) && b[4] == DASH && b[7] == DASH && b[10] == UPPER_T && b[13] == COLON && b[16] == COLON
  }

  predicate HeadValues(b: seq<u8>)
    requires HeadShape(b)
  {
    var year, month := Four(b[0], b[1], b[2], b[3]), Two(b[5], b[6]);
    && 1 <= month <= 12 && 1 <= Two(b[8], b[9]) <= DaysInMonth(year, month)
    && Two(b[11], b[12]) <= 23 && Two(b[14], b[15]) <= 59 && Two(b[17], b[18]) <= 60
  }

  predicate IsZone(z: seq<u8>) {
    || z == [UPPER_Z]
    || (&& |z| == 6 && (z[0] == PLUS || z[0] == DASH) && z[3] == COLON
        && IsDigit(z[1]) && IsDigit(z[2]) && IsDigit(z[4]) && IsDigit(z[5])
        && Two(z[1], z[2]) <= 23 && Two(z[4], z[5]) <= 59)
  }

  // Digits up to `i`, then a zone.
  ghost predicate IsFractionEnd(b: seq<u8>, i: nat) {
    20 < i <= |b| && (forall k :: 20 <= k < i ==> IsDigit(b[k])) && IsZone(b[i..])
  }

  ghost predicate IsTail(b: seq<u8>)
    requires |b| >= 19
  {
    IsZone(b[19..]) || (|b| > 19 && b[19] == DOT && exists i: nat :: IsFractionEnd(b, i))
  }

  ghost predicate WellFormed(b: seq<u8>) {
    HeadShape(b) && HeadValues(b) && IsTail(b)
  }

  // ---------------------------------------------------------------- both descriptions agree

  function ReadZone(z: seq<u8>): (r: Zone)
    requires IsZone(z)
    ensures ValidZone(r)
  {
    if |z| == 1 then Zulu else Offset(z[0] == DASH, Two(z[1], z[2]), Two(z[4], z[5]))
  }

  lemma ReadZoneFormats(z: seq<u8>)
    requires IsZone(z)
    ensures FormatZone(ReadZone(z)) == z
  {
    if |z| == 6 {
      var f := FormatZone(ReadZone(z));
      var h, m := Two(z[1], z[2]), Two(z[4], z[5]);
      assert f == [if z[0] == DASH then DASH else PLUS, D(h / 10), D(h % 10), COLON, D(m / 10), D(m % 10)];
      assert f[0] == z[0] && f[1] == z[1] && f[2] == z[2] && f[3] == z[3] && f[4] == z[4] && f[5] == z[5];
    }
  }

  lemma FormattedZone(z: Zone)
    requires ValidZone(z)
    ensures IsZone(FormatZone(z))
  {
    if z.Offset? {
      TwoOf(z.hours);
      TwoOf(z.minutes);
    }
  }

  lemma TwoOf(n: nat)
    requires n <= 99
    ensures Two(D(n / 10), D(n % 10)) == n
  {
  }

  lemma FourOf(n: nat)
    requires n <= 9999
    ensures Four(D(n / 100 / 10), D(n / 100 % 10), D(n % 100 / 10), D(n % 100 % 10)) == n
  {
    TwoOf(n / 100);
    TwoOf(n % 100);
  }

  function ReadHead(b: seq<u8>, fraction: seq<nat>, zone: Zone): DateTime
    requires HeadShape(b)
  {
    DateTime(Four(b[0], b[1], b[2], b[3]), Two(b[5], b[6]), Two(b[8], b[9]),
             Two(b[11], b[12]), Two(b[14], b[15]), Two(b[17], b[18]), fraction, zone)
  }

  lemma ReadHeadFormats(b: seq<u8>, fraction: seq<nat>, zone: Zone)
    requires HeadShape(b) && HeadValues(b)
    requires Digits(fraction) && ValidZone(zone)
    ensures Valid(ReadHead(b, fraction, zone)) && FormatHead(ReadHead(b, fraction, zone)) == b[..19]
  {
  }

  lemma FormattedHead(t: DateTime, b: seq<u8>)
    requires Valid(t) && |b| >= 19 && b[..19] == FormatHead(t)
    ensures HeadShape(b) && HeadValues(b)
  {
    var h := FormatHead(t);
    assert forall p :: 0 <= p < 19 ==> b[p] == h[p];
    assert HeadShape(h);
    HeadReads(t);
    assert ReadHead(b, t.fraction, t.zone) == ReadHead(h, t.fraction, t.zone);
  }

  lemma HeadReads(t: DateTime)
    requires Valid(t) && HeadShape(FormatHead(t))
    ensures ReadHead(FormatHead(t), t.fraction, t.zone) == t
  {
    FourOf(t.year);
    TwoOf(t.month);
    TwoOf(t.day);
    TwoOf(t.hour);
    TwoOf(t.minute);
    TwoOf(t.second);
  }

  lemma WellFormedIsTimestamp(b: seq<u8>)
    requires WellFormed(b)
    ensures IsTimestamp(b)
  {
    if IsZone(b[19..]) {
      ReadZoneFormats(b[19..]);
      Reads(b, [], ReadZone(b[19..]));
    } else {
      var i: nat :| IsFractionEnd(b, i);
      FractionReads(b, i);
    }
  }

  lemma FractionReads(b: seq<u8>, i: nat)
    requires HeadShape(b) && HeadValues(b) && |b| > 19 && b[19] == DOT && IsFractionEnd(b, i)
    ensures IsTimestamp(b)
  {
    var fraction := DigitsOf(b, i);
    FractionFormats(b, i, fraction);
    assert b[19..] == b[19..i] + b[i..];
    ReadZoneFormats(b[i..]);
    Reads(b, fraction, ReadZone(b[i..]));
  }

  // The values of the digits from 20 up to `i`.
  function DigitsOf(b: seq<u8>, i: nat): (fraction: seq<nat>)
    requires 20 <= i <= |b| && forall k :: 20 <= k < i ==> IsDigit(b[k])
    ensures |fraction| == i - 20 && Digits(fraction)
    ensures forall k :: 20 <= k < i ==> D(fraction[k - 20]) == b[k]
  {
    if i == 20 then []
    else
      assert IsDigit(b[i - 1]);
      var n: nat := b[i - 1] as int - 48;
      DigitsOf(b, i - 1) + [n]
  }

  lemma Reads(b: seq<u8>, fraction: seq<nat>, zone: Zone)
    requires HeadShape(b) && HeadValues(b) && Digits(fraction) && ValidZone(zone)
    requires b[19..] == FormatFraction(fraction) + FormatZone(zone)
    ensures IsTimestamp(b)
  {
    ReadHeadFormats(b, fraction, zone);
    assert b == b[..19] + b[19..];
    assert Format(ReadHead(b, fraction, zone)) == b;
  }

  lemma FractionFormats(b: seq<u8>, i: nat, fraction: seq<nat>)
    requires 20 < i <= |b| && b[19] == DOT && |fraction| == i - 20 && Digits(fraction)
    requires forall k :: 20 <= k < i ==> D(fraction[k - 20]) == b[k]
    ensures FormatFraction(fraction) == b[19..i]
  {
    var f := FormatFraction(fraction);
    assert |f| == i - 19 == |b[19..i]|;
    forall k | 0 <= k < |f| ensures f[k] == b[19..i][k] {
      if k > 0 { assert f[k] == D(fraction[(k + 19) - 20]) == b[k + 19]; }
    }
  }

  lemma TimestampIsWellFormed(b: seq<u8>)
    requires IsTimestamp(b)
    ensures WellFormed(b)
  {
    var t :| Valid(t) && Format(t) == b;
    var tail := FormatFraction(t.fraction) + FormatZone(t.zone);
    assert b == FormatHead(t) + tail;
    assert b[..19] == FormatHead(t) && b[19..] == tail;
    FormattedHead(t, b);
    FormattedTail(t.fraction, t.zone, b);
  }

  lemma FormattedTail(fraction: seq<nat>, zone: Zone, b: seq<u8>)
    requires Digits(fraction) && ValidZone(zone) && |b| >= 19 && b[19..] == FormatFraction(fraction) + FormatZone(zone)
    ensures IsTail(b)
  {
    FormattedZone(zone);
    var f, tail := FormatFraction(fraction), b[19..];
    if fraction == [] {
      assert tail == FormatZone(zone);
    } else {
      var i := 19 + |f|;
      forall k | 20 <= k < i ensures IsDigit(b[k]) {
        assert b[k] == tail[k - 19] == f[k - 19] == D(fraction[k - 20]);
      }
      assert b[i..] == tail[|f|..] == FormatZone(zone);
      assert IsFractionEnd(b, i);
      assert b[19] == tail[0] == DOT;
    }
  }

  lemma {:induction false} TimestampExactly(b: seq<u8>)
    ensures IsTimestamp(b) <==> WellFormed(b)
  {
    if IsTimestamp(b) { TimestampIsWellFormed(b); }
    if WellFormed(b) { WellFormedIsTimestamp(b); }
  }

  // ---------------------------------------------------------------- the code

  // Two digits as the code computes them, in eight bits.
  function TwoBytes(x: u8, y: u8): (n: u8)
    requires IsDigit(x) && IsDigit(y)
    ensures n as int == Two(x, y)
  {
    (x - ZERO) * 10 + (y - ZERO)
  }

  function FourBytes(w: u8, x: u8, y: u8, z: u8): (n: u16)
    requires IsDigit(w) && IsDigit(x) && IsDigit(y) && IsDigit(z)
    ensures n as int == Four(w, x, y, z)
  {
    ((w - ZERO) as u16) * 1000 + ((x - ZERO) as u16) * 100 + ((y - ZERO) as u16) * 10 + ((z - ZERO) as u16)
  }

  method CheckHead(b: seq<u8>) returns (ok: bool)
    requires |b| >= 20
    ensures ok <==> HeadShape(b) && HeadValues(b)
  {
    if b[4] != DASH || b[7] != DASH || b[10] != UPPER_T || b[13] != COLON || b[16] != COLON { return false; }
    var positions := [0, 1, 2, 3, 5, 6, 8, 9, 11, 12, 14, 15, 17, 18];
    var k := 0;
    while k < |positions|
      invariant 0 <= k <= |positions|
      invariant forall j :: 0 <= j < k ==> IsDigit(b[positions[j]])
    {
      if !IsDigit(b[positions[k]]) {
        AllPositions(positions, b);
        return false;
      }
      k := k + 1;
    }
    AllPositions(positions, b);
    var month, day := TwoBytes(b[5], b[6]), TwoBytes(b[8], b[9]);
    var hour, minute, second := TwoBytes(b[11], b[12]), TwoBytes(b[14], b[15]), TwoBytes(b[17], b[18]);
    if !(1 <= month <= 12) || hour > 23 || minute > 59 || second > 60 { return false; }
    var year := FourBytes(b[0], b[1], b[2], b[3]);
    var isLeap := (year % 4 == 0 && year % 100 != 0) || year % 400 == 0;
    var days: u8;
    if month in {1, 3, 5, 7, 8, 10, 12} {
      days := 31;
    } else if month in {4, 6, 9, 11} {
      days := 30;
    } else {
      days := if isLeap then 29 else 28;
    }
    ok := 1 <= day <= days;
  }

  // The listed positions are all but those of the separators.
  lemma AllPositions(positions: seq<int>, b: seq<u8>)
    requires positions == [0, 1, 2, 3, 5, 6, 8, 9, 11, 12, 14, 15, 17, 18] && |b| >= 20
    ensures (forall j :: 0 <= j < |positions| ==> IsDigit(b[positions[j]])) <==> DigitsAt(b)
  {
    if forall j :: 0 <= j < |positions| ==> IsDigit(b[positions[j]]) {
      assert IsDigit(b[positions[0]]) && IsDigit(b[positions[1]]) && IsDigit(b[positions[2]]) && IsDigit(b[positions[3]]);
      assert IsDigit(b[positions[4]]) && IsDigit(b[positions[5]]) && IsDigit(b[positions[6]]) && IsDigit(b[positions[7]]);
      assert IsDigit(b[positions[8]]) && IsDigit(b[positions[9]]) && IsDigit(b[positions[10]]) && IsDigit(b[positions[11]]);
      assert IsDigit(b[positions[12]]) && IsDigit(b[positions[13]]);
    }
  }

  // A numeric offset that fills `z`.
  method CheckOffset(z: seq<u8>) returns (ok: bool)
    requires |z| >= 1 && (z[0] == PLUS || z[0] == DASH)
    ensures ok <==> IsZone(z)
  {
    if |z| != 6 || !IsDigit(z[1]) || !IsDigit(z[2]) || z[3] != COLON || !IsDigit(z[4]) || !IsDigit(z[5]) {
      return false;
    }
    ok := TwoBytes(z[1], z[2]) <= 23 && TwoBytes(z[4], z[5]) <= 59;
  }

  method CheckFraction(b: seq<u8>) returns (ok: bool)
    requires |b| >= 20 && b[19] == DOT
    ensures ok <==> IsTail(b)
  {
    if 20 >= |b| || !IsDigit(b[20]) { return false; }
    var i := 20;
    while i < |b| && IsDigit(b[i])
      invariant 20 <= i <= |b|
      invariant forall k :: 20 <= k < i ==> IsDigit(b[k])
    {
      i := i + 1;
    }
    FractionEndsHere(b, i);
    if i < |b| && b[i] == UPPER_Z {
      ok := i + 1 == |b|;
      assert ok <==> IsZone(b[i..]);
    } else if i < |b| && (b[i] == PLUS || b[i] == DASH) {
      ok := CheckOffset(b[i..]);
    } else {
      ok := false;
    }
  }

  // The run of digits can end in one place only.
  lemma FractionEndsHere(b: seq<u8>, i: nat)
    requires |b| > 20 && b[19] == DOT && 20 < i <= |b| && (forall k :: 20 <= k < i ==> IsDigit(b[k]))
    requires i == |b| || !IsDigit(b[i])
    ensures IsTail(b) <==> i < |b| && IsZone(b[i..])
  {
    if j: nat :| IsFractionEnd(b, j) {
      assert b[j..] != [];
      assert !IsDigit(b[j..][0]);
      assert b[j..][0] == b[j];
      assert j == i;
    }
    if i < |b| && IsZone(b[i..]) { assert IsFractionEnd(b, i); }
  }

  // Accepted are exactly the timestamps of the grammar, unchanged.
  method SanitizeRfc3339(b: seq<u8>) returns (r: Option<seq<u8>>)
    ensures r.Some? <==> IsTimestamp(b)
    ensures r.Some? ==> r.value == b
  {
    TimestampExactly(b);
    if |b| < 20 { return None; }
    var head := CheckHead(b);
    if !head { return None; }
    var tail;
    if b[19] == UPPER_Z {
      tail := |b| == 20;
    } else if b[19] == PLUS || b[19] == DASH {
      assert b[19..][0] == b[19];
      tail := CheckOffset(b[19..]);
    } else if b[19] == DOT {
      tail := CheckFraction(b);
    } else {
      tail := false;
    }
    r := if tail then Some(b) else None;
  }

  // A timestamp denotes one date and time.
  lemma FormatInjective(t: DateTime, u: DateTime)
    requires Valid(t) && Valid(u) && Format(t) == Format(u)
    ensures t == u
  {
    var b := Format(t);
    assert b[..19] == FormatHead(t) == FormatHead(u);
    HeadInjective(t, u);
    assert b[19..] == FormatFraction(t.fraction) + FormatZone(t.zone) == FormatFraction(u.fraction) + FormatZone(u.zone);
    TailInjective(t.fraction, t.zone, u.fraction, u.zone);
  }

  lemma HeadInjective(t: DateTime, u: DateTime)
    requires Valid(t) && Valid(u) && FormatHead(t) == FormatHead(u)
    ensures t.(fraction := u.fraction, zone := u.zone) == u
  {
    FormattedHead(t, FormatHead(t));
    HeadReads(t);
    HeadReads(u);
  }

  lemma TailInjective(f: seq<nat>, y: Zone, g: seq<nat>, z: Zone)
    requires Digits(f) && Digits(g) && ValidZone(y) && ValidZone(z)
    requires FormatFraction(f) + FormatZone(y) == FormatFraction(g) + FormatZone(z)
    ensures f == g && y == z
  {
    LengthsAgree(f, y, g, z);
    SamePrefix(FormatFraction(f), FormatZone(y), FormatFraction(g), FormatZone(z));
    FractionInjective(f, g);
    ZoneInjective(y, z);
  }

  lemma SamePrefix(p: seq<u8>, y: seq<u8>, q: seq<u8>, z: seq<u8>)
    requires p + y == q + z && |p| == |q|
    ensures p == q && y == z
  {
    assert p == (p + y)[..|p|] && q == (q + z)[..|q|];
    assert y == (p + y)[|p|..] && z == (q + z)[|q|..];
  }

  lemma FractionInjective(f: seq<nat>, g: seq<nat>)
    requires Digits(f) && Digits(g) && FormatFraction(f) == FormatFraction(g)
    ensures f == g
  {
    assert |f| == |g|;
    forall i | 0 <= i < |f| ensures f[i] == g[i] {
      assert FormatFraction(f)[i + 1] == D(f[i]) && FormatFraction(g)[i + 1] == D(g[i]);
    }
  }

  lemma LengthsAgree(f: seq<nat>, y: Zone, g: seq<nat>, z: Zone)
    requires Digits(f) && Digits(g) && ValidZone(y) && ValidZone(z)
    requires FormatFraction(f) + FormatZone(y) == FormatFraction(g) + FormatZone(z)
    ensures |f| == |g|
  {
    NoLonger(f, y, g, z);
    NoLonger(g, z, f, y);
  }

  lemma NoLonger(f: seq<nat>, y: Zone, g: seq<nat>, z: Zone)
    requires Digits(f) && Digits(g) && ValidZone(y) && ValidZone(z)
    requires FormatFraction(f) + FormatZone(y) == FormatFraction(g) + FormatZone(z)
    ensures |f| <= |g|
  {
    var p, q := FormatFraction(f), FormatFraction(g);
    var s := p + FormatZone(y);
    assert s[|q|] == FormatZone(z)[0] && !IsDigit(s[|q|]) && s[|q|] != DOT;
    assert forall k :: 0 <= k < |p| ==> IsDigit(p[k]) || p[k] == DOT;
    assert forall k :: 0 <= k < |p| ==> s[k] == p[k];
  }

  lemma SameTwo(m: nat, n: nat, x: u8, y: u8)
    requires m <= 99 && n <= 99 && D(m / 10) == x == D(n / 10) && D(m % 10) == y == D(n % 10)
    ensures m == n
  {
    TwoOf(m);
    TwoOf(n);
  }

  lemma ZoneInjective(y: Zone, z: Zone)
    requires ValidZone(y) && ValidZone(z) && FormatZone(y) == FormatZone(z)
    ensures y == z
  {
    var s := FormatZone(y);
    if y.Offset? {
      assert z.Offset?;
      SameTwo(y.hours, z.hours, s[1], s[2]);
      SameTwo(y.minutes, z.minutes, s[4], s[5]);
    } else {
      assert s[0] == UPPER_Z;
    }
  }
}
