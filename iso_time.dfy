/**
 * Clock readings and the compact timestamp the relay derives from them:
 * `new Date().toISOString().replace(/[-:T.Z]/g, '').slice(0, 14)`.
 */
module IsoTime {

  import opened Decimal

  /** A UTC instant as its calendar fields, the parts `toISOString` prints. */
  datatype Instant = Instant(year: nat, month: nat, day: nat, hour: nat, minute: nat, second: nat, millisecond: nat)

  predicate IsLeapYear(y: nat) {
    y % 4 == 0 && (y % 100 != 0 || y % 400 == 0)
  }

  function DaysInMonth(y: nat, m: nat): nat
    requires 1 <= m <= 12
  {
    if m == 2 then (if IsLeapYear(y) then 29 else 28)
    else if m == 4 || m == 6 || m == 9 || m == 11 then 30
    else 31
  }

  /**
   * An instant `toISOString` prints in its 24-character form: a four-digit
   * year (years 0 to 9999) and every field in its calendar range.
   */
  predicate WellFormed(t: Instant) {
    && t.year <= 9999
    && 1 <= t.month <= 12
    && 1 <= t.day <= DaysInMonth(t.year, t.month)
    && t.hour < 24 && t.minute < 60 && t.second < 60 && t.millisecond < 1000
  }

  /** `YYYY-MM-DDTHH:mm:ss.sssZ`, the string `Date.prototype.toISOString` returns (ISO 8601). */
  function IsoString(t: Instant): (s: string)
    requires WellFormed(t)
  {
    Padded(t.year, 4) + "-" + Padded(t.month, 2) + "-" + Padded(t.day, 2)
    + "T" + Padded(t.hour, 2) + ":" + Padded(t.minute, 2) + ":" + Padded(t.second, 2)
    + "." + Padded(t.millisecond, 3) + "Z"
  }

  /** The reference meaning of the compact timestamp: year, month, day, hour, minute and second, zero-padded. */
  function Compact(t: Instant): string {
    Padded(t.year, 4) + Padded(t.month, 2) + Padded(t.day, 2)
    + Padded(t.hour, 2) + Padded(t.minute, 2) + Padded(t.second, 2)
  }

  /** Two readings fall in the same second when they agree on every field above the millisecond. */
  predicate SameSecond(a: Instant, b: Instant) {
    && a.year == b.year && a.month == b.month && a.day == b.day
    && a.hour == b.hour && a.minute == b.minute && a.second == b.second
  }

  predicate IsSeparator(c: char) {
    c == '-' || c == ':' || c == 'T' || c == '.' || c == 'Z'
  }

  /** `s.replace(/[-:T.Z]/g, '')`: every separator removed, everything else kept in order. */
  function StripSeparators(s: string): (r: string)
    ensures |r| <= |s|
    ensures forall i :: 0 <= i < |r| ==> !IsSeparator(r[i])
    ensures forall i :: 0 <= i < |s| && !IsSeparator(s[i]) ==> s[i] in r
  {
    if s == [] then ""
    else (if IsSeparator(s[0]) then "" else [s[0]]) + StripSeparators(s[1..])
  }

  /** `s.slice(0, n)`: the first n characters, or all of s when it is shorter. */
  function Slice(s: string, n: nat): (r: string)
    ensures |r| == if |s| < n then |s| else n
    ensures r <= s
  {
    if |s| <= n then s else s[..n]
  }

  /** The timestamp the relay computes from a clock string. */
  function StkTimestamp(iso: string): (r: string)
    ensures |r| <= 14
    ensures forall i :: 0 <= i < |r| ==> !IsSeparator(r[i])
  {
    Slice(StripSeparators(iso), 14)
  }

  lemma {:induction false} StripConcat(a: string, b: string)
    ensures StripSeparators(a + b) == StripSeparators(a) + StripSeparators(b)
  {
    if a == [] {
      assert a + b == b;
    } else {
      assert (a + b)[0] == a[0];
      assert (a + b)[1..] == a[1..] + b;
      StripConcat(a[1..], b);
    }
  }

  lemma {:induction false} StripDigits(s: string)
    requires AllDigits(s)
    ensures StripSeparators(s) == s
  {
    if s != [] {
      StripDigits(s[1..]);
      assert [s[0]] + s[1..] == s;
    }
  }

  lemma StripSeparator(c: char)
    requires IsSeparator(c)
    ensures StripSeparators([c]) == ""
  {
    assert [c][1..] == [];
  }

  /** Stripping a well-formed clock string leaves its seventeen digits: the compact timestamp, then the milliseconds. */
  lemma StripIso(t: Instant)
    requires WellFormed(t)
    ensures StripSeparators(IsoString(t)) == Compact(t) + Padded(t.millisecond, 3)
  {
    var y, mo, d := Padded(t.year, 4), Padded(t.month, 2), Padded(t.day, 2);
    var h, mi, s, ms := Padded(t.hour, 2), Padded(t.minute, 2), Padded(t.second, 2), Padded(t.millisecond, 3);
    StripDashed(y, '-', mo);
    StripDashed(y + "-" + mo, '-', d);
    StripDashed(y + "-" + mo + "-" + d, 'T', h);
    StripDashed(y + "-" + mo + "-" + d + "T" + h, ':', mi);
    StripDashed(y + "-" + mo + "-" + d + "T" + h + ":" + mi, ':', s);
    StripDashed(y + "-" + mo + "-" + d + "T" + h + ":" + mi + ":" + s, '.', ms);
    var pre := y + "-" + mo + "-" + d + "T" + h + ":" + mi + ":" + s + "." + ms;
    StripConcat(pre, "Z");
    StripSeparator('Z');
    StripDigits(y);
  }

  /** Removing the separators of `a + [c] + b` keeps those of a and b and drops c. */
  lemma StripDashed(a: string, c: char, b: string)
    requires IsSeparator(c) && AllDigits(b)
    ensures StripSeparators(a + [c] + b) == StripSeparators(a) + b
  {
    StripConcat(a + [c], b);
    StripConcat(a, [c]);
    StripSeparator(c);
    StripDigits(b);
  }

  /**
   * The compact timestamp of a well-formed clock string is exactly its
   * `YYYYMMDDHHmmss` digits: fourteen characters, all digits.
   */
  lemma TimestampOfIso(t: Instant)
    requires WellFormed(t)
    ensures StkTimestamp(IsoString(t)) == Compact(t)
    ensures |StkTimestamp(IsoString(t))| == 14 && AllDigits(StkTimestamp(IsoString(t)))
  {
    StripIso(t);
    var c := Compact(t);
    assert |c| == 14;
    assert (c + Padded(t.millisecond, 3))[..14] == c;
  }

  /** Reading the fields of a compact timestamp back: its partner parser. */
  function FieldAt(s: string, start: nat, width: nat): nat
    requires start + width <= |s| && AllDigits(s)
  {
    var field := s[start..start + width];
    assert AllDigits(field) by {
      forall i | 0 <= i < |field| ensures IsDigit(field[i]) {
        assert field[i] == s[start + i];
      }
    }
    ParseNat(field)
  }

  lemma CompactFields(t: Instant)
    requires WellFormed(t)
    ensures |Compact(t)| == 14 && AllDigits(Compact(t))
    ensures FieldAt(Compact(t), 0, 4) == t.year
    ensures FieldAt(Compact(t), 4, 2) == t.month
    ensures FieldAt(Compact(t), 6, 2) == t.day
    ensures FieldAt(Compact(t), 8, 2) == t.hour
    ensures FieldAt(Compact(t), 10, 2) == t.minute
    ensures FieldAt(Compact(t), 12, 2) == t.second
  {
    var c := Compact(t);
    assert c[0..4] == Padded(t.year, 4);
    assert c[4..6] == Padded(t.month, 2);
    assert c[6..8] == Padded(t.day, 2);
    assert c[8..10] == Padded(t.hour, 2);
    assert c[10..12] == Padded(t.minute, 2);
    assert c[12..14] == Padded(t.second, 2);
    assert Pow10(2) == 100 && Pow10(4) == 10000;
    ParsePadded(t.year, 4);
    ParsePadded(t.month, 2);
    ParsePadded(t.day, 2);
    ParsePadded(t.hour, 2);
    ParsePadded(t.minute, 2);
    ParsePadded(t.second, 2);
  }

  /**
   * Two clock readings give the same compact timestamp exactly when they
   * fall in the same second: the milliseconds are cut off and nothing else.
   */
  lemma TimestampSameSecond(a: Instant, b: Instant)
    requires WellFormed(a) && WellFormed(b)
    ensures StkTimestamp(IsoString(a)) == StkTimestamp(IsoString(b)) <==> SameSecond(a, b)
  {
    TimestampOfIso(a);
    TimestampOfIso(b);
    CompactFields(a);
    CompactFields(b);
  }
}
