/**
 * `generatePassword`: the STK Push password, base64 of the shortcode, the
 * passkey and the compact timestamp of a clock reading, in that order.
 */
module Password {

  import opened Wrappers
  import opened Decimal
  import opened IsoTime
  import Utf8
  import Base64
  import Auth

  /**
   * `shortcode + passkey + timestamp` under JavaScript's `+`: a missing
   * variable is `undefined`, which prints as such next to a string, but two
   * missing ones add up to the number NaN.
   */
  function PasswordText(shortcode: Option<string>, passkey: Option<string>, timestamp: string): string {
    if shortcode.None? && passkey.None? then "NaN" + timestamp
    else Auth.EnvText(shortcode) + Auth.EnvText(passkey) + timestamp
  }

  /** `generatePassword(shortcode, passkey)`, given the clock reading it takes. */
  function GeneratePassword(shortcode: Option<string>, passkey: Option<string>, clock: string): string {
    PasswordFor(shortcode, passkey, StkTimestamp(clock))
  }

  /** `Buffer.from(raw).toString('base64')` of the password text for a given timestamp. */
  function PasswordFor(shortcode: Option<string>, passkey: Option<string>, timestamp: string): string {
    Base64.Encode(Utf8.Encode(PasswordText(shortcode, passkey, timestamp)))
  }

  /** How the gateway reads a password back: base64-decode, then UTF-8-decode. */
  function DecodePassword(password: string): Option<string> {
    match Base64.Decode(password)
    case None => None
    case Some(bytes) => Utf8.Decode(bytes)
  }

  /** The password decodes to shortcode, passkey and timestamp, concatenated in that order. */
  lemma PasswordForDecodes(shortcode: string, passkey: string, timestamp: string)
    ensures DecodePassword(PasswordFor(Some(shortcode), Some(passkey), timestamp))
         == Some(shortcode + passkey + timestamp)
  {
    PasswordDecodesToText(Some(shortcode), Some(passkey), timestamp);
  }

  /** In particular for `generatePassword`, with the timestamp of its own clock reading. */
  lemma PasswordDecodes(shortcode: string, passkey: string, clock: string)
    ensures DecodePassword(GeneratePassword(Some(shortcode), Some(passkey), clock))
         == Some(shortcode + passkey + StkTimestamp(clock))
  {
    PasswordForDecodes(shortcode, passkey, StkTimestamp(clock));
  }

  /** Whatever the configuration, the password decodes to the text JavaScript's `+` built. */
  lemma PasswordDecodesToText(shortcode: Option<string>, passkey: Option<string>, timestamp: string)
    ensures DecodePassword(PasswordFor(shortcode, passkey, timestamp)) == Some(PasswordText(shortcode, passkey, timestamp))
  {
    var text := PasswordText(shortcode, passkey, timestamp);
    Base64.DecodeEncode(Utf8.Encode(text));
    Utf8.DecodeEncode(text);
  }

  /** The password is four characters for every started group of three bytes of the UTF-8 text. */
  lemma PasswordLength(shortcode: Option<string>, passkey: Option<string>, clock: string)
    ensures var n := |Utf8.Encode(PasswordText(shortcode, passkey, StkTimestamp(clock)))|;
            |GeneratePassword(shortcode, passkey, clock)| == 4 * ((n + 2) / 3)
  {
  }

  /** For an ASCII shortcode and passkey and a well-formed clock, the byte count is the length plus fourteen timestamp digits. */
  lemma AsciiPasswordLength(shortcode: string, passkey: string, t: Instant)
    requires WellFormed(t) && Utf8.IsAscii(shortcode + passkey)
    ensures |GeneratePassword(Some(shortcode), Some(passkey), IsoString(t))|
         == 4 * ((|shortcode| + |passkey| + 14 + 2) / 3)
  {
    var ts := StkTimestamp(IsoString(t));
    TimestampOfIso(t);
    var text := shortcode + passkey + ts;
    assert Utf8.IsAscii(text) by {
      forall i | 0 <= i < |text| ensures text[i] as int < 0x80 {
        if i >= |shortcode + passkey| {
          assert text[i] == ts[i - |shortcode + passkey|];
        } else {
          assert text[i] == (shortcode + passkey)[i];
        }
      }
    }
    assert |text| == |shortcode| + |passkey| + 14;
  }

  /**
   * The gateway recomputes the password from the `Timestamp` field it is
   * sent. A password built from one clock reading matches the one built from
   * another exactly when both readings fall in the same second.
   */
  lemma PasswordMatchesTimestamp(shortcode: string, passkey: string, signed: Instant, stamped: Instant)
    requires WellFormed(signed) && WellFormed(stamped)
    ensures DecodePassword(GeneratePassword(Some(shortcode), Some(passkey), IsoString(signed)))
         == Some(shortcode + passkey + StkTimestamp(IsoString(stamped)))
        <==> SameSecond(signed, stamped)
  {
    PasswordDecodes(shortcode, passkey, IsoString(signed));
    TimestampSameSecond(signed, stamped);
    var p := shortcode + passkey;
    var t1, t2 := StkTimestamp(IsoString(signed)), StkTimestamp(IsoString(stamped));
    TimestampOfIso(signed);
    TimestampOfIso(stamped);
    if p + t1 == p + t2 {
      assert t1 == (p + t1)[|p|..] == (p + t2)[|p|..] == t2;
    }
  }

  /** With the clock frozen at 2024-01-02T03:04:05Z the password is base64 of `174379`, the passkey and `20240102030405`. */
  lemma PasswordAtFrozenClock(passkey: string, t: Instant)
    requires t.year == 2024 && t.month == 1 && t.day == 2
    requires t.hour == 3 && t.minute == 4 && t.second == 5 && t.millisecond < 1000
    ensures WellFormed(t)
    ensures GeneratePassword(Some("174379"), Some(passkey), IsoString(t))
         == Base64.Encode(Utf8.Encode("174379" + passkey + "20240102030405"))
  {
    assert WellFormed(t);
    FrozenCompact(t);
    TimestampOfIso(t);
  }

  lemma FrozenCompact(t: Instant)
    requires t.year == 2024 && t.month == 1 && t.day == 2
    requires t.hour == 3 && t.minute == 4 && t.second == 5
    ensures Compact(t) == "20240102030405"
  {
    PaddedYear();
    PaddedSmall(1);
    PaddedSmall(2);
    PaddedSmall(3);
    PaddedSmall(4);
    PaddedSmall(5);
    assert Compact(t) == "2024" + "01" + "02" + "03" + "04" + "05";
  }

  lemma PaddedSmall(n: nat)
    requires 1 <= n <= 5
    ensures Padded(n, 2) == ['0', ('0' as int + n) as char]
  {
    assert Padded(0, 1) == Padded(0, 0) + [DigitChar(0)];
    assert Padded(n, 2) == Padded(0, 1) + [DigitChar(n)];
  }

  lemma PaddedYear()
    ensures Padded(2024, 4) == "2024"
  {
    assert Padded(2, 1) == Padded(0, 0) + [DigitChar(2)];
    assert Padded(20, 2) == Padded(2, 1) + [DigitChar(0)];
    assert Padded(202, 3) == Padded(20, 2) + [DigitChar(2)];
    assert Padded(2024, 4) == Padded(202, 3) + [DigitChar(4)];
  }
}
