/**
  The robot's initial position message, "x,y": two decimal integers split at
  the first comma and read as 32-bit signed integers. A message without a
  comma or with a part that is not a number fails.
 */
module Handshake {
  import opened Wrappers

  const INT_MIN: int := -0x8000_0000
  const INT_MAX: int := 0x7fff_ffff

  /** The index of the first occurrence of ch in s, or -1 when there is none. */
  function IndexOf(s: string, ch: char): (r: int)
    ensures r == -1 <==> ch !in s
    ensures r != -1 ==> 0 <= r < |s| && s[r] == ch && ch !in s[..r]
  {
    if |s| == 0 then -1
    else if s[0] == ch then 0
    else
      var r := IndexOf(s[1..], ch);
      assert s[1..][..if r < 0 then 0 else r] == s[1..1 + if r < 0 then 0 else r];
      if r == -1 then -1 else r + 1
  }

  predicate IsDigit(c: char) {
    '0' <= c <= '9'
  }

  predicate AllDigits(s: string) {
    forall i :: 0 <= i < |s| ==> IsDigit(s[i])
  }

  /** The value of a string of decimal digits, most significant first. */
  function DigitsValue(s: string): nat
    requires AllDigits(s)
  {
    if |s| == 0 then 0 else 10 * DigitsValue(s[..|s| - 1]) + (s[|s| - 1] as int - '0' as int)
  }

  /**
    Integer.parseInt: an optional '+' or '-' sign, then at least one decimal
    digit, the value being inside the 32-bit signed range; anything else fails.
   */
  function ParseInt(s: string): (r: Option<int>)
    ensures r.Some? ==> INT_MIN <= r.value <= INT_MAX
  {
    if |s| == 0 then None
    else
      var signed := s[0] == '-' || s[0] == '+';
      var digits := if signed then s[1..] else s;
      if |digits| == 0 || !AllDigits(digits) then None
      else
        var v: int := if s[0] == '-' then 0 - DigitsValue(digits) as int else DigitsValue(digits) as int;
        if INT_MIN <= v <= INT_MAX then Some(v) else None
  }

  /** The position message split at its first comma; either part failing to parse fails the message. */
  function ParsePosition(msg: string): (r: Option<(int, int)>)
    ensures ',' !in msg ==> r == None
    ensures ',' in msg ==>
      var i := IndexOf(msg, ',');
      && (r.Some? <==> ParseInt(msg[..i]).Some? && ParseInt(msg[i + 1..]).Some?)
      && (r.Some? ==> r.value == (ParseInt(msg[..i]).value, ParseInt(msg[i + 1..]).value))
  {
    var index := IndexOf(msg, ',');
    if index < 0 then None
    else
      match (ParseInt(msg[..index]), ParseInt(msg[index + 1..]))
      case (Some(x), Some(y)) => Some((x, y))
      case _ => None
  }

  /** The shortest decimal digits of n. */
  function NatToDigits(n: nat): string {
    if n < 10 then [('0' as int + n) as char] else NatToDigits(n / 10) + [('0' as int + n % 10) as char]
  }

  /** The decimal text of n, with a '-' for a negative value: what the robot sends. */
  function IntToString(n: int): string {
    if n < 0 then "-" + NatToDigits(-n) else NatToDigits(n)
  }

  lemma {:induction false} NatToDigitsRoundTrip(n: nat)
    ensures |NatToDigits(n)| > 0 && AllDigits(NatToDigits(n))
    ensures DigitsValue(NatToDigits(n)) == n
  {
    var s := NatToDigits(n);
    if n >= 10 {
      NatToDigitsRoundTrip(n / 10);
      assert s[..|s| - 1] == NatToDigits(n / 10);
    }
  }

  /** Reading back the decimal text of a 32-bit integer gives the integer. */
  lemma {:induction false} ParseIntRoundTrip(n: int)
    requires INT_MIN <= n <= INT_MAX
    ensures ParseInt(IntToString(n)) == Some(n)
    ensures ',' !in IntToString(n)
  {
    var s := IntToString(n);
    if n < 0 {
      NatToDigitsRoundTrip(-n);
      assert s[1..] == NatToDigits(-n);
      assert s[0] == '-';
    } else {
      NatToDigitsRoundTrip(n);
      assert IsDigit(s[0]);
    }
  }

  /** A well-formed position message parses back to the position it was written from. */
  lemma {:induction false} ParsePositionRoundTrip(x: int, y: int)
    requires INT_MIN <= x <= INT_MAX && INT_MIN <= y <= INT_MAX
    ensures ParsePosition(IntToString(x) + "," + IntToString(y)) == Some((x, y))
  {
    var sx, sy := IntToString(x), IntToString(y);
    var msg := sx + "," + sy;
    ParseIntRoundTrip(x);
    ParseIntRoundTrip(y);
    var index := IndexOf(msg, ',');
    assert msg[|sx|] == ',';
    assert index == |sx| by {
      assert ',' !in msg[..|sx|] by { assert msg[..|sx|] == sx; }
      assert index <= |sx|;
    }
    assert msg[..index] == sx;
    assert msg[index + 1..] == sy;
  }
}
