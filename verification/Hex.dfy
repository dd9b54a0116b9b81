/** Hexadecimal strings: written in lower case, read in either case. */
module Hex {
  import opened Prelude

  function Digit(n: nat): char
    requires n < 16
  {
    if n < 10 then '0' + n as char else 'a' + (n - 10) as char
  }

  function DigitValue(c: char): Option<nat> {
    if '0' <= c <= '9' then Some((c - '0') as nat)
    else if 'a' <= c <= 'f' then Some((c - 'a') as nat + 10)
    else if 'A' <= c <= 'F' then Some((c - 'A') as nat + 10)
    else None
  }

  predicate IsLower(c: char) { '0' <= c <= '9' || 'a' <= c <= 'f' }

  predicate AllLower(s: string) { forall i :: 0 <= i < |s| ==> IsLower(s[i]) }

  lemma DigitRoundTrip(n: nat)
    requires n < 16
    ensures DigitValue(Digit(n)) == Some(n) && IsLower(Digit(n))
  {
  }

  lemma LowerDigitRoundTrip(c: char)
    requires IsLower(c)
    ensures DigitValue(c).Some? && DigitValue(c).value < 16 && Digit(DigitValue(c).value) == c
  {
  }

  function EncodeToString(bs: seq<byte>): string {
    if bs == [] then "" else [Digit(bs[0] / 16), Digit(bs[0] % 16)] + EncodeToString(bs[1..])
  }

  function DecodeString(s: string): Option<seq<byte>> {
    if s == "" then Some([])
    else if |s| == 1 then None
    else
      match (DigitValue(s[0]), DigitValue(s[1]), DecodeString(s[2..]))
      case (Some(hi), Some(lo), Some(rest)) => if hi < 16 && lo < 16 then Some([16 * hi + lo] + rest) else None
      case _ => None
  }

  lemma {:induction false} EncodesInLower(bs: seq<byte>)
    ensures AllLower(EncodeToString(bs))
  {
    if bs != [] {
      EncodesInLower(bs[1..]);
      DigitRoundTrip(bs[0] / 16);
      DigitRoundTrip(bs[0] % 16);
    }
  }

  /** Reading undoes writing. */
  lemma {:induction false} DecodeEncode(bs: seq<byte>)
    ensures DecodeString(EncodeToString(bs)) == Some(bs)
  {
    if bs != [] {
      DecodeEncode(bs[1..]);
      DigitRoundTrip(bs[0] / 16);
      DigitRoundTrip(bs[0] % 16);
      assert EncodeToString(bs)[2..] == EncodeToString(bs[1..]);
      assert [16 * (bs[0] / 16) + bs[0] % 16] + bs[1..] == bs;
    }
  }

  lemma {:induction false} LowerEncodeDecode(s: string)
    requires DecodeString(s).Some? && AllLower(s)
    ensures EncodeToString(DecodeString(s).value) == s
  {
    if s != "" {
      LowerEncodeDecode(s[2..]);
      LowerDigitRoundTrip(s[0]);
      LowerDigitRoundTrip(s[1]);
      var hi, lo, rest := DigitValue(s[0]).value, DigitValue(s[1]).value, DecodeString(s[2..]).value;
      var bs: seq<byte> := [16 * hi + lo] + rest;
      assert bs[1..] == rest && bs[0] / 16 == hi && bs[0] % 16 == lo;
      assert s == [s[0], s[1]] + s[2..];
    }
  }

  /** Writing undoes reading exactly for lower-case strings. */
  lemma EncodeDecode(s: string)
    requires DecodeString(s).Some?
    ensures EncodeToString(DecodeString(s).value) == s <==> AllLower(s)
  {
    if AllLower(s) {
      LowerEncodeDecode(s);
    }
    EncodesInLower(DecodeString(s).value);
  }

  /** A text is what a hash is written as exactly when it reads as that hash and is in lower case. */
  lemma TextIsBytes(s: string, bs: seq<byte>)
    ensures s == EncodeToString(bs) <==> DecodeString(s) == Some(bs) && AllLower(s)
  {
    DecodeEncode(bs);
    if DecodeString(s).Some? {
      EncodeDecode(s);
    }
  }

  predicate IsHexDigit(c: char) { '0' <= c <= '9' || 'a' <= c <= 'f' || 'A' <= c <= 'F' }

  /** The same letter in another case, or the same character. */
  predicate SameLetter(c: char, d: char) { c == d || c as int == d as int + 32 || d as int == c as int + 32 }

  /** A text can be read exactly when it is an even number of hexadecimal digits, of either case. */
  lemma {:induction false} DecodesExactly(s: string)
    ensures DecodeString(s).Some? <==> |s| % 2 == 0 && forall i :: 0 <= i < |s| ==> IsHexDigit(s[i])
  {
    if |s| >= 2 {
      DecodesExactly(s[2..]);
      assert forall i :: 2 <= i < |s| ==> s[i] == s[2..][i - 2];
    }
  }

  /** Reading does not tell upper from lower case. */
  lemma {:induction false} CaseDoesNotMatter(s: string, t: string)
    requires |s| == |t|
    requires forall i :: 0 <= i < |s| ==> IsHexDigit(s[i]) && IsHexDigit(t[i]) && SameLetter(s[i], t[i])
    ensures DecodeString(s) == DecodeString(t)
  {
    if |s| >= 2 {
      CaseDoesNotMatter(s[2..], t[2..]);
    }
  }
}
