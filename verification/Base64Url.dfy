/** Unpadded base64url, section 5 of RFC 4648, as encrypt and decrypt use it
    (pkg/auth/oauth/crypto.go). */
module Base64Url {
  import opened Strings

  type Octet = n: int | 0 <= n < 256 witness 0

  function Digit64(n: nat): char
    requires n < 64
  {
    if n < 26 then 'A' + n as char
    else if n < 52 then 'a' + (n - 26) as char
    else if n < 62 then '0' + (n - 52) as char
    else if n == 62 then '-' else '_'
  }

  function Value64(c: char): (v: Option<nat>)
    ensures v.Some? ==> v.value < 64
  {
    if 'A' <= c <= 'Z' then Some(c as int - 'A' as int)
    else if 'a' <= c <= 'z' then Some(c as int - 'a' as int + 26)
    else if '0' <= c <= '9' then Some(c as int - '0' as int + 52)
    else if c == '-' then Some(62) else if c == '_' then Some(63) else None
  }

  lemma DigitValue(n: nat)
    requires n < 64
    ensures Value64(Digit64(n)) == Some(n)
    ensures Digit64(n) != '\n' && Digit64(n) != '\r'
  {
  }

  function EncodeToString(b: seq<Octet>): string {
    if |b| == 0 then ""
    else if |b| == 1 then [Digit64(b[0] / 4), Digit64(b[0] % 4 * 16)]
    else if |b| == 2 then [Digit64(b[0] / 4), Digit64(b[0] % 4 * 16 + b[1] / 16), Digit64(b[1] % 16 * 4)]
    else
      [Digit64(b[0] / 4), Digit64(b[0] % 4 * 16 + b[1] / 16), Digit64(b[1] % 16 * 4 + b[2] / 64), Digit64(b[2] % 64)]
      + EncodeToString(b[3..])
  }

  /** Line breaks are skipped wherever they stand. */
  function SkipBreaks(s: string): string {
    if s == "" then "" else if s[0] == '\n' || s[0] == '\r' then SkipBreaks(s[1..]) else [s[0]] + SkipBreaks(s[1..])
  }

  /** Four characters give three bytes; two or three left over give one or two, and their spare bits
      are ignored; a single one is an error. */
  function DecodeGroups(s: string): Option<seq<Octet>> {
    if |s| == 0 then Some([])
    else if |s| == 1 || Value64(s[0]).None? || Value64(s[1]).None? then None
    else
      var a, b := Value64(s[0]).value, Value64(s[1]).value;
      var first := a * 4 + b / 16;
      if |s| == 2 then Some([first])
      else if Value64(s[2]).None? then None
      else
        var c := Value64(s[2]).value;
        var second := b % 16 * 16 + c / 4;
        if |s| == 3 then Some([first, second])
        else if Value64(s[3]).None? then None
        else
          match DecodeGroups(s[4..])
          case None => None
          case Some(rest) => Some([first, second, c % 4 * 64 + Value64(s[3]).value] + rest)
  }

  function DecodeString(s: string): Option<seq<Octet>> { DecodeGroups(SkipBreaks(s)) }

  lemma {:induction false} NoBreaks(s: string)
    requires '\n' !in s && '\r' !in s
    ensures SkipBreaks(s) == s
  {
    if s != "" {
      NoBreaks(s[1..]);
      assert s == [s[0]] + s[1..];
    }
  }

  lemma {:induction false} EncodedBreaks(b: seq<Octet>)
    ensures '\n' !in EncodeToString(b) && '\r' !in EncodeToString(b)
  {
    hide Digit64;
    if |b| >= 1 { DigitValue(b[0] / 4); DigitValue(b[0] % 4 * 16); }
    if |b| >= 2 { DigitValue(b[0] % 4 * 16 + b[1] / 16); DigitValue(b[1] % 16 * 4); }
    if |b| >= 3 {
      DigitValue(b[1] % 16 * 4 + b[2] / 64);
      DigitValue(b[2] % 64);
      EncodedBreaks(b[3..]);
    }
  }

  lemma {:induction false} EncodedBytes(b: seq<Octet>)
    ensures Bytes(EncodeToString(b))
  {
    if |b| >= 3 {
      EncodedBytes(b[3..]);
    }
  }

  lemma Bits(x: Octet, y: Octet)
    ensures x / 4 * 4 + (x % 4 * 16 + y / 16) / 16 == x
    ensures (x % 4 * 16 + y / 16) % 16 == y / 16
    ensures (x % 4 * 16) / 16 == x % 4 && x / 4 * 4 + x % 4 == x
    ensures y / 16 * 16 + (y % 16 * 4) / 4 == y
  {
  }

  lemma MoreBits(y: Octet, z: Octet)
    ensures y / 16 * 16 + (y % 16 * 4 + z / 64) / 4 == y
    ensures (y % 16 * 4 + z / 64) % 4 * 64 + z % 64 == z
  {
  }

  lemma OneByte(b: seq<Octet>)
    requires |b| == 1
    ensures DecodeGroups(EncodeToString(b)) == Some(b)
  {
    hide Digit64, Value64;
    DigitValue(b[0] / 4);
    DigitValue(b[0] % 4 * 16);
    Bits(b[0], 0);
    assert b == [b[0]];
  }

  lemma ThreeDigits(i: nat, j: nat, k: nat)
    requires i < 64 && j < 64 && k < 64
    ensures DecodeGroups([Digit64(i), Digit64(j), Digit64(k)]) == Some([i * 4 + j / 16, j % 16 * 16 + k / 4])
  {
    hide Digit64, Value64;
    DigitValue(i);
    DigitValue(j);
    DigitValue(k);
  }

  lemma TwoBytes(b: seq<Octet>)
    requires |b| == 2
    ensures DecodeGroups(EncodeToString(b)) == Some(b)
  {
    hide Digit64, Value64, DecodeGroups;
    ThreeDigits(b[0] / 4, b[0] % 4 * 16 + b[1] / 16, b[1] % 16 * 4);
    Bits(b[0], b[1]);
    assert b == [b[0], b[1]];
  }

  lemma ThreeBytes(x: Octet, y: Octet, z: Octet, rest: string)
    requires DecodeGroups(rest).Some?
    ensures
      var group := [Digit64(x / 4), Digit64(x % 4 * 16 + y / 16), Digit64(y % 16 * 4 + z / 64), Digit64(z % 64)];
      DecodeGroups(group + rest) == Some([x, y, z] + DecodeGroups(rest).value)
  {
    hide Digit64, Value64;
    DigitValue(x / 4);
    DigitValue(x % 4 * 16 + y / 16);
    DigitValue(y % 16 * 4 + z / 64);
    DigitValue(z % 64);
    Bits(x, y);
    MoreBits(y, z);
    var group := [Digit64(x / 4), Digit64(x % 4 * 16 + y / 16), Digit64(y % 16 * 4 + z / 64), Digit64(z % 64)];
    assert (group + rest)[4..] == rest;
  }

  lemma {:induction false} DecodeEncodedGroups(b: seq<Octet>)
    ensures DecodeGroups(EncodeToString(b)) == Some(b)
  {
    hide Digit64, Value64;
    if |b| == 1 {
      OneByte(b);
    } else if |b| == 2 {
      TwoBytes(b);
    } else if |b| >= 3 {
      DecodeEncodedGroups(b[3..]);
      ThreeBytes(b[0], b[1], b[2], EncodeToString(b[3..]));
      assert b == [b[0], b[1], b[2]] + b[3..];
    }
  }

  /** Decoding an encoding gives the bytes back. */
  lemma DecodeEncode(b: seq<Octet>)
    ensures DecodeString(EncodeToString(b)) == Some(b)
  {
    EncodedBreaks(b);
    NoBreaks(EncodeToString(b));
    DecodeEncodedGroups(b);
  }

  // ---- All spellings ----

  const UPPER := "ABCDEFGHIJKLMNOPQRSTUVWXYZ"
  const LOWER := "abcdefghijklmnopqrstuvwxyz"
  const REST := "0123456789-_"

  /** The alphabet of section 5 of RFC 4648. */
  lemma Alphabet(n: nat)
    requires n < 64
    ensures |UPPER| == 26 && |LOWER| == 26 && |REST| == 12
    ensures Digit64(n) == if n < 26 then UPPER[n] else if n < 52 then LOWER[n - 26] else REST[n - 52]
  {
  }

  predicate InAlphabet(c: char) {
    'A' <= c <= 'Z' || 'a' <= c <= 'z' || '0' <= c <= '9' || c == '-' || c == '_'
  }

  lemma ValueDigit(c: char)
    ensures Value64(c).Some? <==> InAlphabet(c)
    ensures Value64(c).Some? ==> Digit64(Value64(c).value) == c
  {
  }

  /** The same but for the spare bits of the last character. */
  ghost predicate Spells(s: string, e: string) {
    && |s| == |e|
    && (|s| % 4 == 0 ==> s == e)
    && (s != "" ==> s[..|s| - 1] == e[..|s| - 1])
    && (|s| % 4 == 2 ==> Value64(s[|s| - 1]).Some? && Value64(e[|s| - 1]).Some?
                         && Value64(s[|s| - 1]).value / 16 == Value64(e[|s| - 1]).value / 16)
    && (|s| % 4 == 3 ==> Value64(s[|s| - 1]).Some? && Value64(e[|s| - 1]).Some?
                         && Value64(s[|s| - 1]).value / 4 == Value64(e[|s| - 1]).value / 4)
  }

  lemma GroupSpelled(a: nat, b: nat, c: nat, d: nat)
    requires a < 64 && b < 64 && c < 64 && d < 64
    ensures a * 4 + b / 16 < 256 && b % 16 * 16 + c / 4 < 256 && c % 4 * 64 + d < 256
    ensures
      var x, y, z := a * 4 + b / 16, b % 16 * 16 + c / 4, c % 4 * 64 + d;
      && x / 4 == a && x % 4 * 16 + y / 16 == b && y % 16 * 4 + z / 64 == c && z % 64 == d
      && x % 4 * 16 / 16 == b / 16 && y % 16 * 4 / 4 == c / 4
  {
  }

  /** The value of a character of the alphabet. */
  function Val(c: char): nat
    requires InAlphabet(c)
  {
    ValueDigit(c);
    Value64(c).value
  }

  lemma ValIs(c: char)
    requires InAlphabet(c)
    ensures Value64(c) == Some(Val(c)) && Val(c) < 64 && Digit64(Val(c)) == c
  {
    ValueDigit(c);
  }

  lemma TwoSpelled(s: string)
    requires |s| == 2 && InAlphabet(s[0]) && InAlphabet(s[1])
    ensures DecodeGroups(s).Some? && Spells(s, EncodeToString(DecodeGroups(s).value))
  {
    ValIs(s[0]);
    ValIs(s[1]);
    var a, b := Val(s[0]), Val(s[1]);
    GroupSpelled(a, b, 0, 0);
    hide Val, InAlphabet, Digit64, Value64;
    var x: Octet := a * 4 + b / 16;
    assert DecodeGroups(s) == Some([x]);
    assert EncodeToString([x]) == [Digit64(a), Digit64(x % 4 * 16)];
    DigitValue(x % 4 * 16);
  }

  lemma DecodeThree(s: string, a: nat, b: nat, c: nat)
    requires |s| == 3 && a < 64 && b < 64 && c < 64
    requires Value64(s[0]) == Some(a) && Value64(s[1]) == Some(b) && Value64(s[2]) == Some(c)
    ensures a * 4 + b / 16 < 256 && b % 16 * 16 + c / 4 < 256
    ensures DecodeGroups(s) == Some([a * 4 + b / 16, b % 16 * 16 + c / 4])
  {
    hide Value64;
  }

  lemma EncodeTwo(x: Octet, y: Octet)
    ensures y % 16 * 4 < 64
    ensures EncodeToString([x, y]) == [Digit64(x / 4), Digit64(x % 4 * 16 + y / 16), Digit64(y % 16 * 4)]
  {
    hide Digit64;
  }

  lemma SpellsThree(s: string, e: string)
    requires |s| == 3 && |e| == 3 && s[0] == e[0] && s[1] == e[1]
    requires Value64(s[2]).Some? && Value64(e[2]).Some? && Value64(s[2]).value / 4 == Value64(e[2]).value / 4
    ensures Spells(s, e)
  {
    hide Value64;
    assert s[..2] == e[..2];
  }

  lemma ThreeSpelled(s: string)
    requires |s| == 3 && InAlphabet(s[0]) && InAlphabet(s[1]) && InAlphabet(s[2])
    ensures DecodeGroups(s).Some? && Spells(s, EncodeToString(DecodeGroups(s).value))
  {
    hide *;
    ValIs(s[0]);
    ValIs(s[1]);
    ValIs(s[2]);
    var a, b, c := Val(s[0]), Val(s[1]), Val(s[2]);
    GroupSpelled(a, b, c, 0);
    DecodeThree(s, a, b, c);
    EncodeTwo(a * 4 + b / 16, b % 16 * 16 + c / 4);
    DigitValue((b % 16 * 16 + c / 4) % 16 * 4);
    SpellsThree(s, EncodeToString([a * 4 + b / 16, b % 16 * 16 + c / 4]));
  }

  lemma DecodeFour(s: string, a: nat, b: nat, c: nat, d: nat)
    requires |s| >= 4 && a < 64 && b < 64 && c < 64 && d < 64
    requires Value64(s[0]) == Some(a) && Value64(s[1]) == Some(b)
    requires Value64(s[2]) == Some(c) && Value64(s[3]) == Some(d)
    ensures a * 4 + b / 16 < 256 && b % 16 * 16 + c / 4 < 256 && c % 4 * 64 + d < 256
    ensures DecodeGroups(s) ==
      match DecodeGroups(s[4..])
      case None => None
      case Some(rest) => Some([a * 4 + b / 16, b % 16 * 16 + c / 4, c % 4 * 64 + d] + rest)
  {
    hide Value64;
  }

  lemma EncodeFour(x: Octet, y: Octet, z: Octet, rest: seq<Octet>)
    ensures EncodeToString([x, y, z] + rest) ==
      [Digit64(x / 4), Digit64(x % 4 * 16 + y / 16), Digit64(y % 16 * 4 + z / 64), Digit64(z % 64)]
      + EncodeToString(rest)
  {
    hide Digit64;
    assert ([x, y, z] + rest)[3..] == rest;
  }

  lemma FourSpelled(s: string)
    requires |s| >= 4 && InAlphabet(s[0]) && InAlphabet(s[1]) && InAlphabet(s[2]) && InAlphabet(s[3])
    ensures DecodeGroups(s).Some? <==> DecodeGroups(s[4..]).Some?
    ensures DecodeGroups(s).Some? ==>
      EncodeToString(DecodeGroups(s).value) == s[..4] + EncodeToString(DecodeGroups(s[4..]).value)
  {
    hide *;
    ValIs(s[0]);
    ValIs(s[1]);
    ValIs(s[2]);
    ValIs(s[3]);
    var a, b, c, d := Val(s[0]), Val(s[1]), Val(s[2]), Val(s[3]);
    GroupSpelled(a, b, c, d);
    DecodeFour(s, a, b, c, d);
    if DecodeGroups(s[4..]).Some? {
      EncodeFour(a * 4 + b / 16, b % 16 * 16 + c / 4, c % 4 * 64 + d, DecodeGroups(s[4..]).value);
      assert s[..4] == [Digit64(a), Digit64(b), Digit64(c), Digit64(d)];
    }
  }

  /** What a decodable text starts with. */
  lemma FirstGroup(s: string)
    requires DecodeGroups(s).Some?
    ensures |s| != 1 && (|s| >= 4 ==> DecodeGroups(s[4..]).Some?)
    ensures forall i | 0 <= i < 4 && i < |s| :: Value64(s[i]).Some?
  {
    hide Value64;
  }

  lemma NothingSpelled()
    ensures DecodeGroups("") == Some([]) && EncodeToString([]) == "" && Spells("", "")
  {
  }

  lemma SpellsMore(s: string, e: string)
    requires |s| >= 4 && Spells(s[4..], e)
    ensures Spells(s, s[..4] + e)
  {
    var t, f := s[4..], s[..4] + e;
    assert s == s[..4] + t;
    if t == "" {
      assert f == s;
    } else {
      assert s[..|s| - 1] == s[..4] + t[..|t| - 1] && f[..|s| - 1] == s[..4] + e[..|t| - 1];
      assert s[|s| - 1] == t[|t| - 1] && f[|s| - 1] == e[|t| - 1];
    }
    hide Value64;
  }

  /** A text without line breaks decodes exactly when it is of the alphabet and its length can be that of
      an encoding, and it decodes to the bytes whose encoding it is, but for spare bits. */
  lemma {:induction false} GroupsExactly(s: string)
    ensures DecodeGroups(s).Some? <==> |s| % 4 != 1 && forall c | c in s :: InAlphabet(c)
    ensures DecodeGroups(s).Some? ==> Spells(s, EncodeToString(DecodeGroups(s).value))
  {
    hide *;
    if DecodeGroups(s).Some? { FirstGroup(s); }
    forall c ensures Value64(c).Some? <==> InAlphabet(c) { ValueDigit(c); }
    if |s| >= 4 {
      assert s == [s[0], s[1], s[2], s[3]] + s[4..];
      GroupsExactly(s[4..]);
      if InAlphabet(s[0]) && InAlphabet(s[1]) && InAlphabet(s[2]) && InAlphabet(s[3]) {
        FourSpelled(s);
        if DecodeGroups(s).Some? { SpellsMore(s, EncodeToString(DecodeGroups(s[4..]).value)); }
      }
    } else if |s| == 3 {
      if InAlphabet(s[0]) && InAlphabet(s[1]) && InAlphabet(s[2]) { ThreeSpelled(s); }
    } else if |s| == 2 {
      if InAlphabet(s[0]) && InAlphabet(s[1]) { TwoSpelled(s); }
    } else if s == "" {
      NothingSpelled();
    }
  }

  lemma {:induction false} BreakBetween(s: string, br: char, t: string)
    requires br == '\n' || br == '\r'
    ensures SkipBreaks(s + [br] + t) == SkipBreaks(s + t)
  {
    if s == "" {
      assert (s + [br] + t)[1..] == t && s + t == t;
    } else {
      assert (s + [br] + t)[1..] == s[1..] + [br] + t && (s + t)[1..] == s[1..] + t;
      BreakBetween(s[1..], br, t);
    }
  }

  /** All spellings of a byte string. A line break anywhere changes nothing. A text without one decodes
      exactly when it is of the alphabet of section 5 and its length is not one above a multiple of four,
      and then to the bytes whose encoding it is, but for the spare bits of its last character. */
  lemma Respelled(s: string, br: char, t: string)
    requires br == '\n' || br == '\r'
    ensures DecodeString(s + [br] + t) == DecodeString(s + t)
    ensures '\n' !in s && '\r' !in s ==>
      && (DecodeString(s).Some? <==> |s| % 4 != 1 && forall c | c in s :: InAlphabet(c))
      && (DecodeString(s).Some? ==> Spells(s, EncodeToString(DecodeString(s).value)))
  {
    hide DecodeGroups, EncodeToString, Spells, InAlphabet;
    BreakBetween(s, br, t);
    if '\n' !in s && '\r' !in s {
      NoBreaks(s);
      GroupsExactly(s);
    }
  }
}
