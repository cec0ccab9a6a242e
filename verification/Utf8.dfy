/** UTF-8 as Go decodes it. A Go string is a sequence of bytes, one `char` below 256 for each; where a
    string stands for Unicode text, a `char` is a scalar value. */
module Utf8 {
  import opened Strings

  const REPLACEMENT: char := 0xFFFD as char

  function EncodeChar(c: char): (s: string)
    ensures s != ""
  {
    var n := c as int;
    if n < 0x80 then [c]
    else if n < 0x800 then [(0xC0 + n / 64) as char, (0x80 + n % 64) as char]
    else if n < 0x1_0000 then [(0xE0 + n / 4096) as char, (0x80 + n / 64 % 64) as char, (0x80 + n % 64) as char]
    else
      [(0xF0 + n / 262144) as char, (0x80 + n / 4096 % 64) as char, (0x80 + n / 64 % 64) as char,
       (0x80 + n % 64) as char]
  }

  function Encode(t: string): string {
    if t == "" then "" else EncodeChar(t[0]) + Encode(t[1..])
  }

  /** The six bits of a continuation byte. */
  function Continuation(s: string, i: nat): (v: Option<nat>)
    ensures v.Some? ==> i < |s| && v.value < 64 && s[i] as int == 0x80 + v.value
  {
    if i < |s| && 0x80 <= s[i] as int < 0xC0 then Some(s[i] as int - 0x80) else None
  }

  /** The first scalar value and the number of its bytes; None for a byte that starts none. Overlong
      forms, surrogates and values above U+10FFFF are refused. */
  function Rune(s: string): (r: Option<(char, nat)>)
    requires s != ""
    ensures r.Some? ==> 1 <= r.value.1 <= |s|
  {
    var b := s[0] as int;
    if b < 0x80 then Some((s[0], 1))
    else if b < 0xC0 || b >= 0xF8 || Continuation(s, 1).None? then None
    else if b < 0xE0 then
      var n := (b - 0xC0) * 64 + Continuation(s, 1).value;
      if n < 0x80 then None else Some((n as char, 2))
    else if Continuation(s, 2).None? then None
    else if b < 0xF0 then
      var n := (b - 0xE0) * 4096 + Continuation(s, 1).value * 64 + Continuation(s, 2).value;
      if n < 0x800 || 0xD800 <= n < 0xE000 then None else Some((n as char, 3))
    else if Continuation(s, 3).None? then None
    else
      var high := (b - 0xF0) * 262144 + Continuation(s, 1).value * 4096;
      var n := high + Continuation(s, 2).value * 64 + Continuation(s, 3).value;
      if n < 0x1_0000 || n >= 0x11_0000 then None else Some((n as char, 4))
  }

  /** The text of a byte string, with U+FFFD for every byte that starts no scalar value. */
  function Runes(s: string): string
    decreases |s|
  {
    if s == "" then "" else
    match Rune(s)
    case None => [REPLACEMENT] + Runes(s[1..])
    case Some(r) => [r.0] + Runes(s[r.1..])
  }

  predicate Valid(s: string)
    decreases |s|
  {
    s == "" || (Rune(s).Some? && Valid(s[Rune(s).value.1..]))
  }

  lemma Digits64(n: nat)
    requires n < 0x11_0000
    ensures n == n / 64 * 64 + n % 64
    ensures n == n / 4096 * 4096 + n / 64 % 64 * 64 + n % 64
    ensures n == n / 262144 * 262144 + n / 4096 % 64 * 4096 + n / 64 % 64 * 64 + n % 64
    ensures n / 262144 < 8 && (n < 0x1_0000 ==> n / 4096 < 16) && (n < 0x800 ==> n / 64 < 32)
  {
    assert n / 4096 == n / 64 / 64 && n / 262144 == n / 4096 / 64;
  }

  lemma Rune2(a: nat, b: nat, rest: string)
    requires a < 32 && b < 64 && a * 64 + b >= 0x80
    ensures Rune([(0xC0 + a) as char, (0x80 + b) as char] + rest) == Some(((a * 64 + b) as char, 2))
  {
  }

  lemma Rune3(a: nat, b: nat, c: nat, rest: string)
    requires a < 16 && b < 64 && c < 64
    requires var n := a * 4096 + b * 64 + c; n >= 0x800 && !(0xD800 <= n < 0xE000)
    ensures Rune([(0xE0 + a) as char, (0x80 + b) as char, (0x80 + c) as char] + rest) ==
              Some(((a * 4096 + b * 64 + c) as char, 3))
  {
  }

  lemma Rune4(a: nat, b: nat, c: nat, d: nat, rest: string)
    requires a < 8 && b < 64 && c < 64 && d < 64
    requires var n := a * 262144 + b * 4096 + c * 64 + d; 0x1_0000 <= n < 0x11_0000
    ensures Rune([(0xF0 + a) as char, (0x80 + b) as char, (0x80 + c) as char, (0x80 + d) as char] + rest) ==
              Some(((a * 262144 + b * 4096 + c * 64 + d) as char, 4))
  {
  }

  lemma RuneOfEncoded(c: char, rest: string)
    ensures Rune(EncodeChar(c) + rest) == Some((c, |EncodeChar(c)|))
  {
    var n := c as int;
    Digits64(n);
    if n < 0x80 {
    } else {
      if n < 0x800 { Rune2(n / 64, n % 64, rest); }
      else if n < 0x1_0000 { Rune3(n / 4096, n / 64 % 64, n % 64, rest); }
      else { Rune4(n / 262144, n / 4096 % 64, n / 64 % 64, n % 64, rest); }
      hide Rune;
    }
  }

  lemma Radix64(a: nat, b: nat, c: nat, d: nat)
    requires b < 64 && c < 64 && d < 64
    ensures (a * 64 + b) / 64 == a && (a * 64 + b) % 64 == b
    ensures
      var n := a * 4096 + b * 64 + c;
      n / 4096 == a && n / 64 % 64 == b && n % 64 == c
    ensures
      var n := a * 262144 + b * 4096 + c * 64 + d;
      n / 262144 == a && n / 4096 % 64 == b && n / 64 % 64 == c && n % 64 == d
  {
    var m := a * 4096 + b * 64 + c;
    assert m / 64 == a * 64 + b && m / 4096 == m / 64 / 64;
    var n := a * 262144 + b * 4096 + c * 64 + d;
    assert n / 64 == m && n / 4096 == n / 64 / 64 && n / 262144 == n / 4096 / 64;
  }

  lemma Encoded2(a: nat, b: nat)
    requires b < 64 && 0x80 <= a * 64 + b < 0x800
    ensures EncodeChar((a * 64 + b) as char) == [(0xC0 + a) as char, (0x80 + b) as char]
  {
    Radix64(a, b, 0, 0);
  }

  lemma Encoded3(a: nat, b: nat, c: nat)
    requires b < 64 && c < 64
    requires var n := a * 4096 + b * 64 + c; 0x800 <= n < 0x1_0000 && !(0xD800 <= n < 0xE000)
    ensures EncodeChar((a * 4096 + b * 64 + c) as char) == [(0xE0 + a) as char, (0x80 + b) as char, (0x80 + c) as char]
  {
    Radix64(a, b, c, 0);
  }

  lemma Encoded4(a: nat, b: nat, c: nat, d: nat)
    requires b < 64 && c < 64 && d < 64
    requires var n := a * 262144 + b * 4096 + c * 64 + d; 0x1_0000 <= n < 0x11_0000
    ensures EncodeChar((a * 262144 + b * 4096 + c * 64 + d) as char) ==
              [(0xF0 + a) as char, (0x80 + b) as char, (0x80 + c) as char, (0x80 + d) as char]
  {
    Radix64(a, b, c, d);
  }

  /** The bytes that decode to a scalar value are the ones that encode it. */
  lemma EncodedRune(s: string)
    requires s != "" && Rune(s).Some?
    ensures s[..Rune(s).value.1] == EncodeChar(Rune(s).value.0)
  {
    var b, k := s[0] as int, Rune(s).value.1;
    if k == 1 {
    } else {
      if k == 2 {
        Encoded2(b - 0xC0, Continuation(s, 1).value);
      } else if k == 3 {
        Encoded3(b - 0xE0, Continuation(s, 1).value, Continuation(s, 2).value);
      } else {
        Encoded4(b - 0xF0, Continuation(s, 1).value, Continuation(s, 2).value, Continuation(s, 3).value);
      }
      hide EncodeChar;
    }
  }

  lemma {:induction false} RunesEncode(t: string)
    ensures Runes(Encode(t)) == t && Valid(Encode(t))
  {
    hide EncodeChar, Rune;
    if t != "" {
      RuneOfEncoded(t[0], Encode(t[1..]));
      RunesEncode(t[1..]);
      assert (EncodeChar(t[0]) + Encode(t[1..]))[|EncodeChar(t[0])|..] == Encode(t[1..]);
      assert t == [t[0]] + t[1..];
    }
  }

  lemma {:induction false} EncodeRunes(s: string)
    requires Valid(s)
    ensures Encode(Runes(s)) == s
    decreases |s|
  {
    hide EncodeChar, Rune;
    if s != "" {
      var r := Rune(s).value;
      EncodedRune(s);
      EncodeRunes(s[r.1..]);
      assert ([r.0] + Runes(s[r.1..]))[1..] == Runes(s[r.1..]);
      assert s == s[..r.1] + s[r.1..];
    }
  }

  /** A byte string after a passage through JSON. */
  function Clean(s: string): string { Encode(Runes(s)) }

  /** The passage changes nothing exactly when the string is valid UTF-8; a second one never does. */
  lemma CleanExactly(s: string)
    ensures Clean(s) == s <==> Valid(s)
    ensures Clean(Clean(s)) == Clean(s)
    ensures Clean(s) == "" <==> s == ""
  {
    RunesEncode(Runes(s));
    if Valid(s) { EncodeRunes(s); }
    if s != "" { assert Runes(s) != ""; }
  }

  lemma {:induction false} EncodeBytes(t: string)
    ensures Bytes(Encode(t))
  {
    if t != "" {
      EncodeBytes(t[1..]);
      Digits64(t[0] as int);
      assert Bytes(EncodeChar(t[0]));
    }
  }

  lemma {:induction false} AsciiValid(s: string)
    requires forall i | 0 <= i < |s| :: s[i] as int < 0x80
    ensures Runes(s) == s && Clean(s) == s
  {
    if s != "" {
      AsciiValid(s[1..]);
      assert Rune(s) == Some((s[0], 1));
      assert s == [s[0]] + s[1..];
      assert Encode(Runes(s)) == EncodeChar(s[0]) + Encode(Runes(s)[1..]);
      assert Runes(s)[1..] == Runes(s[1..]);
    }
  }

  lemma StartsWith(s: string)
    requires s != "" && Rune(s).Some?
    ensures exists d: char :: EncodeChar(d) <= s
  {
    EncodedRune(s);
    hide Rune, EncodeChar;
    assert EncodeChar(Rune(s).value.0) <= s;
  }

  /** What the passage does to any string: a scalar value's bytes come through, and every byte that starts
      none becomes the three bytes of U+FFFD. */
  lemma CleanReads(c: char, s: string)
    ensures Clean("") == ""
    ensures Clean(EncodeChar(c) + s) == EncodeChar(c) + Clean(s)
    ensures s != "" && (forall d: char :: !(EncodeChar(d) <= s)) ==>
              Clean(s) == [0xEF as char, 0xBF as char, 0xBD as char] + Clean(s[1..])
  {
    hide Rune;
    RuneOfEncoded(c, s);
    assert (EncodeChar(c) + s)[|EncodeChar(c)|..] == s;
    assert ([c] + Runes(s))[1..] == Runes(s);
    if s != "" && forall d: char :: !(EncodeChar(d) <= s) {
      if Rune(s).Some? { StartsWith(s); }
      assert ([REPLACEMENT] + Runes(s[1..]))[1..] == Runes(s[1..]);
      assert EncodeChar(REPLACEMENT) == [0xEF as char, 0xBF as char, 0xBD as char];
    }
  }
}
