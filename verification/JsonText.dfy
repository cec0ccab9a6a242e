/** The JSON texts of the sealed payloads (json.Marshal and json.Unmarshal in
    pkg/auth/oauth/crypto.go): flat objects of strings and integers. In a text a `char` is a Unicode
    scalar value; the strings of the object are byte strings. */
module JsonText {
  import opened Strings
  import opened Utf8
  import opened OAuth

  type Members = seq<(string, Json)>

  // ---- Strings ----

  function LowerHex(n: nat): char
    requires n < 16
  {
    if n < 10 then '0' + n as char else 'a' + (n - 10) as char
  }

  function UnicodeEscape(n: nat): string
    requires n < 0x1_0000
  {
    ['\\', 'u', LowerHex(n / 4096), LowerHex(n / 256 % 16), LowerHex(n / 16 % 16), LowerHex(n % 16)]
  }

  predicate NeedsUnicode(c: char) {
    c as int < 0x20 || c == '<' || c == '>' || c == '&' || c as int == 0x2028 || c as int == 0x2029
  }

  /** The characters with a two-character escape, and its second character. */
  function Short(c: char): Option<char> {
    if c == '"' then Some('"') else if c == '\\' then Some('\\')
    else if c as int == 8 then Some('b') else if c as int == 12 then Some('f')
    else if c == '\n' then Some('n') else if c == '\r' then Some('r') else if c == '\t' then Some('t')
    else None
  }

  function Unshort(c: char): Option<char> {
    if c == '"' then Some('"') else if c == '\\' then Some('\\') else if c == '/' then Some('/')
    else if c == 'b' then Some(8 as char) else if c == 'f' then Some(12 as char)
    else if c == 'n' then Some('\n') else if c == 'r' then Some('\r') else if c == 't' then Some('\t')
    else None
  }

  function EscapeRune(c: char): string {
    if Short(c).Some? then ['\\', Short(c).value]
    else if NeedsUnicode(c) then UnicodeEscape(c as int)
    else [c]
  }

  /** The text of a byte string. A byte that is not part of valid UTF-8 is written as an escape. */
  function EscapeAll(s: string): string
    decreases |s|
  {
    if s == "" then "" else
    match Rune(s)
    case None => UnicodeEscape(REPLACEMENT as int) + EscapeAll(s[1..])
    case Some(r) => EscapeRune(r.0) + EscapeAll(s[r.1..])
  }

  function Quote(s: string): string { "\"" + EscapeAll(s) + "\"" }

  function HexAt(s: string, i: nat): Option<nat> { if i < |s| then HexValue(s[i]) else None }

  /** The four digits after \u, if they name a scalar value. */
  function ReadUnicode(s: string): Option<char> {
    if HexAt(s, 2).Some? && HexAt(s, 3).Some? && HexAt(s, 4).Some? && HexAt(s, 5).Some? then
      var n := HexAt(s, 2).value * 4096 + HexAt(s, 3).value * 256 + HexAt(s, 4).value * 16 + HexAt(s, 5).value;
      if n < 0xD800 || 0xE000 <= n then Some(n as char) else None
    else None
  }

  /** Reads a string's content up to its closing quote; the rest of the text follows it. */
  function ReadString(s: string): Option<(string, string)> {
    if s == "" || s[0] as int < 0x20 then None
    else if s[0] == '"' then Some(("", s[1..]))
    else if s[0] != '\\' then Prefixed(s[0], ReadString(s[1..]))
    else if |s| < 2 then None
    else if s[1] == 'u' then
      (if |s| >= 6 && ReadUnicode(s).Some? then Prefixed(ReadUnicode(s).value, ReadString(s[6..])) else None)
    else if Unshort(s[1]).Some? then Prefixed(Unshort(s[1]).value, ReadString(s[2..]))
    else None
  }

  function Prefixed(c: char, r: Option<(string, string)>): Option<(string, string)> {
    match r case None => None case Some(p) => Some(([c] + p.0, p.1))
  }

  lemma HexRoundTrip(n: nat)
    requires n < 16
    ensures HexValue(LowerHex(n)) == Some(n)
  {
  }

  lemma FourDigits(n: nat)
    requires n < 0x1_0000
    ensures n / 4096 < 16 && n / 4096 * 4096 + n / 256 % 16 * 256 + n / 16 % 16 * 16 + n % 16 == n
  {
    assert n / 256 == n / 16 / 16 && n / 4096 == n / 256 / 16;
  }

  lemma ReadUnicodeEscape(c: char, rest: string)
    requires c as int < 0x1_0000
    ensures ReadString(UnicodeEscape(c as int) + rest) == Prefixed(c, ReadString(rest))
  {
    var n := c as int;
    var s := UnicodeEscape(n) + rest;
    assert s[6..] == rest;
    HexRoundTrip(n / 4096); HexRoundTrip(n / 256 % 16); HexRoundTrip(n / 16 % 16); HexRoundTrip(n % 16);
    FourDigits(n);
    assert s[2] == LowerHex(n / 4096) && s[3] == LowerHex(n / 256 % 16);
    assert s[4] == LowerHex(n / 16 % 16) && s[5] == LowerHex(n % 16);
    hide LowerHex, HexValue;
    assert ReadUnicode(s) == Some(c);
  }

  lemma ReadEscaped(c: char, rest: string)
    ensures ReadString(EscapeRune(c) + rest) == Prefixed(c, ReadString(rest))
  {
    hide UnicodeEscape, ReadUnicode;
    var s := EscapeRune(c) + rest;
    if Short(c).Some? {
      assert s[1] == Short(c).value && s[2..] == rest;
      assert Unshort(Short(c).value) == Some(c);
    } else if NeedsUnicode(c) {
      ReadUnicodeEscape(c, rest);
    } else {
      assert s[1..] == rest;
    }
  }

  lemma {:induction false} ReadQuoted(s: string, rest: string)
    ensures ReadString(EscapeAll(s) + "\"" + rest) == Some((Runes(s), rest))
    decreases |s|
  {
    hide EscapeRune, UnicodeEscape, Rune;
    if s == "" {
      assert EscapeAll(s) + "\"" + rest == "\"" + rest;
      assert ("\"" + rest)[1..] == rest;
    } else if Rune(s).None? {
      var tail := EscapeAll(s[1..]) + "\"" + rest;
      assert EscapeAll(s) + "\"" + rest == UnicodeEscape(REPLACEMENT as int) + tail;
      ReadUnicodeEscape(REPLACEMENT, tail);
      ReadQuoted(s[1..], rest);
    } else {
      var r := Rune(s).value;
      var tail := EscapeAll(s[r.1..]) + "\"" + rest;
      assert EscapeAll(s) + "\"" + rest == EscapeRune(r.0) + tail;
      ReadEscaped(r.0, tail);
      ReadQuoted(s[r.1..], rest);
    }
  }

  // ---- Integers ----

  function PrintNat(n: nat): (s: string)
    ensures s != "" && forall i | 0 <= i < |s| :: IsDigit(s[i])
  {
    if n < 10 then ['0' + n as char] else PrintNat(n / 10) + ['0' + (n % 10) as char]
  }

  function PrintInt(n: int): string { if n < 0 then "-" + PrintNat(-n) else PrintNat(n) }

  /** Reads digits as long as there are any. */
  function ReadNat(s: string, n: nat): (nat, string) {
    if s != "" && IsDigit(s[0]) then ReadNat(s[1..], n * 10 + (s[0] as int - '0' as int)) else (n, s)
  }

  function ReadInt(s: string): Option<(int, string)> {
    var neg := s != "" && s[0] == '-';
    var d := if neg then s[1..] else s;
    if d == "" || !IsDigit(d[0]) then None
    else var r := ReadNat(d, 0); Some((if neg then 0 - r.0 else r.0 as int, r.1))
  }

  ghost predicate EndsNumber(rest: string) { rest == "" || !IsDigit(rest[0]) }

  function Pow10(k: nat): nat { if k == 0 then 1 else 10 * Pow10(k - 1) }

  lemma {:induction false} ReadPrinted(n: nat, acc: nat, rest: string)
    ensures ReadNat(PrintNat(n) + rest, acc) == ReadNat(rest, acc * Pow10(|PrintNat(n)|) + n)
    decreases n
  {
    if n < 10 {
      assert (PrintNat(n) + rest)[1..] == rest;
    } else {
      var d := ['0' + (n % 10) as char];
      assert PrintNat(n) + rest == PrintNat(n / 10) + (d + rest);
      ReadPrinted(n / 10, acc, d + rest);
      assert (d + rest)[1..] == rest;
      var k := |PrintNat(n / 10)|;
      assert Pow10(k + 1) == 10 * Pow10(k);
      Shift(acc, Pow10(k), n);
    }
  }

  lemma Shift(acc: nat, p: nat, n: nat)
    ensures (acc * p + n / 10) * 10 + n % 10 == acc * (10 * p) + n
  {
    assert acc * (10 * p) == (acc * p) * 10;
  }

  lemma ReadPrintedInt(n: int, rest: string)
    requires EndsNumber(rest)
    ensures ReadInt(PrintInt(n) + rest) == Some((n, rest))
  {
    var m: nat := if n < 0 then -n else n;
    var k := Pow10(|PrintNat(m)|);
    ReadPrinted(m, 0, rest);
    assert 0 * k + m == m;
    assert ReadNat(rest, m) == (m, rest);
    hide PrintNat, ReadNat, Pow10;
    ReadSigned(n, m, PrintNat(m), rest);
  }

  lemma ReadSigned(n: int, m: nat, digits: string, rest: string)
    requires m == if n < 0 then -n else n
    requires digits != "" && IsDigit(digits[0]) && ReadNat(digits + rest, 0) == (m, rest)
    ensures ReadInt((if n < 0 then "-" + digits else digits) + rest) == Some((n, rest))
  {
    hide ReadNat;
    assert (digits + rest)[0] == digits[0];
    if n < 0 {
      var s := "-" + digits + rest;
      assert s[0] == '-' && s[1..] == digits + rest;
    }
  }

  // ---- Objects ----

  function PrintValue(v: Json): string {
    match v case Text(s) => Quote(s) case Number(n) => PrintInt(n)
  }

  function PrintMembers(ms: Members): string
    requires ms != []
  {
    Quote(ms[0].0) + ":" + PrintValue(ms[0].1) + (if |ms| == 1 then "}" else "," + PrintMembers(ms[1..]))
  }

  function PrintObject(ms: Members): string { if ms == [] then "{}" else "{" + PrintMembers(ms) }

  function ReadValue(s: string): Option<(Json, string)> {
    if s != "" && s[0] == '"' then
      match ReadString(s[1..]) case None => None case Some(r) => Some((Text(Encode(r.0)), r.1))
    else
      match ReadInt(s) case None => None case Some(r) => Some((Number(r.0), r.1))
  }

  /** The members up to the closing brace, which must end the text; at most k of them. */
  function ReadMembers(s: string, k: nat): Option<Members>
    decreases k
  {
    if k == 0 || s == "" || s[0] != '"' then None else
    match ReadString(s[1..])
    case None => None
    case Some(key) =>
      if key.1 == "" || key.1[0] != ':' then None else
      match ReadValue(key.1[1..])
      case None => None
      case Some(v) =>
        if v.1 == "}" then Some([(Encode(key.0), v.0)])
        else if v.1 != "" && v.1[0] == ',' then
          match ReadMembers(v.1[1..], k - 1) case None => None case Some(rest) => Some([(Encode(key.0), v.0)] + rest)
        else None
  }

  function ReadObject(s: string): Option<Members> {
    if s == "{}" then Some([]) else if s != "" && s[0] == '{' then ReadMembers(s[1..], |s|) else None
  }

  /** The members after the passage: their strings with U+FFFD for what is not UTF-8. */
  function CleanMembers(ms: Members): Members {
    if ms == [] then [] else [(Clean(ms[0].0), CleanJson(ms[0].1))] + CleanMembers(ms[1..])
  }

  lemma ReadPrintedValue(v: Json, rest: string)
    requires EndsNumber(rest)
    ensures ReadValue(PrintValue(v) + rest) == Some((CleanJson(v), rest))
  {
    match v
    case Text(s) =>
      assert (Quote(s) + rest)[1..] == EscapeAll(s) + "\"" + rest;
      ReadQuoted(s, rest);
    case Number(n) =>
      ReadPrintedInt(n, rest);
      assert n >= 0 ==> (PrintInt(n) + rest)[0] == PrintNat(n)[0];
  }

  lemma {:induction false} ReadPrintedMembers(ms: Members, k: nat)
    requires ms != [] && k >= |ms|
    ensures ReadMembers(PrintMembers(ms), k) == Some(CleanMembers(ms))
    decreases |ms|
  {
    hide EscapeAll, ReadString, PrintValue, ReadValue, Encode, Runes, CleanJson;
    var name, v := ms[0].0, ms[0].1;
    var after := if |ms| == 1 then "}" else "," + PrintMembers(ms[1..]);
    var s := PrintMembers(ms);
    assert s[1..] == EscapeAll(name) + "\"" + (":" + PrintValue(v) + after);
    ReadQuoted(name, ":" + PrintValue(v) + after);
    assert (":" + PrintValue(v) + after)[1..] == PrintValue(v) + after;
    assert after[0] == if |ms| == 1 then '}' else ',';
    assert "}"[0] == '}';
    ReadPrintedValue(v, after);
    assert s[0] == '"' && (":" + PrintValue(v) + after)[0] == ':';
    if |ms| > 1 {
      assert after[1..] == PrintMembers(ms[1..]);
      ReadPrintedMembers(ms[1..], k - 1);
    } else {
      assert CleanMembers(ms) == [(Clean(name), CleanJson(v))];
      assert ReadValue(PrintValue(v) + after) == Some((CleanJson(v), "}"));
    }
  }

  lemma {:induction false} MembersLong(ms: Members)
    requires ms != []
    ensures |PrintMembers(ms)| >= |ms|
    decreases |ms|
  {
    hide EscapeAll, PrintValue;
    if |ms| > 1 { MembersLong(ms[1..]); }
  }

  /** Reading a printed object gives its members back, in order, with their strings clean. */
  lemma ReadPrintedObject(ms: Members)
    ensures ReadObject(PrintObject(ms)) == Some(CleanMembers(ms))
  {
    hide PrintMembers, ReadMembers;
    if ms != [] {
      MembersLong(ms);
      ReadPrintedMembers(ms, |PrintObject(ms)|);
      assert PrintObject(ms)[1..] == PrintMembers(ms);
      NotEmptyObject(ms);
    }
  }

  lemma NotEmptyObject(ms: Members)
    requires ms != []
    ensures PrintObject(ms) != "{}"
  {
    hide EscapeAll, PrintValue;
    assert PrintObject(ms)[1] == '"';
  }
}
