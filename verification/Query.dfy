/** Form encoding of query strings as the callback's redirect uses it (pkg/auth/oauth/proxy.go:
    Query, Set and Encode on the registered redirect URI). One `char` stands for one byte. */
module Query {
  import opened Strings

  type Values = map<string, seq<string>>

  // ---- Escaping one component ----

  predicate Unreserved(c: char) {
    'a' <= c <= 'z' || 'A' <= c <= 'Z' || '0' <= c <= '9' || c == '-' || c == '_' || c == '.' || c == '~'
  }

  function UpperHex(n: nat): char
    requires n < 16
  {
    if n < 10 then '0' + n as char else 'A' + (n - 10) as char
  }

  function EscapeByte(c: char): string {
    if Unreserved(c) then [c] else if c == ' ' then "+"
    else ['%', UpperHex(c as int / 16 % 16), UpperHex(c as int % 16)]
  }

  function Escape(s: string): string {
    if s == "" then "" else EscapeByte(s[0]) + Escape(s[1..])
  }

  function Unescape(s: string): Option<string> {
    if s == "" then Some("")
    else if s[0] == '%' then
      if |s| >= 3 && HexValue(s[1]).Some? && HexValue(s[2]).Some? then
        match Unescape(s[3..])
        case None => None
        case Some(rest) => Some([(HexValue(s[1]).value * 16 + HexValue(s[2]).value) as char] + rest)
      else None
    else
      match Unescape(s[1..])
      case None => None
      case Some(rest) => Some([if s[0] == '+' then ' ' else s[0]] + rest)
  }

  lemma HexRoundTrip(n: nat)
    requires n < 16
    ensures HexValue(UpperHex(n)) == Some(n)
  {
  }

  lemma HexPair(n: nat)
    requires n < 256
    ensures n / 16 % 16 * 16 + n % 16 == n
  {
  }

  lemma UnescapeChar(c: char, rest: string)
    requires c as int < 256 && Unescape(rest).Some?
    ensures Unescape(EscapeByte(c) + rest) == Some([c] + Unescape(rest).value)
  {
    var e := EscapeByte(c) + rest;
    if Unreserved(c) || c == ' ' {
      assert e[1..] == rest;
    } else {
      var hi, lo := c as int / 16 % 16, c as int % 16;
      HexRoundTrip(hi);
      HexRoundTrip(lo);
      HexPair(c as int);
      assert e[3..] == rest;
      assert e[1] == UpperHex(hi) && e[2] == UpperHex(lo);
    }
  }

  lemma {:induction false} UnescapeEscape(s: string)
    requires Bytes(s)
    ensures Unescape(Escape(s)) == Some(s)
  {
    hide EscapeByte;
    if s != "" {
      UnescapeEscape(s[1..]);
      UnescapeChar(s[0], Escape(s[1..]));
      assert s == [s[0]] + s[1..];
    }
  }

  /** The characters of an escaped component: none of those that structure a URL or a query. */
  predicate Plain(s: string) {
    forall c | c in s :: c !in "&=;#?"
  }

  lemma {:induction false} EscapePlain(s: string)
    ensures Plain(Escape(s))
  {
    if s != "" {
      EscapePlain(s[1..]);
      var c := s[0];
      if !Unreserved(c) && c != ' ' {
        UpperHexPlain(c as int / 16 % 16);
        UpperHexPlain(c as int % 16);
      }
    }
  }

  lemma UpperHexPlain(n: nat)
    requires n < 16
    ensures UpperHex(n) !in "&=;#?"
  {
  }

  /** Letters, digits and -_.~ stay, a space becomes a plus sign, and any other byte a percent sign and
      its two upper-case hexadecimal digits. */
  lemma EscapeReads(c: char, t: string)
    requires c as int < 256
    ensures
      var n, stays := c as int, 'a' <= c <= 'z' || 'A' <= c <= 'Z' || '0' <= c <= '9' || c in "-_.~";
      Escape([c] + t) ==
        (if stays then [c] else if c == ' ' then "+"
         else ['%', "0123456789ABCDEF"[n / 16], "0123456789ABCDEF"[n % 16]]) + Escape(t)
  {
    EscapeCons(c, t);
    ByteReads(c);
    hide *;
  }

  lemma EscapeCons(c: char, t: string)
    ensures Escape([c] + t) == EscapeByte(c) + Escape(t)
  {
    hide EscapeByte;
    assert ([c] + t)[1..] == t;
  }

  lemma ByteReads(c: char)
    requires c as int < 256
    ensures
      var n, stays := c as int, 'a' <= c <= 'z' || 'A' <= c <= 'Z' || '0' <= c <= '9' || c in "-_.~";
      EscapeByte(c) == if stays then [c] else if c == ' ' then "+"
                       else ['%', "0123456789ABCDEF"[n / 16], "0123456789ABCDEF"[n % 16]]
  {
    UpperIs(c as int / 16);
    UpperIs(c as int % 16);
    hide UpperHex;
  }

  lemma UpperIs(n: nat)
    requires n < 16
    ensures UpperHex(n) == "0123456789ABCDEF"[n]
  {
  }

  // ---- Parsing a query ----

  /** strings.Cut at the first occurrence of a character. */
  function Cut(s: string, sep: char): (string, string) {
    if s == "" then ("", "")
    else if s[0] == sep then ("", s[1..])
    else var r := Cut(s[1..], sep); ([s[0]] + r.0, r.1)
  }

  function Lookup(m: Values, k: string): seq<string> { if k in m then m[k] else [] }

  function Append(m: Values, k: string, v: string): Values { m[k := Lookup(m, k) + [v]] }

  /** One segment: it is skipped if it is empty, holds a semicolon or is badly escaped. */
  function ParseSegment(m: Values, seg: string): Values {
    if seg == "" || ';' in seg then m else
    var kv := Cut(seg, '=');
    if Unescape(kv.0).None? || Unescape(kv.1).None? then m
    else Append(m, Unescape(kv.0).value, Unescape(kv.1).value)
  }

  function ParseSegments(m: Values, segs: seq<string>): Values
    decreases |segs|
  {
    if segs == [] then m else ParseSegments(ParseSegment(m, segs[0]), segs[1..])
  }

  function ParseQuery(q: string): Values { ParseSegments(map[], Split(q, '&')) }

  // ---- Encoding a query ----

  function Segment(k: string, v: string): string { Escape(k) + "=" + Escape(v) }

  function SegmentsOf(k: string, vs: seq<string>): seq<string> {
    if vs == [] then [] else [Segment(k, vs[0])] + SegmentsOf(k, vs[1..])
  }

  function Segments(keys: seq<string>, m: Values): seq<string> {
    if keys == [] then [] else SegmentsOf(keys[0], Lookup(m, keys[0])) + Segments(keys[1..], m)
  }

  ghost predicate Enumerates(keys: seq<string>, m: Values) {
    && (forall k :: k in keys <==> k in m)
    && (forall i, j | 0 <= i < j < |keys| :: keys[i] != keys[j])
  }

  /** Values.Encode with the keys in the given order. */
  function EncodeIn(keys: seq<string>, m: Values): string { Join(Segments(keys, m), '&') }

  ghost function MinKey(ks: set<string>): (k: string)
    requires ks != {}
    ensures k in ks && forall j | j in ks :: CompareStrings(k, j) <= 0
  {
    var k :| k in ks;
    if ks == {k} then (CompareStringsFlip(k, k); k) else
    var rest := MinKey(ks - {k});
    if CompareStrings(k, rest) <= 0 then
      (forall j | j in ks ensures CompareStrings(k, j) <= 0 {
         CompareStringsFlip(k, k);
         if j != k { CompareStringsTrans(k, rest, j); }
       }
       k)
    else
      (CompareStringsFlip(k, rest);
       rest)
  }

  ghost function SortedKeys(ks: set<string>): (keys: seq<string>)
    ensures forall k :: k in keys <==> k in ks
    ensures forall i, j | 0 <= i < j < |keys| :: keys[i] != keys[j] && CompareStrings(keys[i], keys[j]) <= 0
  {
    if ks == {} then [] else var k := MinKey(ks); [k] + SortedKeys(ks - {k})
  }

  /** Values.Encode, which sorts the keys. */
  ghost function Encode(m: Values): string { EncodeIn(SortedKeys(m.Keys), m) }

  // ---- The round trip ----

  lemma {:induction false} CutPlain(p: string, rest: string, sep: char)
    requires sep !in p
    ensures Cut(p + [sep] + rest, sep) == (p, rest)
  {
    var s := p + [sep] + rest;
    if p == "" {
      assert s[1..] == rest;
    } else {
      assert s[1..] == p[1..] + [sep] + rest;
      CutPlain(p[1..], rest, sep);
      assert p == [p[0]] + p[1..];
    }
  }

  lemma SegmentPlain(k: string, v: string)
    ensures forall c | c in "&;#?" :: c !in Segment(k, v)
    ensures Segment(k, v) != "" && Cut(Segment(k, v), '=') == (Escape(k), Escape(v))
  {
    EscapePlain(k);
    EscapePlain(v);
    hide Escape;
    assert '=' !in Escape(k);
    CutPlain(Escape(k), Escape(v), '=');
    assert Segment(k, v) == Escape(k) + ['='] + Escape(v);
  }

  lemma ParseOneSegment(m: Values, k: string, v: string)
    requires Bytes(k) && Bytes(v)
    ensures ParseSegment(m, Segment(k, v)) == Append(m, k, v)
    ensures '&' !in Segment(k, v) && '#' !in Segment(k, v) && '?' !in Segment(k, v)
  {
    hide Segment, Escape, Unescape, Cut, Bytes;
    SegmentPlain(k, v);
    assert ';' !in Segment(k, v);
    UnescapeEscape(k);
    UnescapeEscape(v);
  }

  lemma {:induction false} ParseConcat(m: Values, xs: seq<string>, ys: seq<string>)
    ensures ParseSegments(m, xs + ys) == ParseSegments(ParseSegments(m, xs), ys)
    decreases |xs|
  {
    if xs == [] {
      assert xs + ys == ys;
    } else {
      assert (xs + ys)[1..] == xs[1..] + ys;
      ParseConcat(ParseSegment(m, xs[0]), xs[1..], ys);
    }
  }

  lemma AppendTwice(m: Values, k: string, v: string, vs: seq<string>)
    ensures Append(m, k, v)[k := Lookup(Append(m, k, v), k) + vs] == m[k := Lookup(m, k) + ([v] + vs)]
    ensures Append(m, k, v) == m[k := Lookup(m, k) + [v]]
  {
    assert (Lookup(m, k) + [v]) + vs == Lookup(m, k) + ([v] + vs);
  }

  lemma {:induction false} ParseOneKey(m: Values, k: string, vs: seq<string>)
    requires Bytes(k) && forall v | v in vs :: Bytes(v)
    ensures ParseSegments(m, SegmentsOf(k, vs)) == if vs == [] then m else m[k := Lookup(m, k) + vs]
    decreases |vs|
  {
    hide ParseSegment, Segment, Bytes, Append, Lookup;
    if vs != [] {
      var v, rest := vs[0], vs[1..];
      assert v in vs && vs == [v] + rest;
      ParseOneSegment(m, k, v);
      ParseOneKey(Append(m, k, v), k, rest);
      AppendTwice(m, k, v, rest);
      assert SegmentsOf(k, vs)[1..] == SegmentsOf(k, rest);
      if rest == [] { assert vs == [v]; }
    }
  }

  /** Values that a parser can return: byte strings, and no key without a value. */
  ghost predicate Proper(m: Values) {
    forall k | k in m :: Bytes(k) && m[k] != [] && forall v | v in m[k] :: Bytes(v)
  }

  ghost function Part(m: Values, keys: seq<string>): Values { map k | k in keys && k in m :: m[k] }

  lemma {:induction false} ParseKeys(acc: Values, keys: seq<string>, m: Values)
    requires Proper(m) && (forall k | k in keys :: k in m && k !in acc)
    requires forall i, j | 0 <= i < j < |keys| :: keys[i] != keys[j]
    ensures ParseSegments(acc, Segments(keys, m)) == acc + Part(m, keys)
    decreases |keys|
  {
    hide ParseSegments, SegmentsOf, Bytes;
    if keys == [] {
      ParseNone(acc);
      assert acc + Part(m, keys) == acc;
    } else {
      var k := keys[0];
      assert k in keys;
      ParseOneKey(acc, k, m[k]);
      assert Lookup(acc, k) + m[k] == m[k];
      ParseConcat(acc, SegmentsOf(k, m[k]), Segments(keys[1..], m));
      ParseKeys(acc[k := m[k]], keys[1..], m);
      PartCons(acc, keys, m);
    }
  }

  lemma ParseNone(m: Values)
    ensures ParseSegments(m, []) == m
  {
  }

  lemma PartCons(acc: Values, keys: seq<string>, m: Values)
    requires keys != [] && keys[0] in m && keys[0] !in keys[1..]
    ensures acc[keys[0] := m[keys[0]]] + Part(m, keys[1..]) == acc + Part(m, keys)
  {
    assert keys == [keys[0]] + keys[1..];
  }

  lemma {:induction false} SegmentsPlain(keys: seq<string>, m: Values)
    requires Proper(m)
    requires forall k | k in keys :: k in m
    ensures forall seg | seg in Segments(keys, m) :: '&' !in seg && '#' !in seg && '?' !in seg
  {
    if keys != [] {
      assert keys[0] in keys;
      SegmentsPlain(keys[1..], m);
      OneKeyPlain(keys[0], m[keys[0]]);
    }
  }

  lemma {:induction false} OneKeyPlain(k: string, vs: seq<string>)
    requires Bytes(k) && forall v | v in vs :: Bytes(v)
    ensures forall seg | seg in SegmentsOf(k, vs) :: '&' !in seg && '#' !in seg && '?' !in seg
  {
    if vs != [] {
      assert vs[0] in vs;
      ParseOneSegment(map[], k, vs[0]);
      OneKeyPlain(k, vs[1..]);
    }
  }

  /** Parsing an encoded map gives it back, in whatever order its keys were written. */
  lemma ParseEncoded(keys: seq<string>, m: Values)
    requires Proper(m) && Enumerates(keys, m)
    ensures ParseQuery(EncodeIn(keys, m)) == m
  {
    ParseKeys(map[], keys, m);
    assert map[] + Part(m, keys) == m;
    SegmentsPlain(keys, m);
    var segs := Segments(keys, m);
    if segs == [] {
      assert Split("", '&') == [""];
      assert [""][1..] == [];
      assert ParseSegments(map[], [""]) == ParseSegments(ParseSegment(map[], ""), []);
    } else {
      SplitJoin(segs, '&');
    }
  }

  lemma {:induction false} JoinPlain(segs: seq<string>, c: char)
    requires c != '&' && forall seg | seg in segs :: c !in seg
    ensures c !in Join(segs, '&')
  {
    if |segs| > 1 {
      JoinPlain(segs[1..], c);
    }
  }

  lemma EncodedPlain(keys: seq<string>, m: Values)
    requires Proper(m) && Enumerates(keys, m)
    ensures '#' !in EncodeIn(keys, m) && '?' !in EncodeIn(keys, m)
  {
    SegmentsPlain(keys, m);
    JoinPlain(Segments(keys, m), '#');
    JoinPlain(Segments(keys, m), '?');
  }

  // ---- What a parser returns is proper ----

  lemma {:induction false} UnescapeChars(s: string)
    requires Bytes(s) && Unescape(s).Some?
    ensures Bytes(Unescape(s).value)
  {
    if s != "" {
      if s[0] == '%' { UnescapeChars(s[3..]); } else { UnescapeChars(s[1..]); }
    }
  }

  lemma {:induction false} CutBytes(s: string, sep: char)
    requires Bytes(s)
    ensures Bytes(Cut(s, sep).0) && Bytes(Cut(s, sep).1)
  {
    if s != "" {
      if s[0] != sep { CutBytes(s[1..], sep); }
    }
  }

  lemma {:induction false} ParseProper(m: Values, segs: seq<string>)
    requires Proper(m) && forall seg | seg in segs :: Bytes(seg)
    ensures Proper(ParseSegments(m, segs))
    decreases |segs|
  {
    if segs != [] {
      var seg := segs[0];
      assert seg in segs;
      CutBytes(seg, '=');
      var kv := Cut(seg, '=');
      if Unescape(kv.0).Some? { UnescapeChars(kv.0); }
      if Unescape(kv.1).Some? { UnescapeChars(kv.1); }
      ParseProper(ParseSegment(m, seg), segs[1..]);
    }
  }

  lemma {:induction false} SplitBytes(s: string, sep: char)
    requires Bytes(s)
    ensures forall p | p in Split(s, sep) :: Bytes(p)
  {
    if s != "" {
      SplitBytes(s[1..], sep);
      var rest := Split(s[1..], sep);
      assert rest[0] in rest;
    }
  }

  lemma ParsedProper(q: string)
    requires Bytes(q)
    ensures Proper(ParseQuery(q))
  {
    SplitBytes(q, '&');
    ParseProper(map[], Split(q, '&'));
  }

  // ---- What is read from a query that someone else wrote ----

  lemma {:induction false} CutNone(s: string, sep: char)
    requires sep !in s
    ensures Cut(s, sep) == (s, "")
  {
    if s != "" {
      CutNone(s[1..], sep);
      assert s == [s[0]] + s[1..];
    }
  }

  lemma {:induction false} SplitLast(q: string, seg: string, sep: char)
    requires sep !in seg
    ensures Split(q + [sep] + seg, sep) == Split(q, sep) + [seg]
  {
    var s := q + [sep] + seg;
    if q == "" {
      assert s[1..] == seg;
      SplitNoSep(seg, sep);
    } else {
      assert s[1..] == q[1..] + [sep] + seg && s[0] == q[0];
      SplitLast(q[1..], seg, sep);
    }
  }

  /** Parsing one segment more. */
  lemma OneMore(q: string, seg: string)
    requires '&' !in seg
    ensures ParseQuery(q + "&" + seg) == ParseSegment(ParseQuery(q), seg)
  {
    hide ParseSegment;
    SplitLast(q, seg, '&');
    ParseConcat(map[], Split(q, '&'), [seg]);
    assert [seg][1..] == [];
  }

  /** The values of m with one more, at the end of those of k. */
  ghost predicate Adds(m: Values, m': Values, k: string, v: string) {
    && k in m' && m'[k] == (if k in m then m[k] else []) + [v]
    && forall j | j != k :: (j in m' <==> j in m) && (j in m ==> m'[j] == m[j])
  }

  /** Nothing is read from nothing. A further segment k=v adds the unescaped value to those of the
      unescaped key and changes no other key, a segment without an equals sign adds the empty value, and
      an empty segment, one with a semicolon or one that is badly escaped adds nothing. */
  lemma QueryReads(q: string, k: string, v: string)
    requires '&' !in k + v && '=' !in k
    ensures ParseQuery("") == map[] && ParseQuery(k) == ParseQuery("&" + k)
    ensures ParseQuery(k + "=" + v) == ParseQuery("&" + k + "=" + v)
    ensures ';' !in k + v && Unescape(k).Some? && Unescape(v).Some? ==>
              Adds(ParseQuery(q), ParseQuery(q + "&" + k + "=" + v), Unescape(k).value, Unescape(v).value)
    ensures ';' in k + v || Unescape(k).None? || Unescape(v).None? ==>
              ParseQuery(q + "&" + k + "=" + v) == ParseQuery(q)
    ensures k != "" && ';' !in k && Unescape(k).Some? ==>
              Adds(ParseQuery(q), ParseQuery(q + "&" + k), Unescape(k).value, "")
    ensures k == "" || ';' in k || Unescape(k).None? ==> ParseQuery(q + "&" + k) == ParseQuery(q)
  {
    hide *;
    var seg := k + "=" + v;
    assert '&' !in seg && '&' !in k;
    NothingRead();
    Leading(seg);
    Leading(k);
    assert q + "&" + k + "=" + v == q + "&" + seg && "&" + k + "=" + v == "&" + seg;
    OneMore(q, seg);
    OneMore(q, k);
    PairReads(ParseQuery(q), k, v);
    assert forall c | c in k :: c in k + v;
    KeyReads(ParseQuery(q), k);
  }

  lemma PairReads(m: Values, k: string, v: string)
    requires '=' !in k
    ensures ';' !in k + v && Unescape(k).Some? && Unescape(v).Some? ==>
              Adds(m, ParseSegment(m, k + "=" + v), Unescape(k).value, Unescape(v).value)
    ensures ';' in k + v || Unescape(k).None? || Unescape(v).None? ==> ParseSegment(m, k + "=" + v) == m
  {
    var seg := k + "=" + v;
    assert seg == k + ['='] + v && (';' in seg <==> ';' in k + v);
    CutPlain(k, v, '=');
    hide Unescape, Cut;
  }

  lemma KeyReads(m: Values, k: string)
    requires '=' !in k
    ensures k != "" && ';' !in k && Unescape(k).Some? ==> Adds(m, ParseSegment(m, k), Unescape(k).value, "")
    ensures k == "" || ';' in k || Unescape(k).None? ==> ParseSegment(m, k) == m
  {
    CutNone(k, '=');
    UnescapeNothing();
    hide Unescape, Cut;
  }

  lemma UnescapeNothing()
    ensures Unescape("") == Some("")
  {
  }

  lemma NothingRead()
    ensures ParseQuery("") == map[]
  {
    assert [""][1..] == [];
    assert ParseSegments(map[], [""]) == ParseSegments(ParseSegment(map[], ""), []);
  }

  /** The first segment is read like one after an empty one. */
  lemma Leading(seg: string)
    requires '&' !in seg
    ensures ParseQuery("&" + seg) == ParseQuery(seg)
  {
    hide ParseSegment;
    NothingRead();
    assert "" + "&" + seg == "&" + seg;
    OneMore("", seg);
    SplitNoSep(seg, '&');
    assert [seg][1..] == [];
  }

  /** Text without percent and plus signs stands for itself. */
  lemma {:induction false} UnescapePlain(s: string)
    requires '%' !in s && '+' !in s
    ensures Unescape(s) == Some(s)
  {
    if s != "" {
      UnescapePlain(s[1..]);
      assert s == [s[0]] + s[1..];
    }
  }

  function LowerHex(n: nat): char
    requires n < 16
  {
    "0123456789abcdef"[n]
  }

  /** A plus sign stands for a space, and a percent sign and two hexadecimal digits of either case for a
      byte. */
  lemma UnescapeSigns(rest: string, h: char, l: char, n: nat)
    requires n < 256
    requires h == UpperHex(n / 16) || h == LowerHex(n / 16)
    requires l == UpperHex(n % 16) || l == LowerHex(n % 16)
    ensures Unescape("+" + rest) == match Unescape(rest) case None => None case Some(t) => Some(" " + t)
    ensures Unescape("%" + [h, l] + rest) ==
              match Unescape(rest) case None => None case Some(t) => Some([n as char] + t)
  {
    hide *;
    HexBoth(n / 16);
    HexBoth(n % 16);
    UnescapePlus(rest);
    UnescapeHex(rest, h, l, n / 16, n % 16);
  }

  /** A percent sign before anything but two hexadecimal digits is an error. */
  lemma UnescapeErrors(rest: string)
    ensures rest == "" || rest[0] !in "0123456789abcdefABCDEF" ==> Unescape("%" + rest).None?
    ensures |rest| < 2 || rest[1] !in "0123456789abcdefABCDEF" ==> Unescape("%" + rest).None?
  {
    hide *;
    UnescapeBad(rest);
    if |rest| >= 2 {
      if HexValue(rest[0]).Some? { HexIs(rest[0]); }
      if HexValue(rest[1]).Some? { HexIs(rest[1]); }
    }
  }

  lemma UnescapePlus(rest: string)
    ensures Unescape("+" + rest) == match Unescape(rest) case None => None case Some(t) => Some(" " + t)
  {
    assert ("+" + rest)[1..] == rest;
  }

  lemma UnescapeHex(rest: string, h: char, l: char, a: nat, b: nat)
    requires HexValue(h) == Some(a) && HexValue(l) == Some(b)
    ensures a * 16 + b < 256
    ensures Unescape("%" + [h, l] + rest) ==
              match Unescape(rest) case None => None case Some(t) => Some([(a * 16 + b) as char] + t)
  {
    var s := "%" + [h, l] + rest;
    assert s[3..] == rest && s[1] == h && s[2] == l;
    hide HexValue;
  }

  lemma UnescapeBad(rest: string)
    ensures |rest| < 2 || HexValue(rest[0]).None? || HexValue(rest[1]).None? ==> Unescape("%" + rest).None?
  {
    var s := "%" + rest;
    if |rest| >= 2 { assert s[1] == rest[0] && s[2] == rest[1]; }
    hide HexValue;
  }

  lemma HexBoth(n: nat)
    requires n < 16
    ensures HexValue(UpperHex(n)) == HexValue(LowerHex(n)) == Some(n)
  {
    HexRoundTrip(n);
    LowerRoundTrip(n);
    hide *;
  }

  lemma LowerRoundTrip(n: nat)
    requires n < 16
    ensures HexValue(LowerHex(n)) == Some(n)
  {
  }

  lemma HexIs(c: char)
    requires HexValue(c).Some?
    ensures c in "0123456789abcdefABCDEF"
  {
    var s := "0123456789abcdefABCDEF";
    var i := if IsDigit(c) then c as int - '0' as int else if c <= 'F' then c as int - 'A' as int + 16
             else c as int - 'a' as int + 10;
    assert s[i] == c;
  }

  // ---- The callback's redirect ----

  /** The query that the callback sends to the client: the registered one with code and state set. */
  function WithCode(q: string, code: string, state: string): Values {
    ParseQuery(q)["code" := [code]]["state" := [state]]
  }

  /** The client that parses the redirect's query finds exactly the issued code and its own state, and
      every other parameter of the registered URI with its values in order. */
  lemma RedirectRoundTrip(q: string, code: string, state: string)
    requires Bytes(q) && Bytes(code) && Bytes(state)
    ensures
      var received := ParseQuery(Encode(WithCode(q, code, state)));
      && Lookup(received, "code") == [code]
      && Lookup(received, "state") == [state]
      && forall k | k != "code" && k != "state" :: Lookup(received, k) == Lookup(ParseQuery(q), k)
    ensures '#' !in Encode(WithCode(q, code, state)) && '?' !in Encode(WithCode(q, code, state))
  {
    hide ParseQuery, EncodeIn, SortedKeys, Proper, Bytes, WithCode, Lookup;
    WithCodeProper(q, code, state);
    WithCodeSets(q, code, state);
    var m := WithCode(q, code, state);
    var keys := KeysOf(m);
    ParseEncoded(keys, m);
    EncodedPlain(keys, m);
  }

  lemma WithCodeSets(q: string, code: string, state: string)
    ensures
      var m := WithCode(q, code, state);
      && Lookup(m, "code") == [code]
      && Lookup(m, "state") == [state]
      && forall k | k != "code" && k != "state" :: Lookup(m, k) == Lookup(ParseQuery(q), k)
  {
    hide ParseQuery;
  }

  lemma WithCodeProper(q: string, code: string, state: string)
    requires Bytes(q) && Bytes(code) && Bytes(state)
    ensures Proper(WithCode(q, code, state))
  {
    ParsedProper(q);
    hide ParseQuery;
  }

  lemma KeysOf(m: Values) returns (keys: seq<string>)
    ensures keys == SortedKeys(m.Keys) && Enumerates(keys, m)
  {
    keys := SortedKeys(m.Keys);
  }
}
