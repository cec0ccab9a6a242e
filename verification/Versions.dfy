/** compareVersions of the migration tool (cmd/migrate/main.go) and the order it induces. */
module Versions {
  import opened Strings

  const MAX_UINT := 0x1_0000_0000_0000_0000 - 1
  const MAX_INT := 0x8000_0000_0000_0000 - 1
  const MIN_INT := -0x8000_0000_0000_0000

  datatype Parsed = Number(n: nat) | SyntaxError | RangeError

  function Digit(c: char): (d: nat)
    requires IsDigit(c)
    ensures d < 10
  {
    c as int - '0' as int
  }

  /** The digit loop of strconv.ParseUint, base 10 and 64 bits: it stops at the first bad character
      or at the first overflow, whichever comes first. */
  function ParseDigits(s: string, n: nat): Parsed {
    if s == "" then Number(n)
    else if !IsDigit(s[0]) then SyntaxError
    else if n * 10 + Digit(s[0]) > MAX_UINT then RangeError
    else ParseDigits(s[1..], n * 10 + Digit(s[0]))
  }

  /** The value that strconv.Atoi returns beside its error: 0 on a syntax error, the nearest
      64-bit integer on a range error. */
  function Atoi(s: string): (v: int)
    ensures MIN_INT <= v <= MAX_INT
  {
    var neg := s != "" && s[0] == '-';
    var digits := if s != "" && (s[0] == '-' || s[0] == '+') then s[1..] else s;
    if digits == "" then 0 else
    match ParseDigits(digits, 0)
    case SyntaxError => 0
    case RangeError => if neg then MIN_INT else MAX_INT
    case Number(n) => if neg then (if 0 - n < MIN_INT then MIN_INT else 0 - n)
                             else (if n > MAX_INT then MAX_INT else n)
  }

  function Ints(parts: seq<string>): (key: seq<int>)
    ensures |key| == |parts|
    ensures forall i | 0 <= i < |key| :: key[i] == Atoi(parts[i])
  {
    if parts == [] then [] else [Atoi(parts[0])] + Ints(parts[1..])
  }

  /** The integer components of a version name. */
  function Key(v: string): seq<int> { Ints(Split(v, '.')) }

  /** Component i of a key, zero past its end. */
  function At(k: seq<int>, i: nat): int { if i < |k| then k[i] else 0 }

  /** The comparison of two keys from component i on. */
  function CmpFrom(k: seq<int>, l: seq<int>, i: nat): (c: int)
    ensures -1 <= c <= 1
    decreases |k| + |l| - i
  {
    if i >= |k| && i >= |l| then 0
    else if At(k, i) < At(l, i) then -1
    else if At(k, i) > At(l, i) then 1
    else CmpFrom(k, l, i + 1)
  }

  function Compare(a: string, b: string): (c: int)
    ensures -1 <= c <= 1
  {
    CmpFrom(Key(a), Key(b), 0)
  }

  /** The source's index loop. */
  method CompareVersions(a: string, b: string) returns (c: int)
    ensures c == Compare(a, b)
  {
    var ap := Split(a, '.');
    var bp := Split(b, '.');
    var n := if |ap| >= |bp| then |ap| else |bp|;
    hide Atoi, Split;
    for i := 0 to n
      invariant Compare(a, b) == CmpFrom(Ints(ap), Ints(bp), i)
    {
      var ai, bi := 0, 0;
      if i < |ap| { ai := Atoi(ap[i]); }
      if i < |bp| { bi := Atoi(bp[i]); }
      if ai < bi { return -1; }
      if ai > bi { return 1; }
    }
    return 0;
  }

  // ---- Meaning: the first component where the zero-padded keys differ decides ----

  /** i is the first component where k and l, padded with zeros, differ. */
  ghost predicate FirstDiff(k: seq<int>, l: seq<int>, i: nat) {
    At(k, i) != At(l, i) && forall j: nat | j < i :: At(k, j) == At(l, j)
  }

  lemma {:induction false} CmpFromMeaning(k: seq<int>, l: seq<int>, i: nat)
    requires forall j: nat | j < i :: At(k, j) == At(l, j)
    ensures CmpFrom(k, l, i) == 0 <==> forall j: nat :: At(k, j) == At(l, j)
    ensures CmpFrom(k, l, i) < 0 <==> exists j: nat :: FirstDiff(k, l, j) && At(k, j) < At(l, j)
    ensures CmpFrom(k, l, i) > 0 <==> exists j: nat :: FirstDiff(k, l, j) && At(k, j) > At(l, j)
    decreases |k| + |l| - i
  {
    if i >= |k| && i >= |l| {
    } else if At(k, i) == At(l, i) {
      CmpFromMeaning(k, l, i + 1);
    } else {
      assert FirstDiff(k, l, i);
    }
  }

  lemma CompareKeys(a: string, b: string)
    ensures Compare(a, b) == 0 <==> forall j: nat :: At(Key(a), j) == At(Key(b), j)
    ensures Compare(a, b) < 0 <==> exists j: nat :: FirstDiff(Key(a), Key(b), j) && At(Key(a), j) < At(Key(b), j)
    ensures Compare(a, b) > 0 <==> exists j: nat :: FirstDiff(Key(a), Key(b), j) && At(Key(a), j) > At(Key(b), j)
  {
    CmpFromMeaning(Key(a), Key(b), 0);
  }

  /** Component i of a version name as a number, zero past its end. */
  ghost function Component(v: string, i: nat): int {
    if i < |Split(v, '.')| then Atoi(Split(v, '.')[i]) else 0
  }

  /** a is below b at component i, and both have the same components before it. */
  ghost predicate BelowAt(a: string, b: string, i: nat) {
    Component(a, i) < Component(b, i) && forall j: nat | j < i :: Component(a, j) == Component(b, j)
  }

  /** The sign of the comparison is that of the first component where the names differ; it is 0 when
      there is none. */
  lemma CompareMeaning(a: string, b: string)
    ensures Compare(a, b) == 0 <==> forall j: nat :: Component(a, j) == Component(b, j)
    ensures Compare(a, b) == -1 <==> exists i: nat :: BelowAt(a, b, i)
    ensures Compare(a, b) == 1 <==> exists i: nat :: BelowAt(b, a, i)
  {
    hide Atoi, Split, Compare;
    CompareKeys(a, b);
    forall v, i: nat ensures At(Key(v), i) == Component(v, i) { }
    assert forall i: nat :: BelowAt(a, b, i) <==> FirstDiff(Key(a), Key(b), i) && At(Key(a), i) < At(Key(b), i);
    assert forall i: nat :: BelowAt(b, a, i) <==> FirstDiff(Key(a), Key(b), i) && At(Key(a), i) > At(Key(b), i);
  }

  // ---- Compare is a total preorder on all strings ----

  lemma {:induction false} CmpFlip(k: seq<int>, l: seq<int>, i: nat)
    ensures CmpFrom(k, l, i) == -CmpFrom(l, k, i)
    decreases |k| + |l| - i
  {
    if (i < |k| || i < |l|) && At(k, i) == At(l, i) {
      CmpFlip(k, l, i + 1);
    }
  }

  lemma {:induction false} CmpTrans(k: seq<int>, l: seq<int>, m: seq<int>, i: nat)
    requires CmpFrom(k, l, i) <= 0 && CmpFrom(l, m, i) <= 0
    ensures CmpFrom(k, m, i) <= 0
    ensures CmpFrom(k, m, i) == 0 ==> CmpFrom(k, l, i) == 0 && CmpFrom(l, m, i) == 0
    decreases |k| + |l| + |m| - i
  {
    if i < |k| || i < |l| || i < |m| {
      if At(k, i) == At(l, i) == At(m, i) {
        CmpPast(k, l, i); CmpPast(l, m, i); CmpPast(k, m, i);
        CmpTrans(k, l, m, i + 1);
      }
    }
  }

  lemma CmpPast(k: seq<int>, l: seq<int>, i: nat)
    requires At(k, i) == At(l, i)
    ensures CmpFrom(k, l, i) == CmpFrom(k, l, i + 1)
  {
  }

  /** Reflexive, total with opposite signs, and transitive, with a strict step anywhere making the
      whole strict: the order that selection and sorting rely on. */
  lemma CompareTotalPreorder(a: string, b: string, c: string)
    ensures Compare(a, a) == 0
    ensures Compare(a, b) == -Compare(b, a)
    ensures Compare(a, b) <= 0 && Compare(b, c) <= 0 ==> Compare(a, c) <= 0
    ensures Compare(a, b) <= 0 && Compare(b, c) < 0 ==> Compare(a, c) < 0
    ensures Compare(a, b) < 0 && Compare(b, c) <= 0 ==> Compare(a, c) < 0
  {
    CmpFlip(Key(a), Key(a), 0);
    CmpFlip(Key(a), Key(b), 0);
    if Compare(a, b) <= 0 && Compare(b, c) <= 0 {
      CmpTrans(Key(a), Key(b), Key(c), 0);
    }
  }

  // ---- Against the textbook order: lexicographic on keys without their trailing zeros ----

  function Trim(k: seq<int>): (t: seq<int>)
    ensures |t| <= |k| && t == k[..|t|]
    ensures t != [] ==> t[|t| - 1] != 0
    ensures forall i: nat :: At(t, i) == At(k, i)
  {
    if k == [] || k[|k| - 1] != 0 then k else Trim(k[..|k| - 1])
  }

  function Lex(k: seq<int>, l: seq<int>): (c: int)
    ensures -1 <= c <= 1
  {
    if k == [] then (if l == [] then 0 else -1)
    else if l == [] then 1
    else if k[0] < l[0] then -1
    else if k[0] > l[0] then 1
    else Lex(k[1..], l[1..])
  }

  /** The first non-zero component of k is negative. */
  predicate LeadsNegative(k: seq<int>) {
    k != [] && (k[0] < 0 || (k[0] == 0 && LeadsNegative(k[1..])))
  }

  /** One key continues the other, and what it adds starts below zero. */
  predicate NegativeExtension(k: seq<int>, l: seq<int>) {
    (k <= l && LeadsNegative(l[|k|..])) || (l <= k && LeadsNegative(k[|l|..]))
  }

  lemma {:induction false} CmpAtOnly(k: seq<int>, l: seq<int>, k': seq<int>, l': seq<int>, i: nat)
    requires forall j: nat :: At(k, j) == At(k', j) && At(l, j) == At(l', j)
    ensures CmpFrom(k, l, i) == CmpFrom(k', l', i)
    decreases |k| + |l| + |k'| + |l'| - i
  {
    if (i < |k| || i < |l| || i < |k'| || i < |l'|) && At(k, i) == At(l, i) {
      CmpPast(k, l, i); CmpPast(k', l', i);
      CmpAtOnly(k, l, k', l', i + 1);
    }
  }

  lemma {:induction false} CmpTail(k: seq<int>, l: seq<int>, i: nat)
    requires i >= 1
    ensures CmpFrom(k, l, i) == CmpFrom(if k == [] then k else k[1..], if l == [] then l else l[1..], i - 1)
    decreases |k| + |l| - i
  {
    if i < |k| || i < |l| {
      CmpTail(k, l, i + 1);
    }
  }

  /** Comparing the empty key with a trimmed one. */
  lemma {:induction false} CmpEmpty(l: seq<int>)
    requires l == [] || l[|l| - 1] != 0
    ensures CmpFrom([], l, 0) == (if l == [] then 0 else if LeadsNegative(l) then 1 else -1)
  {
    if l != [] && l[0] == 0 {
      CmpTail([], l, 1);
      CmpEmpty(l[1..]);
    }
  }

  /** Prefixes with their common head dropped. */
  lemma PrefixTail(k: seq<int>, l: seq<int>)
    requires k != [] && l != [] && k[0] == l[0]
    ensures k <= l <==> k[1..] <= l[1..]
    ensures k <= l ==> l[|k|..] == l[1..][|k[1..]|..]
  {
    if k[1..] <= l[1..] {
      assert l[1..][..|k| - 1] == k[1..];
      assert l[..|k|] == [l[0]] + l[1..][..|k| - 1];
      assert k == [k[0]] + k[1..];
    }
    if k <= l {
      assert l[..|k|][1..] == l[1..][..|k| - 1];
    }
  }

  lemma {:induction false} CmpAgainstLex(k: seq<int>, l: seq<int>)
    requires k == [] || k[|k| - 1] != 0
    requires l == [] || l[|l| - 1] != 0
    ensures CmpFrom(k, l, 0) == Lex(k, l) <==> !NegativeExtension(k, l)
    ensures CmpFrom(k, l, 0) == 0 <==> k == l
  {
    if k == [] {
      CmpEmpty(l);
      assert l[|k|..] == l;
      assert l <= k ==> k[|l|..] == [];
    } else if l == [] {
      CmpEmpty(k);
      CmpFlip(k, l, 0);
      assert k[|l|..] == k;
    } else if k[0] == l[0] {
      CmpTail(k, l, 1);
      CmpAgainstLex(k[1..], l[1..]);
      PrefixTail(k, l);
      PrefixTail(l, k);
    }
  }

  /** compareVersions is 0 exactly when the keys agree once their trailing zeros are gone. It is the
      lexicographic order of those keys exactly when neither continues the other with a component
      sequence that starts below zero. */
  lemma CompareAgainstLex(a: string, b: string)
    ensures Compare(a, b) == 0 <==> Trim(Key(a)) == Trim(Key(b))
    ensures Compare(a, b) == Lex(Trim(Key(a)), Trim(Key(b)))
       <==> !NegativeExtension(Trim(Key(a)), Trim(Key(b)))
  {
    CmpAtOnly(Key(a), Key(b), Trim(Key(a)), Trim(Key(b)), 0);
    CmpAgainstLex(Trim(Key(a)), Trim(Key(b)));
  }

  /** A pair where the two orders part: "1" is above "1.-1". */
  lemma LexDisagrees()
    ensures Compare("1", "1.-1") == 1
    ensures Lex(Trim(Key("1")), Trim(Key("1.-1"))) == -1
  {
    SplitNoSep("1", '.');
    SplitNoSep("-1", '.');
    SplitCons("1", "-1", '.');
    assert "1" + ['.'] + "-1" == "1.-1";
    assert "-1"[1..] == "1";
    assert ParseDigits("1", 0) == ParseDigits("1"[1..], 1) == Number(1);
    assert Atoi("1") == 1 && Atoi("-1") == -1;
    assert Key("1") == [1] && Key("1.-1") == [1, -1];
    CmpPast([1], [1, -1], 0);
    assert [1][1..] == [] && [1, -1][1..] == [-1];
  }

  // ---- Canonical names: the order's ties are string equality ----

  /** The value of a digit string. */
  function Value(s: string): nat
    requires forall c | c in s :: IsDigit(c)
  {
    if s == "" then 0 else Value(s[..|s| - 1]) * 10 + Digit(s[|s| - 1])
  }

  /** A decimal numeral without leading zeros, in range of a 64-bit int. */
  predicate CanonicalNumeral(s: string) {
    && s != ""
    && (forall c | c in s :: IsDigit(c))
    && (s[0] == '0' ==> |s| == 1)
    && Value(s) <= MAX_INT
  }

  predicate CanonicalVersion(v: string) {
    forall p | p in Split(v, '.') :: CanonicalNumeral(p)
  }

  // ---- What Atoi reads ----

  lemma ValueStep(s: string, k: nat)
    requires 0 < k <= |s| && forall c | c in s[..k] :: IsDigit(c)
    ensures (forall c | c in s[..k - 1] :: IsDigit(c)) && IsDigit(s[k - 1])
    ensures Value(s[..k]) == Value(s[..k - 1]) * 10 + Digit(s[k - 1])
  {
    assert s[..k][..k - 1] == s[..k - 1] && s[..k][k - 1] == s[k - 1];
    assert forall c | c in s[..k - 1] :: c in s[..k];
  }

  /** The loop after k digits that did not overflow. */
  lemma {:induction false} ParsePrefix(s: string, k: nat)
    requires k <= |s| && (forall c | c in s[..k] :: IsDigit(c)) && Value(s[..k]) <= MAX_UINT
    ensures ParseDigits(s, 0) == ParseDigits(s[k..], Value(s[..k]))
    decreases k
  {
    if k == 0 {
      assert s[0..] == s;
    } else {
      ValueStep(s, k);
      hide IsDigit, Digit, Value;
      ParsePrefix(s, k - 1);
      assert s[k - 1..][0] == s[k - 1] && s[k - 1..][1..] == s[k..];
    }
  }

  lemma {:induction false} ParseOverflows(s: string, k: nat)
    requires k <= |s| && (forall c | c in s[..k] :: IsDigit(c)) && Value(s[..k]) > MAX_UINT
    ensures ParseDigits(s, 0) == RangeError
    decreases k
  {
    if k > 0 {
      ValueStep(s, k);
      hide IsDigit, Digit, Value;
      if Value(s[..k - 1]) > MAX_UINT {
        ParseOverflows(s, k - 1);
      } else {
        ParsePrefix(s, k - 1);
        assert s[k - 1..][0] == s[k - 1];
      }
    }
  }

  lemma ParseRest(s: string, n: nat)
    ensures s == "" ==> ParseDigits(s, n) == Number(n)
    ensures s != "" && !IsDigit(s[0]) ==> ParseDigits(s, n) == SyntaxError
  {
  }

  lemma AtoiCases(s: string, digits: string)
    requires s == digits || s == "-" + digits || s == "+" + digits
    requires digits != "" && digits[0] != '-' && digits[0] != '+'
    ensures ParseDigits(digits, 0) == SyntaxError ==> Atoi(s) == 0
    ensures ParseDigits(digits, 0) == RangeError ==> Atoi(s) == if s[0] == '-' then MIN_INT else MAX_INT
    ensures forall n: nat | ParseDigits(digits, 0) == Number(n) ::
              Atoi(s) == if s[0] == '-' then (if 0 - n < MIN_INT then MIN_INT else 0 - n)
                         else (if n > MAX_INT then MAX_INT else n)
  {
    if s != digits { assert s[1..] == digits; }
    hide ParseDigits;
  }

  /** A component is read as its sign and decimal value, held within the 64-bit integers; it is read as 0
      when it has a character that is no digit before its value leaves the unsigned 64-bit range, and as
      the nearest 64-bit integer when its value leaves that range first. */
  lemma AtoiExactly(s: string, digits: string, k: nat)
    requires s == digits || s == "-" + digits || s == "+" + digits
    requires digits != "" && digits[0] != '-' && digits[0] != '+'
    requires k <= |digits| && forall c | c in digits[..k] :: IsDigit(c)
    ensures Value(digits[..k]) > 0xFFFF_FFFF_FFFF_FFFF ==>
              Atoi(s) == if s[0] == '-' then -0x8000_0000_0000_0000 else 0x7FFF_FFFF_FFFF_FFFF
    ensures Value(digits[..k]) <= 0xFFFF_FFFF_FFFF_FFFF && k < |digits| && !IsDigit(digits[k]) ==> Atoi(s) == 0
    ensures Value(digits[..k]) <= 0xFFFF_FFFF_FFFF_FFFF && k == |digits| ==>
              Atoi(s) == if s[0] == '-' && Value(digits[..k]) > 0x8000_0000_0000_0000 then -0x8000_0000_0000_0000
                         else if s[0] == '-' then 0 - Value(digits[..k])
                         else if Value(digits[..k]) > 0x7FFF_FFFF_FFFF_FFFF then 0x7FFF_FFFF_FFFF_FFFF
                         else Value(digits[..k])
  {
    AtoiCases(s, digits);
    hide Atoi, ParseDigits;
    if Value(digits[..k]) > MAX_UINT {
      ParseOverflows(digits, k);
    } else {
      ParsePrefix(digits, k);
      ParseRest(digits[k..], Value(digits[..k]));
    }
  }

  /** Without a digit string after the sign it is read as 0. */
  lemma AtoiSigns(s: string)
    requires s in {"", "-", "+"} || (|s| > 1 && s[0] in "+-" && s[1] in "+-")
    ensures Atoi(s) == 0
  {
  }

  // ---- Names with the same components ----

  lemma AtoiCanonical(s: string)
    requires CanonicalNumeral(s)
    ensures Atoi(s) == Value(s)
  {
    assert s[..|s|] == s && s[0] in s;
    hide Atoi, Value;
    AtoiExactly(s, s, |s|);
  }

  lemma {:induction false} ValuePositive(s: string)
    requires s != "" && (forall c | c in s :: IsDigit(c)) && s[0] != '0'
    ensures Value(s) > 0
  {
    if |s| > 1 {
      ValuePositive(s[..|s| - 1]);
    }
  }

  lemma {:induction false} ValueInjective(s: string, t: string)
    requires CanonicalNumeral(s) && CanonicalNumeral(t) && Value(s) == Value(t)
    ensures s == t
  {
    var s', t' := s[..|s| - 1], t[..|t| - 1];
    var x, y := s[|s| - 1], t[|t| - 1];
    assert s == s' + [x] && t == t' + [y];
    LastDigit(Value(s'), Digit(x), Value(t'), Digit(y));
    if |s| > 1 { assert s'[0] == s[0] != '0'; ValuePositive(s'); }
    if |t| > 1 { assert t'[0] == t[0] != '0'; ValuePositive(t'); }
    if |s| > 1 && |t| > 1 {
      ValueInjective(s', t');
    }
  }

  lemma LastDigit(p: nat, d: nat, q: nat, e: nat)
    requires d < 10 && e < 10 && p * 10 + d == q * 10 + e
    ensures p == q && d == e
  {
  }

  /** On canonical names with equally many components, compareVersions ties exactly on equal strings:
      the group boundary, which compares strings, agrees with the sort order. */
  lemma CanonicalTies(a: string, b: string)
    requires CanonicalVersion(a) && CanonicalVersion(b)
    requires |Split(a, '.')| == |Split(b, '.')|
    ensures Compare(a, b) == 0 <==> a == b
  {
    CompareTotalPreorder(a, a, a);
    if Compare(a, b) == 0 {
      CompareKeys(a, b);
      var ap, bp := Split(a, '.'), Split(b, '.');
      forall i | 0 <= i < |ap| ensures ap[i] == bp[i] {
        assert At(Key(a), i) == At(Key(b), i);
        assert ap[i] in ap && bp[i] in bp;
        AtoiCanonical(ap[i]); AtoiCanonical(bp[i]);
        ValueInjective(ap[i], bp[i]);
      }
      assert ap == bp;
      JoinSplit(a, '.'); JoinSplit(b, '.');
    }
  }
}
