/** Role extraction from token claims (pkg/auth/oidc_provider.go). */
module Claims {
  import opened Strings

  /** A claim as JSON decoding leaves it. Items that are not strings only matter as such. */
  datatype Item = StringItem(s: string) | OtherItem

  datatype Claim = StringClaim(s: string) | ListClaim(items: seq<Item>) | StringsClaim(strs: seq<string>) | OtherClaim

  type ClaimMap = map<string, Claim>

  /** strings.CutPrefix. */
  function CutPrefix(s: string, prefix: string): Option<string> {
    if prefix <= s then Some(s[|prefix|..]) else None
  }

  /** The strings of a mixed list, in order. */
  function StringsIn(items: seq<Item>): seq<string> {
    if items == [] then []
    else if items[0].StringItem? then [items[0].s] + StringsIn(items[1..])
    else StringsIn(items[1..])
  }

  /** The rest of the first string that has the prefix, "" if none has. */
  function FirstMatch(strs: seq<string>, prefix: string): string {
    if strs == [] then ""
    else if prefix <= strs[0] then strs[0][|prefix|..]
    else FirstMatch(strs[1..], prefix)
  }

  /** The strings that a claim offers. */
  function Offered(claim: Claim): seq<string> {
    match claim
    case StringClaim(s) => [s]
    case ListClaim(items) => StringsIn(items)
    case StringsClaim(strs) => strs
    case OtherClaim => []
  }

  function ClaimValue(claims: ClaimMap, key: string, prefix: string): string {
    if key in claims then FirstMatch(Offered(claims[key]), prefix) else ""
  }

  /** claimString, with its loops over the two kinds of list. */
  method ClaimString(claims: ClaimMap, key: string, prefix: string) returns (s: string)
    ensures s == ClaimValue(claims, key, prefix)
  {
    s := "";
    if |claims| == 0 {
      assert key !in claims.Keys;
      return;
    }
    if key !in claims { return; }
    match claims[key]
    case StringClaim(val) =>
      assert FirstMatch([val][1..], prefix) == "";
      var after := CutPrefix(val, prefix);
      if after.Some? { s := after.value; }
    case ListClaim(items) =>
      for i := 0 to |items|
        invariant FirstMatch(StringsIn(items), prefix) == FirstMatch(StringsIn(items[i..]), prefix)
        invariant s == ""
      {
        assert items[i..][1..] == items[i + 1..];
        if items[i].StringItem? {
          assert ([items[i].s] + StringsIn(items[i + 1..]))[1..] == StringsIn(items[i + 1..]);
          var after := CutPrefix(items[i].s, prefix);
          if after.Some? {
            s := after.value;
            return;
          }
        }
      }
      assert FirstMatch(StringsIn(items), prefix) == "";
    case StringsClaim(strs) =>
      for i := 0 to |strs|
        invariant FirstMatch(strs, prefix) == FirstMatch(strs[i..], prefix)
        invariant s == ""
      {
        assert strs[i..][1..] == strs[i + 1..];
        var after := CutPrefix(strs[i], prefix);
        if after.Some? {
          s := after.value;
          return;
        }
      }
      assert FirstMatch(strs, prefix) == "";
    case OtherClaim =>
  }

  /** A claim's value is the rest of the first offered string with the prefix, even when that rest is
      empty and a later string has more; it is empty when no string has the prefix. */
  lemma {:induction false} FirstMatchMeaning(strs: seq<string>, prefix: string)
    ensures (forall i | 0 <= i < |strs| :: !(prefix <= strs[i])) ==> FirstMatch(strs, prefix) == ""
    ensures forall i | 0 <= i < |strs| && prefix <= strs[i] && (forall j | 0 <= j < i :: !(prefix <= strs[j])) ::
              prefix + FirstMatch(strs, prefix) == strs[i]
  {
    if strs != [] && !(prefix <= strs[0]) {
      FirstMatchMeaning(strs[1..], prefix);
      forall i | 0 <= i < |strs| && prefix <= strs[i] && (forall j | 0 <= j < i :: !(prefix <= strs[j]))
        ensures prefix + FirstMatch(strs, prefix) == strs[i]
      {
        assert strs[1..][i - 1] == strs[i];
        assert forall j | 0 <= j < i - 1 :: strs[1..][j] == strs[j + 1];
      }
    }
  }

  // ---- The role decision ----

  datatype Decision = Granted(role: string) | Forbidden

  /** The part of Authenticate that follows a verified token. */
  method DecideRole(claims: ClaimMap, roleClaim: string, prefix: string) returns (d: Decision)
    ensures d == RoleOf(claims, roleClaim, prefix)
  {
    var role := ClaimString(claims, roleClaim, prefix);
    if role == "" {
      role := ClaimString(claims, "scopes", prefix);
    }
    if role == "" { return Forbidden; }
    return Granted(role);
  }

  function RoleOf(claims: ClaimMap, roleClaim: string, prefix: string): Decision {
    var role := ClaimValue(claims, roleClaim, prefix);
    var scope := ClaimValue(claims, "scopes", prefix);
    if role != "" then Granted(role) else if scope != "" then Granted(scope) else Forbidden
  }

  // ---- The same by the shape of the claim ----

  /** The claim gives a role r: it is the string prefix + r, or a list whose first string with the prefix
      is. */
  ghost predicate Gives(claims: ClaimMap, key: string, prefix: string, r: string) {
    && key in claims
    && match claims[key]
       case StringClaim(s) => s == prefix + r
       case ListClaim(items) => exists i: nat :: FirstItem(items, prefix, i) && items[i].s == prefix + r
       case StringsClaim(strs) => exists i: nat :: FirstString(strs, prefix, i) && strs[i] == prefix + r
       case OtherClaim => false
  }

  ghost predicate FirstItem(items: seq<Item>, prefix: string, i: nat) {
    && i < |items| && items[i].StringItem? && prefix <= items[i].s
    && forall j: nat | j < i && items[j].StringItem? :: !(prefix <= items[j].s)
  }

  ghost predicate FirstString(strs: seq<string>, prefix: string, i: nat) {
    && i < |strs| && prefix <= strs[i]
    && forall j: nat | j < i :: !(prefix <= strs[j])
  }

  lemma RestOf(s: string, prefix: string, r: string)
    requires prefix <= s
    ensures s[|prefix|..] == r <==> s == prefix + r
  {
    assert s == prefix + s[|prefix|..];
    assert (prefix + r)[|prefix|..] == r;
  }

  lemma {:induction false} StringsMeaning(strs: seq<string>, prefix: string, r: string)
    requires r != ""
    ensures FirstMatch(strs, prefix) == r <==> exists i: nat :: FirstString(strs, prefix, i) && strs[i] == prefix + r
  {
    if strs != [] {
      if prefix <= strs[0] {
        RestOf(strs[0], prefix, r);
        assert FirstString(strs, prefix, 0);
        assert forall i: nat | FirstString(strs, prefix, i) :: i == 0;
      } else {
        StringsMeaning(strs[1..], prefix, r);
        forall i: nat ensures FirstString(strs[1..], prefix, i) <==> FirstString(strs, prefix, i + 1) {
          NextString(strs, prefix, i);
        }
        if i: nat :| FirstString(strs[1..], prefix, i) && strs[1..][i] == prefix + r {
          assert FirstString(strs, prefix, i + 1) && strs[i + 1] == prefix + r;
        }
        if i: nat :| FirstString(strs, prefix, i) && strs[i] == prefix + r {
          assert FirstString(strs[1..], prefix, i - 1) && strs[1..][i - 1] == prefix + r;
        }
      }
    }
  }

  lemma NextString(strs: seq<string>, prefix: string, i: nat)
    requires strs != [] && !(prefix <= strs[0])
    ensures FirstString(strs[1..], prefix, i) <==> FirstString(strs, prefix, i + 1)
  {
    if FirstString(strs[1..], prefix, i) {
      forall j: nat | j < i + 1 ensures !(prefix <= strs[j]) {
        if j > 0 { assert strs[1..][j - 1] == strs[j]; }
      }
    }
    if FirstString(strs, prefix, i + 1) {
      forall j: nat | j < i ensures !(prefix <= strs[1..][j]) { assert strs[1..][j] == strs[j + 1]; }
    }
  }

  lemma {:induction false} ItemsMeaning(items: seq<Item>, prefix: string, r: string)
    requires r != ""
    ensures FirstMatch(StringsIn(items), prefix) == r <==>
      exists i: nat :: FirstItem(items, prefix, i) && items[i].s == prefix + r
  {
    if items != [] {
      var rest := StringsIn(items[1..]);
      if items[0].StringItem? {
        assert ([items[0].s] + rest)[1..] == rest;
      }
      if items[0].StringItem? && prefix <= items[0].s {
        RestOf(items[0].s, prefix, r);
        assert FirstItem(items, prefix, 0);
        assert forall i: nat | FirstItem(items, prefix, i) :: i == 0;
      } else {
        ItemsMeaning(items[1..], prefix, r);
        forall i: nat ensures FirstItem(items[1..], prefix, i) <==> FirstItem(items, prefix, i + 1) {
          NextItem(items, prefix, i);
        }
        if i: nat :| FirstItem(items[1..], prefix, i) && items[1..][i].s == prefix + r {
          assert FirstItem(items, prefix, i + 1) && items[i + 1].s == prefix + r;
        }
        if i: nat :| FirstItem(items, prefix, i) && items[i].s == prefix + r {
          assert FirstItem(items[1..], prefix, i - 1) && items[1..][i - 1].s == prefix + r;
        }
      }
    }
  }

  lemma NextItem(items: seq<Item>, prefix: string, i: nat)
    requires items != [] && (items[0].StringItem? ==> !(prefix <= items[0].s))
    ensures FirstItem(items[1..], prefix, i) <==> FirstItem(items, prefix, i + 1)
  {
    if FirstItem(items[1..], prefix, i) {
      forall j: nat | j < i + 1 && items[j].StringItem? ensures !(prefix <= items[j].s) {
        if j > 0 { assert items[1..][j - 1] == items[j]; }
      }
    }
    if FirstItem(items, prefix, i + 1) {
      forall j: nat | j < i && items[1..][j].StringItem? ensures !(prefix <= items[1..][j].s) {
        assert items[1..][j] == items[j + 1];
      }
    }
  }

  /** A claim's value is r, when r is not empty, exactly when the claim gives r; in all other cases, an
      absent claim, one of another shape, no string with the prefix, or the prefix itself as the first
      one, it is empty. */
  lemma ClaimExactly(claims: ClaimMap, key: string, prefix: string, r: string)
    requires r != ""
    ensures ClaimValue(claims, key, prefix) == r <==> Gives(claims, key, prefix, r)
  {
    if key in claims {
      match claims[key]
      case StringClaim(s) =>
        StringsMeaning([s], prefix, r);
        assert forall i: nat | FirstString([s], prefix, i) :: i == 0;
        if s == prefix + r { assert FirstString([s], prefix, 0); }
      case ListClaim(items) => ItemsMeaning(items, prefix, r);
      case StringsClaim(strs) => StringsMeaning(strs, prefix, r);
      case OtherClaim =>
    }
  }

  /** A verified token gets role r exactly when r is not empty and the role claim gives r, or that claim
      gives nothing and the claim "scopes" gives r; otherwise it is forbidden. */
  lemma RoleExactly(claims: ClaimMap, roleClaim: string, prefix: string, r: string)
    ensures RoleOf(claims, roleClaim, prefix) == Granted(r) <==>
      && r != ""
      && (|| Gives(claims, roleClaim, prefix, r)
          || ((forall x | x != "" :: !Gives(claims, roleClaim, prefix, x)) && Gives(claims, "scopes", prefix, r)))
  {
    hide Gives, ClaimValue;
    if r != "" {
      ClaimExactly(claims, roleClaim, prefix, r);
      ClaimExactly(claims, "scopes", prefix, r);
    }
    forall x | x != "" ensures ClaimValue(claims, roleClaim, prefix) == x <==> Gives(claims, roleClaim, prefix, x) {
      ClaimExactly(claims, roleClaim, prefix, x);
    }
    var v := ClaimValue(claims, roleClaim, prefix);
    if v != "" { assert Gives(claims, roleClaim, prefix, v); }
  }

  /** A mixed list counts as the list of its strings. */
  lemma MixedLists(claims: ClaimMap, key: string, items: seq<Item>, prefix: string)
    ensures ClaimValue(claims[key := ListClaim(items)], key, prefix)
         == ClaimValue(claims[key := StringsClaim(StringsIn(items))], key, prefix)
  {
  }
}
