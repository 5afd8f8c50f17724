/** Binding one tagged scalar field (envconf.go, setVar): choose the value
    string from the environment or the default, then parse it by kind. */
module Scalars {
  import opened Optional
  import opened Kinds
  import opened Values
  import opened Decimal

  /** The value string for a key: the environment's value when the key is
      reported present (even when that value is empty), otherwise a non-empty
      default, otherwise nothing. */
  function LookupOrDefault(env: map<string, string>, key: string, dflt: string): (r: Option<string>)
    ensures r.None? <==> !Present(env, key) && dflt == ""
    ensures r.Some? ==> r.value == (if Present(env, key) then env[key] else dflt)
    ensures key == "" ==> r == (if dflt == "" then None else Some(dflt))
  {
    if Present(env, key) then Some(env[key])
    else if dflt != "" then Some(dflt)
    else None
  }

  /** The two literals `strconv.FormatBool` produces. */
  function FormatBool(b: bool): string {
    if b then "true" else "false"
  }

  /** Case-sensitive: only the exact literals `true` and `false` are accepted. */
  function ParseBool(s: string): (r: Option<bool>)
    ensures r.None? <==> s != "true" && s != "false"
    ensures r.Some? ==> s == FormatBool(r.value)
  {
    if s == "true" then Some(true)
    else if s == "false" then Some(false)
    else None
  }

  /** ParseBool accepts exactly the formatted booleans, and inverts FormatBool. */
  lemma ParseBoolExact(s: string, b: bool)
    ensures ParseBool(s) == Some(b) <==> s == FormatBool(b)
    ensures ParseBool(s).None? <==> s != "true" && s != "false"
  {
  }

  /** Parses a value string into a field of kind `k`; `cur` is the field's
      current contents, kept for the kinds that have no case. None is a parse
      failure. */
  function ParseInto(k: LeafKind, raw: string, cur: Scalar, h: Host): (r: Option<Scalar>)
    ensures ScalarFits(k, cur) && r.Some? ==> ScalarFits(k, r.value)
    ensures !IsIntKind(k) && !IsFloatKind(k) && !k.Bool? && !k.String? ==> r == Some(cur)
    ensures k.String? ==> r == Some(StrS(raw))
    ensures k.Bool? ==> (r.Some? <==> raw == "true" || raw == "false")
    ensures IsIntKind(k) ==> (r.Some? <==> ParseInt(raw).Some?)
    ensures IsIntKind(k) && ParseInt(raw).Some? ==> r == Some(IntS(ParseInt(raw).value))
    ensures k.Bool? && ParseBool(raw).Some? ==> r == Some(BoolS(ParseBool(raw).value))
    ensures IsFloatKind(k) ==> r == (if h.parseFloat(raw).Some? then Some(FloatS(h.parseFloat(raw).value)) else None)
  {
    if IsIntKind(k) then
      match ParseInt(raw)
      case None => None
      case Some(n) => Some(IntS(n))
    else if IsFloatKind(k) then
      match h.parseFloat(raw)
      case None => None
      case Some(x) => Some(FloatS(x))
    else if k.Bool? then
      match ParseBool(raw)
      case None => None
      case Some(b) => Some(BoolS(b))
    else if k.String? then
      Some(StrS(raw))
    else
      Some(cur)
  }

  /** setVar: Some(new contents) on success, None when the value string did not parse. */
  function SetVar(cur: Scalar, k: LeafKind, key: string, dflt: string, h: Host): (r: Option<Scalar>)
    ensures !Present(h.env, key) && dflt == "" ==> r == Some(cur)
    ensures Present(h.env, key) ==> r == ParseInto(k, h.env[key], cur, h)
    ensures !Present(h.env, key) && dflt != "" ==> r == ParseInto(k, dflt, cur, h)
    ensures r.Some? && r.value != cur ==> Present(h.env, key) || dflt != ""
    ensures ScalarFits(k, cur) && r.Some? ==> ScalarFits(k, r.value)
    ensures k.String? ==> r.Some?
    ensures IsBasic(k) && !IsIntKind(k) && !IsFloatKind(k) && !k.Bool? && !k.String? ==> r == Some(cur)
  {
    match LookupOrDefault(h.env, key, dflt)
    case None => Some(cur)
    case Some(raw) => ParseInto(k, raw, cur, h)
  }

  /** A key that is not reported present, with a non-empty default, parses
      the default; for a non-empty key this is exactly as if the default were
      the environment's value for that key. */
  lemma DefaultActsAsEnvValue(cur: Scalar, k: LeafKind, key: string, dflt: string, h: Host)
    requires !Present(h.env, key) && dflt != ""
    ensures SetVar(cur, k, key, dflt, h) == ParseInto(k, dflt, cur, h)
    ensures key != "" ==> SetVar(cur, k, key, dflt, h) == SetVar(cur, k, key, "", Host(h.env[key := dflt], h.parseFloat))
  {
  }

  /** The empty key never reads the environment, even when the map has an
      entry under the empty name: only the default can bind the field. */
  lemma EmptyKeyIgnoresEnvironment(cur: Scalar, k: LeafKind, dflt: string, h: Host)
    ensures SetVar(cur, k, "", dflt, h) == SetVar(cur, k, "", dflt, Host(map[], h.parseFloat))
    ensures dflt == "" ==> SetVar(cur, k, "", dflt, h) == Some(cur)
  {
  }

  /** A present key wins over any default, even when its value is empty. */
  lemma PresentKeyWins(cur: Scalar, k: LeafKind, key: string, d1: string, d2: string, h: Host)
    requires Present(h.env, key)
    ensures SetVar(cur, k, key, d1, h) == SetVar(cur, k, key, d2, h)
    ensures k.String? ==> SetVar(cur, k, key, d1, h) == Some(StrS(h.env[key]))
  {
  }

  /** Every int64 written in canonical decimal binds to an integer field. */
  lemma SetIntRoundTrip(cur: Scalar, k: LeafKind, key: string, dflt: string, h: Host, n: int)
    requires IsIntKind(k) && InInt64(n)
    requires LookupOrDefault(h.env, key, dflt) == Some(FormatInt(n))
    ensures SetVar(cur, k, key, dflt, h) == Some(IntS(n))
  {
    ParseFormatInt(n);
  }

  /** A boolean field takes exactly the two literals; anything else fails. */
  lemma SetBoolExact(cur: Scalar, key: string, dflt: string, h: Host, raw: string)
    requires LookupOrDefault(h.env, key, dflt) == Some(raw)
    ensures SetVar(cur, Bool, key, dflt, h).Some? <==> raw == "true" || raw == "false"
    ensures forall b :: SetVar(cur, Bool, key, dflt, h) == Some(BoolS(b)) <==> raw == FormatBool(b)
  {
  }

  /** A float field fails exactly when the float parser fails and otherwise takes its result. */
  lemma SetFloatFollowsParser(cur: Scalar, k: LeafKind, key: string, dflt: string, h: Host, raw: string)
    requires IsFloatKind(k)
    requires LookupOrDefault(h.env, key, dflt) == Some(raw)
    ensures h.parseFloat(raw).None? ==> SetVar(cur, k, key, dflt, h).None?
    ensures h.parseFloat(raw).Some? ==> SetVar(cur, k, key, dflt, h) == Some(FloatS(h.parseFloat(raw).value))
  {
  }

  /** Binding again with the result of a binding changes nothing. */
  lemma SetVarIdempotent(cur: Scalar, k: LeafKind, key: string, dflt: string, h: Host)
    requires SetVar(cur, k, key, dflt, h).Some?
    ensures SetVar(SetVar(cur, k, key, dflt, h).value, k, key, dflt, h) == SetVar(cur, k, key, dflt, h)
  {
  }
}
