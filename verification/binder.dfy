/** The binder (envconf.go): Load checks that it was handed a pointer and
    walks the pointee; load walks the fields of a struct in declaration
    order, recursing into struct fields and into the targets of pointer
    fields, and binds tagged scalar fields from the environment. Go mutates
    in place; here every walk returns the updated value and the first error. */
module Binder {
  import opened Optional
  import opened Kinds
  import opened Values
  import opened Scalars

  /** The loop body of load for a scalar field: untagged fields are skipped,
      tagged fields of a denied kind are an error, and otherwise the value is
      set from the environment or the default. A failed parse is reported
      under a new error naming key, field and kind; the parser's own error
      is dropped. */
  function BindLeaf(name: string, env: Option<string>, envDefault: Option<string>, k: LeafKind, s: Scalar, h: Host): (r: Outcome<Scalar>)
    ensures env.None? ==> r == Outcome(s, None)
    ensures r.err.Some? ==> r.value == s
    ensures r.err.Some? ==> env.Some? && (r.err.value.TaggedField? <==> !IsBasic(k))
    ensures r.err.Some? ==> r.err.value == TaggedField(name, k) || r.err.value == ParseFailed(env.value, name, k)
    ensures env.Some? && !IsBasic(k) ==> r == Outcome(s, Some(TaggedField(name, k)))
    ensures env.Some? && IsBasic(k) ==> (r.err.None? <==> SetVar(s, k, env.value, envDefault.GetOr(""), h).Some?)
    ensures env.Some? && r.err.None? ==> r.value == SetVar(s, k, env.value, envDefault.GetOr(""), h).value
    ensures env.Some? && IsBasic(k) && !Present(h.env, env.value) && envDefault.GetOr("") == "" ==> r == Outcome(s, None)
    ensures env.Some? && IsBasic(k) && !IsIntKind(k) && !IsFloatKind(k) && !k.Bool? && !k.String? ==> r == Outcome(s, None)
    ensures ScalarFits(k, s) ==> ScalarFits(k, r.value)
  {
    if env.None? then Outcome(s, None)
    else if !KindValidForEnv(k) then
      KindValidForEnvIsBasic(k);
      Outcome(s, Some(TaggedField(name, k)))
    else
      KindValidForEnvIsBasic(k);
      match SetVar(s, k, env.value, envDefault.GetOr(""), h)
      case None => Outcome(s, Some(ParseFailed(env.value, name, k)))
      case Some(s') => Outcome(s', None)
  }

  /** Load: anything but a pointer is refused before any field is visited; a
      nil pointer, or a pointer to a non-struct, is left as it is. */
  function Load(v: Value, h: Host): (r: Outcome<Value>)
    ensures !v.PtrV? ==> r == Outcome(v, Some(NotPointer))
    ensures v.PtrV? ==> r.err != Some(NotPointer)
    ensures v.PtrV? && (v.target.None? || !v.target.value.StructV?) ==> r == Outcome(v, None)
    ensures Erase(r.value) == Erase(v)
    ensures WellTyped(v) ==> WellTyped(r.value)
  {
    match v
    case PtrV(None) => Outcome(v, None)
    case PtrV(Some(t)) =>
      var r := LoadValue(t, h);
      Outcome(PtrV(Some(r.value)), r.err)
    case _ => Outcome(v, Some(NotPointer))
  }

  /** load: only a struct has fields to walk; every other kind is left as it is. */
  function LoadValue(v: Value, h: Host): (r: Outcome<Value>)
    ensures !v.StructV? ==> r == Outcome(v, None)
    ensures r.err != Some(NotPointer)
    ensures Erase(r.value) == Erase(v)
    ensures WellTyped(v) ==> WellTyped(r.value)
  {
    match v
    case StructV(fs) =>
      var r := LoadFields(fs, h);
      Outcome(StructV(r.value), r.err)
    case _ => Outcome(v, None)
  }

  /** The loop of load over the fields, in declaration order. The first error
      stops the loop; the fields before it keep their new values and the
      fields after it are returned untouched. */
  function LoadFields(fs: seq<Field>, h: Host): (r: Outcome<seq<Field>>)
    ensures |r.value| == |fs|
    ensures r.err != Some(NotPointer)
    ensures EraseFields(r.value) == EraseFields(fs)
    ensures (forall i :: 0 <= i < |fs| ==> WellTyped(fs[i].value)) ==>
              forall i :: 0 <= i < |fs| ==> WellTyped(r.value[i].value)
  {
    if |fs| == 0 then Outcome([], None)
    else
      var first := LoadField(fs[0], h);
      if first.err.Some? then
        Outcome([first.value] + fs[1..], first.err)
      else
        var rest := LoadFields(fs[1..], h);
        Outcome([first.value] + rest.value, rest.err)
  }

  /** One iteration of the loop of load: a pointer or struct field must not
      carry an `env` tag (its presence is what counts, even with an empty
      value); otherwise a pointer field is handed to Load and a struct field
      to load; a scalar field goes to BindLeaf. */
  function LoadField(f: Field, h: Host): (r: Outcome<Field>)
    ensures r.value.(value := Erase(r.value.value)) == f.(value := Erase(f.value))
    ensures r.err != Some(NotPointer)
    ensures !f.value.LeafV? && f.env.Some? ==> r == Outcome(f, Some(TaggedField(f.name, KindOf(f.value))))
    ensures f.value.LeafV? && f.env.None? ==> r == Outcome(f, None)
    ensures f.value.PtrV? && f.env.None? && (f.value.target.None? || !f.value.target.value.StructV?) ==> r == Outcome(f, None)
    ensures WellTyped(f.value) ==> WellTyped(r.value.value)
  {
    match f.value
    case PtrV(_) =>
      if f.env.Some? then Outcome(f, Some(TaggedField(f.name, Ptr)))
      else
        var r := Load(f.value, h);
        Outcome(f.(value := r.value), r.err)
    case StructV(_) =>
      if f.env.Some? then Outcome(f, Some(TaggedField(f.name, Struct)))
      else
        var r := LoadValue(f.value, h);
        Outcome(f.(value := r.value), r.err)
    case LeafV(k, s) =>
      var r := BindLeaf(f.name, f.env, f.envDefault, k, s, h);
      Outcome(f.(value := LeafV(k, r.value)), r.err)
  }

  /** Binding a scalar a second time, from the same environment, changes nothing. */
  lemma BindLeafIdempotent(name: string, env: Option<string>, envDefault: Option<string>, k: LeafKind, s: Scalar, h: Host)
    ensures BindLeaf(name, env, envDefault, k, BindLeaf(name, env, envDefault, k, s, h).value, h)
            == BindLeaf(name, env, envDefault, k, s, h)
  {
    if env.Some? && KindValidForEnv(k) && SetVar(s, k, env.value, envDefault.GetOr(""), h).Some? {
      SetVarIdempotent(s, k, env.value, envDefault.GetOr(""), h);
    }
  }

  /** Load is idempotent: loading its result again from the same environment
      gives the same value and the same error. On success every tagged
      field already holds what the environment says; on failure the walk
      binds the same fields again and stops at the same field. */
  lemma {:induction false} LoadIdempotent(v: Value, h: Host)
    ensures Load(Load(v, h).value, h) == Load(v, h)
  {
    if v.PtrV? && v.target.Some? {
      LoadValueIdempotent(v.target.value, h);
    }
  }

  lemma {:induction false} LoadValueIdempotent(v: Value, h: Host)
    ensures LoadValue(LoadValue(v, h).value, h) == LoadValue(v, h)
  {
    if v.StructV? {
      LoadFieldsIdempotent(v.fields, h);
    }
  }

  lemma {:induction false} LoadFieldsIdempotent(fs: seq<Field>, h: Host)
    ensures LoadFields(LoadFields(fs, h).value, h) == LoadFields(fs, h)
  {
    if |fs| > 0 {
      var first := LoadField(fs[0], h);
      var r := LoadFields(fs, h);
      LoadFieldIdempotent(fs[0], h);
      assert r.value[0] == first.value;
      if first.err.Some? {
        assert r.value[1..] == fs[1..];
      } else {
        LoadFieldsIdempotent(fs[1..], h);
        assert r.value[1..] == LoadFields(fs[1..], h).value;
      }
    }
  }

  lemma {:induction false} LoadFieldIdempotent(f: Field, h: Host)
    ensures LoadField(LoadField(f, h).value, h) == LoadField(f, h)
  {
    match f.value
    case PtrV(_) =>
      if f.env.None? {
        LoadIdempotent(f.value, h);
      }
    case StructV(_) =>
      if f.env.None? {
        LoadValueIdempotent(f.value, h);
      }
    case LeafV(k, s) =>
      BindLeafIdempotent(f.name, f.env, f.envDefault, k, s, h);
  }
}
