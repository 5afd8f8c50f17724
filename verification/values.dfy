/** The configuration value the binder walks, in place of Go reflection:
    an explicit tree of structs, pointers and scalar leaves whose fields
    carry the `env` and `envdefault` tags. */
module Values {
  import opened Optional
  import opened Kinds
  import Decimal

  /** The contents of a scalar field. Floats are kept as the bits of a
      float64; kinds the binder never writes hold an opaque token. */
  datatype Scalar =
    | IntS(i: int)
    | FloatS(bits: bv64)
    | BoolS(b: bool)
    | StrS(s: string)
    | OtherS(token: nat)

  /** A value reachable from the argument of Load. A nil pointer is
      `PtrV(None)`; sharing between pointers is not represented. */
  datatype Value =
    | StructV(fields: seq<Field>)
    | PtrV(target: Option<Value>)
    | LeafV(kind: LeafKind, scalar: Scalar)

  /** A struct field: its name, the `env` and `envdefault` tags when present
      (a present tag may have the empty string as value), and its value. */
  datatype Field = Field(name: string, env: Option<string>, envDefault: Option<string>, value: Value)

  /** What can go wrong. `TaggedField` is the one message the source gives
      both for a composite field with an `env` tag and for a tagged field
      of a denied kind. */
  datatype Error =
    | NotPointer
    | TaggedField(field: string, kind: Kind)
    | ParseFailed(key: string, field: string, kind: Kind)

  /** The updated value together with the first error, if any. The value is
      returned even on error: the source mutates in place and never rolls back. */
  datatype Outcome<+T> = Outcome(value: T, err: Option<Error>)

  /** What the binder reads from its process: a snapshot of the environment
      and the float64 parser of the standard library, which this model keeps
      abstract. */
  datatype Host = Host(env: map<string, string>, parseFloat: string -> Option<bv64>)

  /** Whether `os.LookupEnv` reports a key as set. An environment entry cannot
      have an empty name, so the empty key is never reported, whatever the
      map holds. */
  predicate Present(env: map<string, string>, key: string) {
    key != "" && key in env
  }

  /** The reflect kind of a value. */
  function KindOf(v: Value): (k: Kind)
    ensures k.Struct? <==> v.StructV?
    ensures k.Ptr? <==> v.PtrV?
  {
    match v
    case StructV(_) => Struct
    case PtrV(_) => Ptr
    case LeafV(k, _) => k
  }

  /** The scalar fits the kind of its leaf: integers within int64 (the
      narrower widths are not truncated, see README), floats as float bits,
      and so on; kinds the binder never writes hold a token. */
  predicate ScalarFits(k: Kind, s: Scalar) {
    if IsIntKind(k) then s.IntS? && Decimal.InInt64(s.i)
    else if IsFloatKind(k) then s.FloatS?
    else if k.Bool? then s.BoolS?
    else if k.String? then s.StrS?
    else s.OtherS?
  }

  /** Every leaf reachable in the tree fits its kind. */
  predicate WellTyped(v: Value) {
    match v
    case StructV(fs) => forall i :: 0 <= i < |fs| ==> WellTyped(fs[i].value)
    case PtrV(None) => true
    case PtrV(Some(t)) => WellTyped(t)
    case LeafV(k, s) => ScalarFits(k, s)
  }

  /** The tree with every scalar replaced by the same placeholder: what the
      binder must leave unchanged. */
  function Erase(v: Value): (e: Value)
    ensures KindOf(e) == KindOf(v)
  {
    match v
    case StructV(fs) => StructV(EraseFields(fs))
    case PtrV(None) => v
    case PtrV(Some(t)) => PtrV(Some(Erase(t)))
    case LeafV(k, _) => LeafV(k, OtherS(0))
  }

  function EraseFields(fs: seq<Field>): (es: seq<Field>)
    ensures |es| == |fs|
  {
    if |fs| == 0 then [] else [fs[0].(value := Erase(fs[0].value))] + EraseFields(fs[1..])
  }
}
