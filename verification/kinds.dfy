/** The field kinds the binder distinguishes, and the deny-list that decides
    which kinds may carry an `env` tag (envconf.go, fieldKindValidForEnv). */
module Kinds {

  /** The kinds of Go's reflect package that a struct field can have. */
  datatype Kind =
    | Bool
    | Int | Int8 | Int16 | Int32 | Int64
    | Uint | Uint8 | Uint16 | Uint32 | Uint64 | Uintptr
    | Float32 | Float64
    | Complex64 | Complex128
    | Array | Chan | Func | Interface | Map | Ptr | Slice | String | Struct
    | UnsafePointer

  /** Kinds a leaf of the value tree can have: everything but the two
      composite kinds, which the tree represents by its own constructors. */
  type LeafKind = k: Kind | !k.Ptr? && !k.Struct? witness Bool

  /** The signed integer kinds, bound through a base-10 int64 parse. */
  predicate IsIntKind(k: Kind) {
    k.Int? || k.Int8? || k.Int16? || k.Int32? || k.Int64?
  }

  /** The floating-point kinds. */
  predicate IsFloatKind(k: Kind) {
    k.Float32? || k.Float64?
  }

  /** The basic (scalar) kinds of Go: booleans, all numeric kinds and strings.
      This is an allow-list written independently of the deny-list below. */
  predicate IsBasic(k: Kind) {
    || k.Bool?
    || IsIntKind(k)
    || k.Uint? || k.Uint8? || k.Uint16? || k.Uint32? || k.Uint64? || k.Uintptr?
    || IsFloatKind(k)
    || k.Complex64? || k.Complex128?
    || k.String?
  }

  /** The kinds that must not carry an `env` tag, in the order the source lists them. */
  const DenyList: seq<Kind> := [Array, Chan, Func, Interface, Map, Slice, UnsafePointer, Ptr, Struct]

  /** A kind may carry an `env` tag exactly when it is not on the deny-list. */
  predicate KindValidForEnv(k: Kind) {
    k !in DenyList
  }

  /** The deny-list rejects exactly the non-basic kinds, so every basic kind,
      unsigned and complex ones included, passes validation. */
  lemma KindValidForEnvIsBasic(k: Kind)
    ensures KindValidForEnv(k) <==> IsBasic(k)
  {
  }

  /** The source's search loop over the deny-list. */
  method FieldKindValidForEnv(k: Kind) returns (ok: bool)
    ensures ok <==> IsBasic(k)
    ensures ok == KindValidForEnv(k)
    ensures ok <==> forall j :: 0 <= j < |DenyList| ==> DenyList[j] != k
  {
    var i := 0;
    while i < |DenyList|
      invariant 0 <= i <= |DenyList|
      invariant forall j :: 0 <= j < i ==> DenyList[j] != k
    {
      if DenyList[i] == k {
        return false;
      }
      i := i + 1;
    }
    KindValidForEnvIsBasic(k);
    return true;
  }
}
