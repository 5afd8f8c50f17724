# envconf binder, modelled in Dafny

envconf fills a Go configuration struct from environment variables. `Load`
takes a pointer to a struct and walks the struct's fields in declaration
order. Struct fields are walked recursively. The targets of pointer fields
are walked through `Load` again. A scalar field with an `env:"KEY"` tag gets
the value of `KEY`. If `KEY` is unset, it gets its non-empty `envdefault`
instead. The value string is parsed according to the field's kind. The
first error stops the walk, and fields bound before it keep their new
values.

The model replaces Go reflection with an explicit value tree:

- `Values.Value` is a struct (`StructV`), a pointer that may be nil (`PtrV`),
  or a scalar leaf of a given reflect kind (`LeafV`).
- `Values.Field` holds a field's name, its `env` and `envdefault` tags
  (present or absent, possibly empty) and its value.
- The environment is a `map<string, string>` snapshot, kept in a `Host`
  together with the float parser, which stays abstract.
- Every walk is a pure function returning the updated tree and the first
  error. The tree is returned on failure too, because the Go code mutates in
  place and does not roll back.

Modules:

- `Kinds`: reflect kinds and the deny-list check.
- `Decimal`: base-10 int64 parsing and its inverse formatter.
- `Values`: the tree, the errors, well-typedness and shape erasure.
- `Scalars`: `setVar`.
- `Binder`: `Load`, `load`, the field loop and the loop body.
- `Traversal`: an independent flat account of the walk and the theorem tying
  the binder to it.
- `Scenarios`: concrete configurations.

The central result is `Traversal.LoadMatchesFlat`. List the fields `Load`
visits in visiting order: depth first, each field before the fields nested
under it. The recursive binder then does exactly what a left-to-right pass
over that list does. The pass binds each field on its own and stops at the
first failure. `Traversal.FlatBindSpec` describes that pass without
recursion:

- it succeeds exactly when no visited field fails;
- the fields before the first failure are bound;
- the first failing field and every field after it are unchanged;
- the reported error is the first failing field's.

Quirks of the code, which the model keeps:

- A nil pointer field is not a crash. `Elem()` of a nil pointer is the zero
  `reflect.Value`, whose kind matches no case of `load`, so the field is
  skipped.
- `Load` does not require a pointer to a struct. A pointer to any other
  kind, including a pointer to a pointer, succeeds and changes nothing.
- The kind check is a deny-list, not an allow-list of int, float, bool and
  string. Tagged unsigned, `uintptr` and complex fields pass the check.
  `setVar` has no case for them, so they are left unchanged and the call
  succeeds.
- A parse failure is not passed through unchanged. `load` drops `setVar`'s
  error and returns a new one naming the key, the field and the kind.
- `Values.Error` has three variants:
  - `NotPointer` is the error of envconf.go:12.
  - `TaggedField` is the one message of envconf.go:30, 41 and 55, which
    covers both a tagged composite field and a tagged field of a denied kind.
  - `ParseFailed` is the error of envconf.go:65.

## Model

| member | source | states |
|---|---|---|
| `Kinds.FieldKindValidForEnv` | envconf.go:72-92 | The search over the deny-list accepts a kind exactly when the kind is basic: bool, any signed or unsigned integer, float or complex kind, or string. Array, chan, func, interface, map, slice, unsafe pointer, pointer and struct are rejected. |
| `Kinds.KindValidForEnvIsBasic` | envconf.go:72-92 | Not being on the deny-list is the same as being a basic kind, so unsigned and complex kinds pass. |
| `Decimal.ParseInt` | envconf.go:106 | A successful base-10 parse gives a value in the int64 range. The text is an optional sign followed only by digits, so `12a` and `1_0` are refused. The empty string and a lone sign are refused. A negative result comes from a leading minus sign. |
| `Decimal.ParseFormatInt` | envconf.go:105-110 | Every int64 written in canonical decimal parses back to itself. |
| `Decimal.ParsePlusSign` | envconf.go:106 | A leading plus sign is accepted and does not change the value. |
| `Decimal.ParseIntRejectsOverflow` | envconf.go:106-109 | The decimal form of every integer outside the int64 range is rejected rather than wrapped or clamped. |
| `Decimal.ParseIntAcceptsOnlyDecimal` | envconf.go:106 | Whatever the parser accepts is an optional sign, then zeros, then the canonical decimal form of the value. A negative value has a minus sign and a positive one does not. |
| `Decimal.DigitsCanonicalForm` | envconf.go:106 | Every digit string is zeros followed by the canonical form of its value. |
| `Decimal.CanonicalDigits` | envconf.go:106 | A digit string without a leading zero is the canonical form of its value. |
| `Decimal.LeadingZeroValue` | envconf.go:106 | A leading zero does not change the value of a digit string. |
| `Decimal.ZerosValue` | envconf.go:106 | Any number of leading zeros does not change the value of a digit string. |
| `Decimal.ParseSignedZeroPadded` | envconf.go:106 | The converse of `ParseIntAcceptsOnlyDecimal`: an optional sign, any number of zeros, then the digits of an int64 value is accepted and gives that value, so `007` is 7, `-0` is 0 and `+0042` is 42. |
| `Scalars.LookupOrDefault` | envconf.go:95-102 | There is no value string exactly when the key is not reported present and the default is empty. A present key gives its value, even an empty one. Otherwise the default is used. The empty key is never reported present, as `os.LookupEnv("")` never finds it, so it yields only the default. |
| `Scalars.ParseBool` | envconf.go:119-126 | The bool parser fails exactly on strings other than `true` and `false`. On success the string is the formatted form of the result. |
| `Scalars.ParseBoolExact` | envconf.go:119-126 | The bool parser accepts a string exactly when it is `true` or `false`, and inverts the formatter. |
| `Scalars.ParseInto` | envconf.go:104-130 | The per-kind dispatch keeps well-typedness. Kinds without a case keep their old contents. Strings receive the raw text. Bool succeeds exactly on the two literals and stores the value they spell. Integer kinds succeed exactly when the int64 parse does and store the parsed int64. Float kinds follow the float parser. |
| `Scalars.SetVar` | envconf.go:94-133 | A present key's value, even an empty one, goes to the kind parser, so `PORT=""` on an int field fails. A missing key with a non-empty default parses the default. A missing key with an empty default leaves the field unchanged and succeeds. The field changes only when a value string exists. String fields never fail. Basic kinds without a case are left unchanged. Well-typedness is kept. |
| `Scalars.DefaultActsAsEnvValue` | envconf.go:95-102 | A key not reported present, with a non-empty default, parses the default. For a non-empty key this binds exactly as if the default were the environment's value. |
| `Scalars.EmptyKeyIgnoresEnvironment` | envconf.go:95-102 | A field tagged `env:""` never reads the environment, even an entry under the empty name. Without a default it is left unchanged. |
| `Scalars.PresentKeyWins` | envconf.go:95-102 | A present key makes the default irrelevant. A present empty value is bound verbatim into a string field. |
| `Scalars.SetIntRoundTrip` | envconf.go:105-110 | An integer field whose value string is the decimal form of an int64 receives that int64. |
| `Scalars.SetBoolExact` | envconf.go:119-126 | A bool field succeeds exactly on `true` and `false`, and receives the value they spell. |
| `Scalars.SetFloatFollowsParser` | envconf.go:112-117 | A float field fails exactly when the float parser fails, and otherwise receives the parser's result. |
| `Scalars.SetVarIdempotent` | envconf.go:94-133 | Setting a field again from its own result changes nothing. |
| `Binder.BindLeaf` | envconf.go:50-66 | An untagged scalar is untouched and succeeds. A tagged non-basic kind always fails with the tag error and stays unchanged, and only such a kind gets that error. A tagged basic kind fails exactly when `setVar` fails, always with `ParseFailed` naming the key, field and kind. On success it holds what `setVar` produced. Any failure leaves the scalar unchanged. A tagged basic kind without a parser case, or an absent key with no default, changes nothing. Well-typedness is kept. |
| `Binder.Load` | envconf.go:10-17 | A non-pointer fails with `NotPointer` before any field is visited, and a pointer never does. A nil pointer, or a pointer to a non-struct, succeeds unchanged. Only scalars change, so the erased tree is the same. Well-typedness is kept. |
| `Binder.LoadValue` | envconf.go:19-70 | A non-struct is left unchanged with success. `NotPointer` never arises below the top. Only scalars change. Well-typedness is kept. |
| `Binder.LoadFields` | envconf.go:24-67 | The field loop keeps the number of fields and their names, tags and shape, changing scalars only. Well-typedness is kept. |
| `Binder.LoadField` | envconf.go:25-66 | A pointer or struct field with an `env` tag, even an empty one, fails with the tag error and is not entered. An untagged scalar field is untouched. An untagged pointer field that is nil or points to a non-struct succeeds unchanged, target included, since `Load` does not enter it. Name, tags and shape are kept. |
| `Binder.BindLeafIdempotent` | envconf.go:50-66 | Binding a scalar again with the same environment gives the same scalar and error. |
| `Binder.LoadIdempotent` | envconf.go:10-70 | Loading the result of a load again from the same environment gives the same tree and the same error. |
| `Traversal.Shallow` | envconf.go:28-35 | A visited field as seen on its own keeps its name, tags and kind. A scalar field, and a pointer the walk does not enter (nil or to a non-struct), are kept whole, so the flat pass fixes their contents too. |
| `Traversal.BindSlot` | envconf.go:28-66 | One visited field seen on its own: name, tags and kind are kept, and a failure leaves the field unchanged. A composite field fails exactly when it carries an `env` tag. |
| `Traversal.FlatBindSpec` | envconf.go:24-67 | The left-to-right pass succeeds exactly when no field fails. Fields before the first failure are bound and the rest are unchanged. The error is the first failing field's. |
| `Traversal.FlatBindLength` | envconf.go:24-67 | The pass returns as many fields as it is given. |
| `Traversal.FlatBindSucceedsIff` | envconf.go:24-67 | The pass succeeds exactly when no field fails on its own. |
| `Traversal.FlatBindFields` | envconf.go:24-67 | Each field the pass returns is the bound field when nothing failed before it, and the original field otherwise. |
| `Traversal.FlatBindFirstError` | envconf.go:63-66 | A failing pass reports the error of a field before which no field fails, that is, of the first failing field. |
| `Traversal.FlatBindAppend` | envconf.go:24-67 | The pass over a concatenation is the pass over the first part, then the pass over the second unless the first part failed. |
| `Traversal.LoadMatchesFlat` | envconf.go:19-69 | The recursive binder equals the flat pass over its preorder visiting list, in the resulting fields and in the error. |
| `Traversal.LoadValueMatchesFlat` | envconf.go:19-70 | The same agreement for `load` on any value. |
| `Traversal.LoadFieldsMatchesFlat` | envconf.go:24-67 | The same agreement for the field loop. |
| `Traversal.LoadFieldMatchesFlat` | envconf.go:25-66 | The same agreement for one loop iteration, including the recursion into pointer and struct fields. |
| `Traversal.LoadSucceedsIff` | envconf.go:24-67 | `Load` succeeds exactly when every field it visits, at any depth, succeeds on its own. |
| `Traversal.TaggedCompositeFails` | envconf.go:26-42 | A pointer or struct field with an `env` tag anywhere the walk reaches makes the whole call fail, whatever the tag's value. |
| `Traversal.LoadFirstError` | envconf.go:24-67 | The error is the first failing visited field's. Visited fields before it are bound, and it and every later field are unchanged. |
| `Scenarios.PortDefaultAndOverride` | envconf.go:59-62 | An int field tagged `PORT` with default `8080` gets 8080 when `PORT` is unset and 9090 when `PORT=9090`. |
| `Scenarios.ZeroPaddedPort` | envconf.go:104-110 | `PORT=08080` binds 8080. |
| `Scenarios.EmptyKeyUsesDefault` | envconf.go:95-102 | A string field tagged `env:""` with default `d` gets `d`, even when the map has an entry `"" = "x"`. |
| `Scenarios.UnsetWithoutDefaultKeepsValue` | envconf.go:96-101 | An unset key without a default leaves a string field as it was. |
| `Scenarios.BoolRejectsYes` | envconf.go:119-126 | `DEBUG=yes` on a bool field fails with `ParseFailed` naming `DEBUG`, `Debug` and bool. |
| `Scenarios.NestedTaggedPointerFails` | envconf.go:28-31 | A pointer field with an empty `env` tag two levels down fails the call. A string field bound before it keeps its new value, and a later field is untouched. |
| `Scenarios.NonPointerRefused` | envconf.go:11-13 | A plain struct argument fails with `NotPointer` and is returned unchanged. |
| `Scenarios.NilAndDoublePointerSkipped` | envconf.go:15-20 | A nil pointer field and a pointer-to-pointer field are skipped with success. |
| `Scenarios.PointerToIntUntouched` | envconf.go:28-35 | An untagged `*int` field keeps its integer whatever the environment holds, and the call succeeds. |
| `Scenarios.TaggedUnsignedUntouched` | envconf.go:104-132 | A tagged `uint32` field passes the kind check. Its value is not changed even when its variable is set, and the call succeeds. |
| `Scenarios.TaggedSliceRefused` | envconf.go:53-56 | A tagged slice field fails with the tag error. |

## Left out

- Go reflection: `reflect.TypeOf`, `Interface()`, settability and the panics on unexported fields (envconf.go:22, envconf.go:32) and on `Load(nil)` (envconf.go:11). The explicit field datatype replaces them.
- `os.LookupEnv` (envconf.go:95) is modelled as `Values.Present` over an immutable map snapshot. The key must be non-empty and in the map. The empty name is never reported present, as the Go runtime never finds it. The model never writes the environment.
- Floating-point parsing and assignment (envconf.go:112-117): `Host.parseFloat` is a parameter returning the bits of a float64, or nothing on failure. Only "failure is an error, success assigns" is stated.
- Decimal.ParseInt: `strconv.ParseInt` is not part of this model. Its base-10 grammar is an assumption written from that library's documented behaviour: an optional sign, then one or more ASCII digits, no underscores, and a value in the int64 range.
- Scalars.ParseInto: for int8, int16 and int32 fields it stores the parsed int64 as is. It does not model the truncation `SetInt` performs on narrower fields (envconf.go:110).
- Error message text: errors are variants carrying the key, field name and kind, not formatted strings.
- Aliasing: two pointer fields sharing one target are modelled as two separate trees.
- Pointer cycles: a struct that reaches itself through pointer fields, such as `type Node struct{ Next *Node }` with `n.Next = &n`, makes Go's `Load` recurse (envconf.go:32, 15-16, 20-24) until the goroutine stack overflows. A tree cannot contain a cycle, so the model always terminates and does not represent this behaviour.
- Go strings are bytes. An environment value that is not valid UTF-8 is copied verbatim into a string field (envconf.go:129), but Dafny's `string` is a sequence of characters and cannot represent arbitrary bytes.
- Contents of array, map, slice, chan, func, interface and unsafe-pointer fields: an opaque token, since the binder never reads or writes them. An interface field is never entered, even when it holds a pointer to a struct, because its reflect kind is interface.
- Concurrency: `Load` is single-threaded and the model is pure.
