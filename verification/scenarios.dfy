/** Concrete configurations run through the binder: the typical uses and the
    quirks of envconf.go, each stated as a lemma about one call. */
module Scenarios {
  import opened Optional
  import opened Kinds
  import opened Values
  import opened Binder
  import opened Decimal

  /** A host whose float parser never succeeds; none of the scenarios binds a float. */
  function HostOf(env: map<string, string>): Host {
    Host(env, _ => None)
  }

  lemma LoadOne(f: Field, h: Host)
    ensures Load(PtrV(Some(StructV([f]))), h)
            == Outcome(PtrV(Some(StructV([LoadField(f, h).value]))), LoadField(f, h).err)
  {
    assert [f][0] == f && [f][1..] == [];
    assert LoadFields([], h) == Outcome([], None);
    assert [LoadField(f, h).value] + [] == [LoadField(f, h).value];
    assert LoadFields([f], h) == Outcome([LoadField(f, h).value], LoadField(f, h).err);
  }

  lemma LoadTwo(a: Field, b: Field, h: Host)
    ensures LoadFields([a, b], h)
            == if LoadField(a, h).err.Some? then Outcome([LoadField(a, h).value, b], LoadField(a, h).err)
               else Outcome([LoadField(a, h).value, LoadField(b, h).value], LoadField(b, h).err)
  {
    assert [a, b][0] == a && [a, b][1..] == [b];
    assert [b][0] == b && [b][1..] == [];
    assert LoadFields([], h) == Outcome([], None);
    assert [LoadField(b, h).value] + [] == [LoadField(b, h).value];
    assert LoadFields([b], h) == Outcome([LoadField(b, h).value], LoadField(b, h).err);
    assert [LoadField(a, h).value] + [b] == [LoadField(a, h).value, b];
    assert [LoadField(a, h).value] + [LoadField(b, h).value] == [LoadField(a, h).value, LoadField(b, h).value];
  }

  /** A four-digit literal parses to its value. */
  lemma DecimalLiteral(a: char, b: char, c: char, d: char)
    requires IsDigit(a) && IsDigit(b) && IsDigit(c) && IsDigit(d)
    ensures ParseInt([a, b, c, d]) == Some(1000 * DigitValue(a) + 100 * DigitValue(b) + 10 * DigitValue(c) + DigitValue(d))
  {
    var s := [a, b, c, d];
    assert s[..3] == [a, b, c] && [a, b, c][..2] == [a, b] && [a, b][..1] == [a] && [a][..0] == [];
    assert AllDigits(s);
    assert DigitsValue([a]) == DigitValue(a);
    assert DigitsValue([a, b]) == 10 * DigitValue(a) + DigitValue(b);
    assert DigitsValue([a, b, c]) == 100 * DigitValue(a) + 10 * DigitValue(b) + DigitValue(c);
    assert DigitsValue(s) == 1000 * DigitValue(a) + 100 * DigitValue(b) + 10 * DigitValue(c) + DigitValue(d);
  }

  function Port(n: int): Field {
    Field("Port", Some("PORT"), Some("8080"), LeafV(Int, IntS(n)))
  }

  /** The default applies when the key is absent, and the environment wins when it is present. */
  lemma PortDefaultAndOverride()
    ensures Load(PtrV(Some(StructV([Port(0)]))), HostOf(map[])) == Outcome(PtrV(Some(StructV([Port(8080)]))), None)
    ensures Load(PtrV(Some(StructV([Port(0)]))), HostOf(map["PORT" := "9090"])) == Outcome(PtrV(Some(StructV([Port(9090)]))), None)
  {
    DecimalLiteral('8', '0', '8', '0');
    DecimalLiteral('9', '0', '9', '0');
    LoadOne(Port(0), HostOf(map[]));
    LoadOne(Port(0), HostOf(map["PORT" := "9090"]));
  }

  /** Leading zeros are accepted: `PORT=08080` binds 8080. */
  lemma ZeroPaddedPort()
    ensures Load(PtrV(Some(StructV([Port(0)]))), HostOf(map["PORT" := "08080"])) == Outcome(PtrV(Some(StructV([Port(8080)]))), None)
  {
    DecimalLiteral('8', '0', '8', '0');
    ParsedDigits("8080", 8080);
    assert Unsigned("8080") == "8080";
    CanonicalDigits("8080");
    ParseSignedZeroPadded("", 1, 8080);
    assert "" + Zeros(1) + FormatNat(8080) == "08080";
    LoadOne(Port(0), HostOf(map["PORT" := "08080"]));
  }

  /** An empty `env` tag names no variable: an entry under the empty name is
      never read, and the default binds the field. */
  lemma EmptyKeyUsesDefault()
    ensures var f := Field("S", Some(""), Some("d"), LeafV(String, StrS("")));
            Load(PtrV(Some(StructV([f]))), HostOf(map["" := "x"])) == Outcome(PtrV(Some(StructV([f.(value := LeafV(String, StrS("d")))]))), None)
  {
    LoadOne(Field("S", Some(""), Some("d"), LeafV(String, StrS(""))), HostOf(map["" := "x"]));
  }

  /** With neither the key nor a default the field keeps what it held. */
  lemma UnsetWithoutDefaultKeepsValue(prior: string)
    ensures var name := Field("Name", Some("NAME"), None, LeafV(String, StrS(prior)));
            Load(PtrV(Some(StructV([name]))), HostOf(map[])) == Outcome(PtrV(Some(StructV([name]))), None)
  {
    LoadOne(Field("Name", Some("NAME"), None, LeafV(String, StrS(prior))), HostOf(map[]));
  }

  /** A boolean takes only the exact literals. */
  lemma BoolRejectsYes()
    ensures var debug := Field("Debug", Some("DEBUG"), None, LeafV(Bool, BoolS(false)));
            Load(PtrV(Some(StructV([debug]))), HostOf(map["DEBUG" := "yes"]))
            == Outcome(PtrV(Some(StructV([debug]))), Some(ParseFailed("DEBUG", "Debug", Bool)))
  {
    LoadOne(Field("Debug", Some("DEBUG"), None, LeafV(Bool, BoolS(false))), HostOf(map["DEBUG" := "yes"]));
  }

  /** A pointer field with an `env` tag, two structs down, fails the call even
      though its tag value is empty; the string field before it has already
      been bound and the one after it is untouched. */
  lemma NestedTaggedPointerFails()
    ensures
      var before := Field("A", Some("A"), None, LeafV(String, StrS("")));
      var bad := Field("P", Some(""), None, PtrV(None));
      var after := Field("B", Some("B"), None, LeafV(String, StrS("")));
      var inner := Field("Inner", None, None, StructV([before, bad]));
      var outer := Field("Outer", None, None, PtrV(Some(StructV([inner]))));
      var r := Load(PtrV(Some(StructV([outer, after]))), HostOf(map["A" := "a", "B" := "b"]));
      r.err == Some(TaggedField("P", Ptr))
      && r.value == PtrV(Some(StructV([
           outer.(value := PtrV(Some(StructV([inner.(value := StructV([before.(value := LeafV(String, StrS("a"))), bad]))])))),
           after])))
  {
    var h := HostOf(map["A" := "a", "B" := "b"]);
    var before := Field("A", Some("A"), None, LeafV(String, StrS("")));
    var bad := Field("P", Some(""), None, PtrV(None));
    var after := Field("B", Some("B"), None, LeafV(String, StrS("")));
    var inner := Field("Inner", None, None, StructV([before, bad]));
    var outer := Field("Outer", None, None, PtrV(Some(StructV([inner]))));
    var before' := before.(value := LeafV(String, StrS("a")));
    assert LoadField(before, h) == Outcome(before', None);
    assert LoadField(bad, h) == Outcome(bad, Some(TaggedField("P", Ptr)));
    LoadTwo(before, bad, h);
    var inner' := inner.(value := StructV([before', bad]));
    assert LoadField(inner, h) == Outcome(inner', Some(TaggedField("P", Ptr)));
    LoadOne(inner, h);
    var outer' := outer.(value := PtrV(Some(StructV([inner']))));
    assert LoadField(outer, h) == Outcome(outer', Some(TaggedField("P", Ptr)));
    LoadTwo(outer, after, h);
  }

  /** A plain struct is not a pointer and is refused before any field is looked at. */
  lemma NonPointerRefused(fs: seq<Field>, h: Host)
    ensures Load(StructV(fs), h) == Outcome(StructV(fs), Some(NotPointer))
  {
  }

  /** A nil pointer field is skipped, and so is a pointer to a pointer. */
  lemma NilAndDoublePointerSkipped(inner: Option<Value>)
    ensures
      var nil := Field("Nil", None, None, PtrV(None));
      var pp := Field("PP", None, None, PtrV(Some(PtrV(inner))));
      Load(PtrV(Some(StructV([nil, pp]))), HostOf(map[])) == Outcome(PtrV(Some(StructV([nil, pp]))), None)
  {
    LoadTwo(Field("Nil", None, None, PtrV(None)), Field("PP", None, None, PtrV(Some(PtrV(inner)))), HostOf(map[]));
  }

  /** An untagged pointer to an integer is handed to Load, which does not
      enter a non-struct: the integer keeps its value, whatever the
      environment holds. */
  lemma PointerToIntUntouched(n: int)
    ensures var p := Field("P", None, None, PtrV(Some(LeafV(Int, IntS(n)))));
            Load(PtrV(Some(StructV([p]))), HostOf(map["P" := "1"])) == Outcome(PtrV(Some(StructV([p]))), None)
  {
    LoadOne(Field("P", None, None, PtrV(Some(LeafV(Int, IntS(n))))), HostOf(map["P" := "1"]));
  }

  /** A tagged unsigned field passes the deny-list but has no parser: the call
      succeeds and the field keeps its value, even when the variable is set. */
  lemma TaggedUnsignedUntouched(token: nat)
    ensures var u := Field("U", Some("U"), None, LeafV(Uint32, OtherS(token)));
            Load(PtrV(Some(StructV([u]))), HostOf(map["U" := "7"])) == Outcome(PtrV(Some(StructV([u]))), None)
  {
    LoadOne(Field("U", Some("U"), None, LeafV(Uint32, OtherS(token))), HostOf(map["U" := "7"]));
  }

  /** A tagged slice field is refused with the same error as a tagged composite field. */
  lemma TaggedSliceRefused(token: nat)
    ensures var sl := Field("S", Some("S"), None, LeafV(Slice, OtherS(token)));
            Load(PtrV(Some(StructV([sl]))), HostOf(map[])) == Outcome(PtrV(Some(StructV([sl]))), Some(TaggedField("S", Slice)))
  {
    LoadOne(Field("S", Some("S"), None, LeafV(Slice, OtherS(token))), HostOf(map[]));
  }
}
