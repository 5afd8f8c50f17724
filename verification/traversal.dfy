/** An independent, flat account of what the binder does. The fields load
    visits are listed in the order it visits them (depth first, each field
    before the fields nested under it); binding is then a plain left-to-right
    pass over that list that stops at the first failing field. The main
    theorem says the recursive binder agrees with this pass. */
module Traversal {
  import opened Optional
  import opened Values
  import opened Binder

  /** A visited field with the sub-tree under it cut off: a struct field
      becomes an empty struct and a pointer to a struct a nil pointer, so
      only its name, tags and kind remain. A scalar field, and a pointer the
      walk does not enter (nil, or to a non-struct), are kept whole, so the
      flat pass also says that what such a pointer holds is left alone. */
  function Shallow(f: Field): (g: Field)
    ensures g.name == f.name && g.env == f.env && g.envDefault == f.envDefault
    ensures KindOf(g.value) == KindOf(f.value)
    ensures f.value.LeafV? ==> g == f
    ensures f.value.PtrV? && (f.value.target.None? || !f.value.target.value.StructV?) ==> g == f
  {
    match f.value
    case StructV(_) => f.(value := StructV([]))
    case PtrV(Some(StructV(_))) => f.(value := PtrV(None))
    case PtrV(_) => f
    case LeafV(_, _) => f
  }

  /** The fields load(v) visits, in visiting order. */
  function Visits(v: Value): seq<Field> {
    match v
    case StructV(fs) => VisitsFields(fs)
    case _ => []
  }

  /** The fields Load(v) visits: those under the target of a non-nil pointer. */
  function VisitsTarget(v: Value): seq<Field> {
    match v
    case PtrV(Some(t)) => Visits(t)
    case _ => []
  }

  function VisitsFields(fs: seq<Field>): seq<Field> {
    if |fs| == 0 then [] else VisitsField(fs[0]) + VisitsFields(fs[1..])
  }

  /** A field, then whatever the walk reaches through it. */
  function VisitsField(f: Field): seq<Field> {
    [Shallow(f)] + (if f.value.PtrV? then VisitsTarget(f.value) else Visits(f.value))
  }

  /** What the walk does at one visited field, the field seen on its own. */
  function BindSlot(f: Field, h: Host): (r: Outcome<Field>)
    ensures r.value.name == f.name && r.value.env == f.env && r.value.envDefault == f.envDefault
    ensures KindOf(r.value.value) == KindOf(f.value)
    ensures r.err.Some? ==> r.value == f
    ensures !f.value.LeafV? ==> r.value == f && (r.err.Some? <==> f.env.Some?)
  {
    match f.value
    case LeafV(k, s) =>
      var b := BindLeaf(f.name, f.env, f.envDefault, k, s, h);
      Outcome(f.(value := LeafV(k, b.value)), b.err)
    case _ =>
      Outcome(f, if f.env.Some? then Some(TaggedField(f.name, KindOf(f.value))) else None)
  }

  /** The left-to-right pass: bind each field in turn; at the first error,
      return it with the rest of the list untouched. */
  function FlatBind(s: seq<Field>, h: Host): Outcome<seq<Field>> {
    if |s| == 0 then Outcome([], None)
    else
      var b := BindSlot(s[0], h);
      if b.err.Some? then Outcome([b.value] + s[1..], b.err)
      else
        var rest := FlatBind(s[1..], h);
        Outcome([b.value] + rest.value, rest.err)
  }

  /** No field before position i fails. */
  ghost predicate OkBefore(s: seq<Field>, h: Host, i: int) {
    forall j :: 0 <= j < i && j < |s| ==> BindSlot(s[j], h).err.None?
  }

  /** Past a first field that succeeds, "no failure before i" in the list is
      "no failure before i - 1" in its tail. */
  lemma OkBeforeTail(s: seq<Field>, h: Host, i: int)
    requires 0 < |s| && 1 <= i <= |s| && BindSlot(s[0], h).err.None?
    ensures OkBefore(s, h, i) <==> OkBefore(s[1..], h, i - 1)
  {
    if OkBefore(s[1..], h, i - 1) {
      forall j | 0 <= j < i
        ensures BindSlot(s[j], h).err.None?
      {
        if j > 0 {
          assert s[j] == s[1..][j - 1];
        }
      }
    }
  }

  lemma {:induction false} FlatBindLength(s: seq<Field>, h: Host)
    ensures |FlatBind(s, h).value| == |s|
  {
    if |s| > 0 && BindSlot(s[0], h).err.None? {
      FlatBindLength(s[1..], h);
    }
  }

  lemma {:induction false} FlatBindSucceedsIff(s: seq<Field>, h: Host)
    ensures FlatBind(s, h).err.None? <==> OkBefore(s, h, |s|)
  {
    if |s| > 0 {
      if BindSlot(s[0], h).err.Some? {
        assert !OkBefore(s, h, |s|);
      } else {
        FlatBindSucceedsIff(s[1..], h);
        OkBeforeTail(s, h, |s|);
      }
    }
  }

  lemma {:induction false} FlatBindFields(s: seq<Field>, h: Host)
    ensures |FlatBind(s, h).value| == |s|
    ensures forall i :: 0 <= i < |s| ==>
              FlatBind(s, h).value[i] == (if OkBefore(s, h, i) then BindSlot(s[i], h).value else s[i])
  {
    FlatBindLength(s, h);
    if |s| > 0 {
      var r := FlatBind(s, h);
      var b := BindSlot(s[0], h);
      assert OkBefore(s, h, 0);
      if b.err.Some? {
        assert r.value == [b.value] + s[1..];
        forall i | 0 < i < |s|
          ensures r.value[i] == s[i] && !OkBefore(s, h, i)
        {
        }
      } else {
        var rest := FlatBind(s[1..], h);
        assert r.value == [b.value] + rest.value;
        FlatBindFields(s[1..], h);
        forall i | 0 < i < |s|
          ensures r.value[i] == (if OkBefore(s, h, i) then BindSlot(s[i], h).value else s[i])
        {
          assert r.value[i] == rest.value[i - 1];
          assert s[i] == s[1..][i - 1];
          OkBeforeTail(s, h, i);
        }
      }
    }
  }

  lemma {:induction false} FlatBindFirstError(s: seq<Field>, h: Host)
    ensures FlatBind(s, h).err.Some? ==>
              exists k :: 0 <= k < |s| && OkBefore(s, h, k) && FlatBind(s, h).err == BindSlot(s[k], h).err
  {
    if |s| > 0 {
      if BindSlot(s[0], h).err.Some? {
        assert OkBefore(s, h, 0);
      } else if FlatBind(s[1..], h).err.Some? {
        FlatBindFirstError(s[1..], h);
        var k :| 0 <= k < |s| - 1 && OkBefore(s[1..], h, k) && FlatBind(s[1..], h).err == BindSlot(s[1..][k], h).err;
        OkBeforeTail(s, h, k + 1);
      }
    }
  }

  /** The pass, stated without recursion: it succeeds exactly when no field
      fails; the fields before the first failure are bound, the others are
      returned as they were; a failure is reported by the first failing field. */
  lemma FlatBindSpec(s: seq<Field>, h: Host)
    ensures |FlatBind(s, h).value| == |s|
    ensures FlatBind(s, h).err.None? <==> OkBefore(s, h, |s|)
    ensures forall i :: 0 <= i < |s| ==>
              FlatBind(s, h).value[i] == (if OkBefore(s, h, i) then BindSlot(s[i], h).value else s[i])
    ensures FlatBind(s, h).err.Some? ==>
              exists k :: 0 <= k < |s| && OkBefore(s, h, k) && FlatBind(s, h).err == BindSlot(s[k], h).err
  {
    FlatBindSucceedsIff(s, h);
    FlatBindFields(s, h);
    FlatBindFirstError(s, h);
  }

  /** The pass over a concatenation: over the first part, then, unless that
      failed, over the second. */
  lemma {:induction false} FlatBindAppend(a: seq<Field>, b: seq<Field>, h: Host)
    ensures FlatBind(a + b, h) ==
              var ra := FlatBind(a, h);
              if ra.err.Some? then Outcome(ra.value + b, ra.err)
              else var rb := FlatBind(b, h); Outcome(ra.value + rb.value, rb.err)
  {
    if |a| > 0 {
      assert (a + b)[0] == a[0];
      assert (a + b)[1..] == a[1..] + b;
      var x := BindSlot(a[0], h);
      if x.err.Some? {
        assert [x.value] + (a[1..] + b) == ([x.value] + a[1..]) + b;
      } else {
        FlatBindAppend(a[1..], b, h);
        var ra' := FlatBind(a[1..], h);
        if ra'.err.Some? {
          assert [x.value] + (ra'.value + b) == ([x.value] + ra'.value) + b;
        } else {
          var rb := FlatBind(b, h);
          assert [x.value] + (ra'.value + rb.value) == ([x.value] + ra'.value) + rb.value;
        }
      }
    } else {
      assert a + b == b;
      assert FlatBind(a, h).value + FlatBind(b, h).value == FlatBind(b, h).value;
    }
  }

  lemma FlatBindSingle(f: Field, h: Host)
    ensures FlatBind([f], h) == Outcome([BindSlot(f, h).value], BindSlot(f, h).err)
  {
    assert [f][1..] == [];
    assert [BindSlot(f, h).value] + [] == [BindSlot(f, h).value];
  }

  lemma VisitsFieldsCons(f: Field, fs: seq<Field>)
    ensures VisitsFields([f] + fs) == VisitsField(f) + VisitsFields(fs)
  {
    assert ([f] + fs)[1..] == fs;
  }

  /** The main theorem, for Load: the fields of the result, in visiting order,
      are what the flat pass makes of the fields of the argument, and the
      error is the one the flat pass reports. */
  lemma {:induction false} LoadMatchesFlat(v: Value, h: Host)
    requires v.PtrV?
    ensures VisitsTarget(Load(v, h).value) == FlatBind(VisitsTarget(v), h).value
    ensures Load(v, h).err == FlatBind(VisitsTarget(v), h).err
  {
    if v.target.Some? {
      LoadValueMatchesFlat(v.target.value, h);
    }
  }

  lemma {:induction false} LoadValueMatchesFlat(v: Value, h: Host)
    ensures Visits(LoadValue(v, h).value) == FlatBind(Visits(v), h).value
    ensures LoadValue(v, h).err == FlatBind(Visits(v), h).err
  {
    if v.StructV? {
      LoadFieldsMatchesFlat(v.fields, h);
    }
  }

  lemma {:induction false} LoadFieldsMatchesFlat(fs: seq<Field>, h: Host)
    ensures VisitsFields(LoadFields(fs, h).value) == FlatBind(VisitsFields(fs), h).value
    ensures LoadFields(fs, h).err == FlatBind(VisitsFields(fs), h).err
  {
    if |fs| > 0 {
      var first := LoadField(fs[0], h);
      LoadFieldMatchesFlat(fs[0], h);
      FlatBindAppend(VisitsField(fs[0]), VisitsFields(fs[1..]), h);
      VisitsFieldsCons(first.value, fs[1..]);
      if first.err.None? {
        LoadFieldsMatchesFlat(fs[1..], h);
        VisitsFieldsCons(first.value, LoadFields(fs[1..], h).value);
      }
    }
  }

  lemma {:induction false} LoadFieldMatchesFlat(f: Field, h: Host)
    ensures VisitsField(LoadField(f, h).value) == FlatBind(VisitsField(f), h).value
    ensures LoadField(f, h).err == FlatBind(VisitsField(f), h).err
  {
    var r := LoadField(f, h);
    var below := if f.value.PtrV? then VisitsTarget(f.value) else Visits(f.value);
    assert VisitsField(f) == [Shallow(f)] + below;
    FlatBindAppend([Shallow(f)], below, h);
    FlatBindSingle(Shallow(f), h);
    match f.value
    case PtrV(_) =>
      if f.env.None? {
        LoadMatchesFlat(f.value, h);
        assert Shallow(r.value) == Shallow(f);
      }
    case StructV(_) =>
      if f.env.None? {
        LoadValueMatchesFlat(f.value, h);
        assert Shallow(r.value) == Shallow(f);
      }
    case LeafV(_, _) =>
      assert below == [];
  }

  /** Load succeeds exactly when no visited field fails on its own. */
  lemma LoadSucceedsIff(v: Value, h: Host)
    requires v.PtrV?
    ensures Load(v, h).err.None? <==> forall i :: 0 <= i < |VisitsTarget(v)| ==> BindSlot(VisitsTarget(v)[i], h).err.None?
  {
    LoadMatchesFlat(v, h);
    FlatBindSpec(VisitsTarget(v), h);
  }

  /** A pointer or struct field with an `env` tag anywhere the walk reaches
      makes the whole call fail, whatever the tag's value. */
  lemma TaggedCompositeFails(v: Value, h: Host, i: nat)
    requires v.PtrV? && i < |VisitsTarget(v)|
    requires !VisitsTarget(v)[i].value.LeafV? && VisitsTarget(v)[i].env.Some?
    ensures Load(v, h).err.Some?
  {
    LoadSucceedsIff(v, h);
    assert BindSlot(VisitsTarget(v)[i], h).err.Some?;
  }

  /** The error Load reports is the one the first failing visited field
      gives on its own; the fields visited before it are bound and those
      from it on are left as they were. */
  lemma LoadFirstError(v: Value, h: Host)
    requires v.PtrV?
    ensures |VisitsTarget(Load(v, h).value)| == |VisitsTarget(v)|
    ensures Load(v, h).err.Some? ==>
              exists k :: 0 <= k < |VisitsTarget(v)| && OkBefore(VisitsTarget(v), h, k)
                          && Load(v, h).err == BindSlot(VisitsTarget(v)[k], h).err
    ensures forall i :: 0 <= i < |VisitsTarget(v)| ==>
              VisitsTarget(Load(v, h).value)[i] ==
                (if OkBefore(VisitsTarget(v), h, i) then BindSlot(VisitsTarget(v)[i], h).value else VisitsTarget(v)[i])
  {
    LoadMatchesFlat(v, h);
    FlatBindSpec(VisitsTarget(v), h);
  }
}
