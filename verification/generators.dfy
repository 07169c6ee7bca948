/** CustomLinqToHqlGeneratorFactory: the registry of custom LINQ-to-HQL
    generators. Method generators and property generators are kept in
    lists, beside the lists of method and property signatures they claim;
    a signature may be claimed only once. Reflection over an assembly is
    replaced by the list of generator types it yields. */
module HqlGenerators {
  import opened Common

  /** A MethodInfo or PropertyInfo, seen through its identity. */
  type Signature = string

  /** A BaseHqlGeneratorForMethod and the methods it supports. */
  datatype MethodGenerator = MethodGenerator(name: string, supportedMethods: seq<Signature>)
  /** A BaseHqlGeneratorForProperty and the properties it supports. */
  datatype PropertyGenerator = PropertyGenerator(name: string, supportedProperties: seq<Signature>)

  /** A concrete generator type found in an assembly, after instantiation:
      derived from the method base class, from the property base class, or
      from neither (an interface implementation outside both). */
  datatype Discovered = MethodKind(m: MethodGenerator) | PropertyKind(p: PropertyGenerator) | OtherKind

  /** The four lists of the factory, as one value. */
  datatype Registry = Registry(methodGenerators: seq<MethodGenerator>, methodSignatures: seq<Signature>,
                               propertyGenerators: seq<PropertyGenerator>, propertySignatures: seq<Signature>)

  const EmptyRegistry := Registry([], [], [], [])

  predicate Distinct(s: seq<Signature>)
  {
    forall i, j :: 0 <= i < j < |s| ==> s[i] != s[j]
  }

  /** The registry's invariant: no signature is claimed twice. */
  predicate WellFormed(reg: Registry)
  {
    Distinct(reg.methodSignatures) && Distinct(reg.propertySignatures)
  }

  /** The signature loop of AddMethodGenerator / AddPropertyGenerator: each
      signature in turn is appended, stopping at the first one already
      present, which is reported. The signatures before it stay appended. */
  function Absorb(existing: seq<Signature>, sigs: seq<Signature>): (r: (seq<Signature>, Option<Signature>))
    ensures |existing| <= |r.0| <= |existing| + |sigs|
    ensures r.0[..|existing|] == existing
    ensures r.1.None? ==> r.0 == existing + sigs
    ensures r.1.Some? ==> r.0 == existing + sigs[..|r.0| - |existing|]
                          && |r.0| - |existing| < |sigs| && sigs[|r.0| - |existing|] == r.1.value
                          && r.1.value in r.0
    decreases |sigs|
  {
    if sigs == [] then (existing, None)
    else if sigs[0] in existing then
      assert sigs[..0] == [];
      (existing, Some(sigs[0]))
    else
      var rest := Absorb(existing + [sigs[0]], sigs[1..]);
      AbsorbStep(existing, sigs, rest);
      rest
  }

  /** Absorb's contract for `sigs` follows from its contract for the tail of
      `sigs` after the head was appended. */
  lemma AbsorbStep(existing: seq<Signature>, sigs: seq<Signature>, r: (seq<Signature>, Option<Signature>))
    requires sigs != []
    requires |existing| + 1 <= |r.0| <= |existing| + |sigs|
    requires r.0[..|existing| + 1] == existing + [sigs[0]]
    requires r.1.None? ==> r.0 == existing + [sigs[0]] + sigs[1..]
    requires r.1.Some? ==> r.0 == existing + [sigs[0]] + sigs[1..][..|r.0| - |existing| - 1]
                           && |r.0| - |existing| - 1 < |sigs| - 1 && sigs[1..][|r.0| - |existing| - 1] == r.1.value
                           && r.1.value in r.0
    ensures r.0[..|existing|] == existing
    ensures r.1.None? ==> r.0 == existing + sigs
    ensures r.1.Some? ==> r.0 == existing + sigs[..|r.0| - |existing|]
                          && |r.0| - |existing| < |sigs| && sigs[|r.0| - |existing|] == r.1.value
  {
  }

  /** Absorbing into a duplicate-free list leaves it duplicate-free. */
  lemma {:induction false} AbsorbKeepsDistinct(existing: seq<Signature>, sigs: seq<Signature>)
    requires Distinct(existing)
    ensures Distinct(Absorb(existing, sigs).0)
    decreases |sigs|
  {
    if sigs != [] && sigs[0] !in existing {
      AbsorbKeepsDistinct(existing + [sigs[0]], sigs[1..]);
    }
  }

  /** Absorbing succeeds exactly when the combined list has no duplicate. */
  lemma {:induction false} AbsorbSucceedsIff(existing: seq<Signature>, sigs: seq<Signature>)
    requires Distinct(existing)
    ensures Absorb(existing, sigs).1.None? <==> Distinct(existing + sigs)
    decreases |sigs|
  {
    if sigs == [] {
      assert existing + sigs == existing;
    } else if sigs[0] in existing {
      var i :| 0 <= i < |existing| && existing[i] == sigs[0];
      assert (existing + sigs)[i] == (existing + sigs)[|existing|];
    } else {
      assert existing + [sigs[0]] + sigs[1..] == existing + sigs;
      AbsorbSucceedsIff(existing + [sigs[0]], sigs[1..]);
    }
  }

  /** AddMethodGenerator on values: the generator is appended whatever
      happens, then its supported methods are absorbed. A failure is not
      undone: the generator stays listed, and so do the signatures absorbed
      before the duplicate. */
  function AddMethod(reg: Registry, g: MethodGenerator): (r: (Registry, Outcome))
    ensures r.0.methodGenerators == reg.methodGenerators + [g]
    ensures r.0.propertyGenerators == reg.propertyGenerators && r.0.propertySignatures == reg.propertySignatures
    ensures r.1 == Pass ==> r.0.methodSignatures == reg.methodSignatures + g.supportedMethods
    ensures r.1.Fail? ==> var k := |r.0.methodSignatures| - |reg.methodSignatures|;
                          && 0 <= k < |g.supportedMethods|
                          && r.0.methodSignatures == reg.methodSignatures + g.supportedMethods[..k]
                          && r.1 == Fail(DuplicateSignature(g.supportedMethods[k]))
                          && g.supportedMethods[k] in r.0.methodSignatures
  {
    var (sigs, dup) := Absorb(reg.methodSignatures, g.supportedMethods);
    (reg.(methodGenerators := reg.methodGenerators + [g], methodSignatures := sigs),
     if dup.None? then Pass else Fail(DuplicateSignature(dup.value)))
  }

  /** AddPropertyGenerator on values. */
  function AddProperty(reg: Registry, p: PropertyGenerator): (r: (Registry, Outcome))
    ensures r.0.propertyGenerators == reg.propertyGenerators + [p]
    ensures r.0.methodGenerators == reg.methodGenerators && r.0.methodSignatures == reg.methodSignatures
    ensures r.1 == Pass ==> r.0.propertySignatures == reg.propertySignatures + p.supportedProperties
    ensures r.1.Fail? ==> var k := |r.0.propertySignatures| - |reg.propertySignatures|;
                          && 0 <= k < |p.supportedProperties|
                          && r.0.propertySignatures == reg.propertySignatures + p.supportedProperties[..k]
                          && r.1 == Fail(DuplicateSignature(p.supportedProperties[k]))
                          && p.supportedProperties[k] in r.0.propertySignatures
  {
    var (sigs, dup) := Absorb(reg.propertySignatures, p.supportedProperties);
    (reg.(propertyGenerators := reg.propertyGenerators + [p], propertySignatures := sigs),
     if dup.None? then Pass else Fail(DuplicateSignature(dup.value)))
  }

  /** One discovered type in AddGeneratorsFromAssembly. As written, a
      property generator is appended to the list directly; `checked` selects
      AddPropertyGenerator instead. */
  function Step(reg: Registry, d: Discovered, checked: bool): (Registry, Outcome)
  {
    match d
    case MethodKind(g) => AddMethod(reg, g)
    case PropertyKind(p) =>
      if checked then AddProperty(reg, p)
      else (reg.(propertyGenerators := reg.propertyGenerators + [p]), Pass)
    case OtherKind => (reg, Pass)
  }

  /** AddGeneratorsFromAssembly on values: the types in order, stopping at
      the first failure, whose effects so far remain. */
  function Load(reg: Registry, types: seq<Discovered>, checked: bool): (Registry, Outcome)
    decreases |types|
  {
    if types == [] then (reg, Pass)
    else
      var (next, o) := Step(reg, types[0], checked);
      if o.Fail? then (next, o) else Load(next, types[1..], checked)
  }

  /** A successful AddMethodGenerator claims every supported method, and
      succeeds exactly when none was claimed before and none repeats. */
  lemma AddMethodSucceedsIff(reg: Registry, g: MethodGenerator)
    requires WellFormed(reg)
    ensures WellFormed(AddMethod(reg, g).0)
    ensures AddMethod(reg, g).1 == Pass <==> Distinct(reg.methodSignatures + g.supportedMethods)
    ensures AddMethod(reg, g).1 == Pass ==> AddMethod(reg, g).0.methodSignatures == reg.methodSignatures + g.supportedMethods
  {
    AbsorbKeepsDistinct(reg.methodSignatures, g.supportedMethods);
    AbsorbSucceedsIff(reg.methodSignatures, g.supportedMethods);
  }

  /** AddPropertyGenerator mirrors AddMethodGenerator. */
  lemma AddPropertySucceedsIff(reg: Registry, p: PropertyGenerator)
    requires WellFormed(reg)
    ensures WellFormed(AddProperty(reg, p).0)
    ensures AddProperty(reg, p).1 == Pass <==> Distinct(reg.propertySignatures + p.supportedProperties)
    ensures AddProperty(reg, p).1 == Pass ==> AddProperty(reg, p).0.propertySignatures == reg.propertySignatures + p.supportedProperties
  {
    AbsorbKeepsDistinct(reg.propertySignatures, p.supportedProperties);
    AbsorbSucceedsIff(reg.propertySignatures, p.supportedProperties);
  }

  /** Loading, checked or not, never lets a signature be claimed twice. */
  lemma {:induction false} LoadKeepsWellFormed(reg: Registry, types: seq<Discovered>, checked: bool)
    requires WellFormed(reg)
    ensures WellFormed(Load(reg, types, checked).0)
    decreases |types|
  {
    if types != [] {
      match types[0] {
        case MethodKind(g) => AddMethodSucceedsIff(reg, g);
        case PropertyKind(p) => if checked { AddPropertySucceedsIff(reg, p); }
        case OtherKind =>
      }
      var (next, o) := Step(reg, types[0], checked);
      if o.Pass? {
        LoadKeepsWellFormed(next, types[1..], checked);
      }
    }
  }

  /** Loading only ever appends: every list of the registry before is a
      prefix of the same list after. */
  lemma {:induction false} LoadOnlyAppends(reg: Registry, types: seq<Discovered>, checked: bool)
    ensures var after := Load(reg, types, checked).0;
            && |reg.methodGenerators| <= |after.methodGenerators| && after.methodGenerators[..|reg.methodGenerators|] == reg.methodGenerators
            && |reg.methodSignatures| <= |after.methodSignatures| && after.methodSignatures[..|reg.methodSignatures|] == reg.methodSignatures
            && |reg.propertyGenerators| <= |after.propertyGenerators| && after.propertyGenerators[..|reg.propertyGenerators|] == reg.propertyGenerators
            && |reg.propertySignatures| <= |after.propertySignatures| && after.propertySignatures[..|reg.propertySignatures|] == reg.propertySignatures
    decreases |types|
  {
    if types != [] {
      var (next, o) := Step(reg, types[0], checked);
      if o.Pass? {
        LoadOnlyAppends(next, types[1..], checked);
        var after := Load(next, types[1..], checked).0;
        assert after.methodGenerators[..|reg.methodGenerators|] == after.methodGenerators[..|next.methodGenerators|][..|reg.methodGenerators|];
        assert after.methodSignatures[..|reg.methodSignatures|] == after.methodSignatures[..|next.methodSignatures|][..|reg.methodSignatures|];
        assert after.propertyGenerators[..|reg.propertyGenerators|] == after.propertyGenerators[..|next.propertyGenerators|][..|reg.propertyGenerators|];
        assert after.propertySignatures[..|reg.propertySignatures|] == after.propertySignatures[..|next.propertySignatures|][..|reg.propertySignatures|];
      }
    }
  }

  /** With the check in place, a successful load has claimed every property
      of every property generator it met. */
  lemma {:induction false} CheckedLoadClaimsProperties(reg: Registry, types: seq<Discovered>, i: nat, s: Signature)
    requires Load(reg, types, true).1 == Pass
    requires i < |types| && types[i].PropertyKind? && s in types[i].p.supportedProperties
    ensures s in Load(reg, types, true).0.propertySignatures
    decreases |types|
  {
    var (next, o) := Step(reg, types[0], true);
    LoadOnlyAppends(next, types[1..], true);
    if i == 0 {
      var after := Load(next, types[1..], true).0;
      assert s in next.propertySignatures;
      assert next.propertySignatures == after.propertySignatures[..|next.propertySignatures|];
    } else {
      CheckedLoadClaimsProperties(next, types[1..], i - 1, s);
    }
  }

  /** As written, two property generators claiming the same property are
      both accepted and no property signature is recorded; with the check,
      the second one is refused. */
  lemma UncheckedLoadAcceptsDuplicateProperty()
    ensures var a, b := PropertyGenerator("A", ["Length"]), PropertyGenerator("B", ["Length"]);
            && Load(EmptyRegistry, [PropertyKind(a), PropertyKind(b)], false) == (Registry([], [], [a, b], []), Pass)
            && Load(EmptyRegistry, [PropertyKind(a), PropertyKind(b)], true).1 == Fail(DuplicateSignature("Length"))
  {
    var a, b := PropertyGenerator("A", ["Length"]), PropertyGenerator("B", ["Length"]);
    var types := [PropertyKind(a), PropertyKind(b)];
    assert types[1..] == [PropertyKind(b)];
    assert types[1..][1..] == [];
    var once := Registry([], [], [a], []);
    assert EmptyRegistry.propertyGenerators + [a] == [a];
    assert Step(EmptyRegistry, types[0], false) == (once, Pass);
    assert Load(EmptyRegistry, types, false) == Load(once, [PropertyKind(b)], false);
    assert [a] + [b] == [a, b];
    assert Step(once, PropertyKind(b), false) == (Registry([], [], [a, b], []), Pass);
    assert Load(once, [PropertyKind(b)], false) == Load(Registry([], [], [a, b], []), [], false);
    var first := AddProperty(EmptyRegistry, a);
    assert first.0.propertySignatures == ["Length"];
  }

  class CustomLinqToHqlGeneratorFactory {
    var methodGenerators: seq<MethodGenerator>
    var methodSignatures: seq<Signature>
    var propertyGenerators: seq<PropertyGenerator>
    var propertySignatures: seq<Signature>

    function State(): Registry
      reads this
    {
      Registry(methodGenerators, methodSignatures, propertyGenerators, propertySignatures)
    }

    ghost predicate Valid()
      reads this
    {
      WellFormed(State())
    }

    /** The private constructor, which calls Clear. */
    constructor ()
      ensures Valid() && State() == EmptyRegistry
    {
      methodGenerators, methodSignatures := [], [];
      propertyGenerators, propertySignatures := [], [];
    }

    /** Clear: all four lists are emptied. */
    method Clear()
      modifies this
      ensures Valid() && State() == EmptyRegistry
    {
      methodGenerators, methodSignatures := [], [];
      propertyGenerators, propertySignatures := [], [];
    }

    /** AddMethodGenerator. */
    method AddMethodGenerator(g: MethodGenerator) returns (r: Outcome)
      requires Valid()
      modifies this
      ensures Valid()
      ensures (State(), r) == AddMethod(old(State()), g)
    {
      methodGenerators := methodGenerators + [g];
      var i := 0;
      while i < |g.supportedMethods|
        invariant 0 <= i <= |g.supportedMethods|
        invariant methodGenerators == old(methodGenerators) + [g]
        invariant propertyGenerators == old(propertyGenerators) && propertySignatures == old(propertySignatures)
        invariant Absorb(methodSignatures, g.supportedMethods[i..]) == Absorb(old(methodSignatures), g.supportedMethods)
      {
        var s := g.supportedMethods[i];
        assert g.supportedMethods[i..][1..] == g.supportedMethods[i + 1..];
        if s in methodSignatures {
          AddMethodSucceedsIff(old(State()), g);
          return Fail(DuplicateSignature(s));
        }
        methodSignatures := methodSignatures + [s];
        i := i + 1;
      }
      AddMethodSucceedsIff(old(State()), g);
      r := Pass;
    }

    /** AddPropertyGenerator. */
    method AddPropertyGenerator(p: PropertyGenerator) returns (r: Outcome)
      requires Valid()
      modifies this
      ensures Valid()
      ensures (State(), r) == AddProperty(old(State()), p)
    {
      propertyGenerators := propertyGenerators + [p];
      var i := 0;
      while i < |p.supportedProperties|
        invariant 0 <= i <= |p.supportedProperties|
        invariant propertyGenerators == old(propertyGenerators) + [p]
        invariant methodGenerators == old(methodGenerators) && methodSignatures == old(methodSignatures)
        invariant Absorb(propertySignatures, p.supportedProperties[i..]) == Absorb(old(propertySignatures), p.supportedProperties)
      {
        var s := p.supportedProperties[i];
        assert p.supportedProperties[i..][1..] == p.supportedProperties[i + 1..];
        if s in propertySignatures {
          AddPropertySucceedsIff(old(State()), p);
          return Fail(DuplicateSignature(s));
        }
        propertySignatures := propertySignatures + [s];
        i := i + 1;
      }
      AddPropertySucceedsIff(old(State()), p);
      r := Pass;
    }

    /** AddGeneratorsFromAssembly, as written: method generators go through
        AddMethodGenerator, whose failure ends the load; property generators
        are appended to the list without their properties being claimed. */
    method AddGeneratorsFromAssembly(types: seq<Discovered>) returns (r: Outcome)
      requires Valid()
      modifies this
      ensures Valid()
      ensures (State(), r) == Load(old(State()), types, false)
    {
      LoadKeepsWellFormed(State(), types, false);
      var i := 0;
      while i < |types|
        invariant 0 <= i <= |types|
        invariant Valid()
        invariant Load(State(), types[i..], false) == Load(old(State()), types, false)
      {
        assert types[i..][1..] == types[i + 1..];
        match types[i] {
          case MethodKind(g) =>
            var o := AddMethodGenerator(g);
            if o.Fail? {
              return o;
            }
          case PropertyKind(p) =>
            propertyGenerators := propertyGenerators + [p];
          case OtherKind =>
        }
        i := i + 1;
      }
      r := Pass;
    }

    /** The corrected load: property generators go through
        AddPropertyGenerator, so their properties are claimed and checked
        like methods. */
    method AddGeneratorsFromAssemblyChecked(types: seq<Discovered>) returns (r: Outcome)
      requires Valid()
      modifies this
      ensures Valid()
      ensures (State(), r) == Load(old(State()), types, true)
    {
      var i := 0;
      while i < |types|
        invariant 0 <= i <= |types|
        invariant Valid()
        invariant Load(State(), types[i..], true) == Load(old(State()), types, true)
      {
        assert types[i..][1..] == types[i + 1..];
        match types[i] {
          case MethodKind(g) =>
            var o := AddMethodGenerator(g);
            if o.Fail? {
              return o;
            }
          case PropertyKind(p) =>
            var o := AddPropertyGenerator(p);
            if o.Fail? {
              return o;
            }
          case OtherKind =>
        }
        i := i + 1;
      }
      r := Pass;
    }
  }
}
