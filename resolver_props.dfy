/** What the resolver promises: the result of each classification branch, the order in which the
    branches are tried, the depth ceiling, and the shape of expanded mappings. */
module ResolverProps {
  import opened Values
  import opened Ordered
  import opened Tables
  import opened DocComment
  import opened Resolver
  import opened PostProcess

  // ---------------------------------------------------------------------------------------
  // Leaf branches: their results do not depend on the level.

  /** A primitive type yields its default value followed by the tag, at every level. */
  lemma PrimitiveResult(env: Env, k: PrimKind, level: nat, field: Field, fuel: nat)
    requires fuel > 0
    ensures Resolve(env, Prim(k), level, field, fuel) == Resolve(env, Prim(k), 0, field, 1)
    ensures Resolve(env, Prim(k), level, field, fuel) == Ok(Lit(DefaultText(Prim(k)) + Tag(PrimName(k), field)))
  {
  }

  /** The default text of each primitive: false, zero, zero at scale two, or null for void. */
  lemma PrimitiveDefaults(k: PrimKind)
    ensures k == Boolean ==> DefaultText(Prim(k)) == "|false|"
    ensures k in {Byte, Char, Short, Int, Long} ==> DefaultText(Prim(k)) == "|0|"
    ensures k in {Float, Double} ==> DefaultText(Prim(k)) == "|0.00|"
    ensures k == Void ==> DefaultText(Prim(k)) == "null"
  {
  }

  /** A class type that does not resolve yields an empty mapping, at every level. */
  lemma UnresolvedIsEmpty(env: Env, name: string, level: nat, field: Field, fuel: nat)
    requires fuel > 0 && name !in env.classes
    ensures Resolve(env, ClassRef(name), level, field, fuel) == Ok(Obj([]))
  {
  }

  /** An enum yields the name of its first own enum constant, tagged, at every level. */
  lemma EnumFirstConstant(env: Env, name: string, level: nat, field: Field, fuel: nat, i: nat)
    requires fuel > 0 && name in env.classes && env.classes[name].isEnum
    requires i < |env.classes[name].ownFields| && env.classes[name].ownFields[i].isEnumConstant
    requires forall j :: 0 <= j < i ==> !env.classes[name].ownFields[j].isEnumConstant
    ensures Resolve(env, ClassRef(name), level, field, fuel)
         == Ok(Lit(env.classes[name].ownFields[i].name + Tag(env.classes[name].canonical, field)))
  {
    var c := env.classes[name];
    FirstEnumConstantAt(c.ownFields, i);
    EnumBranch(env, name, level, field, fuel, c.ownFields[i].name);
  }

  lemma EnumBranch(env: Env, name: string, level: nat, field: Field, fuel: nat, n: string)
    requires fuel > 0 && name in env.classes && env.classes[name].isEnum
    requires FirstEnumConstant(env.classes[name].ownFields) == Some(n)
    ensures Resolve(env, ClassRef(name), level, field, fuel) == Ok(Lit(n + Tag(env.classes[name].canonical, field)))
  {
  }

  /** An enum without constants yields the untagged empty string. */
  lemma EnumWithoutConstants(env: Env, name: string, level: nat, field: Field, fuel: nat)
    requires fuel > 0 && name in env.classes && env.classes[name].isEnum
    requires forall j :: 0 <= j < |env.classes[name].ownFields| ==> !env.classes[name].ownFields[j].isEnumConstant
    ensures Resolve(env, ClassRef(name), level, field, fuel) == Ok(Lit(""))
  {
    FirstEnumConstantNone(env.classes[name].ownFields);
  }

  // ---------------------------------------------------------------------------------------
  // Arrays and containers: a one-element list around the element's resolution one level down.

  /** An array yields a one-element list holding the resolution of its innermost component type,
      or the error that resolution raised. */
  lemma ArrayResult(env: Env, component: Ty, level: nat, field: Field, fuel: nat)
    requires fuel > 0
    ensures !DeepComponent(component).Array?
    ensures Resolve(env, Array(component), level, field, fuel)
         == Wrap(Resolve(env, DeepComponent(component), level + 1, field, fuel - 1))
  {
  }

  /** A multi-dimensional array of a primitive collapses to a single list around the placeholder. */
  lemma ArrayOfArrayOfPrimitive(env: Env, k: PrimKind, level: nat, field: Field, fuel: nat)
    requires fuel > 1
    ensures Resolve(env, Array(Array(Prim(k))), level, field, fuel)
         == Ok(List(Lit(DefaultText(Prim(k)) + Tag(PrimName(k), field))))
  {
    assert DeepComponent(Array(Array(Prim(k)))) == Prim(k);
    PrimitiveResult(env, k, level + 1, field, fuel - 1);
  }

  /** A container-shaped class (own or supertype name starting with "Collection" or "Iterable")
      yields a list around its element type's resolution; with no element type it fails. This
      is decided before the simple-type table and the depth ceiling are consulted. */
  lemma ContainerResult(env: Env, name: string, level: nat, field: Field, fuel: nat)
    requires fuel > 0 && name in env.classes
    requires !env.classes[name].isEnum && IsContainerShaped(CandidateNames(env.classes[name]))
    ensures env.classes[name].element.None? ==> Resolve(env, ClassRef(name), level, field, fuel) == Failure
    ensures env.classes[name].element.Some? ==>
              Resolve(env, ClassRef(name), level, field, fuel)
              == Wrap(Resolve(env, env.classes[name].element.value, level + 1, field, fuel - 1))
  {
  }

  // ---------------------------------------------------------------------------------------
  // The simple-type table and the depth ceiling.

  /** A class none of whose names is container-shaped and whose i-th candidate name is the first
      in the simple-type table yields that table value, tagged, whatever its fields and level. */
  lemma SimpleTypeResult(env: Env, name: string, level: nat, field: Field, fuel: nat, i: nat)
    requires fuel > 0 && name in env.classes
    requires !env.classes[name].isEnum && !IsContainerShaped(CandidateNames(env.classes[name]))
    requires i < |CandidateNames(env.classes[name])|
    requires CandidateNames(env.classes[name])[i] in env.normal
    requires forall j :: 0 <= j < i ==> CandidateNames(env.classes[name])[j] !in env.normal
    ensures Resolve(env, ClassRef(name), level, field, fuel)
         == Ok(Lit(env.normal[CandidateNames(env.classes[name])[i]]
                   + Tag(env.classes[name].canonical, field)))
  {
    var c, table := env.classes[name], env.normal;
    FirstSimpleAt(CandidateNames(c), table, i);
    SimpleBranch(env, name, level, field, fuel, table[CandidateNames(c)[i]]);
  }

  lemma SimpleBranch(env: Env, name: string, level: nat, field: Field, fuel: nat, v: string)
    requires fuel > 0 && name in env.classes
    requires !env.classes[name].isEnum && !IsContainerShaped(CandidateNames(env.classes[name]))
    requires FirstSimple(CandidateNames(env.classes[name]), env.normal) == Some(v)
    ensures Resolve(env, ClassRef(name), level, field, fuel) == Ok(Lit(v + Tag(env.classes[name].canonical, field)))
  {
  }

  /** A plain class: resolved, not an enum, not container-shaped, not in the simple-type table. */
  predicate IsComposite(env: Env, name: string)
  {
    && name in env.classes
    && !env.classes[name].isEnum
    && !IsContainerShaped(CandidateNames(env.classes[name]))
    && FirstSimple(CandidateNames(env.classes[name]), env.normal).None?
  }

  /** A composite class called at level 500 or more (working beyond level 500) raises the depth
      error; below that it expands its fields, inherited ones and serialVersionUID included, one
      level down. */
  lemma DepthCeiling(env: Env, name: string, level: nat, field: Field, fuel: nat)
    requires fuel > 0 && IsComposite(env, name)
    ensures level >= MaxLevel ==> Resolve(env, ClassRef(name), level, field, fuel) == DepthExceeded
    ensures level < MaxLevel ==> Resolve(env, ClassRef(name), level, field, fuel)
                                 == Expand(env, env.classes[name].allFields, level + 1, fuel - 1, [])
  {
  }

  /** A type whose resolution stops at a leaf of the classification. */
  predicate IsLeaf(env: Env, t: Ty)
  {
    || t.Prim?
    || (t.ClassRef? && t.name !in env.classes)
    || (t.ClassRef? && t.name in env.classes && env.classes[t.name].isEnum)
    || (t.ClassRef? && t.name in env.classes && !IsContainerShaped(CandidateNames(env.classes[t.name]))
        && FirstSimple(CandidateNames(env.classes[t.name]), env.normal).Some?)
  }

  /** Primitive, unresolved, enum and simple-type results succeed and are the same at every level:
      they never raise the depth error. */
  lemma LeavesIgnoreLevel(env: Env, t: Ty, level: nat, field: Field, fuel: nat)
    requires fuel > 0 && IsLeaf(env, t)
    ensures Resolve(env, t, level, field, fuel).Ok?
    ensures Resolve(env, t, level, field, fuel) == Resolve(env, t, 0, field, 1)
  {
  }

  /** The depth error needs more than 500 nested calls: from `level`, at least MaxLevel - level
      further frames of the call stack must be available for it to be raised. */
  lemma {:induction false} DepthErrorNeedsNesting(env: Env, t: Ty, level: nat, field: Field, fuel: nat)
    ensures Resolve(env, t, level, field, fuel) == DepthExceeded ==> level + fuel > MaxLevel
    decreases fuel, 0
  {
    if fuel > 0 {
      match t
      case Prim(_) =>
      case Array(_) =>
        DepthErrorNeedsNesting(env, DeepComponent(t), level + 1, field, fuel - 1);
      case ClassRef(name) =>
        if name in env.classes {
          var c := env.classes[name];
          if !c.isEnum && IsContainerShaped(CandidateNames(c)) && c.element.Some? {
            DepthErrorNeedsNesting(env, c.element.value, level + 1, field, fuel - 1);
          } else if IsComposite(env, name) && level + 1 <= MaxLevel {
            ExpandDepthErrorNeedsNesting(env, c.allFields, level + 1, fuel - 1, []);
          }
        }
    }
  }

  lemma {:induction false} ExpandDepthErrorNeedsNesting(env: Env, fields: seq<Field>, level: nat, fuel: nat,
                                                         acc: seq<(string, SampleValue)>)
    ensures Expand(env, fields, level, fuel, acc) == DepthExceeded ==> level + fuel > MaxLevel
    decreases fuel, 1 + |fields|
  {
    if fields != [] {
      var f := fields[0];
      var o := Resolve(env, f.ty, level, f, fuel);
      DepthErrorNeedsNesting(env, f.ty, level, f, fuel);
      if o.Ok? {
        ExpandDepthErrorNeedsNesting(env, fields[1..], level, fuel, Put(acc, f.name, o.value));
      }
    }
  }

  // ---------------------------------------------------------------------------------------
  // The self-referential class `Node { Node next; }`.

  const NodeNext := Field("next", ClassRef("Node"), None, false)
  const NodeClass := ClassInfo("Node", "Node", ["Object"], false, [NodeNext], [NodeNext], None)

  lemma NodeIsComposite(env: Env, clock: Clock)
    requires "Node" in env.classes && env.classes["Node"] == NodeClass && env.normal == NormalTypes(clock)
    ensures IsComposite(env, "Node")
  {
    var names := CandidateNames(NodeClass);
    assert names == ["Node", "Object"];
    assert !IsContainerShaped(names) by {
      forall i | 0 <= i < |names| ensures !("Collection" <= names[i]) && !("Iterable" <= names[i]) {
        assert names[i][0] in {'N', 'O'};
      }
    }
    assert forall i :: 0 <= i < |names| ==> names[i] !in SimpleTypeNames;
    FirstSimpleNone(names, env.normal);
  }

  /** Resolving `next` keeps re-entering Node until the call working at level 501 raises the
      depth error, given a call stack deep enough to get there. */
  lemma {:induction false} NodeExceedsDepth(env: Env, clock: Clock, level: nat, field: Field, fuel: nat)
    requires "Node" in env.classes && env.classes["Node"] == NodeClass && env.normal == NormalTypes(clock)
    requires level <= MaxLevel && fuel > MaxLevel - level
    ensures Resolve(env, ClassRef("Node"), level, field, fuel) == DepthExceeded
    decreases MaxLevel - level
  {
    NodeIsComposite(env, clock);
    if level < MaxLevel {
      NodeExceedsDepth(env, clock, level + 1, NodeNext, fuel - 1);
      assert Expand(env, [NodeNext], level + 1, fuel - 1, []) == DepthExceeded;
    }
  }

  /** Converting Node fails with the depth error, not with an exhausted stack. */
  lemma NodeConversionFails(env: Env, clock: Clock, fuel: nat)
    requires "Node" in env.classes && env.classes["Node"] == NodeClass && env.normal == NormalTypes(clock)
    requires fuel > MaxLevel
    ensures Fields(env, Some(NodeClass), fuel) == DepthExceeded
  {
    NodeExceedsDepth(env, clock, 0, NodeNext, fuel);
    assert RootFields([NodeNext]) == [NodeNext];
  }

  // ---------------------------------------------------------------------------------------
  // Fuel only bounds the call stack: a result reached with some fuel stays the same with more.

  lemma {:induction false} ResolveFuelMonotone(env: Env, t: Ty, level: nat, field: Field, fuel: nat, more: nat)
    requires fuel <= more && Resolve(env, t, level, field, fuel) != OutOfFuel
    ensures Resolve(env, t, level, field, more) == Resolve(env, t, level, field, fuel)
    decreases fuel, 0, 1
  {
    match ShapeOf(env, t)
    case ArrayShape(deep) =>
      ResolveFuelMonotone(env, deep, level + 1, field, fuel - 1, more - 1);
    case ContainerShape(element) =>
      if element.Some? {
        ResolveFuelMonotone(env, element.value, level + 1, field, fuel - 1, more - 1);
      }
    case CompositeShape(fields) =>
      if level + 1 <= MaxLevel {
        EmptyExpandFuelMonotone(env, fields, level + 1, fuel - 1, more - 1);
      }
    case _ =>
  }

  lemma {:induction false} EmptyExpandFuelMonotone(env: Env, fields: seq<Field>, level: nat, fuel: nat, more: nat)
    requires fuel <= more && Expand(env, fields, level, fuel, []) != OutOfFuel
    ensures Expand(env, fields, level, more, []) == Expand(env, fields, level, fuel, [])
    decreases fuel, 1 + |fields|, 1
  {
    ExpandFuelMonotone(env, fields, level, fuel, more, []);
  }

  lemma {:induction false} ExpandFuelMonotone(env: Env, fields: seq<Field>, level: nat, fuel: nat, more: nat,
                                               acc: seq<(string, SampleValue)>)
    requires fuel <= more && Expand(env, fields, level, fuel, acc) != OutOfFuel
    ensures Expand(env, fields, level, more, acc) == Expand(env, fields, level, fuel, acc)
    decreases fuel, 1 + |fields|, 0
  {
    if fields != [] {
      var f := fields[0];
      var o := Resolve(env, f.ty, level, f, fuel);
      ResolveFuelMonotone(env, f.ty, level, f, fuel, more);
      if o.Ok? {
        ExpandFuelMonotone(env, fields[1..], level, fuel, more, Put(acc, f.name, o.value));
      }
    }
  }

  // ---------------------------------------------------------------------------------------
  // Expanded mappings.

  /** Putting `names` one after the other gives the keys `AddNames` describes; a successful
      expansion is a mapping whose keys are the accumulator's, then each new field name in order
      of first appearance. */
  lemma {:induction false} ExpandKeys(env: Env, fields: seq<Field>, level: nat, fuel: nat,
                                      acc: seq<(string, SampleValue)>)
    requires Expand(env, fields, level, fuel, acc).Ok?
    ensures Expand(env, fields, level, fuel, acc).value.Obj?
    ensures Keys(Expand(env, fields, level, fuel, acc).value.entries) == AddNames(Keys(acc), Names(fields))
    decreases |fields|
  {
    if fields != [] {
      var f := fields[0];
      var o := Resolve(env, f.ty, level, f, fuel);
      ExpandKeys(env, fields[1..], level, fuel, Put(acc, f.name, o.value));
      assert Names(fields) == [f.name] + Names(fields[1..]);
    }
  }

  /** Every mapping a successful resolution produces, at any depth, has distinct keys. */
  lemma {:induction false} ResolveWellFormed(env: Env, t: Ty, level: nat, field: Field, fuel: nat)
    requires Resolve(env, t, level, field, fuel).Ok?
    ensures WellFormed(Resolve(env, t, level, field, fuel).value)
    decreases fuel, 0
  {
    match ShapeOf(env, t)
    case ArrayShape(deep) =>
      ResolveWellFormed(env, deep, level + 1, field, fuel - 1);
    case ContainerShape(element) =>
      ResolveWellFormed(env, element.value, level + 1, field, fuel - 1);
    case CompositeShape(fields) =>
      if level + 1 <= MaxLevel {
        ExpandWellFormed(env, fields, level + 1, fuel - 1, []);
      }
    case UnresolvedShape =>
      assert Keys<SampleValue>([]) == [];
    case _ =>
  }

  lemma {:induction false} ExpandWellFormed(env: Env, fields: seq<Field>, level: nat, fuel: nat,
                                            acc: seq<(string, SampleValue)>)
    requires WellFormed(Obj(acc)) && Expand(env, fields, level, fuel, acc).Ok?
    ensures WellFormed(Expand(env, fields, level, fuel, acc).value)
    decreases fuel, 1 + |fields|
  {
    if fields == [] {
      assert Expand(env, fields, level, fuel, acc).value == Obj(acc);
    } else {
      var f := fields[0];
      var o := Resolve(env, f.ty, level, f, fuel);
      ResolveWellFormed(env, f.ty, level, f, fuel);
      PutWellFormed(acc, f.name, o.value);
      ExpandWellFormed(env, fields[1..], level, fuel, Put(acc, f.name, o.value));
    }
  }

  /** Putting a well-formed value into a well-formed mapping keeps it well formed. */
  lemma PutWellFormed(acc: seq<(string, SampleValue)>, k: string, v: SampleValue)
    requires WellFormed(Obj(acc)) && WellFormed(v)
    ensures WellFormed(Obj(Put(acc, k, v)))
  {
    var acc' := Put(acc, k, v);
    KeysLength(acc);
    KeysLength(acc');
    forall i | 0 <= i < |acc'| ensures WellFormed(acc'[i].1) {
      assert acc'[i] in acc';
    }
  }

  /** Field i is the last field with its name (a later field of the same name would replace it). */
  ghost predicate LastNamed(fields: seq<Field>, i: int)
  {
    0 <= i < |fields| && forall j :: i < j < |fields| ==> fields[j].name != fields[i].name
  }

  /** A successful expansion resolved every field, holds each name's last field's value under that
      name, and leaves the other keys as they were. */
  lemma {:induction false} ExpandSucceeds(env: Env, fields: seq<Field>, level: nat, fuel: nat,
                                          acc: seq<(string, SampleValue)>)
    requires Expand(env, fields, level, fuel, acc).Ok?
    ensures Expand(env, fields, level, fuel, acc).value.Obj?
    ensures forall i :: 0 <= i < |fields| ==> Resolve(env, fields[i].ty, level, fields[i], fuel).Ok?
    ensures forall i :: LastNamed(fields, i) ==>
              Lookup(Expand(env, fields, level, fuel, acc).value.entries, fields[i].name)
              == Some(Resolve(env, fields[i].ty, level, fields[i], fuel).value)
    ensures forall k :: k !in Names(fields) ==>
              Lookup(Expand(env, fields, level, fuel, acc).value.entries, k) == Lookup(acc, k)
    decreases |fields|
  {
    ExpandKeys(env, fields, level, fuel, acc);
    if fields != [] {
      var f := fields[0];
      var o := Resolve(env, f.ty, level, f, fuel);
      var acc' := Put(acc, f.name, o.value);
      var rest := fields[1..];
      var e := Expand(env, fields, level, fuel, acc).value.entries;
      ExpandSucceeds(env, rest, level, fuel, acc');
      forall i | 1 <= i < |fields|
        ensures Resolve(env, fields[i].ty, level, fields[i], fuel).Ok?
        ensures LastNamed(fields, i) ==> Lookup(e, fields[i].name)
                                         == Some(Resolve(env, fields[i].ty, level, fields[i], fuel).value)
      {
        assert fields[i] == rest[i - 1];
        if LastNamed(fields, i) {
          assert LastNamed(rest, i - 1);
        }
      }
      if LastNamed(fields, 0) {
        assert f.name !in Names(rest);
      }
      forall k | k !in Names(fields)
        ensures Lookup(e, k) == Lookup(acc, k)
      {
        assert Names(fields) == [f.name] + Names(rest);
      }
    }
  }

  /** A failed expansion returns the error of the first field whose resolution failed. */
  lemma {:induction false} ExpandFails(env: Env, fields: seq<Field>, level: nat, fuel: nat,
                                       acc: seq<(string, SampleValue)>)
    requires !Expand(env, fields, level, fuel, acc).Ok?
    ensures exists i :: 0 <= i < |fields| && Expand(env, fields, level, fuel, acc) == Resolve(env, fields[i].ty, level, fields[i], fuel)
                        && forall j :: 0 <= j < i ==> Resolve(env, fields[j].ty, level, fields[j], fuel).Ok?
    decreases |fields|
  {
    var f := fields[0];
    var o := Resolve(env, f.ty, level, f, fuel);
    if o.Ok? {
      var rest := fields[1..];
      ExpandFails(env, rest, level, fuel, Put(acc, f.name, o.value));
      var i :| 0 <= i < |rest| && Expand(env, rest, level, fuel, Put(acc, f.name, o.value))
                                  == Resolve(env, rest[i].ty, level, rest[i], fuel)
               && forall j :: 0 <= j < i ==> Resolve(env, rest[j].ty, level, rest[j], fuel).Ok?;
      assert fields[i + 1] == rest[i];
      forall j | 0 <= j < i + 1 ensures Resolve(env, fields[j].ty, level, fields[j], fuel).Ok? {
        if j > 0 {
          assert fields[j] == rest[j - 1];
        }
      }
    }
  }

  /** An expansion with distinct field names into an empty map holds exactly those names, in order. */
  lemma ExpandDistinctKeys(env: Env, fields: seq<Field>, level: nat, fuel: nat)
    requires Distinct(Names(fields)) && Expand(env, fields, level, fuel, []).Ok?
    ensures Expand(env, fields, level, fuel, []).value.Obj?
    ensures Keys(Expand(env, fields, level, fuel, []).value.entries) == Names(fields)
  {
    ExpandKeys(env, fields, level, fuel, []);
    assert [] + Names(fields) == Names(fields);
    AddDistinctNames([], Names(fields));
  }

  /** A successful expansion into an empty map has a key for every field's name. */
  lemma ExpandNamesAll(env: Env, fields: seq<Field>, level: nat, fuel: nat)
    requires Expand(env, fields, level, fuel, []).Ok?
    ensures Expand(env, fields, level, fuel, []).value.Obj?
    ensures forall n :: n in Names(fields) ==> n in Keys(Expand(env, fields, level, fuel, []).value.entries)
  {
    ExpandKeys(env, fields, level, fuel, []);
    AddNamesShape([], Names(fields));
  }

  /** Composite expansion keeps every field, serialVersionUID included. */
  lemma NestedKeepsSerialUid(env: Env, name: string, level: nat, field: Field, fuel: nat)
    requires fuel > 0 && IsComposite(env, name) && level < MaxLevel
    requires SerialUid in Names(env.classes[name].allFields)
    requires Resolve(env, ClassRef(name), level, field, fuel).Ok?
    ensures Resolve(env, ClassRef(name), level, field, fuel).value.Obj?
    ensures SerialUid in Keys(Resolve(env, ClassRef(name), level, field, fuel).value.entries)
  {
    DepthCeiling(env, name, level, field, fuel);
    ExpandNamesAll(env, env.classes[name].allFields, level + 1, fuel - 1);
  }

  // ---------------------------------------------------------------------------------------
  // The root enumeration.

  /** No selected class gives the empty mapping. */
  lemma NoClassGivesEmpty(env: Env, fuel: nat)
    ensures Fields(env, None, fuel) == Ok(Obj([]))
  {
  }

  /** The root mapping's keys are the field names in order of first appearance, serialVersionUID
      left out, and every mapping in it has distinct keys. */
  lemma RootKeys(env: Env, c: ClassInfo, fuel: nat)
    requires Fields(env, Some(c), fuel).Ok?
    ensures Fields(env, Some(c), fuel).value.Obj?
    ensures Keys(Fields(env, Some(c), fuel).value.entries) == AddNames([], Names(RootFields(c.allFields)))
    ensures Distinct(Keys(Fields(env, Some(c), fuel).value.entries))
    ensures WellFormed(Fields(env, Some(c), fuel).value)
  {
    var rf := RootFields(c.allFields);
    ExpandKeys(env, rf, 0, fuel, []);
    ExpandWellFormed(env, rf, 0, fuel, []);
    AddNamesShape([], Names(rf));
  }

  /** With distinct field names, the root keys are exactly the names, in order. */
  lemma RootKeysInOrder(env: Env, c: ClassInfo, fuel: nat)
    requires Fields(env, Some(c), fuel).Ok? && Distinct(Names(RootFields(c.allFields)))
    ensures Fields(env, Some(c), fuel).value.Obj?
    ensures Keys(Fields(env, Some(c), fuel).value.entries) == Names(RootFields(c.allFields))
  {
    ExpandDistinctKeys(env, RootFields(c.allFields), 0, fuel);
  }

  /** serialVersionUID is the only field name the root mapping leaves out. */
  lemma RootNames(env: Env, c: ClassInfo, fuel: nat)
    requires Fields(env, Some(c), fuel).Ok?
    ensures Fields(env, Some(c), fuel).value.Obj?
    ensures SerialUid !in Keys(Fields(env, Some(c), fuel).value.entries)
    ensures forall f :: f in c.allFields && f.name != SerialUid ==> f.name in Keys(Fields(env, Some(c), fuel).value.entries)
  {
    var rf := RootFields(c.allFields);
    ExpandKeys(env, rf, 0, fuel, []);
    AddNamesShape([], Names(rf));
    forall f | f in c.allFields && f.name != SerialUid
      ensures f.name in Names(rf)
    {
      assert f in rf;
      var i :| 0 <= i < |rf| && rf[i] == f;
      assert Names(rf)[i] == f.name;
    }
    assert SerialUid !in Names(rf) by {
      forall i | 0 <= i < |rf| ensures Names(rf)[i] != SerialUid {
        assert rf[i] in rf;
      }
    }
  }

  /** Every root field resolved, and each name holds the value of its last field resolved from
      level 0 (so working at level 1). */
  lemma RootValues(env: Env, c: ClassInfo, fuel: nat)
    requires Fields(env, Some(c), fuel).Ok?
    ensures Fields(env, Some(c), fuel).value.Obj?
    ensures forall i :: 0 <= i < |RootFields(c.allFields)| ==>
              Resolve(env, RootFields(c.allFields)[i].ty, 0, RootFields(c.allFields)[i], fuel).Ok?
    ensures forall i :: LastNamed(RootFields(c.allFields), i) ==>
              Lookup(Fields(env, Some(c), fuel).value.entries, RootFields(c.allFields)[i].name)
              == Some(Resolve(env, RootFields(c.allFields)[i].ty, 0, RootFields(c.allFields)[i], fuel).value)
  {
    ExpandSucceeds(env, RootFields(c.allFields), 0, fuel, []);
  }

  // ---------------------------------------------------------------------------------------
  // What the user gets: a primitive field after printing and rewriting.

  /** The bare sample value of a primitive with a default value. */
  function Bare(k: PrimKind): string
  {
    match k
    case Boolean => "false"
    case Float => Zero
    case Double => Zero
    case _ => "0"
  }

  /** A primitive with a default value has a '|'-delimited default around its bare value. */
  lemma DefaultDelimitsBare(k: PrimKind)
    requires k != Void
    ensures DefaultText(Prim(k)) == "|" + Bare(k) + "|"
    ensures Plain(Bare(k)) && PlainDesc(PrimName(k))
  {
    match k
    case Boolean =>
    case Byte =>
    case Char =>
    case Short =>
    case Int =>
    case Long =>
    case Float =>
    case Double =>
  }

  /** A primitive's default text around the tag, printed as a JSON string and rewritten. */
  lemma DefaultRewritten(k: PrimKind, desc: string, last: bool, rest: string)
    requires k != Void && PlainDesc(desc) && Follows(rest, last)
    ensures Rewrite(Printed(DefaultText(Prim(k)) + TagText(PrimName(k), desc), last, rest))
         == Bare(k) + ", //" + PrimName(k) + ":" + desc + rest
  {
    DefaultDelimitsBare(k);
    PlaceholderEntry(Bare(k), PrimName(k), desc, last, rest);
  }

  /** The void type's null text around the tag, printed as a JSON string and rewritten. */
  lemma VoidRewritten(desc: string, last: bool, rest: string)
    requires PlainDesc(desc) && Follows(rest, last)
    ensures Rewrite(Printed(DefaultText(Prim(Void)) + TagText(PrimName(Void), desc), last, rest))
         == "\"null" + Opener + "void:" + desc + rest
  {
    assert DefaultText(Prim(Void)) == "null" && PrimName(Void) == "void";
    QuotedEntry("null", "void", desc, last, rest);
  }

  /** A primitive field's sample, printed as a JSON string and rewritten, is its bare default
      followed by a comma and a comment with the type name and the field's description; a void
      type keeps the quoted text null. */
  lemma PrimitivePrinted(env: Env, k: PrimKind, level: nat, field: Field, fuel: nat, last: bool, rest: string)
    requires fuel > 0 && Follows(rest, last)
    ensures Resolve(env, Prim(k), level, field, fuel).Ok? && Resolve(env, Prim(k), level, field, fuel).value.Lit?
    ensures k != Void ==> Rewrite(Printed(Resolve(env, Prim(k), level, field, fuel).value.text, last, rest))
                          == Bare(k) + ", //" + PrimName(k) + ":" + FieldDesc(field) + rest
    ensures k == Void ==> Rewrite(Printed(Resolve(env, Prim(k), level, field, fuel).value.text, last, rest))
                          == "\"null" + Opener + "void:" + FieldDesc(field) + rest
  {
    PrimitiveTagged(env, k, level, field, fuel);
    if k == Void {
      VoidRewritten(FieldDesc(field), last, rest);
    } else {
      DefaultRewritten(k, FieldDesc(field), last, rest);
    }
  }

  /** The same inside a document: whatever follows the entry from the printer's line break on
      (more entries, closing braces) is rewritten on its own. */
  lemma PrimitiveInDocument(env: Env, k: PrimKind, level: nat, field: Field, fuel: nat, last: bool,
                            more: string)
    requires fuel > 0 && more != [] && Boundary(more[0])
    ensures Resolve(env, Prim(k), level, field, fuel).Ok? && Resolve(env, Prim(k), level, field, fuel).value.Lit?
    ensures k != Void ==> Rewrite(Printed(Resolve(env, Prim(k), level, field, fuel).value.text, last, more))
                          == Bare(k) + ", //" + PrimName(k) + ":" + FieldDesc(field) + Rewrite(more)
    ensures k == Void ==> Rewrite(Printed(Resolve(env, Prim(k), level, field, fuel).value.text, last, more))
                          == "\"null" + Opener + "void:" + FieldDesc(field) + Rewrite(more)
  {
    PrimitivePrinted(env, k, level, field, fuel, last, "");
    var text := Resolve(env, Prim(k), level, field, fuel).value.text;
    EntryThenMore(text, last, more);
    var d := FieldDesc(field);
    assert Bare(k) + ", //" + PrimName(k) + ":" + d + "" == Bare(k) + ", //" + PrimName(k) + ":" + d;
    assert "\"null" + Opener + "void:" + d + "" == "\"null" + Opener + "void:" + d;
  }

  lemma PrimitiveTagged(env: Env, k: PrimKind, level: nat, field: Field, fuel: nat)
    requires fuel > 0
    ensures Resolve(env, Prim(k), level, field, fuel)
         == Ok(Lit(DefaultText(Prim(k)) + TagText(PrimName(k), FieldDesc(field))))
  {
    PrimitiveResult(env, k, level, field, fuel);
    PrimShortName(k);
  }

  /** A primitive's canonical text has no '.', so it is its own short name. */
  lemma PrimShortName(k: PrimKind)
    ensures ShortName(PrimName(k)) == PrimName(k)
  {
    assert '.' !in PrimName(k);
  }
}
