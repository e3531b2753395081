/** The sample-value resolver: classifies a declared type and produces its sample value,
    expanding composite classes field by field under a depth ceiling. */
module Resolver {
  import opened Values
  import opened Ordered
  import opened Tables
  import opened DocComment
  import opened PostProcess

  /** Composite expansion beyond this level is refused. */
  const MaxLevel := 500

  /** The serialization-identity field that the root enumeration skips. */
  const SerialUid := "serialVersionUID"

  /** What the resolver consults: the class table (a class type resolves only when its name is a
      key) and the simple-type table, built once at start-up (`NormalTypes(clock)`). */
  datatype Env = Env(classes: map<string, ClassInfo>, normal: map<string, string>)

  /** The field-description tag appended to sample values: the type's short name and the field's
      description. */
  function Tag(canonical: string, field: Field): string
  {
    TagText(ShortName(canonical), FieldDesc(field))
  }

  /** The innermost component type of a (possibly multi-dimensional) array type. */
  function DeepComponent(t: Ty): (r: Ty)
    ensures !r.Array?
    ensures !t.Array? ==> r == t
  {
    if t.Array? then DeepComponent(t.component) else t
  }

  /** `x` nested in `n` array layers. */
  function Nest(x: Ty, n: nat): Ty
  {
    if n == 0 then x else Array(Nest(x, n - 1))
  }

  /** The number of array layers around a type. */
  function Dims(t: Ty): nat
  {
    if t.Array? then 1 + Dims(t.component) else 0
  }

  /** Peeling every array layer off `n` layers around a non-array gives that non-array back. */
  lemma {:induction false} DeepComponentOfNest(x: Ty, n: nat)
    requires !x.Array?
    ensures DeepComponent(Nest(x, n)) == x
  {
    if n > 0 {
      DeepComponentOfNest(x, n - 1);
    }
  }

  /** Every type is its deep component nested in as many layers as it has. */
  lemma {:induction false} NestDeepComponent(t: Ty)
    ensures Nest(DeepComponent(t), Dims(t)) == t
  {
    if t.Array? {
      NestDeepComponent(t.component);
    }
  }

  /** The names consulted for shape sniffing and for the simple-type table: the type's own
      presentable name, then its supertypes' names in order. */
  function CandidateNames(c: ClassInfo): (r: seq<string>)
    ensures |r| == |c.superNames| + 1 && r[0] == c.presentable && r[1..] == c.superNames
  {
    [c.presentable] + c.superNames
  }

  /** A one-element list around a successful result; any error passes through. */
  function Wrap(o: Outcome): (r: Outcome)
    ensures r.Ok? <==> o.Ok?
    ensures r.Ok? ==> r.value == List(o.value)
    ensures !o.Ok? ==> r == o
  {
    if o.Ok? then Ok(List(o.value)) else o
  }

  /** Every mapping inside the value has distinct keys. */
  predicate WellFormed(v: SampleValue)
  {
    match v
    case Lit(_) => true
    case List(e) => WellFormed(e)
    case Obj(es) => Distinct(Keys(es)) && forall i :: 0 <= i < |es| ==> WellFormed(es[i].1)
  }

  function Names(fields: seq<Field>): (r: seq<string>)
    ensures |r| == |fields| && forall i :: 0 <= i < |fields| ==> r[i] == fields[i].name
  {
    if fields == [] then [] else [fields[0].name] + Names(fields[1..])
  }

  /** The shape of a type, decided in the resolver's fixed order of precedence. */
  datatype Shape =
    | PrimitiveShape(kind: PrimKind)
    | ArrayShape(deep: Ty)                       // the innermost component type
    | UnresolvedShape
    | EnumShape(canonical: string, ownFields: seq<Field>)
    | ContainerShape(element: Option<Ty>)
    | SimpleShape(canonical: string, value: string)  // the simple-type table's value
    | CompositeShape(allFields: seq<Field>)

  /** Classifies `t`: primitive, array, unresolvable class, enum, container-shaped, simple type,
      and otherwise composite; the first that applies wins. */
  function ShapeOf(env: Env, t: Ty): Shape
  {
    match t
    case Prim(k) => PrimitiveShape(k)
    case Array(_) => ArrayShape(DeepComponent(t))
    case ClassRef(name) =>
      if name !in env.classes then UnresolvedShape
      else
        var c := env.classes[name];
        if c.isEnum then EnumShape(c.canonical, c.ownFields)
        else if IsContainerShaped(CandidateNames(c)) then ContainerShape(c.element)
        else match FirstSimple(CandidateNames(c), env.normal)
          case Some(v) => SimpleShape(c.canonical, v)
          case None => CompositeShape(c.allFields)
  }

  /** Resolves `t`, the type of (or the element type within) `field`, called at `level`; the call
      itself works at `level + 1`. `fuel` bounds the depth of the call stack. */
  function Resolve(env: Env, t: Ty, level: nat, field: Field, fuel: nat): (r: Outcome)
    decreases fuel, 0
  {
    if fuel == 0 then OutOfFuel
    else
      var lvl := level + 1;
      match ShapeOf(env, t)
      case PrimitiveShape(k) => Ok(Lit(DefaultText(t) + Tag(PrimName(k), field)))
      case ArrayShape(deep) => Wrap(Resolve(env, deep, lvl, field, fuel - 1))
      case UnresolvedShape => Ok(Obj([]))
      case EnumShape(canonical, own) =>
        (match FirstEnumConstant(own)
         case Some(n) => Ok(Lit(n + Tag(canonical, field)))
         case None => Ok(Lit("")))
      case ContainerShape(element) =>
        (match element
         case None => Failure
         case Some(e) => Wrap(Resolve(env, e, lvl, field, fuel - 1)))
      case SimpleShape(canonical, v) => Ok(Lit(v + Tag(canonical, field)))
      case CompositeShape(fields) =>
        if lvl > MaxLevel then DepthExceeded
        else Expand(env, fields, lvl, fuel - 1, [])
  }

  /** Resolves the fields one after the other at `level`, putting each result into `acc` under
      the field's name; the first error stops the expansion. */
  function Expand(env: Env, fields: seq<Field>, level: nat, fuel: nat,
                  acc: seq<(string, SampleValue)>): (r: Outcome)
    decreases fuel, 1 + |fields|
  {
    if fields == [] then Ok(Obj(acc))
    else
      var f := fields[0];
      var o := Resolve(env, f.ty, level, f, fuel);
      if o.Ok? then
        Expand(env, fields[1..], level, fuel, Put(acc, f.name, o.value))
      else o
  }

  /** The composite branch's loop: puts each field's resolution at `level` into a fresh linked map,
      stopping at the first error. */
  method ExpandFields(env: Env, fields: seq<Field>, level: nat, fuel: nat) returns (r: Outcome)
    ensures r == Expand(env, fields, level, fuel, [])
  {
    var entries: seq<(string, SampleValue)> := [];
    for i := 0 to |fields|
      invariant Expand(env, fields[i..], level, fuel, entries) == Expand(env, fields, level, fuel, [])
    {
      var field := fields[i];
      assert fields[i..][0] == field && fields[i..][1..] == fields[i + 1..];
      var o := Resolve(env, field.ty, level, field, fuel);
      if !o.Ok? {
        return o;
      }
      entries := Put(entries, field.name, o.value);
    }
    assert fields[|fields|..] == [];
    return Ok(Obj(entries));
  }

  /** The fields the root enumeration visits: all fields except serialVersionUID, in order. */
  function RootFields(all: seq<Field>): (r: seq<Field>)
    ensures forall f :: f in r <==> f in all && f.name != SerialUid
    ensures (forall i :: 0 <= i < |all| ==> all[i].name != SerialUid) ==> r == all
  {
    if all == [] then []
    else
      assert forall i :: 0 <= i < |all[1..]| ==> all[1..][i] == all[i + 1];
      (if all[0].name == SerialUid then [] else [all[0]]) + RootFields(all[1..])
  }

  /** The enumeration works piece by piece: the kept fields of a concatenation are the kept fields
      of each part, in order. */
  lemma {:induction false} RootFieldsAppend(a: seq<Field>, b: seq<Field>)
    ensures RootFields(a + b) == RootFields(a) + RootFields(b)
    decreases |a|
  {
    if a == [] {
      assert a + b == b;
    } else {
      assert (a + b)[0] == a[0] && (a + b)[1..] == a[1..] + b;
      RootFieldsAppend(a[1..], b);
    }
  }

  /** The sample mapping of a selected class: empty for no class, otherwise its fields resolved
      from level 0. */
  function Fields(env: Env, root: Option<ClassInfo>, fuel: nat): (r: Outcome)
  {
    match root
    case None => Ok(Obj([]))
    case Some(c) => Expand(env, RootFields(c.allFields), 0, fuel, [])
  }

  /** Enumerates the selected class's fields into a linked map, skipping serialVersionUID and
      resolving each field's type from level 0. */
  method GetFields(env: Env, root: Option<ClassInfo>, fuel: nat) returns (r: Outcome)
    ensures r == Fields(env, root, fuel)
  {
    var entries: seq<(string, SampleValue)> := [];
    if root.None? {
      return Ok(Obj(entries));
    }
    var all := root.value.allFields;
    for i := 0 to |all|
      invariant Expand(env, RootFields(all[i..]), 0, fuel, entries) == Fields(env, root, fuel)
    {
      var field := all[i];
      assert all[i..][0] == field && all[i..][1..] == all[i + 1..];
      if field.name == SerialUid {
        assert RootFields(all[i..]) == RootFields(all[i + 1..]);
        continue;
      }
      assert RootFields(all[i..]) == [field] + RootFields(all[i + 1..]);
      var o := Resolve(env, field.ty, 0, field, fuel);
      if !o.Ok? {
        return o;
      }
      entries := Put(entries, field.name, o.value);
    }
    assert all[|all|..] == [];
    return Ok(Obj(entries));
  }
}
