/** The abstract input the resolver reads (types, fields, the class table) and the
    sample values it produces. */
module Values {

  datatype Option<+T> = None | Some(value: T)

  /** The primitive types; `void` is primitive too but has no default value. */
  datatype PrimKind = Boolean | Byte | Char | Short | Int | Long | Float | Double | Void

  /** The canonical text of a primitive type. */
  function PrimName(k: PrimKind): string
  {
    match k
    case Boolean => "boolean"
    case Byte => "byte"
    case Char => "char"
    case Short => "short"
    case Int => "int"
    case Long => "long"
    case Float => "float"
    case Double => "double"
    case Void => "void"
  }

  /** Distinct primitive kinds have distinct canonical texts, so the switch on the text in
      `getDefaultValue` tells every kind apart. */
  lemma PrimNameInjective(a: PrimKind, b: PrimKind)
    ensures PrimName(a) == PrimName(b) ==> a == b
  {
    if PrimName(a) == PrimName(b) {
      assert PrimName(a)[0] == PrimName(b)[0];
      assert |PrimName(a)| == |PrimName(b)|;
    }
  }

  /** A declared type, as the resolver classifies it. */
  datatype Ty =
    | Prim(kind: PrimKind)    // a primitive type
    | Array(component: Ty)    // an array type over its component type
    | ClassRef(name: string)  // a class type; it resolves to a class only when `name` is in the class table

  /** A field: its name, its declared type, the texts of the children of its doc comment
      (None when it has no doc comment), and whether it is an enum constant. */
  datatype Field = Field(name: string, ty: Ty, doc: Option<seq<string>>, isEnumConstant: bool)

  /** What the resolver learns about a class type that resolves to a class declaration. */
  datatype ClassInfo = ClassInfo(
    canonical: string,        // canonical text of the type, e.g. "java.time.LocalDateTime"
    presentable: string,      // presentable text of the type, e.g. "LocalDateTime"
    superNames: seq<string>,  // presentable texts of its supertypes, in order
    isEnum: bool,
    ownFields: seq<Field>,    // fields declared in the class itself, in order
    allFields: seq<Field>,    // own and inherited fields, in the host's order
    element: Option<Ty>)      // the iterable type parameter, when one can be extracted

  /** A sample value: a literal placeholder, a one-element list, or an ordered mapping. */
  datatype SampleValue =
    | Lit(text: string)
    | List(elem: SampleValue)
    | Obj(entries: seq<(string, SampleValue)>)

  /** The result of resolving a type. `DepthExceeded` is the known error, `Failure` any other
      exception, `OutOfFuel` the exhausted call stack. */
  datatype Outcome =
    | Ok(value: SampleValue)
    | DepthExceeded
    | Failure
    | OutOfFuel
}

/** An insertion-ordered map with the semantics of a linked hash map: putting an existing key
    replaces its value where it stands, putting a new key appends it. */
module Ordered {
  import opened Values

  function Keys<V>(m: seq<(string, V)>): seq<string>
  {
    if m == [] then [] else [m[0].0] + Keys(m[1..])
  }

  /** The value of the first entry with key `k`. */
  function Lookup<V>(m: seq<(string, V)>, k: string): Option<V>
  {
    if m == [] then None else if m[0].0 == k then Some(m[0].1) else Lookup(m[1..], k)
  }

  predicate Distinct(s: seq<string>)
  {
    forall i, j :: 0 <= i < j < |s| ==> s[i] != s[j]
  }

  lemma {:induction false} KeysLength<V>(m: seq<(string, V)>)
    ensures |Keys(m)| == |m|
    ensures forall i :: 0 <= i < |m| ==> Keys(m)[i] == m[i].0
  {
    if m != [] {
      KeysLength(m[1..]);
    }
  }

  lemma {:induction false} LookupFound<V>(m: seq<(string, V)>, k: string)
    ensures Lookup(m, k).Some? <==> k in Keys(m)
  {
    if m != [] {
      LookupFound(m[1..], k);
    }
  }

  function Put<V>(m: seq<(string, V)>, k: string, v: V): (r: seq<(string, V)>)
    ensures Keys(r) == if k in Keys(m) then Keys(m) else Keys(m) + [k]
    ensures Lookup(r, k) == Some(v)
    ensures forall k' :: k' != k ==> Lookup(r, k') == Lookup(m, k')
    ensures forall e :: e in r ==> e in m || e == (k, v)
  {
    if m == [] then [(k, v)]
    else if m[0].0 == k then [(k, v)] + m[1..]
    else
      var rest := Put(m[1..], k, v);
      assert Keys(m) == [m[0].0] + Keys(m[1..]);
      assert Keys([m[0]] + rest) == [m[0].0] + Keys(rest) by {
        assert ([m[0]] + rest)[1..] == rest;
      }
      [m[0]] + rest
  }

  /** The key sequence after putting `names` one after the other into a map whose keys are `keys`. */
  function AddNames(keys: seq<string>, names: seq<string>): seq<string>
    decreases names
  {
    if names == [] then keys
    else AddNames(if names[0] in keys then keys else keys + [names[0]], names[1..])
  }

  /** Adding names keeps the keys distinct, keeps the old keys in front, and adds exactly the new names. */
  lemma {:induction false} AddNamesShape(keys: seq<string>, names: seq<string>)
    requires Distinct(keys)
    ensures Distinct(AddNames(keys, names))
    ensures keys <= AddNames(keys, names)
    ensures forall n :: n in AddNames(keys, names) <==> n in keys || n in names
    decreases names
  {
    if names != [] {
      var next := if names[0] in keys then keys else keys + [names[0]];
      AddNamesShape(next, names[1..]);
    }
  }

  /** When the names are distinct and new, adding them just appends them in order. */
  lemma {:induction false} AddDistinctNames(keys: seq<string>, names: seq<string>)
    requires Distinct(keys + names)
    ensures AddNames(keys, names) == keys + names
    decreases names
  {
    if names != [] {
      assert names[0] !in keys by {
        assert (keys + names)[|keys|] == names[0];
        forall i | 0 <= i < |keys| ensures keys[i] != names[0] {
          assert (keys + names)[i] == keys[i];
        }
      }
      assert (keys + [names[0]]) + names[1..] == keys + names;
      AddDistinctNames(keys + [names[0]], names[1..]);
    }
  }
}
