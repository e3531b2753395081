/** The fixed tables of the resolver: primitive defaults, the simple-type table, and the
    name helpers that decide which entry applies. */
module Tables {
  import opened Values

  /** Zero with a scale of two decimal places, as BigDecimal prints it. */
  const Zero := "0.00"

  /** The values the simple-type table takes from the clock when it is built: the current time in
      milliseconds, the date as yyyy-MM-dd and the time of day as HH:mm:ss, each already printed. */
  datatype Clock = Clock(millis: string, date: string, time: string)

  /** `s` is a placeholder delimited by '|' on both sides. */
  predicate Delimited(s: string)
  {
    |s| >= 2 && s[0] == '|' && s[|s| - 1] == '|'
  }

  /** The default value of a type: defined for the eight primitive value types and switched on
      their canonical text; None (Java's null) for any other type. */
  function DefaultValue(t: Ty): (r: Option<string>)
    ensures r.Some? <==> t.Prim? && t.kind != Void
    ensures r.Some? && t.kind == Boolean ==> r.value == "|false|"
    ensures r.Some? && t.kind in {Byte, Char, Short, Int, Long} ==> r.value == "|0|"
    ensures r.Some? && t.kind in {Float, Double} ==> r.value == "|" + Zero + "|"
    ensures r.Some? ==> Delimited(r.value)
  {
    match t
    case Prim(k) =>
      var name := PrimName(k);
      if name == "boolean" then Some("|false|")
      else if name == "byte" then Some("|0|")
      else if name == "char" then Some("|0|")
      else if name == "short" then Some("|0|")
      else if name == "int" then Some("|0|")
      else if name == "long" then Some("|0|")
      else if name == "float" then Some("|" + Zero + "|")
      else if name == "double" then Some("|" + Zero + "|")
      else None
    case _ => None
  }

  /** The text string concatenation gives the default value: a null default prints as "null". */
  function DefaultText(t: Ty): string
  {
    match DefaultValue(t)
    case Some(v) => v
    case None => "null"
  }

  const SimpleTypeNames: set<string> :=
    {"Boolean", "Float", "Double", "BigDecimal", "Number", "CharSequence",
     "Date", "Temporal", "LocalDateTime", "LocalDate", "LocalTime"}

  /** The simple-type table, built once from the clock. */
  function NormalTypes(clock: Clock): (m: map<string, string>)
    ensures m.Keys == SimpleTypeNames
    ensures m["CharSequence"] == ""
    ensures m["Boolean"] == "|false|" && m["Number"] == "|0|"
    ensures m["Float"] == m["Double"] == m["BigDecimal"] == "|" + Zero + "|"
    ensures m["Date"] == m["Temporal"] == m["LocalDateTime"] == "|" + clock.millis + "|"
    ensures m["LocalDate"] == "|" + clock.date + "|"
    ensures m["LocalTime"] == "|" + clock.time + "|"
  {
    map[
      "Boolean" := "|false|",
      "Float" := "|" + Zero + "|",
      "Double" := "|" + Zero + "|",
      "BigDecimal" := "|" + Zero + "|",
      "Number" := "|0|",
      "CharSequence" := "",
      "Date" := "|" + clock.millis + "|",
      "Temporal" := "|" + clock.millis + "|",
      "LocalDateTime" := "|" + clock.millis + "|",
      "LocalDate" := "|" + clock.date + "|",
      "LocalTime" := "|" + clock.time + "|"
    ]
  }

  /** Every value of the simple-type table except CharSequence's is a '|'-delimited placeholder. */
  lemma NormalTypesDelimited(clock: Clock)
    ensures forall k :: k in NormalTypes(clock) && k != "CharSequence" ==> Delimited(NormalTypes(clock)[k])
  {
  }

  /** The index of the last occurrence of `c` in `s`, or -1. */
  function LastIndexOf(s: string, c: char): (r: int)
    ensures -1 <= r < |s|
    ensures r >= 0 ==> s[r] == c
    ensures forall i :: r < i < |s| ==> s[i] != c
  {
    if s == [] then -1
    else if s[|s| - 1] == c then |s| - 1
    else LastIndexOf(s[..|s| - 1], c)
  }

  /** The short name of a type: its canonical text after the last '.'. */
  function ShortName(canonical: string): (r: string)
    ensures '.' !in r
    ensures |r| <= |canonical| && r == canonical[|canonical| - |r|..]
    ensures '.' in canonical ==> |r| < |canonical| && canonical[|canonical| - |r| - 1] == '.'
    ensures '.' !in canonical ==> r == canonical
  {
    if '.' in canonical then
      var i := LastIndexOf(canonical, '.');
      var r := canonical[i + 1..];
      assert forall j :: 0 <= j < |r| ==> r[j] == canonical[i + 1 + j];
      r
    else canonical
  }

  /** Some name starts with "Collection" or "Iterable". */
  predicate IsContainerShaped(names: seq<string>)
  {
    exists i :: 0 <= i < |names| && ("Collection" <= names[i] || "Iterable" <= names[i])
  }

  /** The test looks at each name on its own: a list is container-shaped exactly when its first
      name starts with "Collection" or "Iterable" or the rest of the list is container-shaped. */
  lemma IsContainerShapedCons(n: string, names: seq<string>)
    ensures IsContainerShaped([n] + names)
        <==> ("Collection" <= n || "Iterable" <= n || IsContainerShaped(names))
  {
    var all := [n] + names;
    if IsContainerShaped(names) {
      var i :| 0 <= i < |names| && ("Collection" <= names[i] || "Iterable" <= names[i]);
      assert all[i + 1] == names[i];
    }
    if IsContainerShaped(all) {
      var i :| 0 <= i < |all| && ("Collection" <= all[i] || "Iterable" <= all[i]);
      if i > 0 {
        assert names[i - 1] == all[i];
      }
    }
    assert all[0] == n;
  }

  /** The table value of the first name that is a key of `table`. */
  function FirstSimple(names: seq<string>, table: map<string, string>): Option<string>
  {
    if names == [] then None
    else if names[0] in table then Some(table[names[0]])
    else FirstSimple(names[1..], table)
  }

  /** The first-match lookup finds nothing exactly when no name is a key of the table. */
  lemma {:induction false} FirstSimpleNone(names: seq<string>, table: map<string, string>)
    ensures FirstSimple(names, table).None? <==> forall i :: 0 <= i < |names| ==> names[i] !in table
  {
    if names != [] {
      FirstSimpleNone(names[1..], table);
      assert forall i :: 1 <= i < |names| ==> names[i] == names[1..][i - 1];
    }
  }

  /** The first-match lookup returns the value of the first name that is a key of the table. */
  lemma {:induction false} FirstSimpleAt(names: seq<string>, table: map<string, string>, i: nat)
    requires i < |names| && names[i] in table && forall j :: 0 <= j < i ==> names[j] !in table
    ensures FirstSimple(names, table) == Some(table[names[i]])
  {
    if i > 0 {
      FirstSimpleAt(names[1..], table, i - 1);
    }
  }

  /** The first enum constant among a class's own fields. */
  function FirstEnumConstant(fields: seq<Field>): Option<string>
  {
    if fields == [] then None
    else if fields[0].isEnumConstant then Some(fields[0].name)
    else FirstEnumConstant(fields[1..])
  }

  /** The search finds nothing exactly when no field is an enum constant. */
  lemma {:induction false} FirstEnumConstantNone(fields: seq<Field>)
    ensures FirstEnumConstant(fields).None? <==> forall i :: 0 <= i < |fields| ==> !fields[i].isEnumConstant
  {
    if fields != [] {
      FirstEnumConstantNone(fields[1..]);
      assert forall i :: 1 <= i < |fields| ==> fields[i] == fields[1..][i - 1];
    }
  }

  /** The search returns the name of the first field that is an enum constant. */
  lemma {:induction false} FirstEnumConstantAt(fields: seq<Field>, i: nat)
    requires i < |fields| && fields[i].isEnumConstant && forall j :: 0 <= j < i ==> !fields[j].isEnumConstant
    ensures FirstEnumConstant(fields) == Some(fields[i].name)
  {
    if i > 0 {
      FirstEnumConstantAt(fields[1..], i - 1);
    }
  }
}
