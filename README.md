# POJO2Json sample resolver — a Dafny model

POJO2Json is an IDE action. It takes the Java class under the caret and copies a JSON sample of it to the
clipboard. Each field becomes a key. Its value is a placeholder that matches the field's type, followed by a
`//` comment giving the short type name and the field's documentation text.

This project models the core of that action, `POJO2JsonAction`:

- **`Tables`** holds the fixed tables:
  - `getDefaultValue`, the primitive defaults, as `DefaultValue`/`DefaultText`;
  - the simple-type table `normalTypes`, built once from the clock, as `NormalTypes`;
  - the name helpers that decide which entry applies. These are `ShortName` (the canonical text after its last
    `.`), `FirstSimple` (the first of the type's names that the table knows) and `FirstEnumConstant`.
- **`DocComment`** holds the documentation-comment filter, modelled twice:
  - as written: `StripAsWritten` is the regular expression of line 193, and `GetComment` is the loop of
    `getComment`, which applies it to every child (specified by `CommentAsWritten`);
  - as evidently intended: `Clean`, and the comment built with it (`Comment`). The field description
    `FieldDesc` (`getFieldDesc`) uses this one (see Findings).
- **`Resolver`** holds the recursive resolver `typeResolve` as `Resolve`. It classifies a type in the source's
  order of precedence, computed by `ShapeOf`:
  1. primitive;
  2. array (resolved through its innermost component);
  3. unresolvable class (an empty map);
  4. enum (its first constant);
  5. Collection/Iterable-shaped (a one-element list of the element type's sample);
  6. simple type (the table's value);
  7. composite, which checks the depth ceiling of 500 and then expands every field.

  It also holds:
  - the composite branch's loop, as `ExpandFields` and its specification `Expand`;
  - the root enumeration `getFields`, as `GetFields` and its specification `Fields`. `Fields` skips
    `serialVersionUID` and resolves every other field from level 0.

  Maps are `LinkedHashMap`s, so `Ordered.Put` models `put`: an existing key keeps its place and gets the new
  value, and a new key goes at the end.
- **`PostProcess`** holds the `replaceAll` chain that turns the printed JSON into the commented sample, as
  `Rewrite`. It also holds the lemmas that follow one printed entry through the five replacements.
- **`ResolverProps`** holds the properties of the resolver:
  - one result lemma per branch;
  - the depth guard: depth errors need deep nesting, and a self-referencing class fails with the depth error;
  - fuel monotonicity;
  - well-formed (duplicate-free) maps;
  - the order and contents of the root map;
  - the end-to-end shape of a primitive field after post-processing.

Java's stack overflow on very deep recursion is an `Error`, which the action's `catch (Exception)` does not
catch. It is modelled by a `fuel` bound on the call depth: the result is `OutOfFuel` when the bound is reached.
`ResolveFuelMonotone` shows that any result other than `OutOfFuel` does not depend on how much fuel was given.

Two places where the code goes beyond what its design describes:

- **The depth ceiling guards composite expansion only.** The array, container and leaf branches never check the
  ceiling themselves. An array or container of a composite class only passes on the depth error of its element.
  `DepthErrorNeedsNesting` states the resulting bound.
- **Nested expansion keeps `serialVersionUID`.** The root enumeration skips that field, but nested composite
  expansion does not (`NestedKeepsSerialUid`).

The model follows the code in both cases.

## Model

| member | source | states |
|---|---|---|
| Ordered.Put | src/ink/organics/pojo2json/POJO2JsonAction.java:148 | `LinkedHashMap.put`: the keys are unchanged if the key is present and appended otherwise; the key now maps to the new value; every other key's lookup is unchanged; every entry is old or the new pair |
| Ordered.AddNamesShape | src/ink/organics/pojo2json/POJO2JsonAction.java:90-95 | putting a sequence of names into a duplicate-free key list keeps it duplicate-free, keeps the old keys as a prefix, and holds exactly the old keys and the new names |
| Ordered.AddDistinctNames | src/ink/organics/pojo2json/POJO2JsonAction.java:90-95 | distinct new names are appended in order |
| Ordered.LookupFound | src/ink/organics/pojo2json/POJO2JsonAction.java:148 | a lookup succeeds exactly when the key is among the map's keys |
| Tables.DefaultValue | src/ink/organics/pojo2json/POJO2JsonAction.java:153-176 | defined (non-null) exactly for the eight non-void primitives: `\|false\|` for boolean, `\|0\|` for byte, char, short, int and long, `\|0.00\|` for float and double; every default is `\|`-delimited |
| Tables.DefaultText | src/ink/organics/pojo2json/POJO2JsonAction.java:108 | the default as string concatenation prints it: the default value, or `null` (properties in `PrimitiveDefaults`) |
| Values.PrimName | src/ink/organics/pojo2json/POJO2JsonAction.java:157 | the canonical text of a primitive type, used for the tag at line 101 and switched on at line 157 (property in `PrimNameInjective`) |
| Values.PrimNameInjective | src/ink/organics/pojo2json/POJO2JsonAction.java:157-173 | distinct primitive kinds have distinct canonical texts, so each `case` of the switch matches exactly one kind |
| Tables.NormalTypes | src/ink/organics/pojo2json/POJO2JsonAction.java:37-52 | the table's keys are exactly the eleven simple type names; CharSequence maps to the empty string; Boolean, Number, Float, Double and BigDecimal map to their zero placeholders; Date, Temporal and LocalDateTime map to the delimited clock millis, LocalDate to the delimited date, LocalTime to the delimited time |
| Tables.IsContainerShaped | src/ink/organics/pojo2json/POJO2JsonAction.java:133 | some name of the type starts with `Collection` or `Iterable` (property in `IsContainerShapedCons`) |
| Tables.IsContainerShapedCons | src/ink/organics/pojo2json/POJO2JsonAction.java:133 | `anyMatch` over the names: the list qualifies exactly when its first name starts with `Collection` or `Iterable` or the rest of the list qualifies |
| Tables.NormalTypesDelimited | src/ink/organics/pojo2json/POJO2JsonAction.java:41-51 | every table value except CharSequence's is a `\|`-delimited placeholder |
| Tables.LastIndexOf | src/ink/organics/pojo2json/POJO2JsonAction.java:103 | the result is -1 or an index holding the character, and no later index holds it |
| Tables.ShortName | src/ink/organics/pojo2json/POJO2JsonAction.java:101-104 | the short name has no `.`, is a suffix of the canonical text, and follows its last `.`; text without a `.` is unchanged |
| Tables.FirstSimple | src/ink/organics/pojo2json/POJO2JsonAction.java:139-142 | `retain.get(0)` looked up in the table (properties in `FirstSimpleNone` and `FirstSimpleAt`) |
| Tables.FirstSimpleNone | src/ink/organics/pojo2json/POJO2JsonAction.java:139-141 | the retained list is empty exactly when none of the type's names is a key of the table |
| Tables.FirstSimpleAt | src/ink/organics/pojo2json/POJO2JsonAction.java:139-142 | the value used is that of the first name, in the type's name order, that is a key of the table |
| Tables.FirstEnumConstant | src/ink/organics/pojo2json/POJO2JsonAction.java:121-127 | the enum-constant search (properties in `FirstEnumConstantNone` and `FirstEnumConstantAt`) |
| Tables.FirstEnumConstantNone | src/ink/organics/pojo2json/POJO2JsonAction.java:121-127 | the search finds nothing exactly when no own field of the enum is an enum constant |
| Tables.FirstEnumConstantAt | src/ink/organics/pojo2json/POJO2JsonAction.java:121-125 | the search returns the name of the first own field that is an enum constant |
| DocComment.StripAsWritten | src/ink/organics/pojo2json/POJO2JsonAction.java:193 | the regular expression as written: no character of its character class survives, and the result is a subsequence of the text |
| DocComment.StripAsWrittenKeeps | src/ink/organics/pojo2json/POJO2JsonAction.java:193 | every character outside the class survives as often as it occurs, which with the subsequence property fixes the result |
| DocComment.StripAsWrittenConcat | src/ink/organics/pojo2json/POJO2JsonAction.java:193 | the as-written filter works piece by piece: filtering a concatenation concatenates the filtered parts |
| DocComment.StripAsWrittenIdempotent | src/ink/organics/pojo2json/POJO2JsonAction.java:193 | applying the as-written filter twice is the same as once |
| DocComment.StripAsWrittenDropsLetters | src/ink/organics/pojo2json/POJO2JsonAction.java:193 | the as-written filter turns the word `size` into `iz` |
| DocComment.Clean | src/ink/organics/pojo2json/POJO2JsonAction.java:193 | the intended filter, which deletes the `@see` tag and the marker characters: no comment-marker character (`/ * @ # \|`, space, newline) survives, and the result is a subsequence of the text |
| DocComment.CleanKeepsText | src/ink/organics/pojo2json/POJO2JsonAction.java:193 | text without marker characters passes through unchanged |
| DocComment.CleanKeeps | src/ink/organics/pojo2json/POJO2JsonAction.java:193 | every character that is neither a marker nor a letter of `@see` survives as often as it occurs |
| DocComment.CleanKeepsAllWithoutTag | src/ink/organics/pojo2json/POJO2JsonAction.java:193 | in text without `@` every non-marker character survives as often as it occurs, which with the subsequence property fixes the result |
| DocComment.CleanAfterTag | src/ink/organics/pojo2json/POJO2JsonAction.java:193 | a leading `@see` is deleted as a whole and the rest of the text is filtered on its own |
| DocComment.CleanLoneAt | src/ink/organics/pojo2json/POJO2JsonAction.java:193 | a leading `@` that does not start `@see` is deleted alone and the rest of the text is filtered on its own |
| DocComment.CleanConcat | src/ink/organics/pojo2json/POJO2JsonAction.java:193 | the intended filter works piece by piece when the first piece has no `@`, so no `@see` tag can straddle the parts |
| DocComment.CleanDropsMarkers | src/ink/organics/pojo2json/POJO2JsonAction.java:193 | text made only of marker characters other than `@` is deleted |
| DocComment.CleanDocLine | src/ink/organics/pojo2json/POJO2JsonAction.java:193 | a doc-comment line `* ` followed by a word without markers becomes that word |
| DocComment.CleanIdempotent | src/ink/organics/pojo2json/POJO2JsonAction.java:193 | applying the filter twice is the same as once |
| DocComment.CleanKeepsSize | src/ink/organics/pojo2json/POJO2JsonAction.java:193 | the intended filter keeps the word `size` |
| DocComment.CommentAsWritten | src/ink/organics/pojo2json/POJO2JsonAction.java:189-197 | specification of the loop as written: the as-written filter of every child, concatenated in order (properties in `GetComment` and `CommentAsWrittenJoined`) |
| DocComment.GetComment | src/ink/organics/pojo2json/POJO2JsonAction.java:189-197 | the builder loop, with the filter as written, equals `CommentAsWritten`: every child's filtered text appended in order; no character of the class is left |
| DocComment.CommentAsWrittenJoined | src/ink/organics/pojo2json/POJO2JsonAction.java:189-197 | the source's comment is the as-written filter applied to the children's joined text |
| DocComment.Comment | src/ink/organics/pojo2json/POJO2JsonAction.java:189-197 | the comment as intended: the intended filter of every child, concatenated in order (properties in `CommentFreeOfMarkers` and `CommentJoined`) |
| DocComment.CommentFreeOfMarkers | src/ink/organics/pojo2json/POJO2JsonAction.java:189-197 | the intended comment has no marker character |
| DocComment.CommentJoined | src/ink/organics/pojo2json/POJO2JsonAction.java:189-197 | when no child has `@`, the intended comment is the intended filter applied to the children's joined text |
| DocComment.FieldDesc | src/ink/organics/pojo2json/POJO2JsonAction.java:178-187 | the description has no marker character and is empty when the field has no documentation comment |
| Resolver.DeepComponent | src/ink/organics/pojo2json/POJO2JsonAction.java:112 | the deep component type is not an array, and a non-array is its own deep component |
| Resolver.DeepComponentOfNest | src/ink/organics/pojo2json/POJO2JsonAction.java:112 | a non-array type nested in any number of array layers has that type as its deep component |
| Resolver.NestDeepComponent | src/ink/organics/pojo2json/POJO2JsonAction.java:112 | every type is its deep component nested in as many array layers as it has, so the deep component loses nothing but the layers |
| Resolver.CandidateNames | src/ink/organics/pojo2json/POJO2JsonAction.java:129-132 | the type's own presentable name comes first, then its supertypes' names in order |
| Resolver.Wrap | src/ink/organics/pojo2json/POJO2JsonAction.java:111-114 | a success becomes a one-element list holding the value; an error passes through unchanged |
| Resolver.Names | src/ink/organics/pojo2json/POJO2JsonAction.java:94 | the i-th name is the i-th field's name |
| Resolver.RootFields | src/ink/organics/pojo2json/POJO2JsonAction.java:90-93 | a field is enumerated exactly when it is one of the class's fields and is not named `serialVersionUID`; fields without that name are enumerated all, in their order |
| Resolver.RootFieldsAppend | src/ink/organics/pojo2json/POJO2JsonAction.java:90-93 | the enumeration works piece by piece, so it keeps the `getAllFields` order and drops only the `serialVersionUID` entries |
| Resolver.ShapeOf | src/ink/organics/pojo2json/POJO2JsonAction.java:107-143 | the classification, tested in the source's order: primitive, array, unresolved class, enum, container-shaped, simple type, composite (properties in the branch lemmas of `ResolverProps`) |
| Resolver.Tag | src/ink/organics/pojo2json/POJO2JsonAction.java:101-106 | the tag `@short:desc#` built from the type's short name and the field description |
| Resolver.Resolve | src/ink/organics/pojo2json/POJO2JsonAction.java:99-151 | `typeResolve`; its properties are the `ResolverProps` lemmas (branch results, depth ceiling, fuel monotonicity, well-formed maps) |
| Resolver.Expand | src/ink/organics/pojo2json/POJO2JsonAction.java:147-149 | the composite loop as a function: each field's result put in order, stopping at the first error (properties in `ExpandKeys`, `ExpandSucceeds`, `ExpandFails`) |
| Resolver.Fields | src/ink/organics/pojo2json/POJO2JsonAction.java:85-97 | `getFields` as a function: empty map for no class, otherwise the enumerated fields expanded from level 0 (properties in the `Root` lemmas) |
| Resolver.ExpandFields | src/ink/organics/pojo2json/POJO2JsonAction.java:147-150 | the composite loop's result equals the expansion specification `Expand`, whose properties are the Expand lemmas below |
| Resolver.GetFields | src/ink/organics/pojo2json/POJO2JsonAction.java:85-97 | the enumeration loop's result equals the specification `Fields`, whose properties are the Root lemmas below |
| ResolverProps.PrimitiveResult | src/ink/organics/pojo2json/POJO2JsonAction.java:100-109 | a primitive gives its default text followed by the tag `@name:desc#`, at any level and with any fuel |
| ResolverProps.PrimitiveDefaults | src/ink/organics/pojo2json/POJO2JsonAction.java:153-176 | the text appended for each primitive kind: `\|false\|`, `\|0\|`, `\|0.00\|`, and `null` for void |
| ResolverProps.PrimitiveTagged | src/ink/organics/pojo2json/POJO2JsonAction.java:105-108 | a primitive's result is its default text followed by the tag built from its type name and the field description |
| ResolverProps.PrimShortName | src/ink/organics/pojo2json/POJO2JsonAction.java:101-104 | a primitive's canonical name is its own short name |
| ResolverProps.UnresolvedIsEmpty | src/ink/organics/pojo2json/POJO2JsonAction.java:116-120 | a class type that does not resolve gives an empty map |
| ResolverProps.EnumFirstConstant | src/ink/organics/pojo2json/POJO2JsonAction.java:121-125 | an enum gives the name of its first enum constant followed by the tag |
| ResolverProps.EnumBranch | src/ink/organics/pojo2json/POJO2JsonAction.java:121-125 | an enum whose first-constant search finds a name gives that name followed by the tag |
| ResolverProps.EnumWithoutConstants | src/ink/organics/pojo2json/POJO2JsonAction.java:126-127 | an enum without enum constants gives the empty string |
| ResolverProps.ArrayResult | src/ink/organics/pojo2json/POJO2JsonAction.java:110-115 | an array of any dimension gives a one-element list of the innermost component's result, resolved one level deeper |
| ResolverProps.ArrayOfArrayOfPrimitive | src/ink/organics/pojo2json/POJO2JsonAction.java:110-115 | a two-dimensional primitive array gives a single (not nested) list holding the primitive's placeholder |
| ResolverProps.ContainerResult | src/ink/organics/pojo2json/POJO2JsonAction.java:129-138 | a Collection/Iterable-shaped type gives a one-element list of its element type's result; with no extractable element type the conversion fails |
| ResolverProps.SimpleTypeResult | src/ink/organics/pojo2json/POJO2JsonAction.java:139-143 | a simple type gives the table value of its first name that the table knows, followed by the tag |
| ResolverProps.SimpleBranch | src/ink/organics/pojo2json/POJO2JsonAction.java:139-143 | a simple type gives the value found by the first-match lookup, followed by the tag |
| ResolverProps.DepthCeiling | src/ink/organics/pojo2json/POJO2JsonAction.java:144-150 | a composite class called at level 500 or deeper raises the depth error; below that it expands all its fields one level deeper |
| ResolverProps.LeavesIgnoreLevel | src/ink/organics/pojo2json/POJO2JsonAction.java:107-143 | primitives, unresolved classes, enums and simple types always succeed and never depend on the level |
| ResolverProps.DepthErrorNeedsNesting | src/ink/organics/pojo2json/POJO2JsonAction.java:144-146 | the depth error is raised only when the level plus the remaining call depth exceeds 500 |
| ResolverProps.ExpandDepthErrorNeedsNesting | src/ink/organics/pojo2json/POJO2JsonAction.java:147-149 | the same bound for a field-by-field expansion |
| ResolverProps.NodeIsComposite | src/ink/organics/pojo2json/POJO2JsonAction.java:129-143 | a class `Node { Node next; }` is neither enum, container nor simple type, so it is expanded |
| ResolverProps.NodeExceedsDepth | src/ink/organics/pojo2json/POJO2JsonAction.java:144-149 | resolving the self-referencing `Node` from any level up to 500 ends in the depth error when the call stack is deep enough |
| ResolverProps.NodeConversionFails | src/ink/organics/pojo2json/POJO2JsonAction.java:85-97 | converting `Node` itself ends in the depth error |
| ResolverProps.ResolveFuelMonotone | src/ink/organics/pojo2json/POJO2JsonAction.java:99-151 | a result that did not run out of call depth is the same with any larger call-depth bound |
| ResolverProps.EmptyExpandFuelMonotone | src/ink/organics/pojo2json/POJO2JsonAction.java:147-149 | the same for a composite expansion into a fresh map |
| ResolverProps.ExpandFuelMonotone | src/ink/organics/pojo2json/POJO2JsonAction.java:147-149 | the same for an expansion into a partly filled map |
| ResolverProps.ExpandKeys | src/ink/organics/pojo2json/POJO2JsonAction.java:147-149 | a successful expansion is a map whose keys are the old keys followed by the field names, each new name once, in first-occurrence order |
| ResolverProps.ResolveWellFormed | src/ink/organics/pojo2json/POJO2JsonAction.java:99-151 | every map inside a successful result has distinct keys |
| ResolverProps.ExpandWellFormed | src/ink/organics/pojo2json/POJO2JsonAction.java:147-149 | expanding into a duplicate-free map yields a duplicate-free result |
| ResolverProps.PutWellFormed | src/ink/organics/pojo2json/POJO2JsonAction.java:148 | putting a well-formed value into a duplicate-free map keeps it duplicate-free |
| ResolverProps.ExpandSucceeds | src/ink/organics/pojo2json/POJO2JsonAction.java:147-149 | a successful expansion resolved every field successfully; each name maps to the result of its last field of that name; keys not among the fields keep their old values |
| ResolverProps.ExpandFails | src/ink/organics/pojo2json/POJO2JsonAction.java:147-149 | a failed expansion returns the error of the first field whose resolution failed, and all fields before it succeeded |
| ResolverProps.ExpandDistinctKeys | src/ink/organics/pojo2json/POJO2JsonAction.java:147-149 | with distinct field names the map's keys are exactly the field names, in declaration order |
| ResolverProps.ExpandNamesAll | src/ink/organics/pojo2json/POJO2JsonAction.java:147-149 | every field name is a key of the expanded map |
| ResolverProps.NestedKeepsSerialUid | src/ink/organics/pojo2json/POJO2JsonAction.java:147-149 | a nested composite class's map keeps its `serialVersionUID` field |
| ResolverProps.NoClassGivesEmpty | src/ink/organics/pojo2json/POJO2JsonAction.java:86-89 | no selected class gives an empty map |
| ResolverProps.RootKeys | src/ink/organics/pojo2json/POJO2JsonAction.java:85-97 | the root map's keys are the enumerated field names, each once, in first-occurrence order; the result is well-formed throughout |
| ResolverProps.RootKeysInOrder | src/ink/organics/pojo2json/POJO2JsonAction.java:90-95 | with distinct names the root map's keys are exactly the enumerated names in order |
| ResolverProps.RootNames | src/ink/organics/pojo2json/POJO2JsonAction.java:90-95 | the root map has no `serialVersionUID` key and has a key for every other field of the class |
| ResolverProps.RootValues | src/ink/organics/pojo2json/POJO2JsonAction.java:94 | every enumerated field resolved from level 0 successfully, and each name maps to its last field's result |
| ResolverProps.DefaultDelimitsBare | src/ink/organics/pojo2json/POJO2JsonAction.java:158-173 | each non-void default is its bare literal (`false`, `0` or `0.00`) between `\|` delimiters, and contains nothing the rewrite touches |
| ResolverProps.DefaultRewritten | src/ink/organics/pojo2json/POJO2JsonAction.java:64-68 | a printed primitive placeholder entry becomes its bare literal followed by `, //type:desc` |
| ResolverProps.VoidRewritten | src/ink/organics/pojo2json/POJO2JsonAction.java:64-68 | a void entry keeps the opening quote of `"null` and gets `", //void:desc` |
| ResolverProps.PrimitivePrinted | src/ink/organics/pojo2json/POJO2JsonAction.java:62-68 | a primitive field's value, printed and rewritten, is the unquoted literal with a `//` comment of its type and description (void: the quoted `null` form), followed by tag-free text |
| ResolverProps.PrimitiveInDocument | src/ink/organics/pojo2json/POJO2JsonAction.java:62-68 | the same for an entry anywhere in a document: everything after it, from the printer's line break on, is rewritten on its own |
| PostProcess.ReplaceAll | src/ink/organics/pojo2json/POJO2JsonAction.java:64-68 | `String.replaceAll` with a pattern that matches only itself: left-to-right, non-overlapping replacement (properties in the `ReplaceAll` lemmas) |
| PostProcess.OpenComments | src/ink/organics/pojo2json/POJO2JsonAction.java:64-66 | the first three replacements (properties in `CommentOpened`, `HashGoesWithComma`, `HashGoesLast`) |
| PostProcess.Unquote | src/ink/organics/pojo2json/POJO2JsonAction.java:67-68 | the last two replacements (properties in `OpeningDelimiterGoes`, `ClosingDelimiterGoes`) |
| PostProcess.Rewrite | src/ink/organics/pojo2json/POJO2JsonAction.java:64-68 | the five replacements in order (properties in `RewriteLeavesNoAt`, `RewriteSplit`, `PlaceholderEntry`, `QuotedEntry`, `RewriteKeepsPlain`) |
| PostProcess.Printed | src/ink/organics/pojo2json/POJO2JsonAction.java:63 | one string entry as the printer writes it: quoted, then the comma unless it is the last entry, then what follows |
| PostProcess.TagText | src/ink/organics/pojo2json/POJO2JsonAction.java:106 | the tag text `@type:desc#` |
| PostProcess.ReplaceAllAbsent | src/ink/organics/pojo2json/POJO2JsonAction.java:64-68 | a pattern whose first character does not occur leaves the text unchanged |
| PostProcess.ReplaceAllAtFront | src/ink/organics/pojo2json/POJO2JsonAction.java:64-68 | an occurrence at the front is replaced and scanning resumes after it |
| PostProcess.ReplaceAllSkip | src/ink/organics/pojo2json/POJO2JsonAction.java:64-68 | a prefix at none of whose positions the pattern starts passes through unchanged |
| PostProcess.ReplaceAllSkipFree | src/ink/organics/pojo2json/POJO2JsonAction.java:64-68 | a prefix without the pattern's first character passes through unchanged |
| PostProcess.ReplaceAllSecondAbsent | src/ink/organics/pojo2json/POJO2JsonAction.java:67-68 | a two-character pattern whose second character does not occur leaves the text unchanged |
| PostProcess.ReplaceAllRemovesChar | src/ink/organics/pojo2json/POJO2JsonAction.java:64 | replacing a character by text without it removes every occurrence |
| PostProcess.ReplaceAllKeepsAbsent | src/ink/organics/pojo2json/POJO2JsonAction.java:65-68 | a replacement never introduces a character that neither the text nor the replacement has |
| PostProcess.ReplaceAllSplit | src/ink/organics/pojo2json/POJO2JsonAction.java:64-68 | a text splits into independently replaced parts where the second part starts with a character the pattern lacks |
| PostProcess.ReplaceAllKeepsHead | src/ink/organics/pojo2json/POJO2JsonAction.java:64-68 | such a second part still starts with the same character after the replacement |
| PostProcess.RewriteSplit | src/ink/organics/pojo2json/POJO2JsonAction.java:64-68 | the rewrite of a document is the rewrite of its parts at a character that occurs in no pattern (such as a line break) |
| PostProcess.EntryThenMore | src/ink/organics/pojo2json/POJO2JsonAction.java:64-68 | an entry followed by the rest of the document from a line break on is rewritten as the entry alone followed by the rewritten rest |
| PostProcess.RewriteLeavesNoAt | src/ink/organics/pojo2json/POJO2JsonAction.java:64-68 | no `@` survives the rewrite |
| PostProcess.OpeningDelimiterGoes | src/ink/organics/pojo2json/POJO2JsonAction.java:67 | the quote and opening `\|` of a placeholder are removed |
| PostProcess.ClosedSkipped | src/ink/organics/pojo2json/POJO2JsonAction.java:67 | the closing `\|` followed by the opened comment is not mistaken for an opening delimiter |
| PostProcess.ClosingDelimiterGoes | src/ink/organics/pojo2json/POJO2JsonAction.java:68 | the closing `\|` and its quote are removed, leaving `, //` and the comment |
| PostProcess.ReplaceOne | src/ink/organics/pojo2json/POJO2JsonAction.java:64-66 | when the pattern's first character occurs only at the start of one occurrence, that occurrence is replaced and nothing else changes |
| PostProcess.ReplaceOneSplit | src/ink/organics/pojo2json/POJO2JsonAction.java:65-66 | the same for a pattern written as two parts |
| PostProcess.AtOpensComment | src/ink/organics/pojo2json/POJO2JsonAction.java:64 | the tag's `@` becomes the quote that closes the value, followed by `, //` |
| PostProcess.TagEndKept | src/ink/organics/pojo2json/POJO2JsonAction.java:65 | a tag end not followed by a comma is untouched by the second replacement |
| PostProcess.HashGoesWithComma | src/ink/organics/pojo2json/POJO2JsonAction.java:65-66 | a tag end followed by the entry's comma is removed together with the comma |
| PostProcess.HashGoesLast | src/ink/organics/pojo2json/POJO2JsonAction.java:65-66 | the last entry's tag end, with no comma after it, is removed by the third replacement |
| PostProcess.PrintedTagged | src/ink/organics/pojo2json/POJO2JsonAction.java:106 | a printed tagged value is the quoted value, the `@` tag and the tag end, in that order |
| PostProcess.CommentOpened | src/ink/organics/pojo2json/POJO2JsonAction.java:64-66 | the first three replacements turn a printed tagged entry into the value, `", //` and the comment text |
| PostProcess.PlaceholderEntry | src/ink/organics/pojo2json/POJO2JsonAction.java:64-68 | a printed `\|`-delimited placeholder with its tag becomes the bare literal, `, //type:desc` and the following tag-free text (`EntryThenMore` covers any following document) |
| PostProcess.QuotedEntry | src/ink/organics/pojo2json/POJO2JsonAction.java:64-68 | a printed undelimited value with its tag (an enum constant, the CharSequence sample) stays quoted and is followed by `, //type:desc` |
| PostProcess.RewriteKeepsPlain | src/ink/organics/pojo2json/POJO2JsonAction.java:64-68 | text with no `@`, `#` or `\|` is unchanged by the rewrite |

## Left out

- The IDE plumbing is not part of this model: finding the class under the caret, the clipboard and the notifications (`POJO2JsonAction.java:55-60, 70-82`). The selected class is a parameter (`None` for no class).
- The two `catch` branches are left out. The depth error is the `DepthExceeded` result. A missing container element type is `Failure`, standing for the null pointer that the generic handler reports as "conversion failed".
- Gson's pretty printer (`POJO2JsonAction.java:33, 63`) is not modelled. `Printed` gives the printed form of one string entry that needs no escaping. The text after it (`rest`) is a parameter, as is whether it is the map's last entry. Lists, nested maps and escaping are not printed.
- The IDE's type and class semantics are inputs. Canonical and presentable text, supertypes, enum constants, `getAllFields` order and the extracted element type are all fields of `ClassInfo`. A generic instantiation is a separate class-table entry.
- The wall clock is an input: `normalTypes` takes the current milliseconds, date and time as already-printed strings (`Clock`). The unused `dateTime` variable (line 39) is not modelled.
- `NormalTypes` is the table as a value rather than a static `HashMap` filled in place. The resolver receives it in `Env.normal`. Lemmas that depend on its contents require `env.normal == NormalTypes(clock)`.
- `Resolve`/`Expand` are functions, because the resolver is recursive and functions cannot call methods. The in-place map filling is the methods `ExpandFields` and `GetFields`, each proved equal to its function.
- Stack overflow is modelled by the `fuel` bound. `OutOfFuel` stands for the uncaught `StackOverflowError`. The model does not say how many frames the JVM allows.
- The `null` parameter case of `getFieldDesc` (line 179) is not modelled: every call passes the field being resolved, and a `Field` value is never null.
- The `BigDecimal` zero of scale 2 is the literal `"0.00"` (`Zero`), and `Character.valueOf('0')` prints as `0`.
- DocComment.FieldDesc: uses the corrected comment `Comment` (filter `Clean`), not the regular expression as written (see Findings). `GetComment` and `CommentAsWritten` model the code as written.
- ResolverProps.PrimitivePrinted: prints the description without JSON escaping. Gson escapes `"`, `\`, `<`, `>`, `&`, `=` and `'` by default, and descriptions may hold them; for such descriptions the lemma does not describe the output.
- ResolverProps.PrimitiveInDocument: the same unescaped printing as `PrimitivePrinted`.
- PostProcess.PlaceholderEntry: the same unescaped printing; `Printed` never escapes.
- PostProcess.QuotedEntry: the same unescaped printing; `Printed` never escapes.

## Findings

| source | as written | input that shows it | evidently intended | confidence | as-written member | corrected member |
|---|---|---|---|---|---|---|
| src/ink/organics/pojo2json/POJO2JsonAction.java:193 | the pattern `[/* \n//@#(@see)\|]+` is one character class, so it also deletes every `s`, `e`, `(` and `)` in the documentation text | a field documented as `size` gets the description `iz` | delete the comment markers, whitespace, `@`, `#`, `\|` and the `@see` tag, keeping the words | not executed | DocComment.StripAsWrittenDropsLetters | DocComment.CleanKeepsSize |
