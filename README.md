# gir-parser, modelled in Dafny

This project models the core of `gir-parser`, a Rust crate that reads
GObject-Introspection repositories (`.gir` XML files) into typed records.

**Field tables.** Every GIR entity (alias, bitfield, boxed, callback, class,
constant, field, function, interface, member, method, parameter, property,
record, union, virtual method, …) is read from an XML element by a
declarative field table. The table says which attributes and children are:

- required;
- optional;
- repeated, kept in document order;
- defaulted when missing;
- collected as an untagged variant (a closed tag→variant table).

It also says whether unknown attributes and children are rejected (`deny_unknown_fields`).

The model has an abstract element tree, `Xml.Element`. It has one generic
interpreter for these tables (`Xml.Validate` together with the `Required*`/`Optional*`/`DecodeAll` readers).
Each entity gets a decoder, and a decoder returns `Result<Entity, string>`.
The accessors with `unwrap_or` defaults are pure functions over the decoded records.

**Capability groups.** `Info`, `Documentable`, `Attributable` and `Callable`
are read once and shared by all the entities.
`Attributable` holds four first-match lookups in the attribute list.

**Closed literal enumerations.** These are `Stability`, `TransferOwnership`,
`FunctionScope`, `SignalEmission`, `Direction` and `DocFormat`. Each is a
pair of literal tables, with `is_*` predicates and the derived order.

**`Version`.** This is a lenient, total parser from dotted text to
`(u16, Option<u16>, Option<u16>)`, with its printer, its derived order
and its string equality.

**The repository root and the namespace resolver.** The resolver is
`from_path_follow_namespaces_and_cache`. It reads a `.gir` file and stops
if the file is already cached. It then follows each `<include>` whose
`Name-Version.gir` file is not cached yet, and inserts the file into the
cache last.

The resolver is a class, `Resolution.RepositoryCache`. Its field holds the
cache map, and its methods update that field in place. The methods are proved
against a recursive specification function, `Resolution.Resolve`. `Resolve`
carries fuel, so it is defined on every input. Lemmas about `Resolve` show:

- that it terminates when the includes are acyclic;
- that a two-file include cycle never finishes;
- that the cache only ever grows with files read from the directory;
- that a successful resolution has cached the file and every file it includes;
- that a successful fresh resolution caches exactly the files reachable from the
  requested one through includes, each holding its own parse.

The directory is a `Listing`: a map from file name to the result of reading
and parsing that file.

Integer widths are explicit:

- `u16` is a newtype;
- a field's `bits` is checked against the `u8` range;
- `closure` and `destroy` indices are checked against a 64-bit `usize`.

The literal syntax of booleans and unsigned numbers belongs to the XML
library and is not visible. The decoders take it as a parameter, `Xml.Scalars`.

## Model

| member | source | states |
|---|---|---|
| Lib.FromIo | src/lib.rs:10-14 | An I/O error is wrapped as the `IO` variant carrying that same error. |
| Lib.Describe | src/lib.rs:17-24 | The display text is "I/O operation failed " followed by the I/O error text, or "Failed to parse xml file: " followed by the XML message. |
| Lib.DescribeTellsKind | src/lib.rs:17-24 | Two errors that display the same text are of the same kind. |
| Lib.ParseStability | src/lib.rs:26-33 | The parse succeeds exactly on "Stable", "Unstable" and "Private", and the variant it yields prints back as the input. |
| Lib.StabilityRoundTrip | src/lib.rs:26-33 | Every variant's literal parses back to that variant. |
| Lib.ParseTransfer | src/lib.rs:35-42 | The parse succeeds exactly on "none", "container" and "full", and the variant it yields prints back as the input. |
| Lib.TransferRoundTrip | src/lib.rs:35-42 | Every ownership transfer's literal parses back to it. |
| Lib.TransferOneHot | src/lib.rs:44-56 | Exactly one of `is_none`, `is_container` and `is_full` holds of each value. |
| Lib.ParseScope | src/lib.rs:58-66 | The parse succeeds exactly on "call", "notified", "async" and "forever", and the variant it yields prints back as the input. |
| Lib.ScopeRoundTrip | src/lib.rs:58-66 | Every scope's literal parses back to it. |
| Lib.ScopeOneHot | src/lib.rs:68-84 | Exactly one of `is_call`, `is_notified`, `is_async` and `is_forever` holds of each value. |
| Lib.ParseEmission | src/lib.rs:86-93 | The parse succeeds exactly on "first", "last" and "cleanup", and the variant it yields prints back as the input. |
| Lib.EmissionRoundTrip | src/lib.rs:86-93 | Every emission stage's literal parses back to it. |
| Lib.DeclarationOrder | src/lib.rs:26-93 | The derived orders follow declaration order, and distinct variants never compare equal. |
| Versions.New | src/version.rs:10-12 | `Version::new` holds exactly the three given numbers, the minor and the patch both present, and prints and re-parses to itself. |
| Versions.ParseSegment | src/version.rs:46 | A segment is accepted exactly when `str::parse::<u16>` accepts it (an optional '+', at least one digit, value at most 65535), and yields that value. |
| Versions.SplitN | src/version.rs:44-45 | `splitn(4, '.')` gives between one and four pieces; with at most four split pieces it is the split itself, and with more it gives exactly four, the first three equal to the split's and the last the rest of the split joined back with dots. |
| Versions.ParsedPrefix | src/version.rs:46-48 | The leading run of valid segments: each value is its segment's parse, and the first segment left out is invalid. |
| Versions.Parse | src/version.rs:42-54 | Parsing never fails. A patch number only comes with a minor number. Text without a dot gives its u16 value, or 0, with no minor and no patch. |
| Versions.Rendered | src/version.rs:67-76 | Each number printed is the decimal rendering of its component. |
| Versions.DisplayIsJoin | src/version.rs:67-76 | The printed text is the printed numbers joined with '.', and an absent minor before a patch prints as 0. |
| Versions.DisplayAlphabet | src/version.rs:67-76 | The printed text has only digits and dots. |
| Versions.ParseRendered | src/version.rs:42-54 | Parsing one to three printed numbers joined with dots gives back exactly those components. |
| Versions.PrefixOfValid | src/version.rs:46-48 | When every segment is valid, the leading run covers all of them. |
| Versions.ParseDisplay | src/version.rs:42-76 | The round trip `parse(display(v)) == v` holds whenever the patch is absent or the minor is present. |
| Versions.ParseDisplayPadded | src/version.rs:72 | `(M, None, Some p)` prints as "M.0.p" and re-parses as `(M, Some 0, Some p)`. |
| Versions.ParseIdempotent | src/version.rs:42-76 | Printing a parsed version and parsing it again changes nothing. |
| Versions.UndottedBranchAgrees | src/version.rs:43-53 | The branch for text without a dot gives what the dotted branch would give on the same text. |
| Versions.RenderingUndotted | src/version.rs:70 | A printed number contains no dot. |
| Versions.ParseStopsAtInvalid | src/version.rs:43-49 | After a valid major number, an invalid second segment stops parsing, whatever follows it. |
| Versions.ParseIgnoresFourthSegment | src/version.rs:124-126 | Text after a third segment is ignored: "M.m.p.rest" parses as `(M, m, p)`. |
| Versions.ParseTrailingDot | src/version.rs:116-118 | "3." parses as `(3, None, None)`. |
| Versions.ParseInvalidMinor | src/version.rs:128-130 | "5.invalid.7" parses as `(5, None, None)`. |
| Versions.ParseNotANumber | src/version.rs:132-138 | "" and "invalid" both parse as `(0, None, None)`. |
| Versions.ParseLeadingInvalid | src/version.rs:43-49 | A dotted text whose first segment is not a valid u16 reads as the zero version, whatever the later segments are. |
| Versions.EqOwnDisplay | src/version.rs:78-82 | A version equals its own printed text exactly when its patch is absent or its minor is present. |
| Versions.EqStrFunctional | src/version.rs:78-82 | No text equals two different versions. |
| Versions.Compare | src/version.rs:6 | The derived comparison says `Equal` exactly for equal versions. |
| Versions.CompareReverse | src/version.rs:6 | Swapping the operands reverses the comparison. |
| Versions.BelowTransitive | src/version.rs:6 | The strict order is transitive. |
| Versions.OrderExamples | src/version.rs:175-196 | An absent component sorts below a present one. Components compare numerically, major first. |
| Text.Split | src/repository.rs:189 | `split` always gives at least one piece, and no piece contains the separator. |
| Text.JoinSplit | src/repository.rs:189 | Joining the pieces of a split with the separator gives back the text. |
| Text.SplitJoin | src/repository.rs:189 | Splitting a join of separator-free pieces gives back the pieces. |
| Text.NatToString | src/version.rs:70-73 | `{}` on an unsigned number prints at least one decimal digit. |
| Text.ParseUnsigned | src/version.rs:51 | Accepted exactly when the text, after one optional leading '+', is at least one ASCII digit with nothing else and its value fits the type; the result is that decimal value. |
| Text.ParseNatToString | src/version.rs:51 | The decimal rendering of any value that fits is parsed back to that value. |
| Text.DigitsValueLeadingZero | src/version.rs:51 | A leading zero keeps a run of digits a run of digits, with the same value. |
| Text.ParsePlusSign | src/version.rs:51 | A single leading '+' is accepted and changes nothing. |
| Text.ParseLeadingZero | src/version.rs:51 | A leading zero is accepted and changes nothing. |
| Text.ParseRejects | src/version.rs:51 | The empty text, a lone '+', a '-' sign, a doubled '+', a stray letter and surrounding spaces are all refused. |
| Xml.Select | src/record.rs:97-98 | The untagged children kept are those whose tag is in the variant table, in document order. |
| Xml.LookupFindsFirst | src/alias.rs:16-19 | An attribute lookup misses exactly when no attribute has the name, and otherwise yields the value of the first one that has it. |
| Xml.LookupAppend | src/alias.rs:16-19 | Appending an attribute with another name leaves every lookup unchanged. |
| Xml.LookupPrefix | src/alias.rs:16-19 | Once a name is found, attributes appended after it never change the lookup. |
| Xml.SelectAppend | src/record.rs:97-98 | Selecting from two runs of children is the two selections concatenated. |
| Xml.Validate | src/alias.rs:12-14 | Validation succeeds exactly when the element conforms to the table: in a strict table nothing undeclared appears, and every required declaration is met. |
| Xml.ValidateIgnoresRoot | src/alias.rs:13 | The table's root tag plays no part in reading a nested element. |
| Xml.StrictRejectsAttr | src/alias.rs:14 | Under `deny_unknown_fields`, adding an undeclared attribute is an error. |
| Xml.StrictRejectsChild | src/alias.rs:14 | Under `deny_unknown_fields`, adding an undeclared child is an error. |
| Xml.UndeclaredChildBreaks | src/union.rs:29 | In a strict table, any undeclared child makes the element non-conforming. |
| Xml.LenientIgnoresAttr | src/property.rs:11-12 | Without `deny_unknown_fields`, an undeclared attribute changes nothing. |
| Xml.LenientIgnoresChild | src/property.rs:11-12 | Without `deny_unknown_fields`, an undeclared child changes nothing. |
| Xml.RequiredAttr | src/alias.rs:16-19 | On a conforming element, a required attribute is present and read as written. |
| Xml.RequiredChild | src/constant.rs:47-48 | On a conforming element, a required child exists, and the first one is read. |
| Xml.RequiredUntagged | src/field.rs:106-107 | On a conforming element, a required untagged variant is the first child with a tag from its table. |
| Xml.OptionalAttr | src/alias.rs:29-30 | An absent optional attribute reads as `None`. A present one reads as `Some` of its parse, and a failed parse is an error. |
| Xml.Bounded | src/field.rs:79-80 | A bounded unsigned number is accepted exactly when it parses and fits the bound. |
| Xml.OptionalVersion | src/version.rs:57-64 | A present version attribute is read with the lenient version parser, so it never fails. |
| Xml.OptionalChild | src/alias.rs:32-33 | An absent optional child reads as `None`, and a present one is decoded from the first match. |
| Xml.DecodeAll | src/alias.rs:43-44 | Repeated children decode in document order, one for one. The first failure is reported. |
| Xml.AllChildrenOk | src/alias.rs:43-44 | A list of children decodes exactly when each child under the tag decodes. |
| Attributes.DecodeAttribute | src/attribute.rs:3-21 | An attribute decodes exactly when it conforms to its strict table (`name` and `value` required), and its accessors return the two strings. |
| Docs.DecodeSourcePosition | src/documentation.rs:3-27 | A source position decodes exactly when it conforms, keeping `filename` and `line` as required and `column` as optional. |
| Docs.DecodeNote | src/documentation.rs:29-104 | `doc-deprecated`, `doc-stability` and `doc-version` decode exactly when they conform, and keep their two whitespace attributes and their text. |
| Docs.DecodeDocumentation | src/documentation.rs:107-150 | `doc` decodes exactly when it conforms, and keeps its text, `filename`, `line`, `column` and the two whitespace attributes as written. |
| Traits.DecodeInfo | src/traits.rs:100-124 | The group decodes exactly when both flags and the stability parse. `is_introspectable` defaults to true and `is_deprecated` to false, and a present flag gives the value it parses to. An absent stability stays absent, a present one is its parse, and an invalid one is an error. Versions are read leniently. |
| Traits.InfoIgnoresUnknownAttr | src/traits.rs:100-124 | An attribute other than the five the group reads leaves the decoded group unchanged. |
| Traits.DecodeDocs | src/traits.rs:68-88 | The group decodes exactly when each of the five optional children decodes, and each field is then the decoding of the first such child, or absent when there is none. |
| Traits.DocsReadChildrenOnly | src/traits.rs:68-88 | The documentation group depends only on the element's children. |
| Traits.DecodeAttributes | src/traits.rs:90-98 | The attribute list decodes exactly when every `attribute` child conforms. It then has one entry per child, in document order, and entry `i` is child `i` decoded: its name and value as written. |
| Traits.FindAttribute | src/traits.rs:19-45 | A lookup yields the value of an attribute with that name, and yields nothing exactly when no attribute has it. |
| Traits.PairsAppend | src/traits.rs:20-23 | The name-value view of two runs of attributes is the two views concatenated. |
| Traits.FindAttributeAppend | src/traits.rs:20-23 | Once a name is found, later attributes never change the lookup: the first match wins. |
| Traits.FindAttributeIgnoresOther | src/traits.rs:20-23 | Appending an attribute with a different name leaves the lookup unchanged. |
| Traits.GtkLookupsIndependent | src/traits.rs:19-45 | Appending an `org.gtk.Property.get` attribute makes `gtk_property_get` succeed and leaves the other three lookups unchanged. |
| Traits.DecodeCallable | src/traits.rs:126-166 | `throws` defaults to false, and a present `throws` yields its parsed value or an error. The name, `c:identifier`, `moved-to`, `shadows`, `shadowed-by`, `glib:async-func`, `glib:finish-func` and `glib:sync-func` are kept verbatim. |
| Types.DecodeType | src/type.rs:9-43 | A type decodes exactly when it conforms and its flag and documentation decode. `name` and `c:type` are kept, and `is_introspectable` defaults to true or is the parsed flag, an invalid flag being an error. |
| Types.TypeIgnoresUnknownAttr | src/type.rs:9-12 | A type element is lenient: an undeclared attribute changes nothing. |
| Types.AnyType.AsArray | src/type.rs:60-65 | `as_array` on an array gives back the array it holds. |
| Types.AnyType.AsType | src/type.rs:71-76 | `as_type` on a type gives back the type it holds. |
| Types.DecodeAnyType | src/type.rs:47-53 | The variant is chosen by tag. A `type` element decodes exactly when it decodes as a type, and then holds that type. An `array` element is the array variant. Any other tag is an error. |
| Types.AnyTypeExclusive | src/type.rs:55-77 | Each value is exactly one of an array or a type. |
| Parameters.ParseDirection | src/parameter.rs:13-20 | The parse succeeds exactly on "in", "out" and "inout", and the direction it yields prints back as the input. |
| Parameters.DirectionRoundTrip | src/parameter.rs:13-20 | Every direction's literal parses back to it. |
| Parameters.FromType | src/parameter.rs:32-36 | A type becomes the `Type` variant holding it. |
| Parameters.FromAnyType | src/parameter.rs:38-45 | An array becomes the `Array` variant and a type the `Type` variant, each holding the same value. |
| Parameters.FromAnyTypeInjective | src/parameter.rs:38-45 | The conversion loses nothing: distinct inputs give distinct results. |
| Parameters.DecodeParameterType | src/parameter.rs:22-30 | Only `type`, `array` and `varargs` tags decode. A `type` element decodes exactly when it decodes as a type, and then holds that type. An `array` element gives the array variant and `varargs` gives `VarArgs`. |
| Parameters.DecodeParameter | src/parameter.rs:79-175 | `name` is required and kept. An invalid transfer, scope or direction literal is an error. `closure` and `destroy` fit a `usize`, and `is_introspectable` defaults to true. The type is present exactly when a `type` child is, and is then the `Type` variant of the first `type` child decoded. The attributes are one per `attribute` child. |
| Parameters.ParameterAttrsIgnoreUnknownAttr | src/parameter.rs:79-175 | An attribute a parameter does not read leaves each of its attribute reads unchanged. |
| Parameters.ParameterDecodes | src/parameter.rs:79-175 | A parameter decodes exactly when it conforms, every attribute parses, and its documentation, attributes and first `type` child decode; it then holds each attribute, flag, the documentation, the attributes and the decoded `type` child. |
| Parameters.ParameterReadsOnly | src/parameter.rs:79-175 | Two elements that validate alike, read every attribute alike and have the same children decode to the same parameter. |
| Parameters.ParameterIgnoresUnknownAttr | src/parameter.rs:79-80 | A parameter is lenient: an attribute it does not declare leaves the decoded parameter unchanged. |
| Parameters.DecodeInstanceParameter | src/parameter.rs:180-208 | An instance parameter decodes exactly when it conforms, its transfer, direction and flags parse, and its documentation and `type` child decode. The name, transfer, direction and documentation are then those read, and the type is the first `type` child decoded, or absent. |
| Parameters.InstanceParameterAttrsIgnoreUnknownAttr | src/parameter.rs:180-208 | An attribute an instance parameter does not read leaves each of its attribute reads unchanged. |
| Parameters.InstanceParameterIgnoresUnknownAttr | src/parameter.rs:180-183 | An instance parameter is lenient: an attribute it does not declare leaves the decoded value unchanged. |
| Parameters.Parameters.IntoIter | src/parameter.rs:70-77 | Iterating yields the ordinary parameters, in order, without the instance parameter. |
| Parameters.DecodeParameters | src/parameter.rs:47-54 | The list decodes exactly when it conforms, its optional instance parameter decodes and every `parameter` child decodes. Parameter `i` is then the decoding of the `i`-th `parameter` child, and the instance parameter is the decoding of the first `instance-parameter` child, or absent. |
| Parameters.ParametersEmptyIff | src/parameter.rs:56-59 | `is_empty` holds exactly when there is no instance parameter and no ordinary parameter. |
| Parameters.NoParametersIsEmpty | src/parameter.rs:47-59 | The default parameter list is empty and yields nothing. |
| Parameters.DecodeParametersOrDefault | src/function.rs:63-64 | A missing `parameters` child gives the default empty list. Otherwise the first one is decoded. |
| ReturnValues.ReturnValueTableRequires | src/return_value.rs:11-50 | The return-value table requires a child tagged `type` or `array`. |
| ReturnValues.DecodeReturnValue | src/return_value.rs:11-88 | A return value decodes exactly when it conforms, every optional attribute parses (`closure` and `destroy` within a `usize`), its documentation and attributes decode, and a first `type` or `array` child exists and decodes. It then holds exactly those values: the transfer, scope, flags, closure and destroy indices as read, the documentation, the attributes, and that child as its type. `is_introspectable` defaults to true. |
| Callbacks.DecodeCallback | src/callback.rs:13-62 | `name` and `return-value` are required, `c:type` is kept, and missing parameters give the empty list. |
| Callbacks.CallbackTableRequires | src/callback.rs:13-49 | The callback table requires `name` and a `return-value` child. |
| Callbacks.CallbackDecodes | src/callback.rs:13-62 | A callback decodes exactly when it conforms, `throws` parses, its info, documentation and attributes decode, a first `return-value` child exists and decodes, and its parameters decode; the flag, info, documentation and attributes are then those read. |
| Callbacks.CallbackReturnValue | src/callback.rs:48-49 | The callback's return value is the decoding of its first `return-value` child. |
| Callbacks.CallbackParameters | src/callback.rs:50-51 | The callback's parameters are the default or the decoding of its `parameters` child. |
| Fields.FieldType.AsType | src/field.rs:30-36 | `as_type` on a type gives back the type it holds. |
| Fields.FieldType.AsCallback | src/field.rs:42-48 | `as_callback` on a callback gives back the callback it holds. |
| Fields.FieldType.AsArray | src/field.rs:54-60 | `as_array` on an array gives back the array it holds. |
| Fields.FieldTypeOneHot | src/field.rs:25-61 | Exactly one of `is_type`, `is_callback` and `is_array` holds. |
| Fields.DecodeFieldType | src/field.rs:14-23 | The variant is chosen by tag among `type`, `callback` and `array`, and any other tag is an error. A `type` child decodes exactly when the type decoder succeeds and then holds its result; the same holds for a `callback` child and the callback decoder. An `array` child is kept as the opaque array variant. |
| Fields.DecodeFieldAccess | src/field.rs:67-80 | `bits` must fit a `u8`, and a larger value is an error. `readable`, `writable`, `nullable` and `private` each hold the optional boolean read: absent stays absent, present is its parsed value. |
| Fields.DecodeField | src/field.rs:63-108 | `name` and a type-shaped child are required, the field conforms to its table, and the access flags are those read from the attributes. |
| Fields.FieldTableRequires | src/field.rs:63-108 | The field table requires `name` and a child tagged `type`, `callback` or `array`. |
| Fields.FieldDecodes | src/field.rs:63-108 | A field decodes exactly when it conforms, its access flags, info, documentation and attributes decode, and a first type-shaped child exists and decodes; the info, documentation and attributes are then those read. |
| Fields.FieldTypeIsFirstShape | src/field.rs:106-107 | A field's type is the decoding of its first `type`, `callback` or `array` child. |
| Fields.FieldDefaults | src/field.rs:110-134 | `is_readable`, `is_writable` and `is_private` default to false, and `bits` never exceeds 255. |
| Functions.ReadFunctionLike | src/function.rs:13-65 | `name` and `return-value` are required. Missing parameters give the empty list. `throws` defaults to false and `introspectable` to true. On success the callable, info, documentation and attributes are exactly those their decoders read from the element. |
| Functions.FunctionLikeReads | src/function.rs:13-65 | The body reads exactly when `name` and a `return-value` child are present and the callable, info, documentation, attributes, first return value and parameters all decode. |
| Functions.FunctionLikeReturnValue | src/function.rs:61-62 | The return value is the decoding of the first `return-value` child. |
| Functions.FunctionLikeParameters | src/function.rs:63-64 | The parameters are the default or the decoding of the `parameters` child. |
| Functions.DecodeFunctionLike | src/function.rs:13-65 | A function-like element decodes exactly when it conforms to its table and its parts decode, and then gives what was read. |
| Functions.DecodeFunctionLikeIgnoresRoot | src/function.rs:14 | The root tag (`function`, `constructor`, `method-inline`, …) does not change how the element is read. |
| Functions.DecodeFunction | src/function.rs:13-65 | A function decodes exactly when it conforms to its strict table and its body reads, and then gives that body: its name, and empty parameters when none are given. |
| Functions.DecodeFunctionInline | src/function.rs:73-126 | An inline function decodes exactly when it conforms to its strict table and its body reads, and then gives that body. |
| Functions.FunctionInlineAgrees | src/function.rs:73-126 | `function-inline` declares the same fields as `function`, so the two read every element alike. |
| Functions.FunctionRejectsUnknownAttr | src/function.rs:15 | A function with an undeclared attribute is rejected. |
| Methods.DecodeMethod | src/method.rs:13-80 | A method decodes exactly when it conforms and its body reads. `glib:get-property` and `glib:set-property` are kept as written. |
| Methods.DecodeMethodInline | src/method.rs:88-141 | An inline method decodes exactly when it conforms and its body reads, giving that body. |
| Methods.MethodInlineRejectsGetProperty | src/method.rs:88-141 | An inline method declares no `glib:get-property`, so one that carries it is rejected. |
| Methods.MethodBodyIsFunction | src/method.rs:13-70 | Without the two property attributes, a method reads exactly as a function. |
| Methods.MethodConformsAsFunction | src/method.rs:13-70 | A conforming method with neither property attribute conforms to the function table, since every other declaration is shared. |
| Methods.MethodAttrIsFunctionAttr | src/method.rs:13-40 | Every attribute a method declares, apart from `glib:get-property` and `glib:set-property`, a function declares too. |
| Methods.MethodChildIsFunctionChild | src/method.rs:13-70 | Every child a method declares, a function declares too. |
| VirtualMethods.DecodeVirtualMethod | src/virtual_method.rs:13-72 | A virtual method decodes exactly when it conforms and its body reads. `parameters` has no default here, so its absence is an error. `invoker` is kept. |
| VirtualMethods.VirtualMethodTableRequires | src/virtual_method.rs:62-65 | The virtual-method table is function-like and, unlike the other callables, declares `parameters` as a required child. |
| VirtualMethods.VirtualMethodToleratesUnknownAttr | src/virtual_method.rs:13-14 | A virtual method is lenient: an undeclared attribute does not affect conformance. |
| FunctionMacros.FunctionMacro.ThrowsAttr | src/function_macro.rs:70-72 | The inherent `throws()` returns the raw optional flag, and it agrees with the defaulted `Callable::throws`. |
| FunctionMacros.DecodeFunctionMacro | src/function_macro.rs:12-63 | A function macro decodes exactly when it conforms, has a `name`, and its callable, info, documentation, attributes and parameters decode. On success its callable, info, documentation and attributes are exactly those decoded. Missing parameters give the empty list, and an absent `throws` stays absent. |
| FunctionMacros.FunctionMacroRejectsReturnValue | src/function_macro.rs:12-63 | A function macro declares no return value, so one with a `return-value` child is rejected. |
| Properties.DecodeAccess | src/property.rs:15-30 | `readable`, `writable`, `construct` and `construct-only` each hold the optional boolean read: absent stays absent, present is its parsed value. The transfer literal is parsed, and an invalid one is an error. |
| Properties.PropertyTableRequires | src/property.rs:11-58 | The property table requires `name` and a `type` child. |
| Properties.DecodeProperty | src/property.rs:11-58 | A property decodes exactly when it conforms, its access flags, info, documentation and attributes decode, and a first `type` child exists and decodes. The getter, setter, default value, access, info, documentation and attributes are then those read, and the type is the `Type` variant holding the first `type` child decoded. |
| Properties.PropertyAttrsIgnoreUnknownAttr | src/property.rs:11-58 | An attribute a property does not read leaves its name, getter, setter, default value and access flags unchanged. |
| Properties.PropertyTableAttrs | src/property.rs:11-58 | Every attribute the property table declares is one the property or its info group reads. |
| Properties.PropertyReadsOnly | src/property.rs:11-58 | Two elements that validate alike, read every attribute alike and have the same children decode to the same property. |
| Properties.PropertyIgnoresUnknownAttr | src/property.rs:11-12 | A property is lenient: an attribute it does not declare leaves the decoded property unchanged. |
| Properties.PropertyDefaults | src/property.rs:60-100 | `is_readable` defaults to true. `is_writable`, `is_construct` and `is_construct_only` default to false. Transfer defaults to none. |
| Properties.PropertyToleratesUnknown | src/property.rs:11-12 | A property is lenient: undeclared attributes and children do not affect conformance. |
| Constants.ConstantTableRequires | src/constant.rs:12-48 | The constant table requires `name`, `value` and a `type` child. |
| Constants.DecodeConstant | src/constant.rs:12-71 | A constant decodes exactly when it conforms, its info, documentation and attributes decode, and a first `type` child exists and decodes. `name` and `value` are required, `c:type` and `c:identifier` are kept, and the type is the `Type` variant holding the first `type` child decoded. |
| Constants.ConstantTableAttrs | src/constant.rs:12-71 | Every attribute the constant table declares is one the constant or its info group reads. |
| Constants.ConstantReadsOnly | src/constant.rs:12-71 | Two elements that validate alike, read every attribute alike and have the same children decode to the same constant. |
| Constants.ConstantIgnoresUnknownAttr | src/constant.rs:12-13 | A constant is lenient: an attribute it does not declare leaves the decoded constant unchanged. |
| Constants.ConstantToleratesUnknownAttr | src/constant.rs:12-13 | A constant is lenient: an undeclared attribute does not affect conformance. |
| Members.DecodeMember | src/member.rs:11-72 | A member decodes exactly when it conforms and its capability groups decode, and then holds the info, documentation and attributes those groups read. `name`, `value` and `c:identifier` are required, and the `glib` names are optional. |
| Members.MemberRejectsUnknownAttr | src/member.rs:13 | A member with an undeclared attribute is rejected. |
| BitFields.BitField.Index | src/bitfield.rs:126-132 | Indexing gives the member at that position. |
| BitFields.BitField.AsSlice | src/bitfield.rs:112-124 | The slice view is the members, in order. |
| BitFields.BitField.IntoIter | src/bitfield.rs:94-110 | Iteration yields the slice view. |
| BitFields.DecodeBitField | src/bitfield.rs:13-58 | A bitfield decodes exactly when it conforms and its info, documentation, attributes, members, functions and inline functions decode. `name` and `c:type` are required, `glib:get-type` and `glib:type-name` are kept verbatim, and each list is its children decoded one for one in document order. |
| BitFields.BitFieldTableRequires | src/bitfield.rs:13-20 | The bitfield table requires `name` and `c:type`. |
| BitFields.IndexIsDocumentOrder | src/bitfield.rs:126-132 | Member `i` is the decoding of the `i`-th `member` child. |
| BitFields.NoMembersNoIndex | src/bitfield.rs:94-110 | A bitfield with no `member` children iterates over nothing. |
| Aliases.AliasedType | src/alias.rs:45-46 | The aliased type is absent when no `type` or `array` child exists, and otherwise is the first one decoded. |
| Aliases.DecodeAlias | src/alias.rs:12-61 | An alias decodes exactly when it conforms to its strict table and its info, documentation, attributes and aliased type decode, and then holds exactly the info, documentation and attributes read. `name` and `c:type` are required, and its type is the aliased type. |
| Aliases.AliasOfType | src/alias.rs:45-46 | An alias whose only child is a `type` holds that type. |
| Boxeds.DecodeBoxed | src/boxed.rs:12-106 | A boxed type decodes exactly when it conforms, `foreign` parses, and its info, documentation, attributes, functions and inline functions decode, and then holds exactly the groups read. `glib:name` is required; `glib:type-name`, `glib:get-type`, `c:symbol-prefix`, `glib:is-gtype-struct-for`, `copy-function` and `free-function` are kept verbatim; `is_foreign` defaults to false or is the parsed flag, and the function lists are the children decoded in document order. |
| Boxeds.BoxedRejectsUnknownChild | src/boxed.rs:14 | A boxed type with an undeclared child is rejected. |
| Classes.DecodeImplements | src/class.rs:21-33 | `implements` decodes exactly when it conforms, and keeps its name. |
| Classes.KeepSignals | src/class.rs:120-127 | Signals are kept one for one, signal `i` holding the `i`-th element. |
| Classes.DecodeObjectMembers | src/class.rs:120-127 | The members decode exactly when every property, virtual method and constant child decodes. Each list is its children decoded one for one in document order, and signal `i` is the `i`-th `glib:signal` child. |
| Classes.DecodeClassFlags | src/class.rs:91-96 | The flags decode exactly when each of `glib:fundamental`, `final` and `abstract` is absent or parses. Absent flags stay absent, and each present flag gives its parsed value. |
| Classes.DecodeClass | src/class.rs:47-131 | A decoded class conforms and holds exactly the flags, info, documentation, attributes, implements, callable lists, members and fields those reads yield. `name`, `glib:type-name` and `glib:get-type` are required, and a class missing one is rejected. `parent`, `c:type`, `c:symbol-prefix`, `glib:type-struct` and the four `glib` ref/unref/value functions are kept verbatim. |
| Classes.ClassDecodes | src/class.rs:47-131 | A class decodes exactly when it conforms and its flags, info, documentation, attributes, implements, callable lists, members and fields all decode. |
| Classes.ClassTableRequires | src/class.rs:47-60 | The class table requires `name`, `glib:type-name` and `glib:get-type`. |
| Classes.ClassFlagsDefault | src/class.rs:138-149 | `is_fundamental`, `is_final` and `is_abstract` default to false. |
| Classes.ClassRejectsMethodInline | src/class.rs:117 | A class declares `inline-methods`, not `method-inline`, so a `method-inline` child is rejected. |
| Classes.ClassTableOmitsMethodInline | src/class.rs:108-130 | No declaration in the class table names `method-inline`. |
| Compounds.KindOf | src/record.rs:14-28 | The variant table accepts exactly `field`, `union`, `record` and `callback`, and maps each back to its own tag. |
| Compounds.KindOfTag | src/record.rs:14-28 | Every variant's tag maps back to that variant. |
| Compounds.TagOf | src/record.rs:14-28 | Every field variant has a tag from the table. |
| Compounds.DecodeCallableLists | src/record.rs:84-96 | The lists decode exactly when every constructor, function, inline function, method and inline-method child decodes, and each list is its children decoded one for one in document order. |
| Compounds.FieldElements | src/record.rs:97-98 | The untagged field children are children of the element, and their tags are in the table. |
| Compounds.DecodeRecord | src/record.rs:30-125 | A record conforms to its table. `disguised`, `pointer`, `opaque` and `foreign` are the parsed optional flags. `name`, `c:type`, `glib:is-gtype-struct-for`, `glib:type-name`, `glib:get-type`, `c:symbol-prefix`, `copy-function` and `free-function` are kept verbatim. The field variants follow the untagged children's tags in order. |
| Compounds.DecodeUnion | src/union.rs:27-85 | A union conforms to its table. `name`, `c:type`, `c:symbol-prefix`, `glib:type-name`, `glib:get-type`, `copy-function` and `free-function` are kept verbatim. Its field variants follow the untagged children's tags in order. |
| Compounds.RecordDecodes | src/record.rs:30-125 | A record decodes exactly when it conforms, its four flags parse, and its info, documentation, attributes, callable lists and fields decode; it then holds those results. |
| Compounds.UnionDecodes | src/union.rs:27-85 | A union decodes exactly when it conforms and its info, documentation, attributes, callable lists and fields decode; it then holds those results. |
| Compounds.DecodeBodyFields | src/record.rs:97-98 | Untagged children decode one for one, and each variant carries its element's tag. |
| Compounds.BodyFieldsOneForOne | src/record.rs:97-98 | The fields decode exactly when each untagged child does, and field `i` is then the decoding of child `i`. |
| Compounds.DecodeBodyField | src/union.rs:15-25 | The variant is chosen by tag, and a tag outside the table is an error. The payload of each variant is stated by the four `BodyFieldIs` lemmas below. |
| Compounds.BodyFieldIsField | src/union.rs:15-25 | A `field` child decodes exactly when the field decoder succeeds, and the entry then holds that field. |
| Compounds.BodyFieldIsUnion | src/union.rs:15-25 | A `union` child decodes exactly when the union decoder succeeds, and the entry then holds that union. |
| Compounds.BodyFieldIsRecord | src/record.rs:14-28 | A `record` child decodes exactly when the record decoder succeeds, and the entry then holds that record. |
| Compounds.BodyFieldIsCallback | src/record.rs:14-28 | A `callback` child decodes exactly when the callback decoder succeeds, and the entry then holds that callback. |
| Compounds.RecordTableOmitsMethodInline | src/record.rs:94-96 | No declaration in the record table names `method-inline`. |
| Compounds.UnionTableOmitsInlineMethods | src/union.rs:79-80 | No declaration in the union table names `inline-methods`. |
| Compounds.RecordRejectsMethodInline | src/record.rs:95 | A record with a `method-inline` child is rejected. |
| Compounds.UnionRejectsInlineMethods | src/union.rs:80 | A union with an `inline-methods` child is rejected, because the union spells the tag `method-inline`. |
| Compounds.RecordFlagsDefault | src/record.rs:111-125 | `is_disguised`, `is_opaque`, `is_pointer` and `is_foreign` default to false. |
| Interfaces.DecodePrerequisite | src/interface.rs:20-32 | `prerequisite` decodes exactly when it conforms, and keeps its name. |
| Interfaces.DecodeInterface | src/interface.rs:49-126 | A decoded interface conforms and holds exactly the info, documentation, attributes, prerequisites, implements, callable lists, members and fields those reads yield. `name`, `glib:type-name` and `glib:get-type` are required, and an interface missing one is rejected. `c:symbol-prefix`, `c:type` and `glib:type-struct` are kept verbatim. |
| Interfaces.InterfaceDecodes | src/interface.rs:49-126 | An interface decodes exactly when it conforms and its info, documentation, attributes, prerequisites, implements, callable lists, members and fields all decode. |
| Interfaces.InterfaceTableRequires | src/interface.rs:49-62 | The interface table requires `name`, `glib:type-name` and `glib:get-type`. |
| Interfaces.PrerequisitesInOrder | src/interface.rs:91 | Prerequisite `i` is named by the `i`-th `prerequisite` child. |
| Interfaces.InterfaceRejectsUnknownAttr | src/interface.rs:50-51 | An interface with an undeclared attribute is rejected. |
| Repositories.NamespaceInclude.AsPackage | src/repository.rs:18-20 | The package name is the include's name, a dash, and the printed version. |
| Repositories.NamespaceInclude.AsPackageFile | src/repository.rs:22-24 | The package file is the package name followed by ".gir". |
| Repositories.DisplayHasNoDash | src/version.rs:67-76 | A printed version contains no dash. |
| Repositories.SplitAtLastDash | src/repository.rs:19 | Joining with a dash is injective when the right part has no dash. |
| Repositories.AsPackageInjective | src/repository.rs:18-20 | Includes with the same package name have the same name and print the same version. |
| Repositories.AsPackageFileInjective | src/repository.rs:22-24 | Includes with the same package file have the same name and print the same version, so a cache key names one namespace. |
| Repositories.DecodeNamespaceInclude | src/repository.rs:7-15 | An include decodes exactly when it conforms (`name` and `version` required), and its version is the lenient parse of the attribute. |
| Repositories.DecodeHeaderInclude | src/repository.rs:35-47 | `c:include` decodes exactly when it conforms, and keeps its name. |
| Repositories.DecodePackage | src/repository.rs:49-61 | `package` decodes exactly when it conforms, and keeps its name. |
| Repositories.ParseDocFormat | src/repository.rs:93-102 | The parse succeeds exactly on the five literals, and the format it yields prints back as the input. |
| Repositories.DocFormatRoundTrip | src/repository.rs:81-102 | Every format's literal parses back to it. |
| Repositories.DecodeDocFormat | src/repository.rs:63-69 | `doc:format` decodes exactly when it conforms and its `name` is one of the five literals, and the format read prints as that attribute. |
| Repositories.Prefixes | src/repository.rs:185-201 | An absent or empty prefix attribute gives no prefixes. Otherwise the comma-free pieces joined by commas give back the attribute. |
| Repositories.PrefixesOfJoin | src/repository.rs:185-201 | Comma-joined comma-free prefixes are split back into exactly those prefixes. |
| Repositories.DecodeRepository | src/repository.rs:105-133 | The repository decodes exactly when it conforms and its `include`, `c:include`, `package` and `doc:format` children decode. The `namespace` child is required. The version is read leniently, the prefixes are kept, and each list is its children decoded in order. |
| Repositories.FormatOfRepository | src/repository.rs:219-221 | `doc_format` is `Unknown` when there is no `doc:format` child, and otherwise the decoded format. |
| Repositories.IncludesInOrder | src/repository.rs:203-205 | Include `i` is named by the `i`-th `include` child. |
| Resolution.ReadFile | src/repository.rs:175-179 | Reading succeeds exactly when the file is a document that decodes. An unreadable file is an `IO` error, and a decoding failure is an `Xml` error. |
| Resolution.ReadAll | src/repository.rs:175-179 | The listing has the directory's files, each mapped to its read result. |
| Resolution.FromPath | src/repository.rs:175-179 | A missing file is a "not found" I/O error, and a present one gives its read result. |
| Resolution.FromPathReadsFile | src/repository.rs:175-179 | Looking a file up in a directory's listing is reading that file. |
| Resolution.ResolveFuelMonotone | src/repository.rs:136-164 | Once the resolution finishes with some fuel, more fuel gives the same outcome. |
| Resolution.ResolveIncludesFuelMonotone | src/repository.rs:145-153 | The same holds for the loop over a file's includes. |
| Resolution.AcyclicResolves | src/repository.rs:136-164 | When every include has a lower rank than its includer, resolution finishes. |
| Resolution.AcyclicResolvesIncludes | src/repository.rs:145-153 | Under the same condition, the loop over the includes finishes. |
| Resolution.CycleDiverges | src/repository.rs:145-153 | Two uncached files that include each other never finish resolving, whatever the fuel, so the insert at line 162 is never reached. |
| Resolution.ExtendsTransitive | src/repository.rs:162 | Growing the cache with files read from the directory is transitive. |
| Resolution.StepThenReach | src/repository.rs:145-153 | A file reachable from an include of a file is reachable from that file. |
| Resolution.ResolveAddedByIncludes | src/repository.rs:141-162 | An entry a resolution adds, other than the file itself, was added by the loop over that file's includes, which ran and finished. |
| Resolution.ResolveAddsReachable | src/repository.rs:136-164 | Every file a resolution adds to the cache is reachable from the requested file. |
| Resolution.ResolveIncludesAddsReachable | src/repository.rs:145-153 | Every file the loop over the includes adds is reachable from the includer. |
| Resolution.ResolveNewClosed | src/repository.rs:136-164 | Every include of a newly cached file is cached too. |
| Resolution.ResolveIncludesNewClosed | src/repository.rs:145-153 | The same holds for the loop over the includes. |
| Resolution.NewClosedTransitive | src/repository.rs:145-153 | Two successive closed growths of the cache make one closed growth. |
| Resolution.ClosedHoldsReachable | src/repository.rs:136-173 | A cache closed under includes that holds a file holds every file reachable from it. |
| Resolution.ResolveExtends | src/repository.rs:136-164 | Resolution only adds entries, each holding what the directory gives for that file, and never changes an existing one. |
| Resolution.ResolveIncludesExtends | src/repository.rs:145-153 | The loop over the includes only adds such entries. |
| Resolution.ResolvedIsCached | src/repository.rs:142-162 | After a success the file is cached. If it was not cached before, the package file of every include it names is cached too. |
| Resolution.ResolveIncludesCached | src/repository.rs:145-153 | After a successful loop, every include's package file is cached. |
| Resolution.ReadBeforeCache | src/repository.rs:141-144 | The file is read before the cache is consulted. A read error is returned with the cache untouched even when the file is cached, and a cached file returns `Ok` at once. |
| Resolution.IncludesStep | src/repository.rs:145-153 | One iteration of the loop: a cached include is skipped, an uncached one is resolved, and an error ends the loop with the cache as it stands. |
| Resolution.RepositoryCache.constructor | src/repository.rs:170 | A new cache is empty. |
| Resolution.RepositoryCache.FollowNamespaces | src/repository.rs:136-164 | The in-place algorithm returns the result, and leaves the cache, that the specification `Resolve` gives from the old cache. |
| Resolution.RepositoryCache.FollowIncludes | src/repository.rs:145-153 | The loop over the includes leaves the result and the cache that `ResolveIncludes` gives. |
| Resolution.FromPathFollowNamespaces | src/repository.rs:166-173 | Starting from an empty cache, an acyclic directory always finishes. The result is the cache when resolution succeeds, and the error when it fails. A successful cache holds exactly the files reachable from the requested one through includes. |
| Resolution.FreshResolution | src/repository.rs:166-173 | A successful fresh resolution caches the requested file, every entry is a file of the directory holding its own parse, and the cached files are exactly those reachable from the requested one through includes. |
| Resolution.TwoFileExample | src/repository.rs:136-173 | A file `a` that includes a file `b` with no includes resolves, with two units of fuel, to the cache holding exactly `a` and `b` with their parses. |

## Left out

- The XML library's internals are not visible, so these are not modelled:
  - tokenising;
  - whitespace handling and text concatenation;
  - the exact literals accepted for booleans and unsigned numbers. The decoders take those two parsers as the parameter `Xml.Scalars`.
- The XML library's handling of duplicate single children is not visible. The model reads the first match.
- The root tag of a top-level document is not checked. A nested element is read by its parent's declaration.
- `type_` of `Parameter`, `Property` and `Constant` is an enum (`ParameterType` or `AnyType`) declared as a `type` child (src/parameter.rs:119-120, src/property.rs:56-57, src/constant.rs:47-48). The model decodes the first `type` child and reads it as the `Type` variant. Because the declared tag is `type`, an `<array>` child in these places is not read as the `Array` variant. How the XML library dispatches an enum behind one child tag is not visible.
- src/namespace.rs is not part of this model. `Namespace` is kept as its raw element.
- src/enums.rs is not part of this model. `Enumeration` is kept as its raw element.
- src/array.rs is not part of this model. `Array` is kept as its raw element.
- src/signal.rs is not part of this model. `Signal` is kept as its raw element.
- The `impl_function_like!` macro is not part of this model. Its `parameters()` and `return_value()` are taken to return the stored fields.
- A parameter reads only its `type` child, so an `<array>` or `<varargs>` child of a parameter is ignored. `Parameters.DecodeParameterType` keeps an array only as its raw element.
- Real file reading and path joining are not modelled. A directory is a `Resolution.Directory` of files, each unreadable or holding a document root, and is read into a `Listing` of results.
- The text of an operating-system I/O error is not modelled. Only "not found" and an opaque message are distinguished.
- The `debug_assert_eq!` at src/repository.rs:154-161 checks that the file name matches the namespace it holds. It is debug-only and is not modelled.
- An include cycle makes the source recurse until the stack runs out. The model gives the resolution function fuel and represents that case as `None` (`Resolution.CycleDiverges`). The method is proved only under an acyclic rank, so the overflow itself is not modelled.
- `Repositories.ParseDocFormat` follows the code, not the crate's description: an unknown `doc:format` literal is an error (src/repository.rs:100). It does not fall back to `Unknown`. Only an absent `doc:format` child gives `Unknown`.
- The `Debug`, `Clone`, `Hash` and `std::error::Error` derivations are not modelled, and neither are the plain field accessors that return a stored value unchanged.
- bin/playground.rs is not part of this model. It only walks a directory and prints summaries.
- `HashMap` iteration order is not modelled. The cache is a `map`.
