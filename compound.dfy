/**
 * Records and unions (src/record.rs, src/union.rs). Both hold the common
 * info, documentation and annotations, five lists of callables, and an
 * untagged list of fields in document order, where a field may itself be a
 * nested union or record. The two therefore decode by mutual recursion
 * over the element tree. A record lists its inline methods under the tag
 * `inline-methods`, a union under `method-inline`.
 */
module Compounds {
  import opened Wrappers
  import opened Xml
  import opened Attributes
  import opened Traits
  import opened Callbacks
  import opened Fields
  import opened Functions
  import opened Methods

  /** A member of a compound's untagged field list; the element's tag selects the variant. */
  datatype BodyField =
    | FieldEntry(field: Field)
    | UnionEntry(union: Union)
    | RecordEntry(record: Record)
    | CallbackEntry(callback: Callback)

  type RecordField = BodyField
  type UnionField = BodyField

  const BodyFieldTags := {"field", "union", "record", "callback"}

  /** The four kinds of field entry, one per tag. */
  datatype FieldKind = FieldKind | UnionKind | RecordKind | CallbackKind

  function KindTag(k: FieldKind): string
  {
    match k
    case FieldKind => "field"
    case UnionKind => "union"
    case RecordKind => "record"
    case CallbackKind => "callback"
  }

  /** The kind a tag selects, if any: the inverse of `KindTag` on the field tags. */
  function KindOf(tag: string): (r: Option<FieldKind>)
    ensures r.Some? <==> tag in BodyFieldTags
    ensures r.Some? ==> KindTag(r.value) == tag
  {
    if tag == "field" then Some(FieldKind)
    else if tag == "union" then Some(UnionKind)
    else if tag == "record" then Some(RecordKind)
    else if tag == "callback" then Some(CallbackKind)
    else None
  }

  lemma KindOfTag(k: FieldKind)
    ensures KindOf(KindTag(k)) == Some(k)
  {
  }

  /** The kind of a decoded field entry. */
  function KindOfEntry(f: BodyField): FieldKind
  {
    match f
    case FieldEntry(_) => FieldKind
    case UnionEntry(_) => UnionKind
    case RecordEntry(_) => RecordKind
    case CallbackEntry(_) => CallbackKind
  }

  /** The tag a field entry is read from. */
  function TagOf(f: BodyField): (tag: string)
    ensures tag in BodyFieldTags
  {
    KindTag(KindOfEntry(f))
  }

  /** The callables a compound type carries, each list in document order. */
  datatype CallableLists = CallableLists(
    constructors: seq<Function>,
    functions: seq<Function>,
    inlineFunctions: seq<FunctionInline>,
    methods: seq<Method>,
    inlineMethods: seq<MethodInline>)

  /** The child declarations of the callable lists; `inlineMethodTag` names the inline methods' tag. */
  function CallableListDecls(inlineMethodTag: string): seq<Decl>
  {
    [ChildDecl("constructor", Repeated), ChildDecl("function", Repeated),
     ChildDecl("function-inline", Repeated), ChildDecl("method", Repeated),
     ChildDecl(inlineMethodTag, Repeated)]
  }

  /** Each list holds the children under its tag in document order, each decoded by its own element decoder. */
  function DecodeCallableLists(sc: Scalars, e: Element, inlineMethodTag: string): (r: Result<CallableLists, string>)
    ensures r.Ok? ==> AllChildren(e, "constructor", DecodeFunctionWith(sc)) == Ok(r.value.constructors)
    ensures r.Ok? ==> AllChildren(e, "function", DecodeFunctionWith(sc)) == Ok(r.value.functions)
    ensures r.Ok? ==> AllChildren(e, "function-inline", DecodeFunctionInlineWith(sc)) == Ok(r.value.inlineFunctions)
    ensures r.Ok? ==> AllChildren(e, "method", DecodeMethodWith(sc)) == Ok(r.value.methods)
    ensures r.Ok? ==> AllChildren(e, inlineMethodTag, DecodeMethodInlineWith(sc)) == Ok(r.value.inlineMethods)
    ensures r.Ok? <==> && AllChildren(e, "constructor", DecodeFunctionWith(sc)).Ok?
                       && AllChildren(e, "function", DecodeFunctionWith(sc)).Ok?
                       && AllChildren(e, "function-inline", DecodeFunctionInlineWith(sc)).Ok?
                       && AllChildren(e, "method", DecodeMethodWith(sc)).Ok?
                       && AllChildren(e, inlineMethodTag, DecodeMethodInlineWith(sc)).Ok?
  {
    var constructors :- AllChildren(e, "constructor", DecodeFunctionWith(sc));
    var functions :- AllChildren(e, "function", DecodeFunctionWith(sc));
    var inlineFunctions :- AllChildren(e, "function-inline", DecodeFunctionInlineWith(sc));
    var methods :- AllChildren(e, "method", DecodeMethodWith(sc));
    var inlineMethods :- AllChildren(e, inlineMethodTag, DecodeMethodInlineWith(sc));
    Ok(CallableLists(constructors, functions, inlineFunctions, methods, inlineMethods))
  }

  datatype Record = Record(
    name: Option<string>,
    cType: Option<string>,
    disguised: Option<bool>,
    pointer: Option<bool>,
    opaqueFlag: Option<bool>,
    foreign: Option<bool>,
    gIsGtypeStructFor: Option<string>,
    gTypeName: Option<string>,
    gGetType: Option<string>,
    symbolPrefix: Option<string>,
    copyFunction: Option<string>,
    freeFunction: Option<string>,
    info: Info,
    docs: DocGroup,
    attributes: seq<Attribute>,
    callables: CallableLists,
    fields: seq<RecordField>)
  {
    /** Each flag holds only when the record says so. */
    function IsDisguised(): bool { disguised.GetOr(false) }
    function IsOpaque(): bool { opaqueFlag.GetOr(false) }
    function IsPointer(): bool { pointer.GetOr(false) }
    function IsForeign(): bool { foreign.GetOr(false) }
  }

  datatype Union = Union(
    name: Option<string>,
    cType: Option<string>,
    cSymbolPrefix: Option<string>,
    gTypeName: Option<string>,
    gGetType: Option<string>,
    copyFunction: Option<string>,
    freeFunction: Option<string>,
    info: Info,
    docs: DocGroup,
    attributes: seq<Attribute>,
    callables: CallableLists,
    fields: seq<UnionField>)

  const RecordInlineMethodTag := "inline-methods"
  const UnionInlineMethodTag := "method-inline"

  const RecordTable := Table("record", true,
    [AttrDecl("name", Optional), AttrDecl("c:type", Optional), AttrDecl("disguised", Optional),
     AttrDecl("pointer", Optional), AttrDecl("opaque", Optional), AttrDecl("foreign", Optional),
     AttrDecl("glib:is-gtype-struct-for", Optional), AttrDecl("glib:type-name", Optional),
     AttrDecl("glib:get-type", Optional), AttrDecl("c:symbol-prefix", Optional),
     AttrDecl("copy-function", Optional), AttrDecl("free-function", Optional)]
    + InfoDecls + DocDecls + AttributeDecls + CallableListDecls(RecordInlineMethodTag)
    + [UntagDecl(BodyFieldTags, Repeated)])

  const UnionTable := Table("union", true,
    [AttrDecl("name", Optional), AttrDecl("c:type", Optional), AttrDecl("c:symbol-prefix", Optional),
     AttrDecl("glib:type-name", Optional), AttrDecl("glib:get-type", Optional),
     AttrDecl("copy-function", Optional), AttrDecl("free-function", Optional)]
    + InfoDecls + DocDecls + AttributeDecls + CallableListDecls(UnionInlineMethodTag)
    + [UntagDecl(BodyFieldTags, Repeated)])

  /** The field entries of an element: its children under the four field tags, in document order. */
  function FieldElements(e: Element): (cs: seq<Element>)
    ensures forall c :: c in cs ==> c in e.children && c.tag in BodyFieldTags
  {
    Select(e.children, BodyFieldTags)
  }

  function DecodeRecord(sc: Scalars, e: Element): (r: Result<Record, string>)
    ensures r.Ok? ==> Conforms(RecordTable, e)
    ensures r.Ok? ==> OptionalBool(sc, e, "disguised") == Ok(r.value.disguised)
    ensures r.Ok? ==> OptionalBool(sc, e, "pointer") == Ok(r.value.pointer)
    ensures r.Ok? ==> OptionalBool(sc, e, "opaque") == Ok(r.value.opaqueFlag)
    ensures r.Ok? ==> OptionalBool(sc, e, "foreign") == Ok(r.value.foreign)
    ensures r.Ok? ==> r.value.name == Attr(e, "name") && r.value.cType == Attr(e, "c:type")
    ensures r.Ok? ==> && r.value.gIsGtypeStructFor == Attr(e, "glib:is-gtype-struct-for")
                      && r.value.gTypeName == Attr(e, "glib:type-name") && r.value.gGetType == Attr(e, "glib:get-type")
    ensures r.Ok? ==> && r.value.symbolPrefix == Attr(e, "c:symbol-prefix")
                      && r.value.copyFunction == Attr(e, "copy-function") && r.value.freeFunction == Attr(e, "free-function")
    ensures r.Ok? ==> |r.value.fields| == |FieldElements(e)|
    ensures r.Ok? ==> forall i :: 0 <= i < |r.value.fields| ==> TagOf(r.value.fields[i]) == FieldElements(e)[i].tag
    decreases e, 2
  {
    var _ :- Validate(RecordTable, e);
    var disguised :- OptionalBool(sc, e, "disguised");
    var pointer :- OptionalBool(sc, e, "pointer");
    var opaqueFlag :- OptionalBool(sc, e, "opaque");
    var foreign :- OptionalBool(sc, e, "foreign");
    var info :- DecodeInfo(sc, e);
    var docs :- DecodeDocs(e);
    var attributes :- DecodeAttributes(e);
    var callables :- DecodeCallableLists(sc, e, RecordInlineMethodTag);
    var fields :- DecodeBodyFields(sc, e, FieldElements(e));
    Ok(Record(Attr(e, "name"), Attr(e, "c:type"), disguised, pointer, opaqueFlag, foreign,
              Attr(e, "glib:is-gtype-struct-for"), Attr(e, "glib:type-name"), Attr(e, "glib:get-type"),
              Attr(e, "c:symbol-prefix"), Attr(e, "copy-function"), Attr(e, "free-function"),
              info, docs, attributes, callables, fields))
  }

  function DecodeUnion(sc: Scalars, e: Element): (r: Result<Union, string>)
    ensures r.Ok? ==> Conforms(UnionTable, e)
    ensures r.Ok? ==> r.value.name == Attr(e, "name") && r.value.cType == Attr(e, "c:type")
    ensures r.Ok? ==> && r.value.cSymbolPrefix == Attr(e, "c:symbol-prefix")
                      && r.value.gTypeName == Attr(e, "glib:type-name") && r.value.gGetType == Attr(e, "glib:get-type")
    ensures r.Ok? ==> r.value.copyFunction == Attr(e, "copy-function") && r.value.freeFunction == Attr(e, "free-function")
    ensures r.Ok? ==> |r.value.fields| == |FieldElements(e)|
    ensures r.Ok? ==> forall i :: 0 <= i < |r.value.fields| ==> TagOf(r.value.fields[i]) == FieldElements(e)[i].tag
    decreases e, 2
  {
    var _ :- Validate(UnionTable, e);
    var info :- DecodeInfo(sc, e);
    var docs :- DecodeDocs(e);
    var attributes :- DecodeAttributes(e);
    var callables :- DecodeCallableLists(sc, e, UnionInlineMethodTag);
    var fields :- DecodeBodyFields(sc, e, FieldElements(e));
    Ok(Union(Attr(e, "name"), Attr(e, "c:type"), Attr(e, "c:symbol-prefix"),
             Attr(e, "glib:type-name"), Attr(e, "glib:get-type"),
             Attr(e, "copy-function"), Attr(e, "free-function"),
             info, docs, attributes, callables, fields))
  }

  /** A record decodes exactly when it conforms and each of its parts decodes; each part is kept as decoded. */
  lemma RecordDecodes(sc: Scalars, e: Element)
    ensures DecodeRecord(sc, e).Ok? <==>
              && Conforms(RecordTable, e)
              && OptionalBool(sc, e, "disguised").Ok? && OptionalBool(sc, e, "pointer").Ok?
              && OptionalBool(sc, e, "opaque").Ok? && OptionalBool(sc, e, "foreign").Ok?
              && DecodeInfo(sc, e).Ok? && DecodeDocs(e).Ok? && DecodeAttributes(e).Ok?
              && DecodeCallableLists(sc, e, RecordInlineMethodTag).Ok?
              && DecodeBodyFields(sc, e, FieldElements(e)).Ok?
    ensures DecodeRecord(sc, e).Ok? ==>
              var r := DecodeRecord(sc, e).value;
              && DecodeInfo(sc, e) == Ok(r.info) && DecodeDocs(e) == Ok(r.docs)
              && DecodeAttributes(e) == Ok(r.attributes)
              && DecodeCallableLists(sc, e, RecordInlineMethodTag) == Ok(r.callables)
              && DecodeBodyFields(sc, e, FieldElements(e)) == Ok(r.fields)
  {
  }

  /** A union decodes exactly when it conforms and each of its parts decodes; each part is kept as decoded. */
  lemma UnionDecodes(sc: Scalars, e: Element)
    ensures DecodeUnion(sc, e).Ok? <==>
              && Conforms(UnionTable, e)
              && DecodeInfo(sc, e).Ok? && DecodeDocs(e).Ok? && DecodeAttributes(e).Ok?
              && DecodeCallableLists(sc, e, UnionInlineMethodTag).Ok?
              && DecodeBodyFields(sc, e, FieldElements(e)).Ok?
    ensures DecodeUnion(sc, e).Ok? ==>
              var u := DecodeUnion(sc, e).value;
              && DecodeInfo(sc, e) == Ok(u.info) && DecodeDocs(e) == Ok(u.docs)
              && DecodeAttributes(e) == Ok(u.attributes)
              && DecodeCallableLists(sc, e, UnionInlineMethodTag) == Ok(u.callables)
              && DecodeBodyFields(sc, e, FieldElements(e)) == Ok(u.fields)
  {
  }

  lemma RecordTableOmitsMethodInline()
    ensures !DeclaresChild(RecordTable, UnionInlineMethodTag)
  {
    assert forall d :: d in InfoDecls ==> !NamesChild(d, UnionInlineMethodTag);
    assert forall d :: d in DocDecls ==> !NamesChild(d, UnionInlineMethodTag);
    assert forall d :: d in AttributeDecls ==> !NamesChild(d, UnionInlineMethodTag);
    assert forall d :: d in CallableListDecls(RecordInlineMethodTag) ==> !NamesChild(d, UnionInlineMethodTag);
    forall d | d in RecordTable.decls
      ensures !NamesChild(d, UnionInlineMethodTag)
    {
      if d in InfoDecls { } else if d in DocDecls { } else if d in AttributeDecls { }
      else if d in CallableListDecls(RecordInlineMethodTag) { }
    }
  }

  lemma UnionTableOmitsInlineMethods()
    ensures !DeclaresChild(UnionTable, RecordInlineMethodTag)
  {
    assert forall d :: d in InfoDecls ==> !NamesChild(d, RecordInlineMethodTag);
    assert forall d :: d in DocDecls ==> !NamesChild(d, RecordInlineMethodTag);
    assert forall d :: d in AttributeDecls ==> !NamesChild(d, RecordInlineMethodTag);
    assert forall d :: d in CallableListDecls(UnionInlineMethodTag) ==> !NamesChild(d, RecordInlineMethodTag);
    forall d | d in UnionTable.decls
      ensures !NamesChild(d, RecordInlineMethodTag)
    {
      if d in InfoDecls { } else if d in DocDecls { } else if d in AttributeDecls { }
      else if d in CallableListDecls(UnionInlineMethodTag) { }
    }
  }

  /** A record lists its inline methods under `inline-methods`: a union's `method-inline` child is unknown to it. */
  lemma RecordRejectsMethodInline(sc: Scalars, e: Element)
    requires Children(e, UnionInlineMethodTag) != []
    ensures DecodeRecord(sc, e).Err?
  {
    RecordTableOmitsMethodInline();
    UndeclaredChildBreaks(RecordTable, e, Children(e, UnionInlineMethodTag)[0]);
  }

  /** And a union lists them under `method-inline`: an `inline-methods` child is unknown to it. */
  lemma UnionRejectsInlineMethods(sc: Scalars, e: Element)
    requires Children(e, RecordInlineMethodTag) != []
    ensures DecodeUnion(sc, e).Err?
  {
    UnionTableOmitsInlineMethods();
    UndeclaredChildBreaks(UnionTable, e, Children(e, RecordInlineMethodTag)[0]);
  }

  /** A record's flags are false unless it sets them. */
  lemma RecordFlagsDefault(sc: Scalars, e: Element)
    requires DecodeRecord(sc, e).Ok?
    ensures Attr(e, "disguised").None? ==> !DecodeRecord(sc, e).value.IsDisguised()
    ensures Attr(e, "opaque").None? ==> !DecodeRecord(sc, e).value.IsOpaque()
    ensures Attr(e, "pointer").None? ==> !DecodeRecord(sc, e).value.IsPointer()
    ensures Attr(e, "foreign").None? ==> !DecodeRecord(sc, e).value.IsForeign()
  {
  }

  /** Decodes field entries in order; each keeps the variant its tag selects, and the first failure is the result. */
  function DecodeBodyFields(sc: Scalars, parent: Element, cs: seq<Element>): (r: Result<seq<BodyField>, string>)
    requires forall c :: c in cs ==> c in parent.children
    ensures r.Ok? ==> |r.value| == |cs|
    ensures r.Ok? ==> forall i :: 0 <= i < |cs| ==> TagOf(r.value[i]) == cs[i].tag
    decreases parent, 1, |cs|
  {
    if |cs| == 0 then Ok([])
    else
      assert cs[0] in parent.children;
      var first :- DecodeBodyField(sc, cs[0]);
      var rest :- DecodeBodyFields(sc, parent, cs[1..]);
      Ok([first] + rest)
  }

  /** The field list decodes exactly when every entry does, and each entry is its own `DecodeBodyField` result. */
  lemma {:induction false} BodyFieldsOneForOne(sc: Scalars, parent: Element, cs: seq<Element>)
    requires forall c :: c in cs ==> c in parent.children
    ensures DecodeBodyFields(sc, parent, cs).Ok? <==> forall i :: 0 <= i < |cs| ==> DecodeBodyField(sc, cs[i]).Ok?
    ensures DecodeBodyFields(sc, parent, cs).Ok? ==>
              forall i :: 0 <= i < |cs| ==> DecodeBodyField(sc, cs[i]) == Ok(DecodeBodyFields(sc, parent, cs).value[i])
    decreases |cs|
  {
    if |cs| > 0 {
      BodyFieldsOneForOne(sc, parent, cs[1..]);
      assert forall i :: 1 <= i < |cs| ==> cs[i] == cs[1..][i - 1];
    }
  }

  function FieldEntryOf(sc: Scalars, c: Element): (r: Result<BodyField, string>)
    ensures r.Ok? ==> r.value.FieldEntry?
  {
    var f :- DecodeField(sc, c);
    Ok(FieldEntry(f))
  }

  function UnionEntryOf(sc: Scalars, c: Element): (r: Result<BodyField, string>)
    ensures r.Ok? ==> r.value.UnionEntry?
    decreases c, 3
  {
    var u :- DecodeUnion(sc, c);
    Ok(UnionEntry(u))
  }

  function RecordEntryOf(sc: Scalars, c: Element): (r: Result<BodyField, string>)
    ensures r.Ok? ==> r.value.RecordEntry?
    decreases c, 3
  {
    var rec :- DecodeRecord(sc, c);
    Ok(RecordEntry(rec))
  }

  function CallbackEntryOf(sc: Scalars, c: Element): (r: Result<BodyField, string>)
    ensures r.Ok? ==> r.value.CallbackEntry?
  {
    var cb :- DecodeCallback(sc, c);
    Ok(CallbackEntry(cb))
  }

  /** One field entry, dispatched on its tag. */
  function DecodeBodyField(sc: Scalars, c: Element): (r: Result<BodyField, string>)
    ensures r.Ok? ==> TagOf(r.value) == c.tag
    ensures c.tag !in BodyFieldTags ==> r.Err?
    decreases c, 4
  {
    match KindOf(c.tag)
    case Some(FieldKind) => FieldEntryOf(sc, c)
    case Some(UnionKind) => UnionEntryOf(sc, c)
    case Some(RecordKind) => RecordEntryOf(sc, c)
    case Some(CallbackKind) => CallbackEntryOf(sc, c)
    case None => Err("unknown variant " + c.tag + " of a field list")
  }

  /** In a field list, a `field` child is read as a field: the entry decodes exactly when that decoder succeeds, and then holds its result. */
  lemma BodyFieldIsField(sc: Scalars, c: Element)
    ensures c.tag == "field" ==> (DecodeBodyField(sc, c).Ok? <==> DecodeField(sc, c).Ok?)
    ensures c.tag == "field" && DecodeBodyField(sc, c).Ok? ==> DecodeBodyField(sc, c) == Ok(FieldEntry(DecodeField(sc, c).value))
  {
    if c.tag == "field" {
      assert KindOf(c.tag) == Some(FieldKind);
    }
  }

  /** In a field list, a `union` child is read as a nested union: the entry decodes exactly when that decoder succeeds, and then holds its result. */
  lemma BodyFieldIsUnion(sc: Scalars, c: Element)
    ensures c.tag == "union" ==> (DecodeBodyField(sc, c).Ok? <==> DecodeUnion(sc, c).Ok?)
    ensures c.tag == "union" && DecodeBodyField(sc, c).Ok? ==> DecodeBodyField(sc, c) == Ok(UnionEntry(DecodeUnion(sc, c).value))
  {
    if c.tag == "union" {
      assert KindOf(c.tag) == Some(UnionKind);
    }
  }

  /** In a field list, a `record` child is read as a nested record: the entry decodes exactly when that decoder succeeds, and then holds its result. */
  lemma BodyFieldIsRecord(sc: Scalars, c: Element)
    ensures c.tag == "record" ==> (DecodeBodyField(sc, c).Ok? <==> DecodeRecord(sc, c).Ok?)
    ensures c.tag == "record" && DecodeBodyField(sc, c).Ok? ==> DecodeBodyField(sc, c) == Ok(RecordEntry(DecodeRecord(sc, c).value))
  {
    if c.tag == "record" {
      assert KindOf(c.tag) == Some(RecordKind);
    }
  }

  /** In a field list, a `callback` child is read as a callback: the entry decodes exactly when that decoder succeeds, and then holds its result. */
  lemma BodyFieldIsCallback(sc: Scalars, c: Element)
    ensures c.tag == "callback" ==> (DecodeBodyField(sc, c).Ok? <==> DecodeCallback(sc, c).Ok?)
    ensures c.tag == "callback" && DecodeBodyField(sc, c).Ok? ==> DecodeBodyField(sc, c) == Ok(CallbackEntry(DecodeCallback(sc, c).value))
  {
    if c.tag == "callback" {
      assert KindOf(c.tag) == Some(CallbackKind);
    }
  }
}
