/** GLib boxed types (src/boxed.rs): rooted at `glib:boxed`; only `glib:name` is required; strict. */
module Boxeds {
  import opened Wrappers
  import opened Xml
  import opened Attributes
  import opened Traits
  import opened Functions

  datatype Boxed = Boxed(
    gName: string,
    gTypeName: Option<string>,
    gGetType: Option<string>,
    symbolPrefix: Option<string>,
    foreign: Option<bool>,
    gIsGtypeStructFor: Option<string>,
    copyFunction: Option<string>,
    freeFunction: Option<string>,
    info: Info,
    docs: DocGroup,
    attributes: seq<Attribute>,
    functions: seq<Function>,
    inlineFunctions: seq<FunctionInline>)
  {
    /** Not foreign unless it says so. */
    function IsForeign(): bool { foreign.GetOr(false) }
  }

  const BoxedTable := Table("glib:boxed", true,
    [AttrDecl("glib:name", Required), AttrDecl("glib:type-name", Optional),
     AttrDecl("glib:get-type", Optional), AttrDecl("c:symbol-prefix", Optional),
     AttrDecl("foreign", Optional), AttrDecl("glib:is-gtype-struct-for", Optional),
     AttrDecl("copy-function", Optional), AttrDecl("free-function", Optional)]
    + InfoDecls + DocDecls + AttributeDecls
    + [ChildDecl("function", Repeated), ChildDecl("function-inline", Repeated)])

  function DecodeBoxed(sc: Scalars, e: Element): (r: Result<Boxed, string>)
    ensures Attr(e, "glib:name").None? ==> r.Err?
    ensures r.Ok? ==> Conforms(BoxedTable, e)
    ensures r.Ok? ==> Attr(e, "glib:name") == Some(r.value.gName)
    ensures r.Ok? ==> r.value.gTypeName == Attr(e, "glib:type-name") && r.value.gGetType == Attr(e, "glib:get-type")
    ensures r.Ok? ==> r.value.symbolPrefix == Attr(e, "c:symbol-prefix") && r.value.gIsGtypeStructFor == Attr(e, "glib:is-gtype-struct-for")
    ensures r.Ok? ==> r.value.copyFunction == Attr(e, "copy-function") && r.value.freeFunction == Attr(e, "free-function")
    ensures r.Ok? ==> DecodeInfo(sc, e) == Ok(r.value.info) && DecodeDocs(e) == Ok(r.value.docs)
    ensures r.Ok? ==> DecodeAttributes(e) == Ok(r.value.attributes)
    ensures r.Ok? && Attr(e, "foreign").None? ==> !r.value.IsForeign()
    ensures forall s, b :: Attr(e, "foreign") == Some(s) && sc.boolean(s) == Ok(b) && r.Ok? ==> r.value.IsForeign() == b
    ensures r.Ok? ==> AllChildren(e, "function", DecodeFunctionWith(sc)) == Ok(r.value.functions)
    ensures r.Ok? ==> AllChildren(e, "function-inline", DecodeFunctionInlineWith(sc)) == Ok(r.value.inlineFunctions)
    ensures r.Ok? <==> && Conforms(BoxedTable, e) && OptionalBool(sc, e, "foreign").Ok?
                       && DecodeInfo(sc, e).Ok? && DecodeDocs(e).Ok? && DecodeAttributes(e).Ok?
                       && AllChildren(e, "function", DecodeFunctionWith(sc)).Ok?
                       && AllChildren(e, "function-inline", DecodeFunctionInlineWith(sc)).Ok?
  {
    var _ :- Validate(BoxedTable, e);
    var foreign :- OptionalBool(sc, e, "foreign");
    var info :- DecodeInfo(sc, e);
    var docs :- DecodeDocs(e);
    var attributes :- DecodeAttributes(e);
    var functions :- AllChildren(e, "function", DecodeFunctionWith(sc));
    var inlineFunctions :- AllChildren(e, "function-inline", DecodeFunctionInlineWith(sc));
    Ok(Boxed(RequiredAttr(BoxedTable, e, "glib:name"), Attr(e, "glib:type-name"), Attr(e, "glib:get-type"),
             Attr(e, "c:symbol-prefix"), foreign, Attr(e, "glib:is-gtype-struct-for"),
             Attr(e, "copy-function"), Attr(e, "free-function"), info, docs, attributes,
             functions, inlineFunctions))
  }

  /** Strict: a child element the table does not declare makes the boxed type an error. */
  lemma BoxedRejectsUnknownChild(sc: Scalars, e: Element, c: Element)
    requires !DeclaresChild(BoxedTable, c.tag)
    ensures DecodeBoxed(sc, AddChild(e, c)).Err?
  {
    StrictRejectsChild(BoxedTable, e, c);
  }
}
