/**
 * Function-like C macros (src/function_macro.rs): callable attributes,
 * common info, documentation, annotations and a defaulted parameter list,
 * but no return value.
 */
module FunctionMacros {
  import opened Wrappers
  import opened Xml
  import opened Attributes
  import opened Traits
  import opened Parameters

  datatype FunctionMacro = FunctionMacro(
    callable: CallableAttrs,
    info: Info,
    docs: DocGroup,
    attributes: seq<Attribute>,
    parameters: Parameters)
  {
    /** The macro's own `throws` accessor reports the attribute as written, absent included. */
    function ThrowsAttr(): (r: Option<bool>)
      ensures r.None? ==> !callable.Throws()
      ensures r.Some? ==> callable.Throws() == r.value
    {
      callable.throws
    }
  }

  const FunctionMacroTable := Table("function-macro", true,
    CallableDecls + InfoDecls + DocDecls + AttributeDecls + [ChildDecl("parameters", Defaulted)])

  function DecodeFunctionMacro(sc: Scalars, e: Element): (r: Result<FunctionMacro, string>)
    ensures r.Ok? ==> Conforms(FunctionMacroTable, e)
    ensures Attr(e, "name").None? ==> r.Err?
    ensures r.Ok? ==> Attr(e, "name") == Some(r.value.callable.name)
    ensures r.Ok? ==> DecodeParametersOrDefault(sc, e) == Ok(r.value.parameters)
    ensures r.Ok? ==> Attr(e, "name").Some? && DecodeCallable(sc, e) == Ok(r.value.callable)
    ensures r.Ok? ==> DecodeInfo(sc, e) == Ok(r.value.info) && DecodeDocs(e) == Ok(r.value.docs)
    ensures r.Ok? ==> DecodeAttributes(e) == Ok(r.value.attributes)
    ensures r.Ok? && Attr(e, "throws").None? ==> r.value.ThrowsAttr().None?
    ensures r.Ok? <==> && Conforms(FunctionMacroTable, e) && Attr(e, "name").Some? && DecodeCallable(sc, e).Ok?
                       && DecodeInfo(sc, e).Ok? && DecodeDocs(e).Ok? && DecodeAttributes(e).Ok?
                       && DecodeParametersOrDefault(sc, e).Ok?
  {
    var _ :- Validate(FunctionMacroTable, e);
    assert Satisfied(AttrDecl("name", Required), e);
    var callable :- DecodeCallable(sc, e);
    var info :- DecodeInfo(sc, e);
    var docs :- DecodeDocs(e);
    var attributes :- DecodeAttributes(e);
    var parameters :- DecodeParametersOrDefault(sc, e);
    Ok(FunctionMacro(callable, info, docs, attributes, parameters))
  }

  /** A macro has no return value: a `<return-value>` child is an unknown element. */
  lemma FunctionMacroRejectsReturnValue(sc: Scalars, e: Element)
    requires Children(e, "return-value") != []
    ensures DecodeFunctionMacro(sc, e).Err?
  {
    assert !DeclaresChild(FunctionMacroTable, "return-value");
    UndeclaredChildBreaks(FunctionMacroTable, e, Children(e, "return-value")[0]);
  }
}
