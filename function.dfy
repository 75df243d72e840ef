/**
 * Free functions (src/function.rs). `Function` and `FunctionInline` hold
 * the same fields and differ only in the tag they are rooted at; methods,
 * virtual methods and callbacks share the same function-like shape: the
 * callable attributes, the common info, documentation and annotations, a
 * required return value and a parameter list.
 */
module Functions {
  import opened Wrappers
  import opened Xml
  import opened Attributes
  import opened Traits
  import opened Parameters
  import opened ReturnValues

  datatype FunctionLike = FunctionLike(
    callable: CallableAttrs,
    info: Info,
    docs: DocGroup,
    attributes: seq<Attribute>,
    returnValue: ReturnValue,
    parameters: Parameters)

  type Function = FunctionLike
  type FunctionInline = FunctionLike

  /** The fields of a function-like entity; `parameters` is the cardinality of its parameter list. */
  function FunctionLikeDecls(parameters: Card): seq<Decl>
  {
    CallableDecls + InfoDecls + DocDecls + AttributeDecls
    + [ChildDecl("return-value", Required), ChildDecl("parameters", parameters)]
  }

  /** A table whose fields include a required name and a required return value. */
  predicate FunctionLikeTable(t: Table)
  {
    AttrDecl("name", Required) in t.decls && ChildDecl("return-value", Required) in t.decls
  }

  /**
   * Reads the function-like fields: the name, the return value from the
   * first `<return-value>` child and the parameters from the first
   * `<parameters>` child, or none without one.
   */
  function ReadFunctionLike(sc: Scalars, e: Element): (r: Result<FunctionLike, string>)
    ensures Attr(e, "name").None? || Children(e, "return-value") == [] ==> r.Err?
    ensures r.Ok? ==> Attr(e, "name") == Some(r.value.callable.name)
    ensures r.Ok? && Children(e, "parameters") == [] ==> r.value.parameters.IsEmpty()
    ensures r.Ok? && Attr(e, "throws").None? ==> !r.value.callable.Throws()
    ensures r.Ok? && Attr(e, "introspectable").None? ==> r.value.info.IsIntrospectable()
    ensures r.Ok? ==> Attr(e, "name").Some? && DecodeCallable(sc, e) == Ok(r.value.callable)
    ensures r.Ok? ==> DecodeInfo(sc, e) == Ok(r.value.info) && DecodeDocs(e) == Ok(r.value.docs)
    ensures r.Ok? ==> DecodeAttributes(e) == Ok(r.value.attributes)
  {
    if Attr(e, "name").None? then Err("missing name in " + e.tag)
    else if Children(e, "return-value") == [] then Err("missing return-value in " + e.tag)
    else
    var callable :- DecodeCallable(sc, e);
    var info :- DecodeInfo(sc, e);
    var docs :- DecodeDocs(e);
    var attributes :- DecodeAttributes(e);
    var returnValue :- DecodeReturnValue(sc, Children(e, "return-value")[0]);
    var parameters :- DecodeParametersOrDefault(sc, e);
    Ok(FunctionLike(callable, info, docs, attributes, returnValue, parameters))
  }

  /** The function-like fields read exactly when the name and a return value are present and every group and child reads. */
  lemma FunctionLikeReads(sc: Scalars, e: Element)
    ensures ReadFunctionLike(sc, e).Ok? <==>
              && Attr(e, "name").Some? && Children(e, "return-value") != []
              && DecodeCallable(sc, e).Ok? && DecodeInfo(sc, e).Ok? && DecodeDocs(e).Ok?
              && DecodeAttributes(e).Ok? && DecodeReturnValue(sc, Children(e, "return-value")[0]).Ok?
              && DecodeParametersOrDefault(sc, e).Ok?
  {
  }

  /** The return value of a function-like entity is its first `<return-value>` child decoded. */
  lemma FunctionLikeReturnValue(sc: Scalars, e: Element)
    requires ReadFunctionLike(sc, e).Ok?
    ensures Children(e, "return-value") != []
    ensures DecodeReturnValue(sc, Children(e, "return-value")[0]) == Ok(ReadFunctionLike(sc, e).value.returnValue)
  {
    assert DecodeCallable(sc, e).Ok? && DecodeInfo(sc, e).Ok? && DecodeDocs(e).Ok? && DecodeAttributes(e).Ok?;
    assert DecodeReturnValue(sc, Children(e, "return-value")[0]).Ok?;
    assert DecodeParametersOrDefault(sc, e).Ok?;
    assert ReadFunctionLike(sc, e) == Ok(FunctionLike(DecodeCallable(sc, e).value, DecodeInfo(sc, e).value,
      DecodeDocs(e).value, DecodeAttributes(e).value, DecodeReturnValue(sc, Children(e, "return-value")[0]).value,
      DecodeParametersOrDefault(sc, e).value));
  }

  /** Its parameters are its `<parameters>` child decoded, or none without one. */
  lemma FunctionLikeParameters(sc: Scalars, e: Element)
    requires ReadFunctionLike(sc, e).Ok?
    ensures DecodeParametersOrDefault(sc, e) == Ok(ReadFunctionLike(sc, e).value.parameters)
  {
    assert DecodeCallable(sc, e).Ok? && DecodeInfo(sc, e).Ok? && DecodeDocs(e).Ok? && DecodeAttributes(e).Ok?;
  }

  /** Validates against `t`, then reads the function-like fields; a missing name or return value is an error. */
  function DecodeFunctionLike(sc: Scalars, t: Table, e: Element): (r: Result<FunctionLike, string>)
    requires FunctionLikeTable(t)
    ensures r.Ok? <==> Conforms(t, e) && ReadFunctionLike(sc, e).Ok?
    ensures Attr(e, "name").None? || Children(e, "return-value") == [] ==> r.Err?
    ensures r.Ok? ==> r == ReadFunctionLike(sc, e)
  {
    var _ :- Validate(t, e);
    assert Satisfied(AttrDecl("name", Required), e) && Satisfied(ChildDecl("return-value", Required), e);
    ReadFunctionLike(sc, e)
  }

  /** The table depends on nothing but its fields: the same element decodes the same under any root. */
  lemma DecodeFunctionLikeIgnoresRoot(sc: Scalars, t: Table, root: string, e: Element)
    requires FunctionLikeTable(t)
    ensures DecodeFunctionLike(sc, t.(root := root), e) == DecodeFunctionLike(sc, t, e)
  {
    ValidateIgnoresRoot(t, root, e);
  }

  const FunctionTable := Table("function", true, FunctionLikeDecls(Defaulted))
  const FunctionInlineTable := Table("function-inline", true, FunctionLikeDecls(Defaulted))

  function DecodeFunction(sc: Scalars, e: Element): (r: Result<Function, string>)
    ensures r.Ok? <==> Conforms(FunctionTable, e) && ReadFunctionLike(sc, e).Ok?
    ensures r.Ok? ==> r == ReadFunctionLike(sc, e)
    ensures r.Ok? ==> Attr(e, "name") == Some(r.value.callable.name)
    ensures r.Ok? && Children(e, "parameters") == [] ==> r.value.parameters.IsEmpty()
  {
    DecodeFunctionLike(sc, FunctionTable, e)
  }

  function DecodeFunctionInline(sc: Scalars, e: Element): (r: Result<FunctionInline, string>)
    ensures r.Ok? <==> Conforms(FunctionInlineTable, e) && ReadFunctionLike(sc, e).Ok?
    ensures r.Ok? ==> r == ReadFunctionLike(sc, e)
    ensures r.Ok? ==> Attr(e, "name") == Some(r.value.callable.name)
  {
    DecodeFunctionLike(sc, FunctionInlineTable, e)
  }

  function DecodeFunctionWith(sc: Scalars): Element -> Result<Function, string>
  {
    c => DecodeFunction(sc, c)
  }

  function DecodeFunctionInlineWith(sc: Scalars): Element -> Result<FunctionInline, string>
  {
    c => DecodeFunctionInline(sc, c)
  }

  /** A function and an inline function read the same element identically. */
  lemma FunctionInlineAgrees(sc: Scalars, e: Element)
    ensures DecodeFunctionInline(sc, e) == DecodeFunction(sc, e)
  {
    DecodeFunctionLikeIgnoresRoot(sc, FunctionTable, "function-inline", e);
  }

  /** Functions are strict: an attribute no field declares is an error. */
  lemma FunctionRejectsUnknownAttr(sc: Scalars, e: Element, k: string, v: string)
    requires !DeclaresAttr(FunctionTable, k)
    ensures DecodeFunction(sc, AddAttr(e, k, v)).Err?
  {
    StrictRejectsAttr(FunctionTable, e, k, v);
  }
}
