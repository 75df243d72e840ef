/** A function-pointer type (src/callback.rs). */
module Callbacks {
  import opened Wrappers
  import opened Xml
  import opened Attributes
  import opened Traits
  import opened Parameters
  import opened ReturnValues

  datatype Callback = Callback(
    name: string,
    cType: Option<string>,
    throws: Option<bool>,
    info: Info,
    docs: DocGroup,
    attributes: seq<Attribute>,
    returnValue: ReturnValue,
    parameters: Parameters)

  /** Strict; a return value is required and the parameters default to none. */
  const CallbackTable := Table("callback", true,
    [AttrDecl("name", Required), AttrDecl("c:type", Optional), AttrDecl("throws", Optional)]
    + InfoDecls + DocDecls + AttributeDecls
    + [ChildDecl("return-value", Required), ChildDecl("parameters", Defaulted)])

  function DecodeCallback(sc: Scalars, e: Element): (r: Result<Callback, string>)
    ensures r.Ok? ==> Conforms(CallbackTable, e)
    ensures Attr(e, "name").None? || Children(e, "return-value") == [] ==> r.Err?
    ensures r.Ok? ==> Attr(e, "name") == Some(r.value.name) && r.value.cType == Attr(e, "c:type")
    ensures r.Ok? && Children(e, "parameters") == [] ==> r.value.parameters.IsEmpty()
  {
    CallbackTableRequires();
    var _ :- Validate(CallbackTable, e);
    var throws :- OptionalBool(sc, e, "throws");
    var info :- DecodeInfo(sc, e);
    var docs :- DecodeDocs(e);
    var attributes :- DecodeAttributes(e);
    var returnValue :- DecodeReturnValue(sc, RequiredChild(CallbackTable, e, "return-value"));
    var parameters :- DecodeParametersOrDefault(sc, e);
    Ok(Callback(RequiredAttr(CallbackTable, e, "name"), Attr(e, "c:type"), throws,
                info, docs, attributes, returnValue, parameters))
  }

  /** The callback table demands a name and a return value. */
  lemma CallbackTableRequires()
    ensures AttrDecl("name", Required) in CallbackTable.decls
    ensures ChildDecl("return-value", Required) in CallbackTable.decls
  {
    assert CallbackTable.decls[0] == AttrDecl("name", Required);
  }

  /** A callback decodes exactly when it conforms and each of its parts decodes; each part is kept as decoded. */
  lemma CallbackDecodes(sc: Scalars, e: Element)
    ensures DecodeCallback(sc, e).Ok? <==>
              && Conforms(CallbackTable, e) && OptionalBool(sc, e, "throws").Ok?
              && DecodeInfo(sc, e).Ok? && DecodeDocs(e).Ok? && DecodeAttributes(e).Ok?
              && Children(e, "return-value") != [] && DecodeReturnValue(sc, Children(e, "return-value")[0]).Ok?
              && DecodeParametersOrDefault(sc, e).Ok?
    ensures DecodeCallback(sc, e).Ok? ==>
              var c := DecodeCallback(sc, e).value;
              && OptionalBool(sc, e, "throws") == Ok(c.throws)
              && DecodeInfo(sc, e) == Ok(c.info) && DecodeDocs(e) == Ok(c.docs)
              && DecodeAttributes(e) == Ok(c.attributes)
  {
    CallbackTableRequires();
  }

  /** The return value is the first `<return-value>` child decoded. */
  lemma CallbackReturnValue(sc: Scalars, e: Element)
    requires DecodeCallback(sc, e).Ok?
    ensures Children(e, "return-value") != []
    ensures DecodeReturnValue(sc, Children(e, "return-value")[0]) == Ok(DecodeCallback(sc, e).value.returnValue)
  {
    assert Validate(CallbackTable, e).Ok?;
    assert OptionalBool(sc, e, "throws").Ok?;
    assert DecodeInfo(sc, e).Ok?;
    assert DecodeDocs(e).Ok?;
    assert DecodeAttributes(e).Ok?;
    assert ChildDecl("return-value", Required) in CallbackTable.decls;
    var rv := RequiredChild(CallbackTable, e, "return-value");
    assert DecodeReturnValue(sc, rv).Ok?;
  }

  /** The parameters are the `<parameters>` child decoded, or none without one. */
  lemma CallbackParameters(sc: Scalars, e: Element)
    requires DecodeCallback(sc, e).Ok?
    ensures DecodeParametersOrDefault(sc, e) == Ok(DecodeCallback(sc, e).value.parameters)
  {
    assert Validate(CallbackTable, e).Ok?;
    assert OptionalBool(sc, e, "throws").Ok?;
    assert DecodeInfo(sc, e).Ok?;
    assert DecodeDocs(e).Ok?;
    assert DecodeAttributes(e).Ok?;
  }
}
