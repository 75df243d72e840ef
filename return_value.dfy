/** What a callable returns (src/return_value.rs). */
module ReturnValues {
  import opened Wrappers
  import opened Xml
  import opened Lib
  import opened Attributes
  import opened Traits
  import opened Types

  datatype ReturnValue = ReturnValue(
    introspectable: Option<bool>,
    nullable: Option<bool>,
    closure: Option<nat>,
    scope: Option<FunctionScope>,
    destroy: Option<nat>,
    skip: Option<bool>,
    allowNone: Option<bool>,
    transfer: Option<TransferOwnership>,
    docs: DocGroup,
    attributes: seq<Attribute>,
    ty: AnyType)
  {
    /** A return value is introspectable unless it says otherwise. */
    function IsIntrospectable(): bool { introspectable.GetOr(true) }
  }

  /** Strict; the type is an untagged `<type>` or `<array>` child and must be present. */
  const ReturnValueTable := Table("return-value", true,
    [AttrDecl("introspectable", Optional), AttrDecl("nullable", Optional),
     AttrDecl("closure", Optional), AttrDecl("scope", Optional),
     AttrDecl("destroy", Optional), AttrDecl("skip", Optional),
     AttrDecl("allow-none", Optional), AttrDecl("transfer-ownership", Optional)]
    + DocDecls + AttributeDecls + [UntagDecl(AnyTypeTags, Required)])

  function DecodeReturnValue(sc: Scalars, e: Element): (r: Result<ReturnValue, string>)
    ensures r.Ok? ==> Conforms(ReturnValueTable, e)
    ensures Select(e.children, AnyTypeTags) == [] ==> r.Err?
    ensures r.Ok? ==> DecodeAnyType(sc, Select(e.children, AnyTypeTags)[0]) == Ok(r.value.ty)
    ensures forall s :: Attr(e, "transfer-ownership") == Some(s) && ParseTransfer(s).Err? ==> r.Err?
    ensures forall s :: Attr(e, "scope") == Some(s) && ParseScope(s).Err? ==> r.Err?
    ensures r.Ok? && r.value.closure.Some? ==> r.value.closure.value <= UsizeMax
    ensures r.Ok? && r.value.destroy.Some? ==> r.value.destroy.value <= UsizeMax
    ensures Attr(e, "introspectable").None? && r.Ok? ==> r.value.IsIntrospectable()
    ensures r.Ok? ==> && OptionalAttr(e, "transfer-ownership", ParseTransfer) == Ok(r.value.transfer)
                      && OptionalAttr(e, "scope", ParseScope) == Ok(r.value.scope)
    ensures r.Ok? ==> && OptionalBool(sc, e, "introspectable") == Ok(r.value.introspectable)
                      && OptionalBool(sc, e, "nullable") == Ok(r.value.nullable)
                      && OptionalBool(sc, e, "skip") == Ok(r.value.skip)
                      && OptionalBool(sc, e, "allow-none") == Ok(r.value.allowNone)
    ensures r.Ok? ==> && OptionalBounded(sc, e, "closure", UsizeMax) == Ok(r.value.closure)
                      && OptionalBounded(sc, e, "destroy", UsizeMax) == Ok(r.value.destroy)
    ensures r.Ok? ==> DecodeDocs(e) == Ok(r.value.docs) && DecodeAttributes(e) == Ok(r.value.attributes)
    /* Together with the clauses above, the read succeeds exactly when each of its parts does. */
    ensures r.Ok? <== && Conforms(ReturnValueTable, e)
                       && OptionalBool(sc, e, "introspectable").Ok? && OptionalBool(sc, e, "nullable").Ok?
                       && OptionalBounded(sc, e, "closure", UsizeMax).Ok? && OptionalAttr(e, "scope", ParseScope).Ok?
                       && OptionalBounded(sc, e, "destroy", UsizeMax).Ok? && OptionalBool(sc, e, "skip").Ok?
                       && OptionalBool(sc, e, "allow-none").Ok? && OptionalAttr(e, "transfer-ownership", ParseTransfer).Ok?
                       && DecodeDocs(e).Ok? && DecodeAttributes(e).Ok?
                       && Select(e.children, AnyTypeTags) != [] && DecodeAnyType(sc, Select(e.children, AnyTypeTags)[0]).Ok?
  {
    ReturnValueTableRequires();
    var _ :- Validate(ReturnValueTable, e);
    ReadReturnValue(sc, e)
  }

  /** The reads after the table check; a conforming element has its `type` or `array` child. */
  function ReadReturnValue(sc: Scalars, e: Element): (r: Result<ReturnValue, string>)
    requires Conforms(ReturnValueTable, e)
    ensures Select(e.children, AnyTypeTags) != []
    ensures r.Ok? ==> DecodeAnyType(sc, Select(e.children, AnyTypeTags)[0]) == Ok(r.value.ty)
    ensures r.Ok? ==> && OptionalAttr(e, "transfer-ownership", ParseTransfer) == Ok(r.value.transfer)
                      && OptionalAttr(e, "scope", ParseScope) == Ok(r.value.scope)
    ensures r.Ok? ==> && OptionalBool(sc, e, "introspectable") == Ok(r.value.introspectable)
                      && OptionalBool(sc, e, "nullable") == Ok(r.value.nullable)
                      && OptionalBool(sc, e, "skip") == Ok(r.value.skip)
                      && OptionalBool(sc, e, "allow-none") == Ok(r.value.allowNone)
    ensures r.Ok? ==> && OptionalBounded(sc, e, "closure", UsizeMax) == Ok(r.value.closure)
                      && OptionalBounded(sc, e, "destroy", UsizeMax) == Ok(r.value.destroy)
    ensures r.Ok? ==> DecodeDocs(e) == Ok(r.value.docs) && DecodeAttributes(e) == Ok(r.value.attributes)
    ensures r.Ok? <== && OptionalBool(sc, e, "introspectable").Ok? && OptionalBool(sc, e, "nullable").Ok?
                      && OptionalBounded(sc, e, "closure", UsizeMax).Ok? && OptionalAttr(e, "scope", ParseScope).Ok?
                      && OptionalBounded(sc, e, "destroy", UsizeMax).Ok? && OptionalBool(sc, e, "skip").Ok?
                      && OptionalBool(sc, e, "allow-none").Ok? && OptionalAttr(e, "transfer-ownership", ParseTransfer).Ok?
                      && DecodeDocs(e).Ok? && DecodeAttributes(e).Ok?
                      && DecodeAnyType(sc, Select(e.children, AnyTypeTags)[0]).Ok?
  {
    ReturnValueTableRequires();
    var introspectable :- OptionalBool(sc, e, "introspectable");
    var nullable :- OptionalBool(sc, e, "nullable");
    var closure :- OptionalBounded(sc, e, "closure", UsizeMax);
    var scope :- OptionalAttr(e, "scope", ParseScope);
    var destroy :- OptionalBounded(sc, e, "destroy", UsizeMax);
    var skip :- OptionalBool(sc, e, "skip");
    var allowNone :- OptionalBool(sc, e, "allow-none");
    var transfer :- OptionalAttr(e, "transfer-ownership", ParseTransfer);
    var docs :- DecodeDocs(e);
    var attributes :- DecodeAttributes(e);
    var ty :- DecodeAnyType(sc, RequiredUntagged(ReturnValueTable, e, AnyTypeTags));
    Ok(ReturnValue(introspectable, nullable, closure, scope, destroy, skip, allowNone,
                   transfer, docs, attributes, ty))
  }

  /** The return-value table requires a `type` or `array` child. */
  lemma ReturnValueTableRequires()
    ensures UntagDecl(AnyTypeTags, Required) in ReturnValueTable.decls
  {
    assert ReturnValueTable.decls[|ReturnValueTable.decls| - 1] == UntagDecl(AnyTypeTags, Required);
  }
}
