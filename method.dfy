/**
 * Methods (src/method.rs): a function-like entity that may also name the
 * property it gets or sets. `MethodInline` has the function-like fields only.
 */
module Methods {
  import opened Wrappers
  import opened Xml
  import opened Functions

  datatype Method = Method(getProperty: Option<string>, setProperty: Option<string>, body: FunctionLike)

  type MethodInline = FunctionLike

  const MethodTable := Table("method", true,
    [AttrDecl("glib:get-property", Optional), AttrDecl("glib:set-property", Optional)]
    + FunctionLikeDecls(Defaulted))

  const MethodInlineTable := Table("method-inline", true, FunctionLikeDecls(Defaulted))

  /** The property names are taken verbatim; everything else is read as for a function. */
  function DecodeMethod(sc: Scalars, e: Element): (r: Result<Method, string>)
    ensures r.Ok? <==> Conforms(MethodTable, e) && ReadFunctionLike(sc, e).Ok?
    ensures r.Ok? ==> r.value.getProperty == Attr(e, "glib:get-property")
    ensures r.Ok? ==> r.value.setProperty == Attr(e, "glib:set-property")
    ensures r.Ok? ==> ReadFunctionLike(sc, e) == Ok(r.value.body)
  {
    var body :- DecodeFunctionLike(sc, MethodTable, e);
    Ok(Method(Attr(e, "glib:get-property"), Attr(e, "glib:set-property"), body))
  }

  function DecodeMethodInline(sc: Scalars, e: Element): (r: Result<MethodInline, string>)
    ensures r.Ok? <==> Conforms(MethodInlineTable, e) && ReadFunctionLike(sc, e).Ok?
    ensures r.Ok? ==> r == ReadFunctionLike(sc, e)
  {
    DecodeFunctionLike(sc, MethodInlineTable, e)
  }

  function DecodeMethodWith(sc: Scalars): Element -> Result<Method, string>
  {
    c => DecodeMethod(sc, c)
  }

  function DecodeMethodInlineWith(sc: Scalars): Element -> Result<MethodInline, string>
  {
    c => DecodeMethodInline(sc, c)
  }

  /** An inline method does not accept the property attributes a method does. */
  lemma MethodInlineRejectsGetProperty(sc: Scalars, e: Element, v: string)
    ensures DecodeMethodInline(sc, AddAttr(e, "glib:get-property", v)).Err?
  {
    StrictRejectsAttr(MethodInlineTable, e, "glib:get-property", v);
  }

  /** Every attribute a method declares, other than the two property names, a function declares too. */
  lemma MethodAttrIsFunctionAttr(k: string)
    requires DeclaresAttr(MethodTable, k)
    requires k != "glib:get-property" && k != "glib:set-property"
    ensures DeclaresAttr(FunctionTable, k)
  {
    var d :| d in MethodTable.decls && d.AttrDecl? && d.name == k;
    assert d in FunctionTable.decls;
  }

  /** Every child a method declares a function declares too. */
  lemma MethodChildIsFunctionChild(tag: string)
    requires DeclaresChild(MethodTable, tag)
    ensures DeclaresChild(FunctionTable, tag)
  {
    var d :| d in MethodTable.decls && NamesChild(d, tag);
    assert d in FunctionTable.decls;
  }

  /** A method that decodes also decodes as a function once its two property attributes are gone. */
  lemma MethodBodyIsFunction(sc: Scalars, e: Element)
    requires DecodeMethod(sc, e).Ok?
    requires Attr(e, "glib:get-property").None? && Attr(e, "glib:set-property").None?
    ensures DecodeFunction(sc, e) == Ok(DecodeMethod(sc, e).value.body)
  {
    MethodConformsAsFunction(e);
  }

  /** A conforming method without its two property attributes conforms to the function table. */
  lemma MethodConformsAsFunction(e: Element)
    requires Conforms(MethodTable, e)
    requires Attr(e, "glib:get-property").None? && Attr(e, "glib:set-property").None?
    ensures Conforms(FunctionTable, e)
  {
    LookupFindsFirst(e.attrs, "glib:get-property");
    LookupFindsFirst(e.attrs, "glib:set-property");
    forall a | a in e.attrs
      ensures DeclaresAttr(FunctionTable, a.0)
    {
      var i :| 0 <= i < |e.attrs| && e.attrs[i] == a;
      MethodAttrIsFunctionAttr(a.0);
    }
    forall c | c in e.children
      ensures DeclaresChild(FunctionTable, c.tag)
    {
      MethodChildIsFunctionChild(c.tag);
    }
  }
}
