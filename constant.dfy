/** Constants (src/constant.rs): a name, a value kept as written, and its type. Lenient. */
module Constants {
  import opened Wrappers
  import opened Xml
  import opened Attributes
  import opened Traits
  import opened Types

  datatype Constant = Constant(
    name: string,
    value: string,
    cType: Option<string>,
    cIdentifier: Option<string>,
    info: Info,
    docs: DocGroup,
    attributes: seq<Attribute>,
    ty: AnyType)

  /** The attributes a constant declares besides the info group. */
  const ConstantOwnDecls :=
    [AttrDecl("name", Required), AttrDecl("value", Required),
     AttrDecl("c:type", Optional), AttrDecl("c:identifier", Optional)]

  const ConstantTable := Table("constant", false,
    ConstantOwnDecls + InfoDecls + DocDecls + AttributeDecls + [ChildDecl("type", Required)])

  /** The value is not interpreted: it is the attribute text, whatever type the constant has. */
  function DecodeConstant(sc: Scalars, e: Element): (r: Result<Constant, string>)
    ensures Attr(e, "name").None? || Attr(e, "value").None? || Children(e, "type") == [] ==> r.Err?
    ensures r.Ok? ==> Conforms(ConstantTable, e)
    ensures r.Ok? ==> Attr(e, "name") == Some(r.value.name) && Attr(e, "value") == Some(r.value.value)
    ensures r.Ok? ==> r.value.cType == Attr(e, "c:type") && r.value.cIdentifier == Attr(e, "c:identifier")
    ensures r.Ok? ==> r.value.ty.IsType() && DecodeType(sc, Children(e, "type")[0]) == Ok(r.value.ty.AsType())
    ensures r.Ok? ==> DecodeInfo(sc, e) == Ok(r.value.info) && DecodeDocs(e) == Ok(r.value.docs)
    ensures r.Ok? ==> DecodeAttributes(e) == Ok(r.value.attributes)
    ensures r.Ok? <==> && Conforms(ConstantTable, e)
                       && DecodeInfo(sc, e).Ok? && DecodeDocs(e).Ok? && DecodeAttributes(e).Ok?
                       && Children(e, "type") != [] && DecodeType(sc, Children(e, "type")[0]).Ok?
  {
    var _ :- Validate(ConstantTable, e);
    var info :- DecodeInfo(sc, e);
    var docs :- DecodeDocs(e);
    var attributes :- DecodeAttributes(e);
    var typeElement := RequiredChild(ConstantTable, e, "type");
    assert typeElement.tag == "type";
    var ty :- DecodeAnyType(sc, typeElement);
    Ok(Constant(RequiredAttr(ConstantTable, e, "name"), RequiredAttr(ConstantTable, e, "value"),
                Attr(e, "c:type"), Attr(e, "c:identifier"), info, docs, attributes, ty))
  }

  function DecodeConstantWith(sc: Scalars): Element -> Result<Constant, string>
  {
    c => DecodeConstant(sc, c)
  }

  /** The attributes the constant table declares besides the info group's. */
  const ConstantAttrNames := {"name", "value", "c:type", "c:identifier"}

  /** The constant table declares exactly its own attributes and the info group's. */
  lemma ConstantTableAttrs(k: string)
    ensures DeclaresAttr(ConstantTable, k) ==> k in ConstantAttrNames || k in InfoAttrNames
  {
    if DeclaresAttr(ConstantTable, k) {
      var d :| d in ConstantTable.decls && d.AttrDecl? && d.name == k;
      assert d in ConstantOwnDecls || d in InfoDecls || d in DocDecls || d in AttributeDecls;
      if d in ConstantOwnDecls {
        var i :| 0 <= i < |ConstantOwnDecls| && ConstantOwnDecls[i] == d;
      } else if d in InfoDecls {
        var i :| 0 <= i < |InfoDecls| && InfoDecls[i] == d;
      }
    }
  }

  /** A constant is read from its validation, its attribute reads and its children, and from nothing else. */
  lemma ConstantReadsOnly(sc: Scalars, e: Element, e': Element)
    requires Validate(ConstantTable, e') == Validate(ConstantTable, e) && e'.children == e.children
    requires DecodeInfo(sc, e') == DecodeInfo(sc, e)
    requires Attr(e', "name") == Attr(e, "name") && Attr(e', "value") == Attr(e, "value")
    requires Attr(e', "c:type") == Attr(e, "c:type") && Attr(e', "c:identifier") == Attr(e, "c:identifier")
    ensures DecodeConstant(sc, e') == DecodeConstant(sc, e)
  {
    DocsReadChildrenOnly(e, e');
    assert DecodeAttributes(e') == DecodeAttributes(e);
    assert Children(e', "type") == Children(e, "type");
    if Validate(ConstantTable, e).Ok? {
      ConstantTableRequires();
      assert RequiredChild(ConstantTable, e', "type") == RequiredChild(ConstantTable, e, "type");
      assert RequiredAttr(ConstantTable, e', "name") == RequiredAttr(ConstantTable, e, "name");
      assert RequiredAttr(ConstantTable, e', "value") == RequiredAttr(ConstantTable, e, "value");
    }
  }

  /** The constant table demands a name, a value and a type child. */
  lemma ConstantTableRequires()
    ensures AttrDecl("name", Required) in ConstantTable.decls
    ensures AttrDecl("value", Required) in ConstantTable.decls
    ensures ChildDecl("type", Required) in ConstantTable.decls
  {
    assert ConstantTable.decls[0] == AttrDecl("name", Required);
    assert ConstantTable.decls[1] == AttrDecl("value", Required);
    assert ConstantTable.decls[|ConstantTable.decls| - 1] == ChildDecl("type", Required);
  }

  /** The constant table is lenient: an attribute it does not declare changes nothing about the constant read. */
  lemma ConstantIgnoresUnknownAttr(sc: Scalars, e: Element, k: string, v: string)
    requires k !in ConstantAttrNames && k !in InfoAttrNames
    ensures DecodeConstant(sc, AddAttr(e, k, v)) == DecodeConstant(sc, e)
  {
    ConstantTableAttrs(k);
    LenientIgnoresAttr(ConstantTable, e, k, v);
    InfoIgnoresUnknownAttr(sc, e, k, v);
    LookupAppend(e.attrs, k, v, "name");
    LookupAppend(e.attrs, k, v, "value");
    LookupAppend(e.attrs, k, v, "c:type");
    LookupAppend(e.attrs, k, v, "c:identifier");
    ConstantReadsOnly(sc, e, AddAttr(e, k, v));
  }

  /** Being lenient, a constant passes validation whatever unknown attribute is added. */
  lemma ConstantToleratesUnknownAttr(e: Element, k: string, v: string)
    requires !DeclaresAttr(ConstantTable, k)
    ensures Conforms(ConstantTable, AddAttr(e, k, v)) <==> Conforms(ConstantTable, e)
  {
    LenientIgnoresAttr(ConstantTable, e, k, v);
  }
}
