/**
 * Object properties (src/property.rs). Readable unless they say otherwise,
 * the opposite of a structure field; everything else defaults to false and
 * the transfer to `none`. The table is lenient.
 */
module Properties {
  import opened Wrappers
  import opened Xml
  import opened Lib
  import opened Attributes
  import opened Traits
  import opened Types

  /** The access flags and the ownership transfer, each as written. */
  datatype Access = Access(
    readable: Option<bool>,
    writable: Option<bool>,
    construct: Option<bool>,
    constructOnly: Option<bool>,
    transfer: Option<TransferOwnership>)

  datatype Property = Property(
    name: string,
    access: Access,
    setter: Option<string>,
    getter: Option<string>,
    defaultValue: Option<string>,
    info: Info,
    docs: DocGroup,
    attributes: seq<Attribute>,
    ty: AnyType)
  {
    function IsReadable(): bool { access.readable.GetOr(true) }
    function IsWritable(): bool { access.writable.GetOr(false) }
    function IsConstruct(): bool { access.construct.GetOr(false) }
    function IsConstructOnly(): bool { access.constructOnly.GetOr(false) }
    function Transfer(): TransferOwnership { access.transfer.GetOr(TransferNone) }
  }

  /** The attributes a property declares besides the info group. */
  const PropertyOwnDecls :=
    [AttrDecl("name", Required), AttrDecl("readable", Optional), AttrDecl("writable", Optional),
     AttrDecl("construct", Optional), AttrDecl("construct-only", Optional),
     AttrDecl("setter", Optional), AttrDecl("getter", Optional),
     AttrDecl("default-value", Optional), AttrDecl("transfer-ownership", Optional)]

  /** Lenient; the name and the `<type>` child are required. */
  const PropertyTable := Table("property", false,
    PropertyOwnDecls + InfoDecls + DocDecls + AttributeDecls + [ChildDecl("type", Required)])

  /** Reads the flags; a text that is not a boolean, or not a transfer literal, is an error. */
  function DecodeAccess(sc: Scalars, e: Element): (r: Result<Access, string>)
    ensures r.Ok? && Attr(e, "readable").None? ==> r.value.readable.None?
    ensures r.Ok? && Attr(e, "writable").None? ==> r.value.writable.None?
    ensures r.Ok? && Attr(e, "construct").None? ==> r.value.construct.None?
    ensures r.Ok? && Attr(e, "construct-only").None? ==> r.value.constructOnly.None?
    ensures r.Ok? && Attr(e, "transfer-ownership").None? ==> r.value.transfer.None?
    ensures forall s :: Attr(e, "transfer-ownership") == Some(s) && ParseTransfer(s).Err? ==> r.Err?
    ensures forall s, t :: Attr(e, "transfer-ownership") == Some(s) && ParseTransfer(s) == Ok(t) && r.Ok?
              ==> r.value.transfer == Some(t)
    ensures r.Ok? ==> OptionalBool(sc, e, "readable") == Ok(r.value.readable) && OptionalBool(sc, e, "writable") == Ok(r.value.writable)
    ensures r.Ok? ==> OptionalBool(sc, e, "construct") == Ok(r.value.construct)
                      && OptionalBool(sc, e, "construct-only") == Ok(r.value.constructOnly)
  {
    var readable :- OptionalBool(sc, e, "readable");
    var writable :- OptionalBool(sc, e, "writable");
    var construct :- OptionalBool(sc, e, "construct");
    var constructOnly :- OptionalBool(sc, e, "construct-only");
    var transfer :- OptionalAttr(e, "transfer-ownership", ParseTransfer);
    Ok(Access(readable, writable, construct, constructOnly, transfer))
  }

  function DecodeProperty(sc: Scalars, e: Element): (r: Result<Property, string>)
    ensures Attr(e, "name").None? || Children(e, "type") == [] ==> r.Err?
    ensures r.Ok? ==> Conforms(PropertyTable, e)
    ensures r.Ok? ==> Attr(e, "name") == Some(r.value.name)
    ensures r.Ok? ==> r.value.getter == Attr(e, "getter") && r.value.setter == Attr(e, "setter")
    ensures r.Ok? ==> r.value.defaultValue == Attr(e, "default-value")
    ensures r.Ok? ==> DecodeAccess(sc, e) == Ok(r.value.access)
    ensures r.Ok? ==> r.value.ty.IsType() && DecodeType(sc, Children(e, "type")[0]) == Ok(r.value.ty.AsType())
    ensures r.Ok? ==> DecodeInfo(sc, e) == Ok(r.value.info) && DecodeDocs(e) == Ok(r.value.docs)
    ensures r.Ok? ==> DecodeAttributes(e) == Ok(r.value.attributes)
    ensures r.Ok? <==> && Conforms(PropertyTable, e) && DecodeAccess(sc, e).Ok?
                       && DecodeInfo(sc, e).Ok? && DecodeDocs(e).Ok? && DecodeAttributes(e).Ok?
                       && Children(e, "type") != [] && DecodeType(sc, Children(e, "type")[0]).Ok?
  {
    var _ :- Validate(PropertyTable, e);
    var access :- DecodeAccess(sc, e);
    var info :- DecodeInfo(sc, e);
    var docs :- DecodeDocs(e);
    var attributes :- DecodeAttributes(e);
    var typeElement := RequiredChild(PropertyTable, e, "type");
    assert typeElement.tag == "type";
    var ty :- DecodeAnyType(sc, typeElement);
    Ok(Property(RequiredAttr(PropertyTable, e, "name"), access,
                Attr(e, "setter"), Attr(e, "getter"), Attr(e, "default-value"),
                info, docs, attributes, ty))
  }

  function DecodePropertyWith(sc: Scalars): Element -> Result<Property, string>
  {
    c => DecodeProperty(sc, c)
  }

  /**
   * A property is readable unless it says otherwise, and is not writable,
   * construct or construct-only unless it says so; its transfer is `none`
   * unless it names another.
   */
  lemma PropertyDefaults(sc: Scalars, e: Element)
    requires DecodeProperty(sc, e).Ok?
    ensures Attr(e, "readable").None? ==> DecodeProperty(sc, e).value.IsReadable()
    ensures Attr(e, "writable").None? ==> !DecodeProperty(sc, e).value.IsWritable()
    ensures Attr(e, "construct").None? ==> !DecodeProperty(sc, e).value.IsConstruct()
    ensures Attr(e, "construct-only").None? ==> !DecodeProperty(sc, e).value.IsConstructOnly()
    ensures Attr(e, "transfer-ownership").None? ==> DecodeProperty(sc, e).value.Transfer() == TransferNone
  {
  }

  /** The attributes the property table declares besides the info group's. */
  const PropertyAttrNames := {"name", "readable", "writable", "construct", "construct-only",
                              "setter", "getter", "default-value", "transfer-ownership"}

  /** Every attribute read of a property outside the info group is blind to an attribute the table does not declare. */
  lemma PropertyAttrsIgnoreUnknownAttr(sc: Scalars, e: Element, k: string, v: string)
    requires k !in PropertyAttrNames
    ensures Attr(AddAttr(e, k, v), "name") == Attr(e, "name")
    ensures Attr(AddAttr(e, k, v), "setter") == Attr(e, "setter")
    ensures Attr(AddAttr(e, k, v), "getter") == Attr(e, "getter")
    ensures Attr(AddAttr(e, k, v), "default-value") == Attr(e, "default-value")
    ensures DecodeAccess(sc, AddAttr(e, k, v)) == DecodeAccess(sc, e)
  {
    LookupAppend(e.attrs, k, v, "name");
    LookupAppend(e.attrs, k, v, "readable");
    LookupAppend(e.attrs, k, v, "writable");
    LookupAppend(e.attrs, k, v, "construct");
    LookupAppend(e.attrs, k, v, "construct-only");
    LookupAppend(e.attrs, k, v, "setter");
    LookupAppend(e.attrs, k, v, "getter");
    LookupAppend(e.attrs, k, v, "default-value");
    LookupAppend(e.attrs, k, v, "transfer-ownership");
    var e' := AddAttr(e, k, v);
    assert OptionalBool(sc, e', "readable") == OptionalBool(sc, e, "readable");
    assert OptionalBool(sc, e', "writable") == OptionalBool(sc, e, "writable");
    assert OptionalBool(sc, e', "construct") == OptionalBool(sc, e, "construct");
    assert OptionalBool(sc, e', "construct-only") == OptionalBool(sc, e, "construct-only");
    assert OptionalAttr(e', "transfer-ownership", ParseTransfer) == OptionalAttr(e, "transfer-ownership", ParseTransfer);
  }

  /** The property table declares exactly its own attributes and the info group's. */
  lemma PropertyTableAttrs(k: string)
    ensures DeclaresAttr(PropertyTable, k) ==> k in PropertyAttrNames || k in InfoAttrNames
  {
    if DeclaresAttr(PropertyTable, k) {
      var d :| d in PropertyTable.decls && d.AttrDecl? && d.name == k;
      assert d in PropertyOwnDecls || d in InfoDecls || d in DocDecls || d in AttributeDecls;
      if d in PropertyOwnDecls {
        var i :| 0 <= i < |PropertyOwnDecls| && PropertyOwnDecls[i] == d;
      } else if d in InfoDecls {
        var i :| 0 <= i < |InfoDecls| && InfoDecls[i] == d;
      }
    }
  }

  /** A property is read from its validation, its attribute reads and its children, and from nothing else. */
  lemma PropertyReadsOnly(sc: Scalars, e: Element, e': Element)
    requires Validate(PropertyTable, e') == Validate(PropertyTable, e) && e'.children == e.children
    requires DecodeAccess(sc, e') == DecodeAccess(sc, e) && DecodeInfo(sc, e') == DecodeInfo(sc, e)
    requires Attr(e', "name") == Attr(e, "name") && Attr(e', "setter") == Attr(e, "setter")
    requires Attr(e', "getter") == Attr(e, "getter") && Attr(e', "default-value") == Attr(e, "default-value")
    ensures DecodeProperty(sc, e') == DecodeProperty(sc, e)
  {
    DocsReadChildrenOnly(e, e');
    PropertyRequiredReads(e, e');
  }

  /** Two conforming properties with the same children and name read the same required name and type. */
  lemma PropertyRequiredReads(e: Element, e': Element)
    requires Validate(PropertyTable, e') == Validate(PropertyTable, e) && e'.children == e.children
    requires Attr(e', "name") == Attr(e, "name")
    ensures DecodeAttributes(e') == DecodeAttributes(e)
    ensures Validate(PropertyTable, e).Ok? ==> RequiredChild(PropertyTable, e', "type") == RequiredChild(PropertyTable, e, "type")
    ensures Validate(PropertyTable, e).Ok? ==> RequiredAttr(PropertyTable, e', "name") == RequiredAttr(PropertyTable, e, "name")
  {
    assert Children(e', "attribute") == Children(e, "attribute");
    assert Children(e', "type") == Children(e, "type");
    if Validate(PropertyTable, e).Ok? {
      PropertyTableRequires();
    }
  }

  /** The property table demands a name and a type child. */
  lemma PropertyTableRequires()
    ensures AttrDecl("name", Required) in PropertyTable.decls
    ensures ChildDecl("type", Required) in PropertyTable.decls
  {
    assert PropertyTable.decls[0] == AttrDecl("name", Required);
    assert PropertyTable.decls[|PropertyTable.decls| - 1] == ChildDecl("type", Required);
  }

  /** The property table is lenient: an attribute it does not declare changes nothing about the property read. */
  lemma PropertyIgnoresUnknownAttr(sc: Scalars, e: Element, k: string, v: string)
    requires k !in PropertyAttrNames && k !in InfoAttrNames
    ensures DecodeProperty(sc, AddAttr(e, k, v)) == DecodeProperty(sc, e)
  {
    PropertyTableAttrs(k);
    LenientIgnoresAttr(PropertyTable, e, k, v);
    InfoIgnoresUnknownAttr(sc, e, k, v);
    PropertyAttrsIgnoreUnknownAttr(sc, e, k, v);
    PropertyReadsOnly(sc, e, AddAttr(e, k, v));
  }

  /** Being lenient, a property passes validation whatever unknown attribute or child is added. */
  lemma PropertyToleratesUnknown(e: Element, k: string, v: string, c: Element)
    requires !DeclaresAttr(PropertyTable, k) && !DeclaresChild(PropertyTable, c.tag)
    ensures Conforms(PropertyTable, AddAttr(e, k, v)) <==> Conforms(PropertyTable, e)
    ensures Conforms(PropertyTable, AddChild(e, c)) <==> Conforms(PropertyTable, e)
  {
    LenientIgnoresAttr(PropertyTable, e, k, v);
    LenientIgnoresChild(PropertyTable, e, c);
  }
}
