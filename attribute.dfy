/** A free-form `<attribute name=… value=…/>` annotation (src/attribute.rs). */
module Attributes {
  import opened Wrappers
  import opened Xml

  /** Two attributes are equal exactly when their names and values are. */
  datatype Attribute = Attribute(name: string, value: string)

  const AttributeTable := Table("attribute", true, [AttrDecl("name", Required), AttrDecl("value", Required)])

  /** Both attributes are required and nothing else is allowed; the values are taken verbatim. */
  function DecodeAttribute(e: Element): (r: Result<Attribute, string>)
    ensures r.Ok? <==> Conforms(AttributeTable, e)
    ensures r.Ok? ==> Attr(e, "name") == Some(r.value.name) && Attr(e, "value") == Some(r.value.value)
  {
    var _ :- Validate(AttributeTable, e);
    Ok(Attribute(RequiredAttr(AttributeTable, e, "name"), RequiredAttr(AttributeTable, e, "value")))
  }
}
