/** Members of a bit field (src/member.rs): name, value and C identifier are required; strict. */
module Members {
  import opened Wrappers
  import opened Xml
  import opened Attributes
  import opened Traits

  datatype Member = Member(
    name: string,
    value: string,
    cIdentifier: string,
    gNick: Option<string>,
    gName: Option<string>,
    info: Info,
    docs: DocGroup,
    attributes: seq<Attribute>)

  const MemberTable := Table("member", true,
    [AttrDecl("name", Required), AttrDecl("value", Required), AttrDecl("c:identifier", Required),
     AttrDecl("glib:nick", Optional), AttrDecl("glib:name", Optional)]
    + InfoDecls + DocDecls + AttributeDecls)

  /** The value stays the attribute text; it is not read as a number. */
  function DecodeMember(sc: Scalars, e: Element): (r: Result<Member, string>)
    ensures r.Ok? <==> Conforms(MemberTable, e) && DecodeInfo(sc, e).Ok? && DecodeDocs(e).Ok? && DecodeAttributes(e).Ok?
    ensures Attr(e, "name").None? || Attr(e, "value").None? || Attr(e, "c:identifier").None? ==> r.Err?
    ensures r.Ok? ==> Attr(e, "name") == Some(r.value.name) && Attr(e, "value") == Some(r.value.value)
    ensures r.Ok? ==> Attr(e, "c:identifier") == Some(r.value.cIdentifier)
    ensures r.Ok? ==> r.value.gNick == Attr(e, "glib:nick") && r.value.gName == Attr(e, "glib:name")
    ensures r.Ok? ==> DecodeInfo(sc, e) == Ok(r.value.info) && DecodeDocs(e) == Ok(r.value.docs)
    ensures r.Ok? ==> DecodeAttributes(e) == Ok(r.value.attributes)
    ensures r.Ok? && Attr(e, "introspectable").None? ==> r.value.info.IsIntrospectable()
    ensures r.Ok? && Attr(e, "deprecated").None? ==> !r.value.info.IsDeprecated()
  {
    var _ :- Validate(MemberTable, e);
    var info :- DecodeInfo(sc, e);
    var docs :- DecodeDocs(e);
    var attributes :- DecodeAttributes(e);
    Ok(Member(RequiredAttr(MemberTable, e, "name"), RequiredAttr(MemberTable, e, "value"),
              RequiredAttr(MemberTable, e, "c:identifier"), Attr(e, "glib:nick"), Attr(e, "glib:name"),
              info, docs, attributes))
  }

  /** Strict: an attribute the table does not declare makes the member an error. */
  lemma MemberRejectsUnknownAttr(sc: Scalars, e: Element, k: string, v: string)
    requires !DeclaresAttr(MemberTable, k)
    ensures DecodeMember(sc, AddAttr(e, k, v)).Err?
  {
    StrictRejectsAttr(MemberTable, e, k, v);
  }
}
