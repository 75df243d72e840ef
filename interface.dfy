/**
 * Interfaces (src/interface.rs). Like a class, an interface names itself
 * and its GType, and carries callables, properties, signals, virtual
 * methods, constants and an untagged field list; instead of a parent it
 * lists prerequisites. Strict; inline methods sit under `inline-methods`.
 */
module Interfaces {
  import opened Wrappers
  import opened Xml
  import opened Attributes
  import opened Traits
  import opened Compounds
  import opened Classes

  datatype Prerequisite = Prerequisite(name: string)

  const PrerequisiteTable := Table("prerequisite", true, [AttrDecl("name", Required)])

  function DecodePrerequisite(e: Element): (r: Result<Prerequisite, string>)
    ensures r.Ok? <==> Conforms(PrerequisiteTable, e)
    ensures r.Ok? ==> Attr(e, "name") == Some(r.value.name)
  {
    var _ :- Validate(PrerequisiteTable, e);
    Ok(Prerequisite(RequiredAttr(PrerequisiteTable, e, "name")))
  }

  type InterfaceField = BodyField

  datatype Interface = Interface(
    name: string,
    symbolPrefix: Option<string>,
    cType: Option<string>,
    gTypeName: string,
    gGetType: string,
    gTypeStruct: Option<string>,
    info: Info,
    docs: DocGroup,
    attributes: seq<Attribute>,
    prerequisites: seq<Prerequisite>,
    implements: seq<Implements>,
    callables: CallableLists,
    members: ObjectMembers,
    fields: seq<InterfaceField>)

  const InterfaceTable := Table("interface", true,
    [AttrDecl("name", Required), AttrDecl("c:symbol-prefix", Optional), AttrDecl("c:type", Optional),
     AttrDecl("glib:type-name", Required), AttrDecl("glib:get-type", Required),
     AttrDecl("glib:type-struct", Optional)]
    + InfoDecls + DocDecls + AttributeDecls
    + [ChildDecl("prerequisite", Repeated), ChildDecl("implements", Repeated)]
    + CallableListDecls(RecordInlineMethodTag) + ObjectMemberDecls
    + [UntagDecl(BodyFieldTags, Repeated)])

  function DecodeInterface(sc: Scalars, e: Element): (r: Result<Interface, string>)
    ensures Attr(e, "name").None? || Attr(e, "glib:type-name").None? || Attr(e, "glib:get-type").None? ==> r.Err?
    ensures r.Ok? ==> Conforms(InterfaceTable, e)
    ensures r.Ok? ==> Attr(e, "name") == Some(r.value.name)
    ensures r.Ok? ==> Attr(e, "glib:type-name") == Some(r.value.gTypeName) && Attr(e, "glib:get-type") == Some(r.value.gGetType)
    ensures r.Ok? ==> r.value.symbolPrefix == Attr(e, "c:symbol-prefix") && r.value.cType == Attr(e, "c:type")
    ensures r.Ok? ==> r.value.gTypeStruct == Attr(e, "glib:type-struct")
    ensures r.Ok? ==> AllChildren(e, "prerequisite", DecodePrerequisite) == Ok(r.value.prerequisites)
    ensures r.Ok? ==> AllChildren(e, "implements", DecodeImplements) == Ok(r.value.implements)
    ensures r.Ok? ==> DecodeCallableLists(sc, e, RecordInlineMethodTag) == Ok(r.value.callables)
    ensures r.Ok? ==> DecodeObjectMembers(sc, e) == Ok(r.value.members)
    ensures r.Ok? ==> DecodeBodyFields(sc, e, FieldElements(e)) == Ok(r.value.fields)
    ensures r.Ok? ==> DecodeInfo(sc, e) == Ok(r.value.info) && DecodeDocs(e) == Ok(r.value.docs)
    ensures r.Ok? ==> DecodeAttributes(e) == Ok(r.value.attributes)
  {
    InterfaceTableRequires();
    var _ :- Validate(InterfaceTable, e);
    var info :- DecodeInfo(sc, e);
    var docs :- DecodeDocs(e);
    var attributes :- DecodeAttributes(e);
    var prerequisites :- AllChildren(e, "prerequisite", DecodePrerequisite);
    var implements :- AllChildren(e, "implements", DecodeImplements);
    var callables :- DecodeCallableLists(sc, e, RecordInlineMethodTag);
    var members :- DecodeObjectMembers(sc, e);
    var fields :- DecodeBodyFields(sc, e, FieldElements(e));
    Ok(Interface(RequiredAttr(InterfaceTable, e, "name"), Attr(e, "c:symbol-prefix"), Attr(e, "c:type"),
                 RequiredAttr(InterfaceTable, e, "glib:type-name"), RequiredAttr(InterfaceTable, e, "glib:get-type"),
                 Attr(e, "glib:type-struct"), info, docs, attributes, prerequisites, implements,
                 callables, members, fields))
  }

  /** An interface decodes exactly when it conforms and each of its parts decodes. */
  lemma InterfaceDecodes(sc: Scalars, e: Element)
    ensures DecodeInterface(sc, e).Ok? <==>
              && Conforms(InterfaceTable, e)
              && DecodeInfo(sc, e).Ok? && DecodeDocs(e).Ok? && DecodeAttributes(e).Ok?
              && AllChildren(e, "prerequisite", DecodePrerequisite).Ok?
              && AllChildren(e, "implements", DecodeImplements).Ok?
              && DecodeCallableLists(sc, e, RecordInlineMethodTag).Ok?
              && DecodeObjectMembers(sc, e).Ok? && DecodeBodyFields(sc, e, FieldElements(e)).Ok?
  {
    InterfaceTableRequires();
  }

  /** The interface table demands a name, a GType name and a get-type function. */
  lemma InterfaceTableRequires()
    ensures AttrDecl("name", Required) in InterfaceTable.decls
    ensures AttrDecl("glib:type-name", Required) in InterfaceTable.decls
    ensures AttrDecl("glib:get-type", Required) in InterfaceTable.decls
  {
    assert InterfaceTable.decls[0] == AttrDecl("name", Required);
  }

  /** The prerequisites are the names of the `<prerequisite>` children, in document order. */
  lemma PrerequisitesInOrder(sc: Scalars, e: Element, i: nat)
    requires DecodeInterface(sc, e).Ok? && i < |Children(e, "prerequisite")|
    ensures i < |DecodeInterface(sc, e).value.prerequisites|
    ensures Attr(Children(e, "prerequisite")[i], "name") == Some(DecodeInterface(sc, e).value.prerequisites[i].name)
  {
    var ps := DecodeInterface(sc, e).value.prerequisites;
    assert DecodeAll(Children(e, "prerequisite"), DecodePrerequisite) == Ok(ps);
    assert DecodePrerequisite(Children(e, "prerequisite")[i]) == Ok(ps[i]);
  }

  /** Interfaces are strict: an attribute no field declares is an error. */
  lemma InterfaceRejectsUnknownAttr(sc: Scalars, e: Element, k: string, v: string)
    requires !DeclaresAttr(InterfaceTable, k)
    ensures DecodeInterface(sc, AddAttr(e, k, v)).Err?
  {
    StrictRejectsAttr(InterfaceTable, e, k, v);
  }
}
