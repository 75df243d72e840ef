/**
 * Bit fields (src/bitfield.rs): a named C flags type whose members are
 * kept in document order. Indexing, dereferencing and iteration all read
 * the member list and nothing else.
 */
module BitFields {
  import opened Wrappers
  import opened Xml
  import opened Attributes
  import opened Traits
  import opened Members
  import opened Functions

  datatype BitField = BitField(
    name: string,
    cType: string,
    gGetType: Option<string>,
    gTypeName: Option<string>,
    info: Info,
    docs: DocGroup,
    attributes: seq<Attribute>,
    members: seq<Member>,
    functions: seq<Function>,
    inlineFunctions: seq<FunctionInline>)
  {
    /** `b[i]`: only defined below the number of members, where the source would panic. */
    function Index(i: nat): (m: Member)
      requires i < |members|
      ensures m in members && m == AsSlice()[i]
    {
      members[i]
    }

    /** `Deref` and `AsRef`: the members as a slice. */
    function AsSlice(): (ms: seq<Member>)
      ensures |ms| == |members| && forall i :: 0 <= i < |ms| ==> ms[i] == members[i]
    {
      members
    }

    /** Both `into_iter`s: the members, in order. */
    function IntoIter(): (ms: seq<Member>)
      ensures ms == AsSlice()
    {
      members
    }
  }

  const BitFieldTable := Table("bitfield", true,
    [AttrDecl("name", Required), AttrDecl("c:type", Required),
     AttrDecl("glib:get-type", Optional), AttrDecl("glib:type-name", Optional)]
    + InfoDecls + DocDecls + AttributeDecls
    + [ChildDecl("member", Repeated), ChildDecl("function", Repeated), ChildDecl("function-inline", Repeated)])

  function DecodeMemberWith(sc: Scalars): Element -> Result<Member, string>
  {
    c => DecodeMember(sc, c)
  }

  function DecodeBitField(sc: Scalars, e: Element): (r: Result<BitField, string>)
    ensures Attr(e, "name").None? || Attr(e, "c:type").None? ==> r.Err?
    ensures r.Ok? ==> Conforms(BitFieldTable, e)
    ensures r.Ok? ==> Attr(e, "name") == Some(r.value.name) && Attr(e, "c:type") == Some(r.value.cType)
    ensures r.Ok? ==> r.value.gGetType == Attr(e, "glib:get-type") && r.value.gTypeName == Attr(e, "glib:type-name")
    ensures r.Ok? ==> AllChildren(e, "member", DecodeMemberWith(sc)) == Ok(r.value.members)
    ensures r.Ok? ==> AllChildren(e, "function", DecodeFunctionWith(sc)) == Ok(r.value.functions)
    ensures r.Ok? ==> AllChildren(e, "function-inline", DecodeFunctionInlineWith(sc)) == Ok(r.value.inlineFunctions)
    ensures r.Ok? ==> DecodeInfo(sc, e) == Ok(r.value.info) && DecodeDocs(e) == Ok(r.value.docs)
    ensures r.Ok? ==> DecodeAttributes(e) == Ok(r.value.attributes)
    ensures r.Ok? <==> && Conforms(BitFieldTable, e)
                       && DecodeInfo(sc, e).Ok? && DecodeDocs(e).Ok? && DecodeAttributes(e).Ok?
                       && AllChildren(e, "member", DecodeMemberWith(sc)).Ok?
                       && AllChildren(e, "function", DecodeFunctionWith(sc)).Ok?
                       && AllChildren(e, "function-inline", DecodeFunctionInlineWith(sc)).Ok?
  {
    BitFieldTableRequires();
    var _ :- Validate(BitFieldTable, e);
    var info :- DecodeInfo(sc, e);
    var docs :- DecodeDocs(e);
    var attributes :- DecodeAttributes(e);
    var members :- AllChildren(e, "member", DecodeMemberWith(sc));
    var functions :- AllChildren(e, "function", DecodeFunctionWith(sc));
    var inlineFunctions :- AllChildren(e, "function-inline", DecodeFunctionInlineWith(sc));
    Ok(BitField(RequiredAttr(BitFieldTable, e, "name"), RequiredAttr(BitFieldTable, e, "c:type"),
                Attr(e, "glib:get-type"), Attr(e, "glib:type-name"), info, docs, attributes,
                members, functions, inlineFunctions))
  }

  /** The bit-field table demands a name and a C type. */
  lemma BitFieldTableRequires()
    ensures AttrDecl("name", Required) in BitFieldTable.decls
    ensures AttrDecl("c:type", Required) in BitFieldTable.decls
  {
    assert BitFieldTable.decls[0] == AttrDecl("name", Required);
    assert BitFieldTable.decls[1] == AttrDecl("c:type", Required);
  }

  /** Indexing a decoded bit field gives the member decoded from its `i`th `<member>` child. */
  lemma IndexIsDocumentOrder(sc: Scalars, e: Element, i: nat)
    requires DecodeBitField(sc, e).Ok? && i < |Children(e, "member")|
    ensures i < |DecodeBitField(sc, e).value.members|
    ensures DecodeMember(sc, Children(e, "member")[i]) == Ok(DecodeBitField(sc, e).value.Index(i))
  {
  }

  /** A bit field without `<member>` children has no members to index or iterate. */
  lemma NoMembersNoIndex(sc: Scalars, e: Element)
    requires DecodeBitField(sc, e).Ok? && Children(e, "member") == []
    ensures DecodeBitField(sc, e).value.IntoIter() == []
  {
  }
}
