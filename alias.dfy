/** Type aliases (src/alias.rs): a name, a C type, and optionally the aliased type; strict. */
module Aliases {
  import opened Wrappers
  import opened Xml
  import opened Attributes
  import opened Traits
  import opened Types

  datatype Alias = Alias(
    name: string,
    cType: string,
    info: Info,
    docs: DocGroup,
    attributes: seq<Attribute>,
    ty: Option<AnyType>)

  const AliasTable := Table("alias", true,
    [AttrDecl("name", Required), AttrDecl("c:type", Required)]
    + InfoDecls + DocDecls + AttributeDecls + [UntagDecl(AnyTypeTags, Optional)])

  /** The aliased type: the first `<type>` or `<array>` child, decoded, or none. */
  function AliasedType(sc: Scalars, e: Element): (r: Result<Option<AnyType>, string>)
    ensures Select(e.children, AnyTypeTags) == [] ==> r == Ok(None)
    ensures Select(e.children, AnyTypeTags) != [] ==>
              (r.Ok? <==> DecodeAnyType(sc, Select(e.children, AnyTypeTags)[0]).Ok?)
    ensures Select(e.children, AnyTypeTags) != [] && r.Ok? ==> r.value.Some?
    ensures r.Ok? && r.value.Some? ==>
              DecodeAnyType(sc, Select(e.children, AnyTypeTags)[0]) == Ok(r.value.value)
  {
    var cs := Select(e.children, AnyTypeTags);
    if cs == [] then Ok(None)
    else
      var ty :- DecodeAnyType(sc, cs[0]);
      Ok(Some(ty))
  }

  function DecodeAlias(sc: Scalars, e: Element): (r: Result<Alias, string>)
    ensures Attr(e, "name").None? || Attr(e, "c:type").None? ==> r.Err?
    ensures r.Ok? ==> Conforms(AliasTable, e)
    ensures r.Ok? ==> Attr(e, "name") == Some(r.value.name) && Attr(e, "c:type") == Some(r.value.cType)
    ensures r.Ok? ==> AliasedType(sc, e) == Ok(r.value.ty)
    ensures r.Ok? ==> DecodeInfo(sc, e) == Ok(r.value.info) && DecodeDocs(e) == Ok(r.value.docs)
    ensures r.Ok? ==> DecodeAttributes(e) == Ok(r.value.attributes)
    ensures r.Ok? <==> && Conforms(AliasTable, e)
                       && DecodeInfo(sc, e).Ok? && DecodeDocs(e).Ok? && DecodeAttributes(e).Ok?
                       && AliasedType(sc, e).Ok?
  {
    var _ :- Validate(AliasTable, e);
    var info :- DecodeInfo(sc, e);
    var docs :- DecodeDocs(e);
    var attributes :- DecodeAttributes(e);
    var ty :- AliasedType(sc, e);
    Ok(Alias(RequiredAttr(AliasTable, e, "name"), RequiredAttr(AliasTable, e, "c:type"),
             info, docs, attributes, ty))
  }

  /** An alias whose only child is a `<type>` has that type, whatever it names. */
  lemma AliasOfType(sc: Scalars, e: Element)
    requires DecodeAlias(sc, e).Ok?
    requires |e.children| == 1 && e.children[0].tag == "type"
    ensures DecodeAlias(sc, e).value.ty.Some? && DecodeAlias(sc, e).value.ty.value.IsType()
    ensures DecodeType(sc, e.children[0]) == Ok(DecodeAlias(sc, e).value.ty.value.AsType())
  {
    var c := e.children[0];
    assert Select(e.children, AnyTypeTags) == [c] by {
      assert e.children == [] + [c];
      SelectAppend([], [c], AnyTypeTags);
    }
    var ty := DecodeAlias(sc, e).value.ty;
    assert AliasedType(sc, e) == Ok(ty);
    assert DecodeAnyType(sc, c) == Ok(ty.value);
  }
}
