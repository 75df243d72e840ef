/** Type references (src/type.rs): a named type, or an array of one. */
module Types {
  import opened Wrappers
  import opened Xml
  import opened Traits

  datatype Type = Type(name: Option<string>, cType: Option<string>, introspectable: Option<bool>, docs: DocGroup)
  {
    /** A type is introspectable unless it says otherwise. */
    function IsIntrospectable(): bool { introspectable.GetOr(true) }
  }

  /** Lenient: unknown attributes and children of `<type>` are ignored. */
  const TypeTable := Table("type", false,
    [AttrDecl("name", Optional), AttrDecl("c:type", Optional), AttrDecl("introspectable", Optional)] + DocDecls)

  /** Name and C type are taken verbatim; only the boolean and the documentation children can fail. */
  function DecodeType(sc: Scalars, e: Element): (r: Result<Type, string>)
    ensures r.Ok? ==> r.value.name == Attr(e, "name") && r.value.cType == Attr(e, "c:type")
    ensures Attr(e, "introspectable").None? && r.Ok? ==> r.value.IsIntrospectable()
    ensures forall s, b :: Attr(e, "introspectable") == Some(s) && sc.boolean(s) == Ok(b) && r.Ok?
              ==> r.value.IsIntrospectable() == b
    ensures forall s :: Attr(e, "introspectable") == Some(s) && sc.boolean(s).Err? ==> r.Err?
    ensures r.Ok? <==> Conforms(TypeTable, e) && OptionalBool(sc, e, "introspectable").Ok? && DecodeDocs(e).Ok?
    ensures r.Ok? ==> DecodeDocs(e) == Ok(r.value.docs)
  {
    var _ :- Validate(TypeTable, e);
    var introspectable :- OptionalBool(sc, e, "introspectable");
    var docs :- DecodeDocs(e);
    Ok(Type(Attr(e, "name"), Attr(e, "c:type"), introspectable, docs))
  }

  /** An attribute `<type>` does not declare changes nothing about how it is read. */
  lemma TypeIgnoresUnknownAttr(sc: Scalars, e: Element, k: string, v: string)
    requires k !in {"name", "c:type", "introspectable"}
    ensures DecodeType(sc, AddAttr(e, k, v)) == DecodeType(sc, e)
  {
    var e' := AddAttr(e, k, v);
    LenientIgnoresAttr(TypeTable, e, k, v);
    DocsReadChildrenOnly(e, e');
    LookupAppend(e.attrs, k, v, "name");
    LookupAppend(e.attrs, k, v, "c:type");
    LookupAppend(e.attrs, k, v, "introspectable");
  }

  function DecodeTypeWith(sc: Scalars): Element -> Result<Type, string>
  {
    c => DecodeType(sc, c)
  }

  /** `AnyType`: the element's tag selects the variant. */
  datatype AnyType = OfType(ty: Type) | OfArray(arr: Array)
  {
    predicate IsArray() { OfArray? }
    predicate IsType() { OfType? }

    /** Only defined on an array; on a type the source panics. */
    function AsArray(): (r: Array)
      requires IsArray()
      ensures this == OfArray(r)
    {
      arr
    }

    /** Only defined on a type; on an array the source panics. */
    function AsType(): (r: Type)
      requires IsType()
      ensures this == OfType(r)
    {
      ty
    }
  }

  const AnyTypeTags := {"type", "array"}

  /** `<type>` decodes as a type, `<array>` as an array, and no other tag is an `AnyType`. */
  function DecodeAnyType(sc: Scalars, e: Element): (r: Result<AnyType, string>)
    ensures r.Ok? ==> e.tag in AnyTypeTags
    ensures r.Ok? ==> (r.value.IsArray() <==> e.tag == "array")
    ensures r.Ok? && r.value.IsType() ==> DecodeType(sc, e) == Ok(r.value.AsType())
    ensures e.tag == "array" ==> r == Ok(OfArray(Opaque(e)))
    ensures e.tag == "type" ==> (r.Ok? <==> DecodeType(sc, e).Ok?)
  {
    if e.tag == "type" then
      var t :- DecodeType(sc, e);
      Ok(OfType(t))
    else if e.tag == "array" then Ok(OfArray(Opaque(e)))
    else Err("unknown variant " + e.tag + " of AnyType")
  }

  /** Exactly one of `is_array` and `is_type` holds. */
  lemma AnyTypeExclusive(t: AnyType)
    ensures t.IsArray() <==> !t.IsType()
  {
  }
}
