/** A field of a compound type (src/field.rs). */
module Fields {
  import opened Wrappers
  import opened Xml
  import opened Attributes
  import opened Traits
  import opened Types
  import opened Callbacks

  datatype FieldType = FieldOfType(ty: Type) | FieldOfCallback(callback: Callback) | FieldOfArray(arr: Array)
  {
    predicate IsType() { FieldOfType? }
    predicate IsCallback() { FieldOfCallback? }
    predicate IsArray() { FieldOfArray? }

    /** Only defined on a type; elsewhere the source panics. */
    function AsType(): (r: Type)
      requires IsType()
      ensures this == FieldOfType(r)
    {
      ty
    }

    /** Only defined on a callback; elsewhere the source panics. */
    function AsCallback(): (r: Callback)
      requires IsCallback()
      ensures this == FieldOfCallback(r)
    {
      callback
    }

    /** Only defined on an array; elsewhere the source panics. */
    function AsArray(): (r: Array)
      requires IsArray()
      ensures this == FieldOfArray(r)
    {
      arr
    }
  }

  /** Exactly one of the three `is_*` predicates holds. */
  lemma FieldTypeOneHot(t: FieldType)
    ensures t.IsType() || t.IsCallback() || t.IsArray()
    ensures !(t.IsType() && t.IsCallback()) && !(t.IsType() && t.IsArray()) && !(t.IsCallback() && t.IsArray())
  {
  }

  const FieldTypeTags := {"type", "callback", "array"}

  /** The element's tag selects the variant. */
  function DecodeFieldType(sc: Scalars, e: Element): (r: Result<FieldType, string>)
    ensures r.Ok? ==> e.tag in FieldTypeTags
    ensures r.Ok? ==> (r.value.IsType() <==> e.tag == "type") && (r.value.IsCallback() <==> e.tag == "callback")
    ensures e.tag !in FieldTypeTags ==> r.Err?
    ensures e.tag == "type" ==> (r.Ok? <==> DecodeType(sc, e).Ok?)
    ensures e.tag == "type" && r.Ok? ==> r.value.IsType() && DecodeType(sc, e) == Ok(r.value.AsType())
    ensures e.tag == "callback" ==> (r.Ok? <==> DecodeCallback(sc, e).Ok?)
    ensures e.tag == "callback" && r.Ok? ==> r.value.IsCallback() && DecodeCallback(sc, e) == Ok(r.value.AsCallback())
    ensures e.tag == "array" ==> r == Ok(FieldOfArray(Opaque(e)))
  {
    if e.tag == "type" then
      var t :- DecodeType(sc, e);
      Ok(FieldOfType(t))
    else if e.tag == "callback" then
      var c :- DecodeCallback(sc, e);
      Ok(FieldOfCallback(c))
    else if e.tag == "array" then Ok(FieldOfArray(Opaque(e)))
    else Err("unknown variant " + e.tag + " of FieldType")
  }

  /** The access flags and the bit width, each as written. */
  datatype FieldAccess = FieldAccess(
    readable: Option<bool>,
    writable: Option<bool>,
    nullable: Option<bool>,
    private: Option<bool>,
    bits: Option<nat>)

  datatype Field = Field(
    name: string,
    access: FieldAccess,
    info: Info,
    docs: DocGroup,
    attributes: seq<Attribute>,
    ty: FieldType)
  {
    /** A field is readable, writable or private only when it says so. */
    function IsReadable(): bool { access.readable.GetOr(false) }
    function IsWritable(): bool { access.writable.GetOr(false) }
    function IsPrivate(): bool { access.private.GetOr(false) }
    /** `nullable` is read but has no accessor of its own. */
    function Bits(): Option<nat> { access.bits }
  }

  /** Strict; the type is an untagged `<type>`, `<callback>` or `<array>` child and must be present. */
  const FieldTable := Table("field", true,
    [AttrDecl("name", Required), AttrDecl("readable", Optional), AttrDecl("writable", Optional),
     AttrDecl("nullable", Optional), AttrDecl("private", Optional), AttrDecl("bits", Optional)]
    + InfoDecls + DocDecls + AttributeDecls + [UntagDecl(FieldTypeTags, Required)])

  /** Reads the flags and the width; a width that does not fit a `u8` is an error. */
  function DecodeFieldAccess(sc: Scalars, e: Element): (r: Result<FieldAccess, string>)
    ensures r.Ok? && r.value.bits.Some? ==> r.value.bits.value <= U8Max
    ensures forall s :: Attr(e, "bits") == Some(s) && sc.unsigned(s).Ok? && sc.unsigned(s).value > U8Max ==> r.Err?
    ensures forall s :: Attr(e, "bits") == Some(s) && r.Ok? ==> r.value.bits.Some? && sc.unsigned(s) == Ok(r.value.bits.value)
    ensures r.Ok? && Attr(e, "readable").None? ==> r.value.readable.None?
    ensures r.Ok? && Attr(e, "writable").None? ==> r.value.writable.None?
    ensures r.Ok? && Attr(e, "private").None? ==> r.value.private.None?
    ensures r.Ok? ==> OptionalBool(sc, e, "readable") == Ok(r.value.readable) && OptionalBool(sc, e, "writable") == Ok(r.value.writable)
    ensures r.Ok? ==> OptionalBool(sc, e, "nullable") == Ok(r.value.nullable) && OptionalBool(sc, e, "private") == Ok(r.value.private)
  {
    var readable :- OptionalBool(sc, e, "readable");
    var writable :- OptionalBool(sc, e, "writable");
    var nullable :- OptionalBool(sc, e, "nullable");
    var private :- OptionalBool(sc, e, "private");
    var bits :- OptionalBounded(sc, e, "bits", U8Max);
    Ok(FieldAccess(readable, writable, nullable, private, bits))
  }

  function DecodeField(sc: Scalars, e: Element): (r: Result<Field, string>)
    ensures r.Ok? ==> Conforms(FieldTable, e)
    ensures Attr(e, "name").None? || Select(e.children, FieldTypeTags) == [] ==> r.Err?
    ensures r.Ok? ==> Attr(e, "name") == Some(r.value.name)
    ensures r.Ok? ==> DecodeFieldAccess(sc, e) == Ok(r.value.access)
  {
    FieldTableRequires();
    var _ :- Validate(FieldTable, e);
    var access :- DecodeFieldAccess(sc, e);
    var info :- DecodeInfo(sc, e);
    var docs :- DecodeDocs(e);
    var attributes :- DecodeAttributes(e);
    var ty :- DecodeFieldType(sc, RequiredUntagged(FieldTable, e, FieldTypeTags));
    Ok(Field(RequiredAttr(FieldTable, e, "name"), access, info, docs, attributes, ty))
  }

  /** The field table demands a name and a type. */
  lemma FieldTableRequires()
    ensures AttrDecl("name", Required) in FieldTable.decls
    ensures UntagDecl(FieldTypeTags, Required) in FieldTable.decls
  {
    assert FieldTable.decls[0] == AttrDecl("name", Required);
    assert FieldTable.decls[|FieldTable.decls| - 1] == UntagDecl(FieldTypeTags, Required);
  }

  /** A field decodes exactly when it conforms and each of its parts decodes; each part is kept as decoded. */
  lemma FieldDecodes(sc: Scalars, e: Element)
    ensures DecodeField(sc, e).Ok? <==>
              && Conforms(FieldTable, e) && DecodeFieldAccess(sc, e).Ok?
              && DecodeInfo(sc, e).Ok? && DecodeDocs(e).Ok? && DecodeAttributes(e).Ok?
              && Select(e.children, FieldTypeTags) != []
              && DecodeFieldType(sc, Select(e.children, FieldTypeTags)[0]).Ok?
    ensures DecodeField(sc, e).Ok? ==>
              var f := DecodeField(sc, e).value;
              DecodeInfo(sc, e) == Ok(f.info) && DecodeDocs(e) == Ok(f.docs) && DecodeAttributes(e) == Ok(f.attributes)
  {
    FieldTableRequires();
  }

  /** The type is the first `<type>`, `<callback>` or `<array>` child, decoded. */
  lemma FieldTypeIsFirstShape(sc: Scalars, e: Element)
    requires DecodeField(sc, e).Ok?
    ensures Select(e.children, FieldTypeTags) != []
    ensures DecodeFieldType(sc, Select(e.children, FieldTypeTags)[0]) == Ok(DecodeField(sc, e).value.ty)
  {
    assert Conforms(FieldTable, e) && UntagDecl(FieldTypeTags, Required) in FieldTable.decls;
    var c := RequiredUntagged(FieldTable, e, FieldTypeTags);
    assert DecodeFieldAccess(sc, e).Ok? && DecodeInfo(sc, e).Ok? && DecodeDocs(e).Ok? && DecodeAttributes(e).Ok?;
    assert DecodeFieldType(sc, c).Ok?;
  }

  /** A field is not readable, writable or private unless it says so. */
  lemma FieldDefaults(sc: Scalars, e: Element)
    requires DecodeField(sc, e).Ok?
    ensures Attr(e, "readable").None? ==> !DecodeField(sc, e).value.IsReadable()
    ensures Attr(e, "writable").None? ==> !DecodeField(sc, e).value.IsWritable()
    ensures Attr(e, "private").None? ==> !DecodeField(sc, e).value.IsPrivate()
    ensures DecodeField(sc, e).value.Bits().Some? ==> DecodeField(sc, e).value.Bits().value <= U8Max
  {
  }
}
