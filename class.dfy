/**
 * Classes (src/class.rs). A class must name itself and its GType (type
 * name and get-type function); its three flags are false unless set. Besides
 * the callable lists it shares with records, it carries the interfaces it
 * implements, properties, signals, virtual methods, constants and the same
 * untagged field list. Strict; inline methods sit under `inline-methods`.
 */
module Classes {
  import opened Wrappers
  import opened Xml
  import opened Attributes
  import opened Traits
  import opened Properties
  import opened Constants
  import opened VirtualMethods
  import opened Compounds

  datatype Implements = Implements(name: string)

  const ImplementsTable := Table("implements", true, [AttrDecl("name", Required)])

  /** `<implements>` and `<prerequisite>` both hold only a required name. */
  function DecodeImplements(e: Element): (r: Result<Implements, string>)
    ensures r.Ok? <==> Conforms(ImplementsTable, e)
    ensures r.Ok? ==> Attr(e, "name") == Some(r.value.name)
  {
    var _ :- Validate(ImplementsTable, e);
    Ok(Implements(RequiredAttr(ImplementsTable, e, "name")))
  }

  type ClassField = BodyField

  /** The members an object type (class or interface) carries besides its callables. */
  datatype ObjectMembers = ObjectMembers(
    properties: seq<Property>,
    signals: seq<Signal>,
    virtualMethods: seq<VirtualMethod>,
    constants: seq<Constant>)

  const ObjectMemberDecls := [ChildDecl("property", Repeated), ChildDecl("glib:signal", Repeated),
                              ChildDecl("virtual-method", Repeated), ChildDecl("constant", Repeated)]

  /** Signals are not decoded: each `glib:signal` child is kept as written. */
  function KeepSignals(cs: seq<Element>): (r: seq<Signal>)
    ensures |r| == |cs| && forall i :: 0 <= i < |cs| ==> r[i].element == cs[i]
  {
    seq(|cs|, i requires 0 <= i < |cs| => Opaque(cs[i]))
  }

  /** Each list holds its children in document order, each decoded by its own element decoder; signals are kept as written. */
  function DecodeObjectMembers(sc: Scalars, e: Element): (r: Result<ObjectMembers, string>)
    ensures r.Ok? ==> AllChildren(e, "property", DecodePropertyWith(sc)) == Ok(r.value.properties)
    ensures r.Ok? ==> |r.value.signals| == |Children(e, "glib:signal")|
    ensures r.Ok? ==> forall i :: 0 <= i < |r.value.signals| ==> r.value.signals[i].element == Children(e, "glib:signal")[i]
    ensures r.Ok? ==> AllChildren(e, "virtual-method", DecodeVirtualMethodWith(sc)) == Ok(r.value.virtualMethods)
    ensures r.Ok? ==> AllChildren(e, "constant", DecodeConstantWith(sc)) == Ok(r.value.constants)
    ensures r.Ok? <==> && AllChildren(e, "property", DecodePropertyWith(sc)).Ok?
                       && AllChildren(e, "virtual-method", DecodeVirtualMethodWith(sc)).Ok?
                       && AllChildren(e, "constant", DecodeConstantWith(sc)).Ok?
  {
    var properties :- AllChildren(e, "property", DecodePropertyWith(sc));
    var signals := KeepSignals(Children(e, "glib:signal"));
    var virtualMethods :- AllChildren(e, "virtual-method", DecodeVirtualMethodWith(sc));
    var constants :- AllChildren(e, "constant", DecodeConstantWith(sc));
    Ok(ObjectMembers(properties, signals, virtualMethods, constants))
  }

  /** The three class flags as written. */
  datatype ClassFlags = ClassFlags(fundamental: Option<bool>, finalFlag: Option<bool>, abstractFlag: Option<bool>)

  function DecodeClassFlags(sc: Scalars, e: Element): (r: Result<ClassFlags, string>)
    ensures r.Ok? && Attr(e, "glib:fundamental").None? ==> r.value.fundamental.None?
    ensures r.Ok? && Attr(e, "final").None? ==> r.value.finalFlag.None?
    ensures r.Ok? && Attr(e, "abstract").None? ==> r.value.abstractFlag.None?
    ensures forall s, b :: Attr(e, "glib:fundamental") == Some(s) && sc.boolean(s) == Ok(b) && r.Ok? ==> r.value.fundamental == Some(b)
    ensures forall s, b :: Attr(e, "final") == Some(s) && sc.boolean(s) == Ok(b) && r.Ok? ==> r.value.finalFlag == Some(b)
    ensures forall s, b :: Attr(e, "abstract") == Some(s) && sc.boolean(s) == Ok(b) && r.Ok? ==> r.value.abstractFlag == Some(b)
    ensures r.Ok? <==> && OptionalBool(sc, e, "glib:fundamental").Ok? && OptionalBool(sc, e, "final").Ok?
                       && OptionalBool(sc, e, "abstract").Ok?
  {
    var fundamental :- OptionalBool(sc, e, "glib:fundamental");
    var finalFlag :- OptionalBool(sc, e, "final");
    var abstractFlag :- OptionalBool(sc, e, "abstract");
    Ok(ClassFlags(fundamental, finalFlag, abstractFlag))
  }

  datatype Class = Class(
    name: string,
    symbolPrefix: Option<string>,
    cType: Option<string>,
    parent: Option<string>,
    info: Info,
    docs: DocGroup,
    attributes: seq<Attribute>,
    gTypeName: string,
    gGetType: string,
    gTypeStruct: Option<string>,
    flags: ClassFlags,
    gRefFunc: Option<string>,
    gUnrefFunc: Option<string>,
    gSetValueFunc: Option<string>,
    gGetValueFunc: Option<string>,
    implements: seq<Implements>,
    callables: CallableLists,
    members: ObjectMembers,
    fields: seq<ClassField>)
  {
    function IsFundamental(): bool { flags.fundamental.GetOr(false) }
    function IsFinal(): bool { flags.finalFlag.GetOr(false) }
    function IsAbstract(): bool { flags.abstractFlag.GetOr(false) }
  }

  const ClassTable := Table("class", true,
    [AttrDecl("name", Required), AttrDecl("c:symbol-prefix", Optional), AttrDecl("c:type", Optional),
     AttrDecl("parent", Optional)]
    + InfoDecls + DocDecls + AttributeDecls
    + [AttrDecl("glib:type-name", Required), AttrDecl("glib:get-type", Required),
       AttrDecl("glib:type-struct", Optional), AttrDecl("glib:fundamental", Optional),
       AttrDecl("final", Optional), AttrDecl("abstract", Optional),
       AttrDecl("glib:ref-func", Optional), AttrDecl("glib:unref-func", Optional),
       AttrDecl("glib:set-value-func", Optional), AttrDecl("glib:get-value-func", Optional),
       ChildDecl("implements", Repeated)]
    + CallableListDecls(RecordInlineMethodTag) + ObjectMemberDecls
    + [UntagDecl(BodyFieldTags, Repeated)])

  function DecodeClass(sc: Scalars, e: Element): (r: Result<Class, string>)
    ensures Attr(e, "name").None? || Attr(e, "glib:type-name").None? || Attr(e, "glib:get-type").None? ==> r.Err?
    ensures r.Ok? ==> Conforms(ClassTable, e)
    ensures r.Ok? ==> Attr(e, "name") == Some(r.value.name)
    ensures r.Ok? ==> Attr(e, "glib:type-name") == Some(r.value.gTypeName) && Attr(e, "glib:get-type") == Some(r.value.gGetType)
    ensures r.Ok? ==> r.value.parent == Attr(e, "parent") && r.value.cType == Attr(e, "c:type")
    ensures r.Ok? ==> r.value.symbolPrefix == Attr(e, "c:symbol-prefix") && r.value.gTypeStruct == Attr(e, "glib:type-struct")
    ensures r.Ok? ==> r.value.gRefFunc == Attr(e, "glib:ref-func") && r.value.gUnrefFunc == Attr(e, "glib:unref-func")
    ensures r.Ok? ==> r.value.gSetValueFunc == Attr(e, "glib:set-value-func") && r.value.gGetValueFunc == Attr(e, "glib:get-value-func")
    ensures r.Ok? ==> DecodeClassFlags(sc, e) == Ok(r.value.flags)
    ensures r.Ok? ==> AllChildren(e, "implements", DecodeImplements) == Ok(r.value.implements)
    ensures r.Ok? ==> DecodeCallableLists(sc, e, RecordInlineMethodTag) == Ok(r.value.callables)
    ensures r.Ok? ==> DecodeObjectMembers(sc, e) == Ok(r.value.members)
    ensures r.Ok? ==> DecodeBodyFields(sc, e, FieldElements(e)) == Ok(r.value.fields)
    ensures r.Ok? ==> DecodeInfo(sc, e) == Ok(r.value.info) && DecodeDocs(e) == Ok(r.value.docs)
    ensures r.Ok? ==> DecodeAttributes(e) == Ok(r.value.attributes)
  {
    ClassTableRequires();
    var _ :- Validate(ClassTable, e);
    var flags :- DecodeClassFlags(sc, e);
    var info :- DecodeInfo(sc, e);
    var docs :- DecodeDocs(e);
    var attributes :- DecodeAttributes(e);
    var implements :- AllChildren(e, "implements", DecodeImplements);
    var callables :- DecodeCallableLists(sc, e, RecordInlineMethodTag);
    var members :- DecodeObjectMembers(sc, e);
    var fields :- DecodeBodyFields(sc, e, FieldElements(e));
    Ok(Class(RequiredAttr(ClassTable, e, "name"), Attr(e, "c:symbol-prefix"), Attr(e, "c:type"),
             Attr(e, "parent"), info, docs, attributes,
             RequiredAttr(ClassTable, e, "glib:type-name"), RequiredAttr(ClassTable, e, "glib:get-type"),
             Attr(e, "glib:type-struct"), flags, Attr(e, "glib:ref-func"), Attr(e, "glib:unref-func"),
             Attr(e, "glib:set-value-func"), Attr(e, "glib:get-value-func"),
             implements, callables, members, fields))
  }

  /** A class decodes exactly when it conforms and each of its parts decodes. */
  lemma ClassDecodes(sc: Scalars, e: Element)
    ensures DecodeClass(sc, e).Ok? <==>
              && Conforms(ClassTable, e) && DecodeClassFlags(sc, e).Ok?
              && DecodeInfo(sc, e).Ok? && DecodeDocs(e).Ok? && DecodeAttributes(e).Ok?
              && AllChildren(e, "implements", DecodeImplements).Ok?
              && DecodeCallableLists(sc, e, RecordInlineMethodTag).Ok?
              && DecodeObjectMembers(sc, e).Ok? && DecodeBodyFields(sc, e, FieldElements(e)).Ok?
  {
    ClassTableRequires();
  }

  /** The class table demands a name, a GType name and a get-type function. */
  lemma ClassTableRequires()
    ensures AttrDecl("name", Required) in ClassTable.decls
    ensures AttrDecl("glib:type-name", Required) in ClassTable.decls
    ensures AttrDecl("glib:get-type", Required) in ClassTable.decls
  {
    assert ClassTable.decls[0] == AttrDecl("name", Required);
  }

  /** A class is not fundamental, final or abstract unless it says so. */
  lemma ClassFlagsDefault(sc: Scalars, e: Element)
    requires DecodeClass(sc, e).Ok?
    ensures Attr(e, "glib:fundamental").None? ==> !DecodeClass(sc, e).value.IsFundamental()
    ensures Attr(e, "final").None? ==> !DecodeClass(sc, e).value.IsFinal()
    ensures Attr(e, "abstract").None? ==> !DecodeClass(sc, e).value.IsAbstract()
  {
  }

  /** Like records, classes list inline methods under `inline-methods`; a `method-inline` child is an error. */
  lemma ClassRejectsMethodInline(sc: Scalars, e: Element)
    requires Children(e, UnionInlineMethodTag) != []
    ensures DecodeClass(sc, e).Err?
  {
    ClassTableOmitsMethodInline();
    UndeclaredChildBreaks(ClassTable, e, Children(e, UnionInlineMethodTag)[0]);
  }

  lemma ClassTableOmitsMethodInline()
    ensures !DeclaresChild(ClassTable, UnionInlineMethodTag)
  {
    assert forall d :: d in InfoDecls ==> !NamesChild(d, UnionInlineMethodTag);
    assert forall d :: d in DocDecls ==> !NamesChild(d, UnionInlineMethodTag);
    assert forall d :: d in AttributeDecls ==> !NamesChild(d, UnionInlineMethodTag);
    assert forall d :: d in CallableListDecls(RecordInlineMethodTag) ==> !NamesChild(d, UnionInlineMethodTag);
    assert forall d :: d in ObjectMemberDecls ==> !NamesChild(d, UnionInlineMethodTag);
    forall d | d in ClassTable.decls
      ensures !NamesChild(d, UnionInlineMethodTag)
    {
      if d in InfoDecls { } else if d in DocDecls { } else if d in AttributeDecls { }
      else if d in CallableListDecls(RecordInlineMethodTag) { } else if d in ObjectMemberDecls { }
    }
  }
}
