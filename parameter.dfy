/**
 * Parameters of a callable (src/parameter.rs): the optional instance
 * parameter and the ordinary parameters in document order.
 */
module Parameters {
  import opened Wrappers
  import opened Xml
  import opened Lib
  import opened Attributes
  import opened Traits
  import opened Types

  datatype Direction = In | Out | InOut

  function DirectionLiteral(d: Direction): string
  {
    match d
    case In => "in"
    case Out => "out"
    case InOut => "inout"
  }

  function ParseDirection(s: string): (r: Result<Direction, string>)
    ensures r.Ok? <==> s in {"in", "out", "inout"}
    ensures r.Ok? ==> DirectionLiteral(r.value) == s
  {
    match s
    case "in" => Ok(In)
    case "out" => Ok(Out)
    case "inout" => Ok(InOut)
    case _ => Err("Invalid Direction: " + s)
  }

  lemma DirectionRoundTrip(d: Direction)
    ensures ParseDirection(DirectionLiteral(d)) == Ok(d)
  {
  }

  datatype ParameterType = ParamType(ty: Type) | ParamArray(arr: Array) | VarArgs

  /** `From<Type>`. */
  function FromType(t: Type): (r: ParameterType)
    ensures r.ParamType? && r.ty == t
  {
    ParamType(t)
  }

  /** `From<AnyType>`: the variant and its payload carry over unchanged. */
  function FromAnyType(t: AnyType): (r: ParameterType)
    ensures t.IsArray() <==> r.ParamArray?
    ensures t.IsType() ==> r == FromType(t.AsType())
    ensures t.IsArray() ==> r.arr == t.AsArray()
  {
    match t
    case OfType(ty) => ParamType(ty)
    case OfArray(a) => ParamArray(a)
  }

  /** No two type references convert to the same parameter type. */
  lemma FromAnyTypeInjective(a: AnyType, b: AnyType)
    requires FromAnyType(a) == FromAnyType(b)
    ensures a == b
  {
  }

  /** `<type>`, `<array>` and `<varargs>` select the variant. */
  function DecodeParameterType(sc: Scalars, e: Element): (r: Result<ParameterType, string>)
    ensures r.Ok? ==> e.tag in {"type", "array", "varargs"}
    ensures r.Ok? ==> (r.value.ParamType? <==> e.tag == "type")
    ensures r.Ok? && r.value.ParamType? ==> DecodeType(sc, e) == Ok(r.value.ty)
    ensures e.tag == "type" ==> (r.Ok? <==> DecodeType(sc, e).Ok?)
    ensures e.tag == "array" ==> r == Ok(ParamArray(Opaque(e)))
    ensures e.tag == "varargs" ==> r == Ok(VarArgs)
  {
    if e.tag == "type" then
      var t :- DecodeType(sc, e);
      Ok(ParamType(t))
    else if e.tag == "array" then Ok(ParamArray(Opaque(e)))
    else if e.tag == "varargs" then Ok(VarArgs)
    else Err("unknown variant " + e.tag + " of ParameterType")
  }

  datatype Parameter = Parameter(
    name: string,
    transfer: Option<TransferOwnership>,
    nullable: Option<bool>,
    allowNone: Option<bool>,
    introspectable: Option<bool>,
    scope: Option<FunctionScope>,
    closure: Option<nat>,
    destroy: Option<nat>,
    direction: Option<Direction>,
    callerAllocates: Option<bool>,
    optional: Option<bool>,
    skip: Option<bool>,
    docs: DocGroup,
    attributes: seq<Attribute>,
    ty: Option<ParameterType>)
  {
    /** A parameter is introspectable unless it says otherwise. */
    function IsIntrospectable(): bool { introspectable.GetOr(true) }
  }

  /** Lenient; only the name is required. The type is read from the first `<type>` child. */
  const ParameterTable := Table("parameter", false,
    [AttrDecl("name", Required), AttrDecl("transfer-ownership", Optional),
     AttrDecl("nullable", Optional), AttrDecl("allow-none", Optional),
     AttrDecl("introspectable", Optional), AttrDecl("scope", Optional),
     AttrDecl("closure", Optional), AttrDecl("destroy", Optional),
     AttrDecl("direction", Optional), AttrDecl("caller-allocates", Optional),
     AttrDecl("optional", Optional), AttrDecl("skip", Optional)]
    + DocDecls + AttributeDecls + [ChildDecl("type", Optional)])

  /** The attributes the parameter table declares. */
  const ParameterAttrNames := {"name", "transfer-ownership", "nullable", "allow-none", "introspectable", "scope",
                               "closure", "destroy", "direction", "caller-allocates", "optional", "skip"}

  function DecodeParameter(sc: Scalars, e: Element): (r: Result<Parameter, string>)
    ensures Attr(e, "name").None? ==> r.Err?
    ensures r.Ok? ==> Attr(e, "name") == Some(r.value.name)
    ensures forall s :: Attr(e, "transfer-ownership") == Some(s) && ParseTransfer(s).Err? ==> r.Err?
    ensures forall s :: Attr(e, "scope") == Some(s) && ParseScope(s).Err? ==> r.Err?
    ensures forall s :: Attr(e, "direction") == Some(s) && ParseDirection(s).Err? ==> r.Err?
    ensures r.Ok? && r.value.closure.Some? ==> r.value.closure.value <= UsizeMax
    ensures r.Ok? && r.value.destroy.Some? ==> r.value.destroy.value <= UsizeMax
    ensures Attr(e, "introspectable").None? && r.Ok? ==> r.value.IsIntrospectable()
    ensures r.Ok? ==> (r.value.ty.None? <==> Children(e, "type") == [])
    ensures r.Ok? ==> |r.value.attributes| == |Children(e, "attribute")|
    // Only a `<type>` child fills the type field, so an `<array>` or `<varargs>` child is ignored.
    ensures r.Ok? && r.value.ty.Some? ==>
              r.value.ty.value.ParamType? && DecodeType(sc, Children(e, "type")[0]) == Ok(r.value.ty.value.ty)
  {
    var _ :- Validate(ParameterTable, e);
    var transfer :- OptionalAttr(e, "transfer-ownership", ParseTransfer);
    var nullable :- OptionalBool(sc, e, "nullable");
    var allowNone :- OptionalBool(sc, e, "allow-none");
    var introspectable :- OptionalBool(sc, e, "introspectable");
    var scope :- OptionalAttr(e, "scope", ParseScope);
    var closure :- OptionalBounded(sc, e, "closure", UsizeMax);
    var destroy :- OptionalBounded(sc, e, "destroy", UsizeMax);
    var direction :- OptionalAttr(e, "direction", ParseDirection);
    var callerAllocates :- OptionalBool(sc, e, "caller-allocates");
    var optional :- OptionalBool(sc, e, "optional");
    var skip :- OptionalBool(sc, e, "skip");
    var docs :- DecodeDocs(e);
    var attributes :- DecodeAttributes(e);
    var ty :- OptionalChild(e, "type", c => DecodeParameterType(sc, c));
    assert Children(e, "type") != [] ==> Children(e, "type")[0].tag == "type";
    Ok(Parameter(RequiredAttr(ParameterTable, e, "name"), transfer, nullable, allowNone,
                 introspectable, scope, closure, destroy, direction, callerAllocates,
                 optional, skip, docs, attributes, ty))
  }

  /**
   * A parameter decodes exactly when it conforms and every attribute, the documentation, the
   * attribute list and the `type` child read; the parameter then holds what was read.
   */
  lemma ParameterDecodes(sc: Scalars, e: Element)
    ensures DecodeParameter(sc, e).Ok? <==>
              && Conforms(ParameterTable, e)
              && OptionalAttr(e, "transfer-ownership", ParseTransfer).Ok?
              && OptionalBool(sc, e, "nullable").Ok? && OptionalBool(sc, e, "allow-none").Ok?
              && OptionalBool(sc, e, "introspectable").Ok? && OptionalAttr(e, "scope", ParseScope).Ok?
              && OptionalBounded(sc, e, "closure", UsizeMax).Ok? && OptionalBounded(sc, e, "destroy", UsizeMax).Ok?
              && OptionalAttr(e, "direction", ParseDirection).Ok?
              && OptionalBool(sc, e, "caller-allocates").Ok? && OptionalBool(sc, e, "optional").Ok?
              && OptionalBool(sc, e, "skip").Ok?
              && DecodeDocs(e).Ok? && DecodeAttributes(e).Ok?
              && (Children(e, "type") == [] || DecodeParameterType(sc, Children(e, "type")[0]).Ok?)
    ensures DecodeParameter(sc, e).Ok? ==>
              var r := DecodeParameter(sc, e).value;
              && OptionalAttr(e, "transfer-ownership", ParseTransfer) == Ok(r.transfer)
              && OptionalBool(sc, e, "nullable") == Ok(r.nullable) && OptionalBool(sc, e, "allow-none") == Ok(r.allowNone)
              && OptionalBool(sc, e, "introspectable") == Ok(r.introspectable)
              && OptionalBool(sc, e, "caller-allocates") == Ok(r.callerAllocates)
              && OptionalBool(sc, e, "optional") == Ok(r.optional) && OptionalBool(sc, e, "skip") == Ok(r.skip)
              && OptionalAttr(e, "scope", ParseScope) == Ok(r.scope)
              && OptionalAttr(e, "direction", ParseDirection) == Ok(r.direction)
              && OptionalBounded(sc, e, "closure", UsizeMax) == Ok(r.closure)
              && OptionalBounded(sc, e, "destroy", UsizeMax) == Ok(r.destroy)
              && DecodeDocs(e) == Ok(r.docs) && DecodeAttributes(e) == Ok(r.attributes)
              && (Children(e, "type") != [] ==> DecodeParameterType(sc, Children(e, "type")[0]) == Ok(r.ty.value))
  {
  }

  /** Every attribute read of a parameter is blind to an attribute the table does not declare. */
  lemma ParameterAttrsIgnoreUnknownAttr(sc: Scalars, e: Element, k: string, v: string)
    requires k !in ParameterAttrNames
    ensures Attr(AddAttr(e, k, v), "name") == Attr(e, "name")
    ensures OptionalAttr(AddAttr(e, k, v), "transfer-ownership", ParseTransfer) == OptionalAttr(e, "transfer-ownership", ParseTransfer)
    ensures OptionalAttr(AddAttr(e, k, v), "scope", ParseScope) == OptionalAttr(e, "scope", ParseScope)
    ensures OptionalAttr(AddAttr(e, k, v), "direction", ParseDirection) == OptionalAttr(e, "direction", ParseDirection)
    ensures OptionalBounded(sc, AddAttr(e, k, v), "closure", UsizeMax) == OptionalBounded(sc, e, "closure", UsizeMax)
    ensures OptionalBounded(sc, AddAttr(e, k, v), "destroy", UsizeMax) == OptionalBounded(sc, e, "destroy", UsizeMax)
    ensures OptionalBool(sc, AddAttr(e, k, v), "nullable") == OptionalBool(sc, e, "nullable")
    ensures OptionalBool(sc, AddAttr(e, k, v), "allow-none") == OptionalBool(sc, e, "allow-none")
    ensures OptionalBool(sc, AddAttr(e, k, v), "introspectable") == OptionalBool(sc, e, "introspectable")
    ensures OptionalBool(sc, AddAttr(e, k, v), "caller-allocates") == OptionalBool(sc, e, "caller-allocates")
    ensures OptionalBool(sc, AddAttr(e, k, v), "optional") == OptionalBool(sc, e, "optional")
    ensures OptionalBool(sc, AddAttr(e, k, v), "skip") == OptionalBool(sc, e, "skip")
  {
    LookupAppend(e.attrs, k, v, "name");
    LookupAppend(e.attrs, k, v, "transfer-ownership");
    LookupAppend(e.attrs, k, v, "nullable");
    LookupAppend(e.attrs, k, v, "allow-none");
    LookupAppend(e.attrs, k, v, "introspectable");
    LookupAppend(e.attrs, k, v, "scope");
    LookupAppend(e.attrs, k, v, "closure");
    LookupAppend(e.attrs, k, v, "destroy");
    LookupAppend(e.attrs, k, v, "direction");
    LookupAppend(e.attrs, k, v, "caller-allocates");
    LookupAppend(e.attrs, k, v, "optional");
    LookupAppend(e.attrs, k, v, "skip");
  }

  /** A parameter is read from its validation, its attribute reads and its children, and from nothing else. */
  lemma ParameterReadsOnly(sc: Scalars, e: Element, e': Element)
    requires Validate(ParameterTable, e') == Validate(ParameterTable, e) && e'.children == e.children
    requires Attr(e', "name") == Attr(e, "name")
    requires OptionalAttr(e', "transfer-ownership", ParseTransfer) == OptionalAttr(e, "transfer-ownership", ParseTransfer)
    requires OptionalAttr(e', "scope", ParseScope) == OptionalAttr(e, "scope", ParseScope)
    requires OptionalAttr(e', "direction", ParseDirection) == OptionalAttr(e, "direction", ParseDirection)
    requires OptionalBounded(sc, e', "closure", UsizeMax) == OptionalBounded(sc, e, "closure", UsizeMax)
    requires OptionalBounded(sc, e', "destroy", UsizeMax) == OptionalBounded(sc, e, "destroy", UsizeMax)
    requires OptionalBool(sc, e', "nullable") == OptionalBool(sc, e, "nullable")
    requires OptionalBool(sc, e', "allow-none") == OptionalBool(sc, e, "allow-none")
    requires OptionalBool(sc, e', "introspectable") == OptionalBool(sc, e, "introspectable")
    requires OptionalBool(sc, e', "caller-allocates") == OptionalBool(sc, e, "caller-allocates")
    requires OptionalBool(sc, e', "optional") == OptionalBool(sc, e, "optional")
    requires OptionalBool(sc, e', "skip") == OptionalBool(sc, e, "skip")
    ensures DecodeParameter(sc, e') == DecodeParameter(sc, e)
  {
    ParameterDecodes(sc, e);
    ParameterDecodes(sc, e');
    DocsReadChildrenOnly(e, e');
    assert DecodeAttributes(e') == DecodeAttributes(e);
    assert OptionalChild(e', "type", c => DecodeParameterType(sc, c)) == OptionalChild(e, "type", c => DecodeParameterType(sc, c));
  }

  /** The parameter table is lenient: an attribute it does not declare changes nothing about the parameter read. */
  lemma ParameterIgnoresUnknownAttr(sc: Scalars, e: Element, k: string, v: string)
    requires k !in ParameterAttrNames
    ensures DecodeParameter(sc, AddAttr(e, k, v)) == DecodeParameter(sc, e)
  {
    LenientIgnoresAttr(ParameterTable, e, k, v);
    ParameterAttrsIgnoreUnknownAttr(sc, e, k, v);
    ParameterReadsOnly(sc, e, AddAttr(e, k, v));
  }

  datatype InstanceParameter = InstanceParameter(
    name: string,
    transfer: Option<TransferOwnership>,
    nullable: Option<bool>,
    allowNone: Option<bool>,
    direction: Option<Direction>,
    callerAllocates: Option<bool>,
    docs: DocGroup,
    ty: Option<Type>)

  const InstanceParameterTable := Table("instance-parameter", false,
    [AttrDecl("name", Required), AttrDecl("transfer-ownership", Optional),
     AttrDecl("nullable", Optional), AttrDecl("allow-none", Optional),
     AttrDecl("direction", Optional), AttrDecl("caller-allocates", Optional)]
    + DocDecls + [ChildDecl("type", Optional)])

  function DecodeInstanceParameter(sc: Scalars, e: Element): (r: Result<InstanceParameter, string>)
    ensures Attr(e, "name").None? ==> r.Err?
    ensures r.Ok? ==> Attr(e, "name") == Some(r.value.name)
    ensures forall s :: Attr(e, "transfer-ownership") == Some(s) && ParseTransfer(s).Err? ==> r.Err?
    ensures forall s :: Attr(e, "direction") == Some(s) && ParseDirection(s).Err? ==> r.Err?
    ensures r.Ok? ==> (r.value.ty.None? <==> Children(e, "type") == [])
    ensures r.Ok? && r.value.ty.Some? ==> DecodeType(sc, Children(e, "type")[0]) == Ok(r.value.ty.value)
    ensures r.Ok? <==> && Conforms(InstanceParameterTable, e)
                       && OptionalAttr(e, "transfer-ownership", ParseTransfer).Ok?
                       && OptionalBool(sc, e, "nullable").Ok? && OptionalBool(sc, e, "allow-none").Ok?
                       && OptionalAttr(e, "direction", ParseDirection).Ok?
                       && OptionalBool(sc, e, "caller-allocates").Ok?
                       && DecodeDocs(e).Ok? && OptionalChild(e, "type", DecodeTypeWith(sc)).Ok?
    ensures r.Ok? ==> && OptionalAttr(e, "transfer-ownership", ParseTransfer) == Ok(r.value.transfer)
                      && OptionalAttr(e, "direction", ParseDirection) == Ok(r.value.direction)
                      && DecodeDocs(e) == Ok(r.value.docs)
                      && OptionalChild(e, "type", DecodeTypeWith(sc)) == Ok(r.value.ty)
  {
    var _ :- Validate(InstanceParameterTable, e);
    var transfer :- OptionalAttr(e, "transfer-ownership", ParseTransfer);
    var nullable :- OptionalBool(sc, e, "nullable");
    var allowNone :- OptionalBool(sc, e, "allow-none");
    var direction :- OptionalAttr(e, "direction", ParseDirection);
    var callerAllocates :- OptionalBool(sc, e, "caller-allocates");
    var docs :- DecodeDocs(e);
    var ty :- OptionalChild(e, "type", DecodeTypeWith(sc));
    Ok(InstanceParameter(RequiredAttr(InstanceParameterTable, e, "name"), transfer, nullable,
                         allowNone, direction, callerAllocates, docs, ty))
  }

  /** The attributes the instance-parameter table declares. */
  const InstanceParameterAttrNames := {"name", "transfer-ownership", "nullable", "allow-none", "direction", "caller-allocates"}

  /** Every attribute read of an instance parameter is blind to an attribute the table does not declare. */
  lemma InstanceParameterAttrsIgnoreUnknownAttr(sc: Scalars, e: Element, k: string, v: string)
    requires k !in InstanceParameterAttrNames
    ensures Attr(AddAttr(e, k, v), "name") == Attr(e, "name")
    ensures OptionalAttr(AddAttr(e, k, v), "transfer-ownership", ParseTransfer) == OptionalAttr(e, "transfer-ownership", ParseTransfer)
    ensures OptionalAttr(AddAttr(e, k, v), "direction", ParseDirection) == OptionalAttr(e, "direction", ParseDirection)
    ensures OptionalBool(sc, AddAttr(e, k, v), "nullable") == OptionalBool(sc, e, "nullable")
    ensures OptionalBool(sc, AddAttr(e, k, v), "allow-none") == OptionalBool(sc, e, "allow-none")
    ensures OptionalBool(sc, AddAttr(e, k, v), "caller-allocates") == OptionalBool(sc, e, "caller-allocates")
  {
    LookupAppend(e.attrs, k, v, "name");
    LookupAppend(e.attrs, k, v, "transfer-ownership");
    LookupAppend(e.attrs, k, v, "nullable");
    LookupAppend(e.attrs, k, v, "allow-none");
    LookupAppend(e.attrs, k, v, "direction");
    LookupAppend(e.attrs, k, v, "caller-allocates");
  }

  /** The instance-parameter table is lenient too. */
  lemma InstanceParameterIgnoresUnknownAttr(sc: Scalars, e: Element, k: string, v: string)
    requires k !in InstanceParameterAttrNames
    ensures DecodeInstanceParameter(sc, AddAttr(e, k, v)) == DecodeInstanceParameter(sc, e)
  {
    var e' := AddAttr(e, k, v);
    LenientIgnoresAttr(InstanceParameterTable, e, k, v);
    DocsReadChildrenOnly(e, e');
    InstanceParameterAttrsIgnoreUnknownAttr(sc, e, k, v);
    assert OptionalChild(e', "type", DecodeTypeWith(sc)) == OptionalChild(e, "type", DecodeTypeWith(sc));
  }

  function DecodeInstanceParameterWith(sc: Scalars): Element -> Result<InstanceParameter, string>
  {
    c => DecodeInstanceParameter(sc, c)
  }

  function DecodeParameterWith(sc: Scalars): Element -> Result<Parameter, string>
  {
    c => DecodeParameter(sc, c)
  }

  datatype Parameters = Parameters(instance: Option<InstanceParameter>, params: seq<Parameter>)
  {
    predicate IsEmpty() { instance.None? && |params| == 0 }

    /** `into_iter`: the ordinary parameters in document order; the instance parameter is not among them. */
    function IntoIter(): (r: seq<Parameter>)
      ensures r == params
    {
      params
    }
  }

  /** What a callable without a `<parameters>` child gets. */
  const NoParameters := Parameters(None, [])

  const ParametersTable := Table("parameters", false,
    [ChildDecl("instance-parameter", Optional), ChildDecl("parameter", Repeated)])

  function DecodeParameters(sc: Scalars, e: Element): (r: Result<Parameters, string>)
    ensures r.Ok? ==> (r.value.instance.None? <==> Children(e, "instance-parameter") == [])
    ensures r.Ok? ==> |r.value.params| == |Children(e, "parameter")|
    ensures r.Ok? ==> forall i :: 0 <= i < |r.value.params| ==>
              DecodeParameter(sc, Children(e, "parameter")[i]) == Ok(r.value.params[i])
    ensures (exists c :: c in Children(e, "parameter") && DecodeParameter(sc, c).Err?) ==> r.Err?
    ensures r.Ok? <==> && Conforms(ParametersTable, e)
                       && OptionalChild(e, "instance-parameter", DecodeInstanceParameterWith(sc)).Ok?
                       && AllChildren(e, "parameter", DecodeParameterWith(sc)).Ok?
    ensures r.Ok? ==> OptionalChild(e, "instance-parameter", DecodeInstanceParameterWith(sc)) == Ok(r.value.instance)
    ensures r.Ok? ==> AllChildren(e, "parameter", DecodeParameterWith(sc)) == Ok(r.value.params)
  {
    var _ :- Validate(ParametersTable, e);
    var instance :- OptionalChild(e, "instance-parameter", DecodeInstanceParameterWith(sc));
    var params :- AllChildren(e, "parameter", DecodeParameterWith(sc));
    Ok(Parameters(instance, params))
  }

  /** A parameter list is empty exactly when the element has neither kind of parameter child. */
  lemma ParametersEmptyIff(sc: Scalars, e: Element)
    requires DecodeParameters(sc, e).Ok?
    ensures DecodeParameters(sc, e).value.IsEmpty() <==>
              Children(e, "instance-parameter") == [] && Children(e, "parameter") == []
  {
  }

  /** The default parameter list is empty. */
  lemma NoParametersIsEmpty()
    ensures NoParameters.IsEmpty() && NoParameters.IntoIter() == []
  {
  }

  /** A `parameters` field with a default: absent means no parameters at all, present means the first such child decoded. */
  function DecodeParametersOrDefault(sc: Scalars, e: Element): (r: Result<Parameters, string>)
    ensures Children(e, "parameters") == [] ==> r == Ok(NoParameters)
    ensures Children(e, "parameters") != [] ==> r == DecodeParameters(sc, Children(e, "parameters")[0])
  {
    var ps := Children(e, "parameters");
    if ps == [] then Ok(NoParameters) else DecodeParameters(sc, ps[0])
  }
}
