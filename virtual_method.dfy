/**
 * Virtual methods (src/virtual_method.rs): function-like, with the name of
 * the method that invokes them. Unlike the other callables they are
 * lenient, and their parameter list is required rather than defaulted.
 */
module VirtualMethods {
  import opened Wrappers
  import opened Xml
  import opened Functions

  datatype VirtualMethod = VirtualMethod(invoker: Option<string>, body: FunctionLike)

  const VirtualMethodTable := Table("virtual-method", false,
    [AttrDecl("invoker", Optional)] + FunctionLikeDecls(Required))

  function DecodeVirtualMethod(sc: Scalars, e: Element): (r: Result<VirtualMethod, string>)
    ensures r.Ok? <==> Conforms(VirtualMethodTable, e) && ReadFunctionLike(sc, e).Ok?
    ensures Children(e, "parameters") == [] ==> r.Err?
    ensures r.Ok? ==> r.value.invoker == Attr(e, "invoker")
    ensures r.Ok? ==> ReadFunctionLike(sc, e) == Ok(r.value.body)
  {
    VirtualMethodTableRequires();
    var body :- DecodeFunctionLike(sc, VirtualMethodTable, e);
    assert Satisfied(ChildDecl("parameters", Required), e);
    Ok(VirtualMethod(Attr(e, "invoker"), body))
  }

  /** The virtual-method table is function-like and, unlike the others, requires its parameter list. */
  lemma VirtualMethodTableRequires()
    ensures FunctionLikeTable(VirtualMethodTable)
    ensures ChildDecl("parameters", Required) in VirtualMethodTable.decls
  {
    var ds := VirtualMethodTable.decls;
    assert ds[|ds| - 1] == ChildDecl("parameters", Required);
    assert ds[|ds| - 2] == ChildDecl("return-value", Required);
    assert ds[1] == AttrDecl("name", Required);
  }

  function DecodeVirtualMethodWith(sc: Scalars): Element -> Result<VirtualMethod, string>
  {
    c => DecodeVirtualMethod(sc, c)
  }

  /** Being lenient, a virtual method passes validation whatever unknown attribute is added. */
  lemma VirtualMethodToleratesUnknownAttr(e: Element, k: string, v: string)
    requires !DeclaresAttr(VirtualMethodTable, k)
    ensures Conforms(VirtualMethodTable, AddAttr(e, k, v)) <==> Conforms(VirtualMethodTable, e)
  {
    LenientIgnoresAttr(VirtualMethodTable, e, k, v);
  }
}
