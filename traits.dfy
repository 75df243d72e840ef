/**
 * The capabilities entities share (src/traits.rs): the common info
 * attributes with their defaults, the documentation children, the list of
 * `<attribute>` annotations with its well-known lookups, and the attributes
 * every callable carries. Each group has its slice of a field table and a
 * decoder that reads it from an element that conforms to the whole table.
 */
module Traits {
  import opened Wrappers
  import opened Xml
  import opened Lib
  import opened Versions
  import opened Docs
  import opened Attributes

  // ------------------------------------------------------------------- Info

  datatype Info = Info(
    introspectable: Option<bool>,
    deprecated: Option<bool>,
    version: Option<Version>,
    deprecatedVersion: Option<Version>,
    stability: Option<Stability>)
  {
    /** An entity is introspectable unless it says otherwise. */
    function IsIntrospectable(): bool { introspectable.GetOr(true) }

    /** An entity is deprecated only when it says so. */
    function IsDeprecated(): bool { deprecated.GetOr(false) }
  }

  const InfoDecls := [
    AttrDecl("introspectable", Optional), AttrDecl("deprecated", Optional),
    AttrDecl("version", Optional), AttrDecl("deprecated-version", Optional),
    AttrDecl("stability", Optional)]

  /**
   * The five info attributes. A boolean the scalar reader rejects, or a
   * stability literal outside the enumeration, fails the whole entity.
   */
  function DecodeInfo(sc: Scalars, e: Element): (r: Result<Info, string>)
    ensures Attr(e, "introspectable").None? && r.Ok? ==> r.value.IsIntrospectable()
    ensures Attr(e, "deprecated").None? && r.Ok? ==> !r.value.IsDeprecated()
    ensures forall s, b :: Attr(e, "introspectable") == Some(s) && sc.boolean(s) == Ok(b) && r.Ok?
              ==> r.value.IsIntrospectable() == b
    ensures forall s, b :: Attr(e, "deprecated") == Some(s) && sc.boolean(s) == Ok(b) && r.Ok?
              ==> r.value.IsDeprecated() == b
    ensures forall s :: Attr(e, "stability") == Some(s) && ParseStability(s).Err? ==> r.Err?
    ensures Attr(e, "stability").None? && r.Ok? ==> r.value.stability.None?
    ensures forall s, v :: Attr(e, "stability") == Some(s) && ParseStability(s) == Ok(v) && r.Ok?
              ==> r.value.stability == Some(v)
    ensures r.Ok? <==> OptionalBool(sc, e, "introspectable").Ok? && OptionalBool(sc, e, "deprecated").Ok?
                       && OptionalAttr(e, "stability", ParseStability).Ok?
    ensures r.Ok? ==> r.value.version == OptionalVersion(e, "version")
    ensures r.Ok? ==> r.value.deprecatedVersion == OptionalVersion(e, "deprecated-version")
  {
    var introspectable :- OptionalBool(sc, e, "introspectable");
    var deprecated :- OptionalBool(sc, e, "deprecated");
    var stability :- OptionalAttr(e, "stability", ParseStability);
    Ok(Info(introspectable, deprecated,
            OptionalVersion(e, "version"), OptionalVersion(e, "deprecated-version"),
            stability))
  }

  /** The attributes the info group reads. */
  const InfoAttrNames := {"introspectable", "deprecated", "version", "deprecated-version", "stability"}

  /** The info group reads only its five attributes: any other attribute added changes nothing. */
  lemma InfoIgnoresUnknownAttr(sc: Scalars, e: Element, k: string, v: string)
    requires k !in InfoAttrNames
    ensures DecodeInfo(sc, AddAttr(e, k, v)) == DecodeInfo(sc, e)
  {
    LookupAppend(e.attrs, k, v, "introspectable");
    LookupAppend(e.attrs, k, v, "deprecated");
    LookupAppend(e.attrs, k, v, "version");
    LookupAppend(e.attrs, k, v, "deprecated-version");
    LookupAppend(e.attrs, k, v, "stability");
  }

  // ---------------------------------------------------------- Documentable

  datatype DocGroup = DocGroup(
    doc: Option<Documentation>,
    docDeprecated: Option<DocDeprecated>,
    docStability: Option<DocStability>,
    docVersion: Option<DocVersion>,
    sourcePosition: Option<SourcePosition>)

  const DocDecls := [
    ChildDecl("doc", Optional), ChildDecl("doc-deprecated", Optional),
    ChildDecl("doc-stability", Optional), ChildDecl("doc-version", Optional),
    ChildDecl("source-position", Optional)]

  /** Each documentation child is optional; when present, the first one of its tag is decoded. */
  function DecodeDocs(e: Element): (r: Result<DocGroup, string>)
    ensures Children(e, "doc") == [] && r.Ok? ==> r.value.doc.None?
    ensures Children(e, "doc") != [] && r.Ok? ==> r.value.doc.Some? && DecodeDocumentation(Children(e, "doc")[0]) == Ok(r.value.doc.value)
    ensures Children(e, "doc") != [] && !Conforms(DocumentationTable, Children(e, "doc")[0]) ==> r.Err?
    ensures Children(e, "source-position") != [] && !Conforms(SourcePositionTable, Children(e, "source-position")[0]) ==> r.Err?
    ensures Children(e, "doc-deprecated") == [] && r.Ok? ==> r.value.docDeprecated.None?
    ensures Children(e, "doc-deprecated") != [] && r.Ok? ==>
              r.value.docDeprecated.Some? && r.value.docDeprecated.value.text == Children(e, "doc-deprecated")[0].text
    ensures r.Ok? <==> && OptionalChild(e, "doc", DecodeDocumentation).Ok?
                       && OptionalChild(e, "doc-deprecated", DecodeDocDeprecated).Ok?
                       && OptionalChild(e, "doc-stability", DecodeDocStability).Ok?
                       && OptionalChild(e, "doc-version", DecodeDocVersion).Ok?
                       && OptionalChild(e, "source-position", DecodeSourcePosition).Ok?
    ensures r.Ok? ==> && OptionalChild(e, "doc-deprecated", DecodeDocDeprecated) == Ok(r.value.docDeprecated)
                      && OptionalChild(e, "doc-stability", DecodeDocStability) == Ok(r.value.docStability)
                      && OptionalChild(e, "doc-version", DecodeDocVersion) == Ok(r.value.docVersion)
                      && OptionalChild(e, "source-position", DecodeSourcePosition) == Ok(r.value.sourcePosition)
  {
    var doc :- OptionalChild(e, "doc", DecodeDocumentation);
    var deprecated :- OptionalChild(e, "doc-deprecated", DecodeDocDeprecated);
    var stability :- OptionalChild(e, "doc-stability", DecodeDocStability);
    var version :- OptionalChild(e, "doc-version", DecodeDocVersion);
    var position :- OptionalChild(e, "source-position", DecodeSourcePosition);
    Ok(DocGroup(doc, deprecated, stability, version, position))
  }

  /** The documentation group is read from the children alone. */
  lemma DocsReadChildrenOnly(e: Element, e': Element)
    requires e.children == e'.children
    ensures DecodeDocs(e) == DecodeDocs(e')
  {
    assert OptionalChild(e, "doc", DecodeDocumentation) == OptionalChild(e', "doc", DecodeDocumentation);
    assert OptionalChild(e, "doc-deprecated", DecodeDocDeprecated) == OptionalChild(e', "doc-deprecated", DecodeDocDeprecated);
    assert OptionalChild(e, "doc-stability", DecodeDocStability) == OptionalChild(e', "doc-stability", DecodeDocStability);
    assert OptionalChild(e, "doc-version", DecodeDocVersion) == OptionalChild(e', "doc-version", DecodeDocVersion);
    assert OptionalChild(e, "source-position", DecodeSourcePosition) == OptionalChild(e', "source-position", DecodeSourcePosition);
  }

  // ---------------------------------------------------------- Attributable

  const AttributeDecls := [ChildDecl("attribute", Repeated)]

  /** Every `<attribute>` child, in document order. */
  function DecodeAttributes(e: Element): (r: Result<seq<Attribute>, string>)
    ensures r.Ok? <==> forall c :: c in Children(e, "attribute") ==> Conforms(AttributeTable, c)
    ensures r.Ok? ==> |r.value| == |Children(e, "attribute")|
    ensures r.Ok? ==> forall i :: 0 <= i < |r.value| ==>
              Attr(Children(e, "attribute")[i], "name") == Some(r.value[i].name)
    ensures r.Ok? ==> forall i :: 0 <= i < |r.value| ==> DecodeAttribute(Children(e, "attribute")[i]) == Ok(r.value[i])
  {
    var cs := Children(e, "attribute");
    var r := DecodeAll(cs, DecodeAttribute);
    assert r.Ok? <==> forall i :: 0 <= i < |cs| ==> DecodeAttribute(cs[i]).Ok?;
    r
  }

  /** The annotations as name and value pairs, in order. */
  function Pairs(attrs: seq<Attribute>): (ps: seq<(string, string)>)
    ensures |ps| == |attrs| && forall i :: 0 <= i < |attrs| ==> ps[i] == (attrs[i].name, attrs[i].value)
  {
    seq(|attrs|, i requires 0 <= i < |attrs| => (attrs[i].name, attrs[i].value))
  }

  lemma PairsAppend(attrs: seq<Attribute>, more: seq<Attribute>)
    ensures Pairs(attrs + more) == Pairs(attrs) + Pairs(more)
  {
  }

  /** The value of the first annotation named `key`: the attribute lookup, over the annotations' pairs. */
  function FindAttribute(attrs: seq<Attribute>, key: string): (r: Option<string>)
    ensures r.None? <==> forall i :: 0 <= i < |attrs| ==> attrs[i].name != key
    ensures r.Some? ==> exists i :: 0 <= i < |attrs| && attrs[i] == Attribute(key, r.value)
                                    && forall j :: 0 <= j < i ==> attrs[j].name != key
  {
    LookupFindsFirst(Pairs(attrs), key);
    Lookup(Pairs(attrs), key)
  }

  /** Annotations after the first one with a given key never change what the lookup finds. */
  lemma FindAttributeAppend(attrs: seq<Attribute>, more: seq<Attribute>, key: string)
    requires FindAttribute(attrs, key).Some?
    ensures FindAttribute(attrs + more, key) == FindAttribute(attrs, key)
  {
    PairsAppend(attrs, more);
    LookupPrefix(Pairs(attrs), Pairs(more), key);
  }

  const GtkPropertyGetKey := "org.gtk.Property.get"
  const GtkMethodGetPropertyKey := "org.gtk.Method.get_property"
  const GtkPropertySetKey := "org.gtk.Property.set"
  const GtkMethodSetPropertyKey := "org.gtk.Method.set_property"

  function GtkPropertyGet(attrs: seq<Attribute>): Option<string> { FindAttribute(attrs, GtkPropertyGetKey) }
  function GtkMethodGetProperty(attrs: seq<Attribute>): Option<string> { FindAttribute(attrs, GtkMethodGetPropertyKey) }
  function GtkPropertySet(attrs: seq<Attribute>): Option<string> { FindAttribute(attrs, GtkPropertySetKey) }
  function GtkMethodSetProperty(attrs: seq<Attribute>): Option<string> { FindAttribute(attrs, GtkMethodSetPropertyKey) }

  /** The four well-known lookups read distinct keys: an annotation answers at most one of them. */
  lemma GtkLookupsIndependent(attrs: seq<Attribute>, a: Attribute)
    requires a.name == GtkPropertyGetKey
    ensures GtkPropertyGet(attrs + [a]).Some?
    ensures GtkMethodGetProperty(attrs + [a]) == GtkMethodGetProperty(attrs)
    ensures GtkPropertySet(attrs + [a]) == GtkPropertySet(attrs)
    ensures GtkMethodSetProperty(attrs + [a]) == GtkMethodSetProperty(attrs)
  {
    FindAttributeIgnoresOther(attrs, a, GtkMethodGetPropertyKey);
    FindAttributeIgnoresOther(attrs, a, GtkPropertySetKey);
    FindAttributeIgnoresOther(attrs, a, GtkMethodSetPropertyKey);
    assert (attrs + [a])[|attrs|] == a;
  }

  /** Appending an annotation with another key leaves a lookup unchanged. */
  lemma FindAttributeIgnoresOther(attrs: seq<Attribute>, a: Attribute, key: string)
    requires a.name != key
    ensures FindAttribute(attrs + [a], key) == FindAttribute(attrs, key)
  {
    PairsAppend(attrs, [a]);
    assert Pairs([a]) == [(a.name, a.value)];
    LookupAppend(Pairs(attrs), a.name, a.value, key);
  }

  // -------------------------------------------------------------- Callable

  datatype CallableAttrs = CallableAttrs(
    name: string,
    cIdentifier: Option<string>,
    shadows: Option<string>,
    shadowedBy: Option<string>,
    throws: Option<bool>,
    movedTo: Option<string>,
    asyncFunc: Option<string>,
    finishFunc: Option<string>,
    syncFunc: Option<string>)
  {
    /** A callable throws only when it says so. */
    function Throws(): bool { throws.GetOr(false) }
  }

  const CallableDecls := [
    AttrDecl("name", Required), AttrDecl("c:identifier", Optional),
    AttrDecl("shadows", Optional), AttrDecl("shadowed-by", Optional),
    AttrDecl("throws", Optional), AttrDecl("moved-to", Optional),
    AttrDecl("glib:async-func", Optional), AttrDecl("glib:finish-func", Optional),
    AttrDecl("glib:sync-func", Optional)]

  /** The callable attributes of an element that has a name: only `throws` can fail. */
  function DecodeCallable(sc: Scalars, e: Element): (r: Result<CallableAttrs, string>)
    requires Attr(e, "name").Some?
    ensures Attr(e, "throws").None? ==> r.Ok? && !r.value.Throws()
    ensures forall s :: Attr(e, "throws") == Some(s) ==> (r.Ok? <==> sc.boolean(s).Ok?)
    ensures forall s, b :: Attr(e, "throws") == Some(s) && sc.boolean(s) == Ok(b) ==> r.Ok? && r.value.Throws() == b
    ensures r.Ok? ==> Attr(e, "name") == Some(r.value.name)
    ensures r.Ok? ==> r.value.cIdentifier == Attr(e, "c:identifier") && r.value.movedTo == Attr(e, "moved-to")
    ensures r.Ok? ==> r.value.shadows == Attr(e, "shadows") && r.value.shadowedBy == Attr(e, "shadowed-by")
    ensures r.Ok? ==> && r.value.asyncFunc == Attr(e, "glib:async-func")
                      && r.value.finishFunc == Attr(e, "glib:finish-func")
                      && r.value.syncFunc == Attr(e, "glib:sync-func")
  {
    var throws :- OptionalBool(sc, e, "throws");
    Ok(CallableAttrs(
      Attr(e, "name").value, Attr(e, "c:identifier"),
      Attr(e, "shadows"), Attr(e, "shadowed-by"), throws, Attr(e, "moved-to"),
      Attr(e, "glib:async-func"), Attr(e, "glib:finish-func"), Attr(e, "glib:sync-func")))
  }
}
