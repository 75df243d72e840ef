/**
 * The declarative XML mapping every GIR entity is read through.
 *
 * A parsed document is a tree of elements, each with its tag, its
 * attributes in document order, its child elements in document order and
 * its text. An entity declares a field table: each field is an attribute, a
 * named child, a set of child tags dispatched to variants (an "untagged"
 * field) or the element's text, with a cardinality (required, optional,
 * repeated, or defaulted when absent). A strict table rejects attributes and
 * child elements it does not declare; a lenient one ignores them.
 * `Validate` is the table-driven pass; the typed readers below then convert
 * the matched attribute texts and child elements into field values.
 */
module Xml {
  import opened Wrappers
  import Versions

  datatype Element = Element(tag: string, attrs: seq<(string, string)>, children: seq<Element>, text: string)

  /** An entity whose own decoding is not part of this model, carried as its element. */
  datatype Opaque = Opaque(element: Element)

  type Array = Opaque
  type Signal = Opaque
  type Namespace = Opaque

  // ------------------------------------------------------------ attributes

  /** The value of the first attribute named `name`. */
  function Lookup(attrs: seq<(string, string)>, name: string): Option<string>
    decreases |attrs|
  {
    if |attrs| == 0 then None
    else if attrs[0].0 == name then Some(attrs[0].1)
    else Lookup(attrs[1..], name)
  }

  /** The lookup misses only when no attribute has the name, and otherwise finds the first one that has it. */
  lemma {:induction false} LookupFindsFirst(attrs: seq<(string, string)>, name: string)
    ensures Lookup(attrs, name).None? <==> forall i :: 0 <= i < |attrs| ==> attrs[i].0 != name
    ensures Lookup(attrs, name).Some? ==>
              exists i :: 0 <= i < |attrs| && attrs[i] == (name, Lookup(attrs, name).value)
                          && forall j :: 0 <= j < i ==> attrs[j].0 != name
    decreases |attrs|
  {
    if |attrs| > 0 && attrs[0].0 != name {
      LookupFindsFirst(attrs[1..], name);
      var r := Lookup(attrs, name);
      if r.Some? {
        var i :| 0 <= i < |attrs| - 1 && attrs[1..][i] == (name, r.value)
                 && forall j :: 0 <= j < i ==> attrs[1..][j].0 != name;
        assert attrs[i + 1] == (name, r.value);
        assert forall j :: 0 <= j < i + 1 ==> attrs[j].0 != name by {
          forall j | 0 <= j < i + 1 ensures attrs[j].0 != name {
            if j > 0 { assert attrs[j] == attrs[1..][j - 1]; }
          }
        }
      } else {
        forall i | 0 <= i < |attrs| ensures attrs[i].0 != name {
          if i > 0 { assert attrs[i] == attrs[1..][i - 1]; }
        }
      }
    }
  }

  function Attr(e: Element, name: string): Option<string>
  {
    Lookup(e.attrs, name)
  }

  /** Appending an attribute with another name leaves every lookup as it was. */
  lemma {:induction false} LookupAppend(attrs: seq<(string, string)>, k: string, v: string, name: string)
    requires name != k
    ensures Lookup(attrs + [(k, v)], name) == Lookup(attrs, name)
    decreases |attrs|
  {
    if |attrs| > 0 {
      assert (attrs + [(k, v)])[1..] == attrs[1..] + [(k, v)];
      LookupAppend(attrs[1..], k, v, name);
    } else {
      assert Lookup([(k, v)][1..], name).None?;
    }
  }

  /** Once the name is found, attributes after the prefix never change what the lookup finds. */
  lemma {:induction false} LookupPrefix(attrs: seq<(string, string)>, more: seq<(string, string)>, name: string)
    requires Lookup(attrs, name).Some?
    ensures Lookup(attrs + more, name) == Lookup(attrs, name)
    decreases |attrs|
  {
    if attrs[0].0 != name {
      assert (attrs + more)[1..] == attrs[1..] + more;
      LookupPrefix(attrs[1..], more, name);
    }
  }

  function AddAttr(e: Element, k: string, v: string): Element
  {
    e.(attrs := e.attrs + [(k, v)])
  }

  function AddChild(e: Element, c: Element): Element
  {
    e.(children := e.children + [c])
  }

  // -------------------------------------------------------------- children

  /** The elements among `cs` whose tag is in `tags`, in document order. */
  function Select(cs: seq<Element>, tags: set<string>): (r: seq<Element>)
    ensures |r| <= |cs|
    ensures forall c :: c in r ==> c in cs && c.tag in tags
    ensures forall c :: c in cs && c.tag in tags ==> c in r
    decreases |cs|
  {
    if |cs| == 0 then []
    else (if cs[0].tag in tags then [cs[0]] else []) + Select(cs[1..], tags)
  }

  /** Selection keeps document order: it distributes over concatenation. */
  lemma {:induction false} SelectAppend(a: seq<Element>, b: seq<Element>, tags: set<string>)
    ensures Select(a + b, tags) == Select(a, tags) + Select(b, tags)
    decreases |a|
  {
    if |a| == 0 {
      assert a + b == b;
    } else {
      assert (a + b)[1..] == a[1..] + b;
      SelectAppend(a[1..], b, tags);
    }
  }

  /** The children tagged `tag`, in document order. */
  function Children(e: Element, tag: string): seq<Element>
  {
    Select(e.children, {tag})
  }

  // ----------------------------------------------------------- field tables

  datatype Card = Required | Optional | Repeated | Defaulted

  datatype Decl =
    | AttrDecl(name: string, card: Card)
    | ChildDecl(tag: string, card: Card)
    | UntagDecl(tags: set<string>, card: Card)
    | TextDecl

  /** An entity's field table: the tag it is rooted at, whether it is strict, and its fields. */
  datatype Table = Table(root: string, strict: bool, decls: seq<Decl>)

  predicate DeclaresAttr(t: Table, name: string)
  {
    exists d :: d in t.decls && d.AttrDecl? && d.name == name
  }

  /** A child field that reads elements of this tag, by name or as one of its alternatives. */
  predicate NamesChild(d: Decl, tag: string)
  {
    (d.ChildDecl? && d.tag == tag) || (d.UntagDecl? && tag in d.tags)
  }

  predicate DeclaresChild(t: Table, tag: string)
  {
    exists d :: d in t.decls && NamesChild(d, tag)
  }

  /** A field is satisfied unless it is required and nothing in the element matches it. */
  predicate Satisfied(d: Decl, e: Element)
  {
    match d
    case AttrDecl(name, card) => card == Required ==> Attr(e, name).Some?
    case ChildDecl(tag, card) => card == Required ==> Children(e, tag) != []
    case UntagDecl(tags, card) => card == Required ==> Select(e.children, tags) != []
    case TextDecl => true
  }

  /** What the mapping demands of an element before any value is converted. */
  predicate Conforms(t: Table, e: Element)
  {
    && (t.strict ==> forall a :: a in e.attrs ==> DeclaresAttr(t, a.0))
    && (t.strict ==> forall c :: c in e.children ==> DeclaresChild(t, c.tag))
    && forall d :: d in t.decls ==> Satisfied(d, e)
  }

  function FirstUndeclaredAttr(t: Table, attrs: seq<(string, string)>): (r: Option<string>)
    ensures r.None? <==> forall a :: a in attrs ==> DeclaresAttr(t, a.0)
    decreases |attrs|
  {
    if |attrs| == 0 then None
    else if !DeclaresAttr(t, attrs[0].0) then Some(attrs[0].0)
    else
      var r := FirstUndeclaredAttr(t, attrs[1..]);
      assert forall a :: a in attrs ==> a == attrs[0] || a in attrs[1..];
      r
  }

  function FirstUndeclaredChild(t: Table, cs: seq<Element>): (r: Option<string>)
    ensures r.None? <==> forall c :: c in cs ==> DeclaresChild(t, c.tag)
    decreases |cs|
  {
    if |cs| == 0 then None
    else if !DeclaresChild(t, cs[0].tag) then Some(cs[0].tag)
    else
      var r := FirstUndeclaredChild(t, cs[1..]);
      assert forall c :: c in cs ==> c == cs[0] || c in cs[1..];
      r
  }

  function FirstUnsatisfied(decls: seq<Decl>, e: Element): (r: Option<Decl>)
    ensures r.None? <==> forall d :: d in decls ==> Satisfied(d, e)
    decreases |decls|
  {
    if |decls| == 0 then None
    else if !Satisfied(decls[0], e) then Some(decls[0])
    else
      var r := FirstUnsatisfied(decls[1..], e);
      assert forall d :: d in decls ==> d == decls[0] || d in decls[1..];
      r
  }

  /**
   * The table-driven pass: in a strict table an undeclared attribute or
   * child element is an error, and in every table a required field that
   * nothing matches is an error.
   */
  function Validate(t: Table, e: Element): (r: Result<(), string>)
    ensures r.Ok? <==> Conforms(t, e)
  {
    var strayAttr := FirstUndeclaredAttr(t, e.attrs);
    var strayChild := FirstUndeclaredChild(t, e.children);
    if t.strict && strayAttr.Some? then Err("unknown attribute " + strayAttr.value + " in " + e.tag)
    else if t.strict && strayChild.Some? then Err("unknown element " + strayChild.value + " in " + e.tag)
    else match FirstUnsatisfied(t.decls, e)
      case Some(_) => Err("missing a required field in " + e.tag)
      case None => Ok(())
  }

  lemma {:induction false} FirstUndeclaredAttrIgnoresRoot(t: Table, root: string, attrs: seq<(string, string)>)
    ensures FirstUndeclaredAttr(t.(root := root), attrs) == FirstUndeclaredAttr(t, attrs)
    decreases |attrs|
  {
    if |attrs| > 0 {
      FirstUndeclaredAttrIgnoresRoot(t, root, attrs[1..]);
    }
  }

  lemma {:induction false} FirstUndeclaredChildIgnoresRoot(t: Table, root: string, cs: seq<Element>)
    ensures FirstUndeclaredChild(t.(root := root), cs) == FirstUndeclaredChild(t, cs)
    decreases |cs|
  {
    if |cs| > 0 {
      FirstUndeclaredChildIgnoresRoot(t, root, cs[1..]);
    }
  }

  /** The root tag a table names plays no part in validation: the element's own tag is not checked against it. */
  lemma ValidateIgnoresRoot(t: Table, root: string, e: Element)
    ensures Validate(t.(root := root), e) == Validate(t, e)
  {
    FirstUndeclaredAttrIgnoresRoot(t, root, e.attrs);
    FirstUndeclaredChildIgnoresRoot(t, root, e.children);
  }

  /** A strict table rejects any attribute it does not declare. */
  lemma StrictRejectsAttr(t: Table, e: Element, k: string, v: string)
    requires t.strict && !DeclaresAttr(t, k)
    ensures Validate(t, AddAttr(e, k, v)).Err?
  {
    assert (k, v) in AddAttr(e, k, v).attrs;
  }

  /** A strict table rejects any child element it does not declare. */
  lemma StrictRejectsChild(t: Table, e: Element, c: Element)
    requires t.strict && !DeclaresChild(t, c.tag)
    ensures Validate(t, AddChild(e, c)).Err?
  {
    assert c in AddChild(e, c).children;
  }

  /** A strict table does not accept an element that already holds a child it does not declare. */
  lemma UndeclaredChildBreaks(t: Table, e: Element, c: Element)
    requires t.strict && c in e.children && !DeclaresChild(t, c.tag)
    ensures !Conforms(t, e)
  {
  }

  /** A lenient table is blind to an attribute it does not declare. */
  lemma LenientIgnoresAttr(t: Table, e: Element, k: string, v: string)
    requires !t.strict && !DeclaresAttr(t, k)
    ensures Validate(t, AddAttr(e, k, v)) == Validate(t, e)
  {
    var e' := AddAttr(e, k, v);
    forall d | d in t.decls
      ensures Satisfied(d, e') == Satisfied(d, e)
    {
      if d.AttrDecl? {
        LookupAppend(e.attrs, k, v, d.name);
      }
    }
  }

  /** A lenient table is blind to a child element it does not declare. */
  lemma LenientIgnoresChild(t: Table, e: Element, c: Element)
    requires !t.strict && !DeclaresChild(t, c.tag)
    ensures Validate(t, AddChild(e, c)) == Validate(t, e)
  {
    var e' := AddChild(e, c);
    forall d | d in t.decls
      ensures Satisfied(d, e') == Satisfied(d, e)
    {
      if d.ChildDecl? {
        SelectAppend(e.children, [c], {d.tag});
        assert c.tag != d.tag;
      } else if d.UntagDecl? {
        SelectAppend(e.children, [c], d.tags);
        assert c.tag !in d.tags;
      }
    }
  }

  // -------------------------------------------------------- reading fields

  /** The text of a required attribute, which a conforming element has. */
  function RequiredAttr(t: Table, e: Element, name: string): (r: string)
    requires Conforms(t, e) && AttrDecl(name, Required) in t.decls
    ensures Attr(e, name) == Some(r)
  {
    assert Satisfied(AttrDecl(name, Required), e);
    Attr(e, name).value
  }

  /** The first child under a required tag, which a conforming element has. */
  function RequiredChild(t: Table, e: Element, tag: string): (r: Element)
    requires Conforms(t, e) && ChildDecl(tag, Required) in t.decls
    ensures Children(e, tag) != [] && r == Children(e, tag)[0]
    ensures r in e.children
  {
    assert Satisfied(ChildDecl(tag, Required), e);
    Children(e, tag)[0]
  }

  /** The first child dispatched to a required untagged field, which a conforming element has. */
  function RequiredUntagged(t: Table, e: Element, tags: set<string>): (r: Element)
    requires Conforms(t, e) && UntagDecl(tags, Required) in t.decls
    ensures Select(e.children, tags) != [] && r == Select(e.children, tags)[0]
    ensures r in e.children && r.tag in tags
  {
    assert Satisfied(UntagDecl(tags, Required), e);
    Select(e.children, tags)[0]
  }

  /** How attribute texts that are not strings are read (`bool` and unsigned integers). */
  datatype Scalars = Scalars(boolean: string -> Result<bool, string>, unsigned: string -> Result<nat, string>)

  /** An optional attribute read with `parse`: absent is `None`, and a text `parse` rejects is an error. */
  function OptionalAttr<T>(e: Element, name: string, parse: string -> Result<T, string>): (r: Result<Option<T>, string>)
    ensures Attr(e, name).None? ==> r == Ok(None)
    ensures Attr(e, name).Some? ==> (r.Ok? <==> parse(Attr(e, name).value).Ok?)
    ensures Attr(e, name).Some? && r.Ok? ==> r.value == Some(parse(Attr(e, name).value).value)
  {
    match Attr(e, name)
    case None => Ok(None)
    case Some(s) =>
      match parse(s)
      case Ok(v) => Ok(Some(v))
      case Err(m) => Err(m)
  }

  function OptionalBool(sc: Scalars, e: Element, name: string): Result<Option<bool>, string>
  {
    OptionalAttr(e, name, sc.boolean)
  }

  /** An unsigned integer that must also fit the field's width, whose largest value is `max`. */
  function Bounded(sc: Scalars, max: nat, s: string): (r: Result<nat, string>)
    ensures r.Ok? ==> r.value <= max && sc.unsigned(s) == Ok(r.value)
    ensures sc.unsigned(s).Ok? && sc.unsigned(s).value <= max ==> r.Ok?
  {
    match sc.unsigned(s)
    case Ok(n) => if n <= max then Ok(n) else Err("integer out of range: " + s)
    case Err(m) => Err(m)
  }

  const U8Max: nat := 0xFF
  const UsizeMax: nat := 0xFFFF_FFFF_FFFF_FFFF

  function OptionalBounded(sc: Scalars, e: Element, name: string, max: nat): Result<Option<nat>, string>
  {
    OptionalAttr(e, name, s => Bounded(sc, max, s))
  }

  /** A version attribute: never an error, because version text is read leniently. */
  function OptionalVersion(e: Element, name: string): (r: Option<Versions.Version>)
    ensures Attr(e, name).None? ==> r.None?
    ensures Attr(e, name).Some? ==> r == Some(Versions.Parse(Attr(e, name).value))
  {
    match Attr(e, name)
    case None => None
    case Some(s) => Some(Versions.Parse(s))
  }

  /** The first child under `tag`, decoded, or `None` when there is none. */
  function OptionalChild<T>(e: Element, tag: string, decode: Element -> Result<T, string>): (r: Result<Option<T>, string>)
    ensures Children(e, tag) == [] ==> r == Ok(None)
    ensures Children(e, tag) != [] ==> (r.Ok? <==> decode(Children(e, tag)[0]).Ok?)
    ensures Children(e, tag) != [] && r.Ok? ==> r.value == Some(decode(Children(e, tag)[0]).value)
  {
    var cs := Children(e, tag);
    if cs == [] then Ok(None)
    else match decode(cs[0])
      case Ok(v) => Ok(Some(v))
      case Err(m) => Err(m)
  }

  /** Decodes every element in order; the first failure is the result. */
  function DecodeAll<T>(cs: seq<Element>, decode: Element -> Result<T, string>): (r: Result<seq<T>, string>)
    ensures r.Ok? <==> forall i :: 0 <= i < |cs| ==> decode(cs[i]).Ok?
    ensures r.Ok? ==> |r.value| == |cs| && forall i :: 0 <= i < |cs| ==> decode(cs[i]) == Ok(r.value[i])
    ensures r.Err? ==> exists i :: 0 <= i < |cs| && decode(cs[i]) == Err(r.error)
                                && forall j :: 0 <= j < i ==> decode(cs[j]).Ok?
    decreases |cs|
  {
    if |cs| == 0 then Ok([])
    else match decode(cs[0])
      case Err(m) => Err(m)
      case Ok(v) =>
        match DecodeAll(cs[1..], decode)
        case Err(m) =>
          ghost var i :| 0 <= i < |cs| - 1 && decode(cs[1..][i]) == Err(m)
                         && forall j :: 0 <= j < i ==> decode(cs[1..][j]).Ok?;
          assert decode(cs[i + 1]) == Err(m);
          Err(m)
        case Ok(vs) => Ok([v] + vs)
  }

  /** All children under `tag`, decoded in document order. */
  function AllChildren<T>(e: Element, tag: string, decode: Element -> Result<T, string>): Result<seq<T>, string>
  {
    DecodeAll(Children(e, tag), decode)
  }

  /** A list of children decodes exactly when each child under the tag does. */
  lemma AllChildrenOk<T>(e: Element, tag: string, decode: Element -> Result<T, string>)
    ensures AllChildren(e, tag, decode).Ok? <==> forall c :: c in Children(e, tag) ==> decode(c).Ok?
  {
    var cs := Children(e, tag);
    assert forall c :: c in cs ==> exists i :: 0 <= i < |cs| && cs[i] == c;
  }
}
