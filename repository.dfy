/**
 * The repository root (src/repository.rs): namespace includes and the
 * package files they name, header includes, packages, the documentation
 * format and its string codec, the comma-separated prefix lists, and the
 * field table of `<repository>` itself.
 */
module Repositories {
  import opened Wrappers
  import opened Text
  import opened Versions
  import opened Xml

  // ------------------------------------------------------ namespace includes

  datatype NamespaceInclude = NamespaceInclude(name: string, version: Version)
  {
    /** `Name-Version`, the version as `Display` writes it. */
    function AsPackage(): (p: string)
      ensures p == name + "-" + Display(version)
    {
      name + "-" + Display(version)
    }

    /** The file that holds the namespace: the package name followed by `.gir`. */
    function AsPackageFile(): (f: string)
      ensures f == AsPackage() + ".gir"
    {
      name + "-" + Display(version) + ".gir"
    }
  }

  /** The rendered version never contains a dash, so the package name splits at its last one. */
  lemma DisplayHasNoDash(v: Version)
    ensures '-' !in Display(v)
  {
    DisplayAlphabet(v);
  }

  /** Two dash-free tails after a dash: equal joined strings have equal heads and tails. */
  lemma {:induction false} SplitAtLastDash(n1: string, d1: string, n2: string, d2: string)
    requires '-' !in d1 && '-' !in d2
    requires n1 + "-" + d1 == n2 + "-" + d2
    ensures n1 == n2 && d1 == d2
  {
    var s := n1 + "-" + d1;
    assert s[|s| - |d1| - 1] == '-';
    assert s[|s| - |d2| - 1] == '-';
    if |d1| == |d2| {
      assert d1 == s[|s| - |d1|..] == d2;
      assert n1 == s[..|n1|] == n2;
    }
  }

  /** Distinct includes name distinct packages, unless only their versions differ in a way `Display` hides. */
  lemma AsPackageInjective(i: NamespaceInclude, j: NamespaceInclude)
    requires i.AsPackage() == j.AsPackage()
    ensures i.name == j.name && Display(i.version) == Display(j.version)
  {
    DisplayHasNoDash(i.version);
    DisplayHasNoDash(j.version);
    SplitAtLastDash(i.name, Display(i.version), j.name, Display(j.version));
  }

  /** And so do their package files. */
  lemma AsPackageFileInjective(i: NamespaceInclude, j: NamespaceInclude)
    requires i.AsPackageFile() == j.AsPackageFile()
    ensures i.name == j.name && Display(i.version) == Display(j.version)
  {
    var p, q := i.AsPackage(), j.AsPackage();
    assert p == (p + ".gir")[..|p|];
    assert q == (q + ".gir")[..|q|];
    AsPackageInjective(i, j);
  }

  const NamespaceIncludeTable := Table("include", true, [AttrDecl("name", Required), AttrDecl("version", Required)])

  /** The version is read leniently, so only a missing or stray field is an error. */
  function DecodeNamespaceInclude(e: Element): (r: Result<NamespaceInclude, string>)
    ensures r.Ok? <==> Conforms(NamespaceIncludeTable, e)
    ensures r.Ok? ==> Attr(e, "name") == Some(r.value.name)
    ensures r.Ok? ==> Attr(e, "version").Some? && r.value.version == Parse(Attr(e, "version").value)
  {
    var _ :- Validate(NamespaceIncludeTable, e);
    Ok(NamespaceInclude(RequiredAttr(NamespaceIncludeTable, e, "name"),
                        Parse(RequiredAttr(NamespaceIncludeTable, e, "version"))))
  }

  datatype HeaderInclude = HeaderInclude(name: string)
  datatype Package = Package(name: string)

  const HeaderIncludeTable := Table("c:include", true, [AttrDecl("name", Required)])
  const PackageTable := Table("package", true, [AttrDecl("name", Required)])

  function DecodeHeaderInclude(e: Element): (r: Result<HeaderInclude, string>)
    ensures r.Ok? <==> Conforms(HeaderIncludeTable, e)
    ensures r.Ok? ==> Attr(e, "name") == Some(r.value.name)
  {
    var _ :- Validate(HeaderIncludeTable, e);
    Ok(HeaderInclude(RequiredAttr(HeaderIncludeTable, e, "name")))
  }

  function DecodePackage(e: Element): (r: Result<Package, string>)
    ensures r.Ok? <==> Conforms(PackageTable, e)
    ensures r.Ok? ==> Attr(e, "name") == Some(r.value.name)
  {
    var _ :- Validate(PackageTable, e);
    Ok(Package(RequiredAttr(PackageTable, e, "name")))
  }

  // ------------------------------------------------------ documentation format

  datatype DocFormat = GtkDocMarkdown | GtkDocDocbook | GiDocgen | Hotdoc | Unknown

  function DocFormatLiteral(f: DocFormat): string
  {
    match f
    case GtkDocMarkdown => "gtk-doc-markdown"
    case GtkDocDocbook => "gtk-doc-docbook"
    case GiDocgen => "gi-docgen"
    case Hotdoc => "hotdoc"
    case Unknown => "unknown"
  }

  /** Exactly the five literals are accepted; any other text is an error, not `Unknown`. */
  function ParseDocFormat(s: string): (r: Result<DocFormat, string>)
    ensures r.Ok? <==> s in {"gtk-doc-markdown", "gtk-doc-docbook", "gi-docgen", "hotdoc", "unknown"}
    ensures r.Ok? ==> DocFormatLiteral(r.value) == s
  {
    if s == "gtk-doc-markdown" then Ok(GtkDocMarkdown)
    else if s == "gtk-doc-docbook" then Ok(GtkDocDocbook)
    else if s == "gi-docgen" then Ok(GiDocgen)
    else if s == "hotdoc" then Ok(Hotdoc)
    else if s == "unknown" then Ok(Unknown)
    else Err("Invalid doc:format " + s)
  }

  lemma DocFormatRoundTrip(f: DocFormat)
    ensures ParseDocFormat(DocFormatLiteral(f)) == Ok(f)
  {
  }

  const DocFormatTable := Table("doc:format", true, [AttrDecl("name", Required)])

  function DecodeDocFormat(e: Element): (r: Result<DocFormat, string>)
    ensures Attr(e, "name").None? ==> r.Err?
    ensures r.Ok? ==> Conforms(DocFormatTable, e) && Attr(e, "name") == Some(DocFormatLiteral(r.value))
    ensures r.Ok? <==> && Conforms(DocFormatTable, e) && Attr(e, "name").Some?
                       && ParseDocFormat(Attr(e, "name").value).Ok?
  {
    var _ :- Validate(DocFormatTable, e);
    ParseDocFormat(RequiredAttr(DocFormatTable, e, "name"))
  }

  // ------------------------------------------------------------- prefixes

  /** The prefix list: nothing for an absent or empty attribute, else its comma-separated pieces. */
  function Prefixes(attr: Option<string>): (r: seq<string>)
    ensures attr.None? || attr == Some("") ==> r == []
    ensures attr.Some? && attr.value != "" ==> |r| >= 1 && Join(r, ',') == attr.value
    ensures forall i :: 0 <= i < |r| ==> ',' !in r[i]
  {
    if attr.None? || attr.value == "" then []
    else
      JoinSplit(attr.value, ',');
      Split(attr.value, ',')
  }

  /** Comma-free pieces that do not join to the empty text come back from their join. */
  lemma PrefixesOfJoin(pieces: seq<string>)
    requires |pieces| >= 1 && Join(pieces, ',') != ""
    requires forall i :: 0 <= i < |pieces| ==> ',' !in pieces[i]
    ensures Prefixes(Some(Join(pieces, ','))) == pieces
  {
    SplitJoin(pieces, ',');
  }

  // ------------------------------------------------------------ repository

  datatype Repository = Repository(
    version: Option<Version>,
    cIdentifierPrefixes: Option<string>,
    cSymbolPrefixes: Option<string>,
    includes: seq<NamespaceInclude>,
    cIncludes: seq<HeaderInclude>,
    packages: seq<Package>,
    namespace: Namespace,
    docFormat: Option<DocFormat>)
  {
    /** The format of the documentation, `Unknown` when the repository does not say. */
    function Format(): DocFormat { docFormat.GetOr(Unknown) }

    function IdentifierPrefixes(): seq<string> { Prefixes(cIdentifierPrefixes) }
    function SymbolPrefixes(): seq<string> { Prefixes(cSymbolPrefixes) }
  }

  /** Strict; the four `xmlns` attributes are accepted and dropped, and a namespace is required. */
  const RepositoryTable := Table("repository", true,
    [AttrDecl("version", Optional), AttrDecl("c:identifier-prefixes", Optional),
     AttrDecl("c:symbol-prefixes", Optional), AttrDecl("xmlns", Optional), AttrDecl("xmlns:c", Optional),
     AttrDecl("xmlns:glib", Optional), AttrDecl("xmlns:doc", Optional),
     ChildDecl("include", Repeated), ChildDecl("c:include", Repeated), ChildDecl("package", Repeated),
     ChildDecl("namespace", Required), ChildDecl("doc:format", Optional)])

  function DecodeRepository(e: Element): (r: Result<Repository, string>)
    ensures Children(e, "namespace") == [] ==> r.Err?
    ensures r.Ok? ==> Conforms(RepositoryTable, e)
    ensures r.Ok? ==> r.value.version == OptionalVersion(e, "version")
    ensures r.Ok? ==> r.value.cIdentifierPrefixes == Attr(e, "c:identifier-prefixes")
    ensures r.Ok? ==> r.value.cSymbolPrefixes == Attr(e, "c:symbol-prefixes")
    ensures r.Ok? ==> AllChildren(e, "include", DecodeNamespaceInclude) == Ok(r.value.includes)
    ensures r.Ok? ==> r.value.namespace == Opaque(Children(e, "namespace")[0])
    ensures r.Ok? ==> AllChildren(e, "c:include", DecodeHeaderInclude) == Ok(r.value.cIncludes)
    ensures r.Ok? ==> AllChildren(e, "package", DecodePackage) == Ok(r.value.packages)
    ensures r.Ok? ==> OptionalChild(e, "doc:format", DecodeDocFormat) == Ok(r.value.docFormat)
    ensures r.Ok? <==> && Conforms(RepositoryTable, e)
                       && AllChildren(e, "include", DecodeNamespaceInclude).Ok?
                       && AllChildren(e, "c:include", DecodeHeaderInclude).Ok?
                       && AllChildren(e, "package", DecodePackage).Ok?
                       && OptionalChild(e, "doc:format", DecodeDocFormat).Ok?
  {
    var _ :- Validate(RepositoryTable, e);
    var includes :- AllChildren(e, "include", DecodeNamespaceInclude);
    var cIncludes :- AllChildren(e, "c:include", DecodeHeaderInclude);
    var packages :- AllChildren(e, "package", DecodePackage);
    var docFormat :- OptionalChild(e, "doc:format", DecodeDocFormat);
    Ok(Repository(OptionalVersion(e, "version"), Attr(e, "c:identifier-prefixes"), Attr(e, "c:symbol-prefixes"),
                  includes, cIncludes, packages, Opaque(RequiredChild(RepositoryTable, e, "namespace")), docFormat))
  }

  /** Without a `<doc:format>` child the format is `Unknown`; with one, it is the literal that child names. */
  lemma FormatOfRepository(e: Element)
    requires DecodeRepository(e).Ok?
    ensures Children(e, "doc:format") == [] ==> DecodeRepository(e).value.Format() == Unknown
    ensures Children(e, "doc:format") != [] ==>
              Attr(Children(e, "doc:format")[0], "name") == Some(DocFormatLiteral(DecodeRepository(e).value.Format()))
  {
  }

  /** Each include is read from the `<include>` child at the same position. */
  lemma IncludesInOrder(e: Element, i: nat)
    requires DecodeRepository(e).Ok? && i < |Children(e, "include")|
    ensures i < |DecodeRepository(e).value.includes|
    ensures Attr(Children(e, "include")[i], "name") == Some(DecodeRepository(e).value.includes[i].name)
  {
    var incs := DecodeRepository(e).value.includes;
    assert DecodeAll(Children(e, "include"), DecodeNamespaceInclude) == Ok(incs);
    assert DecodeNamespaceInclude(Children(e, "include")[i]) == Ok(incs[i]);
  }
}
