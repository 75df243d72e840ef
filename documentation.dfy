/**
 * The documentation children an entity may carry (src/documentation.rs):
 * the main `<doc>` text, the deprecation, stability and version notes, and
 * the source position. All of them are strict.
 */
module Docs {
  import opened Wrappers
  import opened Xml

  datatype SourcePosition = SourcePosition(filename: string, line: string, column: Option<string>)

  /** The shape shared by `doc-deprecated`, `doc-stability` and `doc-version`. */
  datatype DocNote = DocNote(space: Option<string>, whitespace: Option<string>, text: string)

  type DocDeprecated = DocNote
  type DocStability = DocNote
  type DocVersion = DocNote

  datatype Documentation = Documentation(
    space: Option<string>, whitespace: Option<string>,
    filename: Option<string>, line: Option<string>, column: Option<string>,
    text: string)

  const SourcePositionTable := Table("source-position", true,
    [AttrDecl("filename", Required), AttrDecl("line", Required), AttrDecl("column", Optional)])

  const NoteDecls := [AttrDecl("xml:space", Optional), AttrDecl("xml:whitespace", Optional), TextDecl]

  const DocDeprecatedTable := Table("doc-deprecated", true, NoteDecls)
  const DocStabilityTable := Table("doc-stability", true, NoteDecls)
  const DocVersionTable := Table("doc-version", true, NoteDecls)

  const DocumentationTable := Table("doc", true,
    [AttrDecl("xml:space", Optional), AttrDecl("xml:whitespace", Optional),
     AttrDecl("filename", Optional), AttrDecl("line", Optional), AttrDecl("column", Optional),
     TextDecl])

  /** File name and line are required, the column optional; all three are kept as text. */
  function DecodeSourcePosition(e: Element): (r: Result<SourcePosition, string>)
    ensures r.Ok? <==> Conforms(SourcePositionTable, e)
    ensures r.Ok? ==> Attr(e, "filename") == Some(r.value.filename) && Attr(e, "line") == Some(r.value.line)
    ensures r.Ok? ==> r.value.column == Attr(e, "column")
  {
    var _ :- Validate(SourcePositionTable, e);
    Ok(SourcePosition(RequiredAttr(SourcePositionTable, e, "filename"),
                      RequiredAttr(SourcePositionTable, e, "line"),
                      Attr(e, "column")))
  }

  /** A note keeps its element text and its two optional whitespace attributes; the three note tables differ only in their root. */
  function DecodeNote(t: Table, e: Element): (r: Result<DocNote, string>)
    requires t.strict && t.decls == NoteDecls
    ensures r.Ok? <==> Conforms(t, e)
    ensures r.Ok? ==> r.value == DocNote(Attr(e, "xml:space"), Attr(e, "xml:whitespace"), e.text)
  {
    var _ :- Validate(t, e);
    Ok(DocNote(Attr(e, "xml:space"), Attr(e, "xml:whitespace"), e.text))
  }

  /** Every attribute of `<doc>` is optional and kept as text; the text is the element's text. */
  function DecodeDocumentation(e: Element): (r: Result<Documentation, string>)
    ensures r.Ok? <==> Conforms(DocumentationTable, e)
    ensures r.Ok? ==> r.value.text == e.text && r.value.filename == Attr(e, "filename")
    ensures r.Ok? ==> r.value.line == Attr(e, "line") && r.value.column == Attr(e, "column")
    ensures r.Ok? ==> r.value.space == Attr(e, "xml:space") && r.value.whitespace == Attr(e, "xml:whitespace")
  {
    var _ :- Validate(DocumentationTable, e);
    Ok(Documentation(Attr(e, "xml:space"), Attr(e, "xml:whitespace"),
                     Attr(e, "filename"), Attr(e, "line"), Attr(e, "column"), e.text))
  }

  function DecodeDocDeprecated(e: Element): Result<DocDeprecated, string> { DecodeNote(DocDeprecatedTable, e) }
  function DecodeDocStability(e: Element): Result<DocStability, string> { DecodeNote(DocStabilityTable, e) }
  function DecodeDocVersion(e: Element): Result<DocVersion, string> { DecodeNote(DocVersionTable, e) }
}
