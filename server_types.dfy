/**
 * The payloads and enumerations exchanged with the AML language server
 * (`extension/src/server-types.d.ts`), as values.
 */
module ServerTypes {
  import opened Js

  /** `ConversionFormats`: the API formats the server converts between. */
  datatype ConversionFormat = Oas20 | Oas30 | Raml08 | Raml10 | Async20 | AmfGraph

  /** The string value of each `ConversionFormats` member. */
  function FormatName(f: ConversionFormat): string
  {
    match f
    case Oas20 => "OAS 2.0"
    case Oas30 => "OAS 3.0"
    case Raml08 => "RAML 0.8"
    case Raml10 => "RAML 1.0"
    case Async20 => "ASYNC 2.0"
    case AmfGraph => "AMF Graph"
  }

  /** The member whose string value is `name`, if any: how a detected `type` string compares to the enumeration. */
  function FormatNamed(name: string): (r: Option<ConversionFormat>)
    ensures r.Some? ==> FormatName(r.value) == name
  {
    if name == "OAS 2.0" then Some(Oas20)
    else if name == "OAS 3.0" then Some(Oas30)
    else if name == "RAML 0.8" then Some(Raml08)
    else if name == "RAML 1.0" then Some(Raml10)
    else if name == "ASYNC 2.0" then Some(Async20)
    else if name == "AMF Graph" then Some(AmfGraph)
    else None
  }

  /** Every member is found again by its name, so no two members share one. */
  lemma FormatNamedName(f: ConversionFormat)
    ensures FormatNamed(FormatName(f)) == Some(f)
  {
  }

  /** `ConversionSyntaxes`: the concrete syntaxes of a converted document. */
  datatype ConversionSyntax = Json | Yaml | Raml

  function SyntaxName(s: ConversionSyntax): string
  {
    match s
    case Json => "json"
    case Yaml => "yaml"
    case Raml => "raml"
  }

  function SyntaxNamed(name: string): (r: Option<ConversionSyntax>)
    ensures r.Some? ==> SyntaxName(r.value) == name
  {
    if name == "json" then Some(Json)
    else if name == "yaml" then Some(Yaml)
    else if name == "raml" then Some(Raml)
    else None
  }

  lemma SyntaxNamedName(s: ConversionSyntax)
    ensures SyntaxNamed(SyntaxName(s)) == Some(s)
  {
  }

  /** A position in a text document, as LSP sends it. */
  datatype Position = Position(line: nat, character: nat)

  datatype Range = Range(start: Position, end: Position)

  datatype TextEdit = TextEdit(range: Range, newText: string)

  /**
   * An entry of `WorkspaceEdit.documentChanges`: either the edits of one text
   * document, or a create/rename/delete resource operation (the objects that
   * carry a `kind` field).
   */
  datatype DocumentChange =
    | TextDocumentEdit(uri: string, edits: seq<TextEdit>)
    | ResourceOperation(kind: string)

  /** A `WorkspaceEdit` whose `documentChanges` may be absent. */
  datatype WorkspaceEdit = WorkspaceEdit(documentChanges: Option<seq<DocumentChange>>)

  /** `RenameFileResponse`: the edits the server proposes for a renamed file. */
  datatype RenameFileResponse = RenameFileResponse(edits: WorkspaceEdit)

  /** `FileUsageResponse`: one place that references a document. */
  datatype FileUsageResponse = FileUsageResponse(uri: string, range: Range)

  /** `RequestMethod`: the custom request names. */
  const RenameFileMethod := "renameFile"
  const FileUsageMethod := "fileUsage"
}
