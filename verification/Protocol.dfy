/** The NDJSON messages that travel between the language server, the bridge and the adapter.

    A payload is one of the JSON shapes the programs distinguish; the shapes are disjoint because
    every payload record refuses unknown fields.  Any other JSON value is `OtherBody`. */
module Protocol {
  type Uri = string

  datatype Option<+T> = None | Some(value: T)

  datatype Position = Position(line: int, col: int)

  datatype Range = Range(start: Position, end: Position)

  datatype Severity = Error | Warning | Info

  datatype Diagnostic = Diagnostic(uri: Uri, range: Range, severity: Severity, message: string)

  datatype MessageType = DocumentPush | DocumentCheck | Diagnostics | Markup

  datatype Payload =
    | PushBody(uri: Uri, text: string)
    | CheckBody(uri: Uri, version: int)
    | MarkupBody(uri: Uri, offset: Position, info: string)
    | DiagnosticsBody(items: seq<Diagnostic>)
    | OtherBody(json: string)

  datatype Message = Message(id: string, kind: MessageType, session: string, version: int, payload: Payload)
  {
    /** A `document.push` whose payload decodes. */
    predicate IsPush() {
      kind.DocumentPush? && payload.PushBody?
    }

    predicate IsPushFor(u: Uri) {
      IsPush() && payload.uri == u
    }

    /** A `document.check` whose payload decodes. */
    predicate IsCheck() {
      kind.DocumentCheck? && payload.CheckBody?
    }
  }
}
