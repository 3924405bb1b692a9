/** The values the chat page's streaming loop works on: the events of one
    assistant run, the content blocks it builds, the turns of the chat
    history, and the ways the loop can stop with an exception. */
module Events {

  datatype Option<+T> = None | Some(value: T)

  /** The opaque id of an uploaded file, as carried by a file citation. */
  type FileId = string

  /** An annotation inside a text delta; the loop reads only its `index`. */
  datatype DeltaAnnotation = DeltaAnnotation(index: int)

  /** An annotation of a completed message; `citation` is the file id of its
      `file_citation` attribute when it has one (file-path annotations have none). */
  datatype Annotation = Annotation(citation: Option<FileId>)

  /** The first content part of a message delta. A text delta carries a value
      (which the API may leave out) and possibly annotations (None or a list);
      `BareTextDelta` is a text delta whose text part itself is absent. */
  datatype DeltaPart =
    | TextDelta(value: Option<string>, annotations: Option<seq<DeltaAnnotation>>)
    | BareTextDelta
    | OtherDelta

  /** The first content part of a completed message. */
  datatype ContentPart =
    | TextContent(annotations: Option<seq<Annotation>>)
    | OtherContent

  /** One streamed event of an assistant run, reduced to what the loop reads.
      A missing (None) content list is modelled as the empty one. The usage of
      a completed run step is given by its string rendering. */
  datatype Event =
    | MessageCreated
    | MessageDelta(parts: seq<DeltaPart>)
    | MessageCompleted(contents: seq<ContentPart>)
    | StepCompleted(usage: Option<string>)
    | Other

  /** A text item of a turn. */
  datatype Block = Text(content: string)

  datatype Role = User | Assistant

  /** One entry of the session's message history. */
  datatype Turn = Turn(role: Role, items: seq<Block>)

  /** Why the loop stops with an exception.
      NoOpenBlock: a text delta or a file list arrives while no block exists
      yet, so there is neither a display slot nor a last block to write to.
      MissingContent: the first content part of an event with no content parts.
      NotText: the first part of a completed message is not text.
      NoDeltaText: a text delta whose text part is absent.
      NullText: a delta without annotations whose value is absent.
      UsageFlagUnreadable: the usage flag is read as an attribute of a dict. */
  datatype Fault = NoOpenBlock | MissingContent | NotText | NoDeltaText | NullText | UsageFlagUnreadable

  datatype Result<+T> = Ok(value: T) | Err(fault: Fault)

  /** What the loop takes from its surroundings: the usage-printing switch of
      the selected database, and the file registry's id-to-filename lookup. */
  datatype Config = Config(printUsage: bool, fileName: FileId -> string)
}
