/** The chat page's loop over the streamed events, step by step: `output` is the
    list of blocks the loop grows with appends and with edits through its
    last element. An exception the loop body would raise ends the loop with
    `Err`; the blocks built so far are then dropped, as the page never reaches
    the line that stores them. */
module StreamLoop {
  import opened Events
  import opened TextFormat
  import opened Reducer

  /** Appends one marker per annotation, in order, to the last block. */
  method AppendMarkers(output: seq<Block>, anns: seq<DeltaAnnotation>) returns (result: seq<Block>)
    requires output != []
    ensures result == AppendToLast(output, Markers(anns))
  {
    result := output;
    var last := |output| - 1;
    assert output[last].content + "" == output[last].content;
    for j := 0 to |anns|
      invariant result == AppendToLast(output, Markers(anns[..j]))
    {
      ghost var expected := AppendToLast(result, Marker(anns[j]));
      result := result[last := Text(result[last].content + (" [" + Signed(anns[j].index + 1) + "] "))];
      assert result == expected;
      MarkersPrefix(anns, j);
      AppendTwice(output, Markers(anns[..j]), Marker(anns[j]));
    }
    assert anns[..|anns|] == anns;
  }

  /** The files section of a completed message: the header, then one entry per
      annotation with a file citation, numbered by a counter that every
      annotation advances. */
  method AppendFileList(output: seq<Block>, anns: seq<Annotation>, fileName: FileId -> string)
    returns (result: seq<Block>)
    requires output != []
    ensures result == AppendToLast(output, FILES_HEADER + FileList(anns, fileName))
  {
    var last := |output| - 1;
    result := output[last := Text(output[last].content + FILES_HEADER)];
    ghost var headed := result;
    assert result[last].content + "" == result[last].content;
    var index: nat := 0;
    for j := 0 to |anns|
      invariant index == j
      invariant result == AppendToLast(headed, FileList(anns[..j], fileName))
    {
      index := index + 1;
      ghost var entry := Entry(index, anns[j], fileName);
      ghost var expected := AppendToLast(result, entry);
      if anns[j].citation.Some? {
        var id := anns[j].citation.value;
        assert entry == "[" + Decimal(index) + "] " + fileName(id) + "; ";
        result := result[last := Text(result[last].content + ("[" + Decimal(index) + "] " + fileName(id) + "; "))];
      } else {
        assert entry == "";
        assert result[last].content + "" == result[last].content;
      }
      assert result == expected;
      FileListSnoc(anns, j, fileName);
      AppendTwice(headed, FileList(anns[..j], fileName), entry);
    }
    assert anns[..|anns|] == anns;
    AppendTwice(output, FILES_HEADER, FileList(anns, fileName));
  }

  /** The body of the loop for one event. */
  method HandleEvent(output: seq<Block>, event: Event, cfg: Config) returns (outcome: Result<seq<Block>>)
    ensures outcome == Step(output, event, cfg)
  {
    match event
    case MessageCreated =>
      outcome := Ok(output + [Text("")]);
    case MessageDelta(parts) =>
      if parts == [] {
        return Err(MissingContent);
      }
      match parts[0] {
        case OtherDelta =>
          outcome := Ok(output);
        case BareTextDelta =>
          outcome := if output == [] then Err(NoOpenBlock) else Err(NoDeltaText);
        case TextDelta(value, anns) =>
          if output == [] {
            return Err(NoOpenBlock);
          }
          if anns.Some? && anns.value != [] {
            var marked := AppendMarkers(output, anns.value);
            outcome := Ok(marked);
          } else if value.None? {
            outcome := Err(NullText);
          } else {
            var last := |output| - 1;
            outcome := Ok(output[last := Text(output[last].content + value.value)]);
          }
      }
    case MessageCompleted(contents) =>
      if contents == [] {
        return Err(MissingContent);
      }
      match contents[0] {
        case OtherContent =>
          outcome := Err(NotText);
        case TextContent(anns) =>
          if anns.None? || anns.value == [] {
            outcome := Ok(output);
          } else if output == [] {
            outcome := Err(NoOpenBlock);
          } else {
            var listed := AppendFileList(output, anns.value, cfg.fileName);
            outcome := Ok(listed);
          }
      }
    case StepCompleted(usage) =>
      if cfg.printUsage && usage.Some? {
        outcome := Ok(output + [Text(usage.value)]);
      } else {
        outcome := Ok(output);
      }
    case Other =>
      outcome := Ok(output);
  }

  /** The whole loop: the assistant turn's blocks, or the exception that ends it. */
  method ReduceStream(events: seq<Event>, cfg: Config) returns (outcome: Result<seq<Block>>)
    ensures outcome == Reduce(events, cfg)
  {
    var output: seq<Block> := [];
    for i := 0 to |events|
      invariant Run([], events[..i], cfg) == Ok(output)
    {
      assert events[..i + 1] == events[..i] + [events[i]];
      RunSnoc([], events[..i], events[i], cfg);
      var next := HandleEvent(output, events[i], cfg);
      if next.Err? {
        FaultIsFinal([], events, i + 1, cfg);
        return next;
      }
      output := next.value;
    }
    assert events[..|events|] == events;
    outcome := Ok(output);
  }
}
