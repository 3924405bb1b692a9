/** The rule set by which the chat page turns the events of one assistant run
    into the content blocks of the assistant's turn, as a pure left fold
    (`Run`) over the events, one `Step` per event, with the properties the
    page relies on. */
module Reducer {
  import opened Events
  import opened TextFormat

  /** The literal a text delta writes for one of its annotations: the reported
      zero-based index plus one, in brackets, padded with one space each side. */
  function Marker(a: DeltaAnnotation): (m: string)
    ensures |m| >= 5 && m[..2] == " [" && m[|m| - 2..] == "] "
  {
    " [" + Signed(a.index + 1) + "] "
  }

  /** The markers of a delta's annotations, in order. */
  function Markers(anns: seq<DeltaAnnotation>): (r: string)
    ensures |r| >= 5 * |anns|
  {
    if anns == [] then "" else Markers(anns[..|anns| - 1]) + Marker(anns[|anns| - 1])
  }

  const FILES_HEADER := "\n\nFiles: "

  /** The `[position] filename; ` entry of a completed message's annotation at
      1-based `position`, or nothing when it has no file citation. */
  function Entry(position: nat, a: Annotation, fileName: FileId -> string): (r: string)
    ensures |r| == 0 <==> a.citation.None?
  {
    match a.citation
    case None => ""
    case Some(id) => "[" + Decimal(position) + "] " + fileName(id) + "; "
  }

  /** The entries of all annotations of a completed message, each numbered by
      its 1-based position in the full list. */
  function FileList(anns: seq<Annotation>, fileName: FileId -> string): string
  {
    if anns == [] then ""
    else FileList(anns[..|anns| - 1], fileName) + Entry(|anns|, anns[|anns| - 1], fileName)
  }

  /** The file list is empty exactly when no annotation cites a file. */
  lemma {:induction false} FileListEmptyExactly(anns: seq<Annotation>, fileName: FileId -> string)
    ensures |FileList(anns, fileName)| == 0 <==> forall k :: 0 <= k < |anns| ==> anns[k].citation.None?
    decreases |anns|
  {
    if anns != [] {
      var front := anns[..|anns| - 1];
      assert forall k :: 0 <= k < |front| ==> front[k] == anns[k];
      FileListEmptyExactly(front, fileName);
    }
  }

  lemma FileListSnoc(anns: seq<Annotation>, j: nat, fileName: FileId -> string)
    requires j < |anns|
    ensures FileList(anns[..j + 1], fileName) == FileList(anns[..j], fileName) + Entry(j + 1, anns[j], fileName)
  {
    assert anns[..j + 1][..j] == anns[..j];
  }

  /** Appending to the content of the last block: the last block gets `s` at
      its end and nothing else changes. */
  function AppendToLast(out: seq<Block>, s: string): (r: seq<Block>)
    requires out != []
    ensures |r| == |out|
    ensures r[..|out| - 1] == out[..|out| - 1]
    ensures r[|out| - 1].content == out[|out| - 1].content + s
  {
    out[|out| - 1 := Text(out[|out| - 1].content + s)]
  }

  /** The effect of one event on the blocks built so far. The checks come in
      the order in which the loop body would raise. */
  function Step(out: seq<Block>, e: Event, cfg: Config): (r: Result<seq<Block>>)
    ensures r.Ok? ==> |out| <= |r.value| <= |out| + 1
    ensures r.Err? ==> r.fault != UsageFlagUnreadable
  {
    match e
    case MessageCreated => Ok(out + [Text("")])
    case MessageDelta(parts) =>
      if parts == [] then Err(MissingContent)
      else (
        match parts[0]
        case OtherDelta => Ok(out)
        case BareTextDelta => if out == [] then Err(NoOpenBlock) else Err(NoDeltaText)
        case TextDelta(value, anns) =>
          if out == [] then Err(NoOpenBlock)
          else if anns.Some? && anns.value != [] then Ok(AppendToLast(out, Markers(anns.value)))
          else if value.None? then Err(NullText)
          else Ok(AppendToLast(out, value.value)))
    case MessageCompleted(contents) =>
      if contents == [] then Err(MissingContent)
      else (
        match contents[0]
        case OtherContent => Err(NotText)
        case TextContent(anns) =>
          if anns.None? || anns.value == [] then Ok(out)
          else if out == [] then Err(NoOpenBlock)
          else Ok(AppendToLast(out, FILES_HEADER + FileList(anns.value, cfg.fileName))))
    case StepCompleted(usage) =>
      if cfg.printUsage && usage.Some? then Ok(out + [Text(usage.value)]) else Ok(out)
    case Other => Ok(out)
  }

  /** The left fold of `Step` over `events`, starting from the blocks `start`;
      the first fault stops the fold. */
  function Run(start: seq<Block>, events: seq<Event>, cfg: Config): (r: Result<seq<Block>>)
    ensures r.Ok? ==> |start| <= |r.value| <= |start| + |events|
    ensures r.Err? ==> r.fault != UsageFlagUnreadable
  {
    if events == [] then Ok(start)
    else
      match Run(start, events[..|events| - 1], cfg)
      case Err(f) => Err(f)
      case Ok(out) => Step(out, events[|events| - 1], cfg)
  }

  /** One more event at the end is one more step. */
  lemma RunSnoc(start: seq<Block>, events: seq<Event>, e: Event, cfg: Config)
    ensures Run(start, events + [e], cfg)
         == match Run(start, events, cfg) case Err(f) => Err(f) case Ok(out) => Step(out, e, cfg)
  {
    assert (events + [e])[..|events|] == events;
  }

  /** The assistant turn's blocks for a whole event stream. */
  function Reduce(events: seq<Event>, cfg: Config): (r: Result<seq<Block>>)
    ensures r.Ok? ==> |r.value| <= |events|
    ensures r.Err? ==> r.fault != UsageFlagUnreadable
  {
    Run([], events, cfg)
  }

  // ---------------------------------------------------------------------
  // One event at a time

  lemma CreatedOpensEmptyBlock(out: seq<Block>, cfg: Config)
    ensures Step(out, MessageCreated, cfg).Ok?
    ensures var r := Step(out, MessageCreated, cfg).value;
      |r| == |out| + 1 && r[..|out|] == out && r[|out|].content == ""
  {
  }

  /** A delta without annotations appends its own text verbatim. */
  lemma PlainDeltaAppendsValue(out: seq<Block>, value: string, anns: Option<seq<DeltaAnnotation>>, cfg: Config)
    requires out != []
    requires anns.None? || anns.value == []
    ensures Step(out, MessageDelta([TextDelta(Some(value), anns)]), cfg) == Ok(AppendToLast(out, value))
  {
  }

  /** A delta with annotations appends one marker per annotation and never its
      own text: the result does not depend on the value at all. */
  lemma AnnotatedDeltaIgnoresValue(out: seq<Block>, v1: Option<string>, v2: Option<string>,
                                   anns: seq<DeltaAnnotation>, cfg: Config)
    requires out != [] && anns != []
    ensures Step(out, MessageDelta([TextDelta(v1, Some(anns))]), cfg) == Ok(AppendToLast(out, Markers(anns)))
    ensures Step(out, MessageDelta([TextDelta(v1, Some(anns))]), cfg)
         == Step(out, MessageDelta([TextDelta(v2, Some(anns))]), cfg)
  {
  }

  lemma MarkersSnoc(anns: seq<DeltaAnnotation>, a: DeltaAnnotation)
    ensures Markers(anns + [a]) == Markers(anns) + Marker(a)
  {
    var longer := anns + [a];
    assert longer[..|longer| - 1] == anns;
  }

  lemma MarkersPrefix(anns: seq<DeltaAnnotation>, j: nat)
    requires j < |anns|
    ensures Markers(anns[..j + 1]) == Markers(anns[..j]) + Marker(anns[j])
  {
    assert anns[..j + 1][..j] == anns[..j];
  }

  /** The marker of an annotation reporting index k starts with " [", ends with
      "] " and carries the decimal digits of k + 1, without leading zero, in
      between. */
  lemma MarkerShape(a: DeltaAnnotation)
    requires a.index >= 0
    ensures var m := Marker(a);
      && |m| >= 5 && m[..2] == " [" && m[|m| - 2..] == "] "
      && (forall k :: 2 <= k < |m| - 2 ==> '0' <= m[k] <= '9')
      && m[2] != '0'
      && DigitsValue(m[2..|m| - 2]) == a.index + 1
  {
    var m := Marker(a);
    assert m[2..|m| - 2] == Signed(a.index + 1);
  }

  /** A completed message with annotations appends the files header and its
      file list to the last block. */
  lemma CompletionAppendsFileList(out: seq<Block>, anns: seq<Annotation>, rest: seq<ContentPart>, cfg: Config)
    requires out != [] && anns != []
    ensures Step(out, MessageCompleted([TextContent(Some(anns))] + rest), cfg)
         == Ok(AppendToLast(out, FILES_HEADER + FileList(anns, cfg.fileName)))
  {
  }

  /** Events that leave the blocks exactly as they were. */
  lemma QuietEventsChangeNothing(out: seq<Block>, e: Event, cfg: Config)
    requires || e == Other
             || (e.MessageDelta? && e.parts != [] && e.parts[0] == OtherDelta)
             || (e.MessageCompleted? && e.contents != [] && e.contents[0].TextContent?
                 && (e.contents[0].annotations.None? || e.contents[0].annotations.value == []))
             || (e.StepCompleted? && (!cfg.printUsage || e.usage.None?))
    ensures Step(out, e, cfg) == Ok(out)
  {
  }

  /** A completed run step adds a standalone usage block exactly when usage
      printing is on and the step reports usage; otherwise nothing changes. */
  lemma UsageBlock(out: seq<Block>, usage: Option<string>, cfg: Config)
    ensures var r := Step(out, StepCompleted(usage), cfg);
      r.Ok? && r.value[..|out|] == out
      && (|r.value| == |out| + 1 <==> cfg.printUsage && usage.Some?)
      && (|r.value| == |out| + 1 ==> r.value[|out|].content == usage.value)
      && (|r.value| != |out| + 1 ==> r.value == out)
  {
  }

  /** The events whose handling writes to the last block or its display slot:
      text deltas of any kind, and completed text messages with annotations. */
  predicate WritesToLast(e: Event)
  {
    || (e.MessageDelta? && e.parts != [] && (e.parts[0].TextDelta? || e.parts[0].BareTextDelta?))
    || (e.MessageCompleted? && e.contents != [] && e.contents[0].TextContent?
        && e.contents[0].annotations.Some? && e.contents[0].annotations.value != [])
  }

  /** The loop raises for want of a block exactly when no block exists yet and
      the event writes to the last block. */
  lemma NoOpenBlockExactly(out: seq<Block>, e: Event, cfg: Config)
    ensures Step(out, e, cfg) == Err(NoOpenBlock) <==> out == [] && WritesToLast(e)
  {
  }

  // ---------------------------------------------------------------------
  // Only the last block changes, and only at its end

  /** `later` is `earlier` with text appended to its last block and possibly
      new blocks after it. */
  ghost predicate Extends(earlier: seq<Block>, later: seq<Block>)
  {
    && |earlier| <= |later|
    && (forall k :: 0 <= k < |earlier| - 1 ==> later[k] == earlier[k])
    && (earlier != [] ==> earlier[|earlier| - 1].content <= later[|earlier| - 1].content)
  }

  lemma ExtendsTransitive(a: seq<Block>, b: seq<Block>, c: seq<Block>)
    requires Extends(a, b) && Extends(b, c)
    ensures Extends(a, c)
  {
    if a != [] && |a| < |b| {
      assert c[|a| - 1] == b[|a| - 1];
    }
  }

  lemma StepExtends(out: seq<Block>, e: Event, cfg: Config)
    requires Step(out, e, cfg).Ok?
    ensures Extends(out, Step(out, e, cfg).value)
  {
    var r := Step(out, e, cfg).value;
    forall k | 0 <= k < |out| - 1
      ensures r[k] == out[k]
    {
      assert r[..|out| - 1][k] == r[k];
    }
  }

  /** Across any number of events, earlier blocks never change, the block that
      was last only grows at its end, and no block disappears. */
  lemma {:induction false} RunExtends(start: seq<Block>, events: seq<Event>, cfg: Config)
    requires Run(start, events, cfg).Ok?
    ensures Extends(start, Run(start, events, cfg).value)
    decreases |events|
  {
    if events != [] {
      var prefix := events[..|events| - 1];
      var mid := Run(start, prefix, cfg).value;
      RunExtends(start, prefix, cfg);
      StepExtends(mid, events[|events| - 1], cfg);
      ExtendsTransitive(start, mid, Run(start, events, cfg).value);
    }
  }

  /** The number of events that open a block: message creations, and usage
      reports when usage printing is on. */
  function Opens(events: seq<Event>, printUsage: bool): nat
  {
    if events == [] then 0
    else
      var e := events[|events| - 1];
      Opens(events[..|events| - 1], printUsage)
        + (if e.MessageCreated? || (printUsage && e.StepCompleted? && e.usage.Some?) then 1 else 0)
  }

  lemma {:induction false} BlockCount(start: seq<Block>, events: seq<Event>, cfg: Config)
    requires Run(start, events, cfg).Ok?
    ensures |Run(start, events, cfg).value| == |start| + Opens(events, cfg.printUsage)
    decreases |events|
  {
    if events != [] {
      BlockCount(start, events[..|events| - 1], cfg);
    }
  }

  // ---------------------------------------------------------------------
  // Composition of runs

  /** Running two stretches of events one after the other is running their
      concatenation. */
  lemma {:induction false} RunSplit(start: seq<Block>, a: seq<Event>, b: seq<Event>, cfg: Config)
    ensures Run(start, a + b, cfg)
         == match Run(start, a, cfg) case Err(f) => Err(f) case Ok(mid) => Run(mid, b, cfg)
    decreases |b|
  {
    if b == [] {
      assert a + b == a;
    } else {
      assert (a + b)[..|a + b| - 1] == a + b[..|b| - 1];
      RunSplit(start, a, b[..|b| - 1], cfg);
    }
  }

  /** Once a fault has happened, later events do not matter. */
  lemma FaultIsFinal(start: seq<Block>, events: seq<Event>, n: nat, cfg: Config)
    requires n <= |events| && Run(start, events[..n], cfg).Err?
    ensures Run(start, events, cfg) == Run(start, events[..n], cfg)
  {
    assert events == events[..n] + events[n..];
    RunSplit(start, events[..n], events[n..], cfg);
  }

  /** With a block already open, no event can raise for want of one. */
  lemma {:induction false} OpenBlockStaysOpen(start: seq<Block>, events: seq<Event>, cfg: Config)
    requires start != []
    ensures Run(start, events, cfg) != Err(NoOpenBlock)
    ensures Run(start, events, cfg).Ok? ==> Run(start, events, cfg).value != []
    decreases |events|
  {
    if events != [] {
      var prefix := events[..|events| - 1];
      OpenBlockStaysOpen(start, prefix, cfg);
      if Run(start, prefix, cfg).Ok? {
        var mid := Run(start, prefix, cfg).value;
        NoOpenBlockExactly(mid, events[|events| - 1], cfg);
        if Step(mid, events[|events| - 1], cfg).Ok? {
          StepExtends(mid, events[|events| - 1], cfg);
        }
      }
    }
  }

  /** A stream that starts with a message creation never writes before a block
      exists. */
  lemma CreatedFirstNeverLacksBlock(events: seq<Event>, cfg: Config)
    requires events != [] && events[0] == MessageCreated
    ensures Reduce(events, cfg) != Err(NoOpenBlock)
  {
    assert events == [events[0]] + events[1..];
    RunSplit([], [events[0]], events[1..], cfg);
    RunSnoc([], [], MessageCreated, cfg);
    assert [] + [MessageCreated] == [events[0]];
    assert Run([], [events[0]], cfg).value == [Text("")];
    OpenBlockStaysOpen([Text("")], events[1..], cfg);
  }

  // ---------------------------------------------------------------------
  // Plain deltas concatenate

  /** A text delta with no annotations carrying `value`. */
  function PlainDelta(value: string): Event
  {
    MessageDelta([TextDelta(Some(value), None)])
  }

  function PlainDeltas(values: seq<string>): (r: seq<Event>)
    ensures |r| == |values|
  {
    if values == [] then [] else PlainDeltas(values[..|values| - 1]) + [PlainDelta(values[|values| - 1])]
  }

  function Concat(values: seq<string>): string
  {
    if values == [] then "" else Concat(values[..|values| - 1]) + values[|values| - 1]
  }

  lemma AppendTwice(out: seq<Block>, s: string, t: string)
    requires out != []
    ensures AppendToLast(AppendToLast(out, s), t) == AppendToLast(out, s + t)
  {
    var c := out[|out| - 1].content;
    assert c + s + t == c + (s + t);
  }

  /** Unannotated deltas append their texts to the last block in arrival order. */
  lemma {:induction false} PlainDeltasConcatenate(out: seq<Block>, values: seq<string>, cfg: Config)
    requires out != []
    ensures Run(out, PlainDeltas(values), cfg) == Ok(AppendToLast(out, Concat(values)))
    decreases |values|
  {
    if values == [] {
      assert out[|out| - 1].content + "" == out[|out| - 1].content;
      assert AppendToLast(out, "") == out;
    } else {
      var front := values[..|values| - 1];
      var events := PlainDeltas(values);
      assert events[..|events| - 1] == PlainDeltas(front);
      PlainDeltasConcatenate(out, front, cfg);
      var mid := AppendToLast(out, Concat(front));
      assert Step(mid, PlainDelta(values[|values| - 1]), cfg)
          == Ok(AppendToLast(mid, values[|values| - 1]));
      assert Concat(front) + values[|values| - 1] == Concat(values);
      AppendTwice(out, Concat(front), values[|values| - 1]);
    }
  }

  // ---------------------------------------------------------------------
  // Numbering of the file list

  /** The 1-based positions of the annotations that have a file citation, in
      increasing order. */
  function CitedPositions(anns: seq<Annotation>): (ps: seq<nat>)
    ensures forall k :: 0 <= k < |ps| ==> 1 <= ps[k] <= |anns|
    ensures forall i, j :: 0 <= i < j < |ps| ==> ps[i] < ps[j]
  {
    if anns == [] then []
    else CitedPositions(anns[..|anns| - 1]) + (if anns[|anns| - 1].citation.Some? then [|anns|] else [])
  }

  /** A position is listed exactly when the annotation there has a citation:
      an annotation without a citation is skipped but still uses up its number. */
  lemma {:induction false} CitedPositionsExact(anns: seq<Annotation>)
    ensures forall p :: p in CitedPositions(anns) <==> 1 <= p <= |anns| && anns[p - 1].citation.Some?
    decreases |anns|
  {
    if anns != [] {
      var front := anns[..|anns| - 1];
      CitedPositionsExact(front);
      forall k | 0 <= k < |front|
        ensures anns[k] == front[k]
      {
      }
    }
  }

  /** The entries for the given positions, one after the other. */
  function EntriesAt(positions: seq<nat>, anns: seq<Annotation>, fileName: FileId -> string): string
    requires forall k :: 0 <= k < |positions| ==> 1 <= positions[k] <= |anns|
  {
    if positions == [] then ""
    else
      var p := positions[|positions| - 1];
      EntriesAt(positions[..|positions| - 1], anns, fileName) + Entry(p, anns[p - 1], fileName)
  }

  lemma {:induction false} EntriesAtLonger(positions: seq<nat>, anns: seq<Annotation>, more: seq<Annotation>,
                                           fileName: FileId -> string)
    requires forall k :: 0 <= k < |positions| ==> 1 <= positions[k] <= |anns|
    ensures EntriesAt(positions, anns + more, fileName) == EntriesAt(positions, anns, fileName)
    decreases |positions|
  {
    if positions != [] {
      var p := positions[|positions| - 1];
      assert (anns + more)[p - 1] == anns[p - 1];
      EntriesAtLonger(positions[..|positions| - 1], anns, more, fileName);
    }
  }

  /** The file list is the entries of the cited annotations, in order, each
      numbered by its position in the whole list. */
  lemma {:induction false} FileListIsCitedEntries(anns: seq<Annotation>, fileName: FileId -> string)
    ensures FileList(anns, fileName) == EntriesAt(CitedPositions(anns), anns, fileName)
    decreases |anns|
  {
    if anns != [] {
      var front, last := anns[..|anns| - 1], anns[|anns| - 1];
      var pf := CitedPositions(front);
      FileListIsCitedEntries(front, fileName);
      assert EntriesAt(pf, anns, fileName) == EntriesAt(pf, front, fileName) by {
        assert anns == front + [last];
        EntriesAtLonger(pf, front, [last], fileName);
      }
      if last.citation.Some? {
        var ps := CitedPositions(anns);
        assert ps == pf + [|anns|];
        assert ps[..|ps| - 1] == pf;
      } else {
        assert CitedPositions(anns) == pf;
      }
    }
  }

  // ---------------------------------------------------------------------
  // Worked streams

  lemma HelloWorld(cfg: Config)
    ensures Reduce([MessageCreated, PlainDelta("Hello"), PlainDelta(" world"),
                    MessageCompleted([TextContent(Some([]))])], cfg)
         == Ok([Text("Hello world")])
  {
    var e0, e1, e2, e3 := MessageCreated, PlainDelta("Hello"), PlainDelta(" world"),
                          MessageCompleted([TextContent(Some([]))]);
    assert Run([], [e0], cfg) == Ok([Text("")]) by {
      RunSnoc([], [], e0, cfg);
      assert [] + [e0] == [e0];
      assert [] + [Text("")] == [Text("")];
    }
    assert Run([], [e0, e1], cfg) == Ok([Text("Hello")]) by {
      RunSnoc([], [e0], e1, cfg);
      assert [e0] + [e1] == [e0, e1];
      PlainDeltaAppendsValue([Text("")], "Hello", None, cfg);
      assert AppendToLast([Text("")], "Hello") == [Text("Hello")] by {
        assert "" + "Hello" == "Hello";
      }
    }
    assert Run([], [e0, e1, e2], cfg) == Ok([Text("Hello world")]) by {
      RunSnoc([], [e0, e1], e2, cfg);
      assert [e0, e1] + [e2] == [e0, e1, e2];
      PlainDeltaAppendsValue([Text("Hello")], " world", None, cfg);
      assert AppendToLast([Text("Hello")], " world") == [Text("Hello world")] by {
        assert "Hello" + " world" == "Hello world";
      }
    }
    RunSnoc([], [e0, e1, e2], e3, cfg);
    assert [e0, e1, e2] + [e3] == [e0, e1, e2, e3];
  }

  /** The texts the cited-delta stream below produces. */
  lemma CitedDeltaMarker()
    ensures Markers([DeltaAnnotation(0)]) == " [1] "
  {
    assert Signed(1) == "1";
    MarkersSnoc([], DeltaAnnotation(0));
    assert [] + [DeltaAnnotation(0)] == [DeltaAnnotation(0)];
  }

  lemma CitedDeltaFileList(fileName: FileId -> string)
    requires fileName("f1") == "book.pdf"
    ensures FileList([Annotation(Some("f1"))], fileName) == "[1] book.pdf; "
  {
    assert Decimal(1) == "1";
    assert [Annotation(Some("f1"))][..0] == [];
  }

  lemma CitedDeltaJoined()
    ensures " [1] " + (FILES_HEADER + "[1] book.pdf; ") == " [1] \n\nFiles: [1] book.pdf; "
  {
  }

  /** The cited-delta stream below, step by step, before the texts are worked out. */
  lemma CitedDeltaSteps(cfg: Config, marks: seq<DeltaAnnotation>, cites: seq<Annotation>)
    requires marks != [] && cites != []
    ensures Reduce([MessageCreated,
                    MessageDelta([TextDelta(Some("See"), Some(marks))]),
                    MessageCompleted([TextContent(Some(cites))])], cfg)
         == Ok(AppendToLast(AppendToLast([Text("")], Markers(marks)), FILES_HEADER + FileList(cites, cfg.fileName)))
  {
    var e0, e1, e2 := MessageCreated,
                      MessageDelta([TextDelta(Some("See"), Some(marks))]),
                      MessageCompleted([TextContent(Some(cites))]);
    var b1 := AppendToLast([Text("")], Markers(marks));
    assert Run([], [e0], cfg) == Ok([Text("")]) by {
      RunSnoc([], [], e0, cfg);
      assert [] + [e0] == [e0];
      CreatedOpensEmptyBlock([], cfg);
    }
    assert Run([], [e0, e1], cfg) == Ok(b1) by {
      RunSnoc([], [e0], e1, cfg);
      assert [e0] + [e1] == [e0, e1];
      AnnotatedDeltaIgnoresValue([Text("")], Some("See"), None, marks, cfg);
    }
    RunSnoc([], [e0, e1], e2, cfg);
    assert [e0, e1] + [e2] == [e0, e1, e2];
    assert [TextContent(Some(cites))] + [] == [TextContent(Some(cites))];
    CompletionAppendsFileList(b1, cites, [], cfg);
  }

  lemma CitedDelta(cfg: Config)
    requires cfg.fileName("f1") == "book.pdf"
    ensures Reduce([MessageCreated,
                    MessageDelta([TextDelta(Some("See"), Some([DeltaAnnotation(0)]))]),
                    MessageCompleted([TextContent(Some([Annotation(Some("f1"))]))])], cfg)
         == Ok([Text(" [1] \n\nFiles: [1] book.pdf; ")])
  {
    CitedDeltaSteps(cfg, [DeltaAnnotation(0)], [Annotation(Some("f1"))]);
    CitedDeltaMarker();
    CitedDeltaFileList(cfg.fileName);
    CitedDeltaJoined();
    assert "" + " [1] " == " [1] ";
    assert AppendToLast([Text("")], " [1] ") == [Text(" [1] ")];
    assert AppendToLast([Text(" [1] ")], FILES_HEADER + "[1] book.pdf; ")
        == [Text(" [1] " + (FILES_HEADER + "[1] book.pdf; "))];
  }
}
