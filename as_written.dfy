/** The streaming loop exactly as the page writes it. The usage switch is
    read as `app_config.print_usage`, but `app_config` is the selected
    database's table from the TOML settings file, a plain dictionary, so the
    attribute read raises the moment a completed run step arrives, whatever
    the settings say. Every other event is handled as in `Reducer.Step`. */
module AsWritten {
  import opened Events
  import opened Reducer

  /** One event as the page handles it: a completed run step always raises. */
  function StepAsWritten(out: seq<Block>, e: Event, fileName: FileId -> string): (r: Result<seq<Block>>)
    ensures r == Err(UsageFlagUnreadable) <==> e.StepCompleted?
  {
    if e.StepCompleted? then Err(UsageFlagUnreadable) else Step(out, e, Config(false, fileName))
  }

  /** The page's loop as written: a stream it gets through holds no completed
      run step at all. */
  function RunAsWritten(start: seq<Block>, events: seq<Event>, fileName: FileId -> string): (r: Result<seq<Block>>)
    ensures r.Ok? ==> forall k :: 0 <= k < |events| ==> !events[k].StepCompleted?
  {
    if events == [] then Ok(start)
    else
      var front := events[..|events| - 1];
      assert forall k :: 0 <= k < |front| ==> front[k] == events[k];
      match RunAsWritten(start, front, fileName)
      case Err(f) => Err(f)
      case Ok(out) => StepAsWritten(out, events[|events| - 1], fileName)
  }

  /** Without completed run steps the page as written and the corrected fold
      agree, whatever the usage switch. */
  lemma {:induction false} AgreesWithoutRunSteps(start: seq<Block>, events: seq<Event>, cfg: Config)
    requires forall k :: 0 <= k < |events| ==> !events[k].StepCompleted?
    ensures RunAsWritten(start, events, cfg.fileName) == Run(start, events, cfg)
    decreases |events|
  {
    if events != [] {
      var front := events[..|events| - 1];
      assert forall k :: 0 <= k < |front| ==> front[k] == events[k];
      AgreesWithoutRunSteps(start, front, cfg);
    }
  }

  lemma {:induction false} FaultIsFinalAsWritten(start: seq<Block>, events: seq<Event>, n: nat, fileName: FileId -> string)
    requires n <= |events| && RunAsWritten(start, events[..n], fileName).Err?
    ensures RunAsWritten(start, events, fileName) == RunAsWritten(start, events[..n], fileName)
    decreases |events|
  {
    if n < |events| {
      var front := events[..|events| - 1];
      assert front[..n] == events[..n];
      FaultIsFinalAsWritten(start, front, n, fileName);
    } else {
      assert events[..n] == events;
    }
  }

  /** As written, a stream that gets through to its first completed run step
      without a fault ends with the usage-switch fault there instead of
      producing a turn. */
  lemma CrashesAtFirstRunStep(start: seq<Block>, events: seq<Event>, k: nat, cfg: Config)
    requires k < |events| && events[k].StepCompleted?
    requires forall j :: 0 <= j < k ==> !events[j].StepCompleted?
    requires Run(start, events[..k], cfg).Ok?
    ensures RunAsWritten(start, events, cfg.fileName) == Err(UsageFlagUnreadable)
  {
    var front := events[..k];
    assert forall j :: 0 <= j < |front| ==> front[j] == events[j];
    AgreesWithoutRunSteps(start, front, cfg);
    assert events[..k + 1][..k] == front;
    FaultIsFinalAsWritten(start, events, k + 1, cfg.fileName);
  }

  /** A short run in the order the assistant service streams it: run and step
      created, one message with one delta, the message step completed, the run
      completed. */
  const TYPICAL_RUN := [Other, Other, MessageCreated, PlainDelta("Hi"),
                        MessageCompleted([TextContent(Some([]))]), StepCompleted(Some("usage")), Other]

  /** Up to the completed run step, the typical run has produced its one text block. */
  lemma TypicalRunOpening(cfg: Config)
    ensures Run([], TYPICAL_RUN[..5], cfg) == Ok([Text("Hi")])
  {
    var e0, e2, e3, e4 := Other, MessageCreated, PlainDelta("Hi"), MessageCompleted([TextContent(Some([]))]);
    assert Run([], [e0], cfg) == Ok([]) by {
      RunSnoc([], [], e0, cfg);
      assert [] + [e0] == [e0];
    }
    assert Run([], [e0, e0], cfg) == Ok([]) by {
      RunSnoc([], [e0], e0, cfg);
      assert [e0] + [e0] == [e0, e0];
    }
    assert Run([], [e0, e0, e2], cfg) == Ok([Text("")]) by {
      RunSnoc([], [e0, e0], e2, cfg);
      assert [e0, e0] + [e2] == [e0, e0, e2];
      assert [] + [Text("")] == [Text("")];
    }
    assert Run([], [e0, e0, e2, e3], cfg) == Ok([Text("Hi")]) by {
      RunSnoc([], [e0, e0, e2], e3, cfg);
      assert [e0, e0, e2] + [e3] == [e0, e0, e2, e3];
      PlainDeltaAppendsValue([Text("")], "Hi", None, cfg);
      assert AppendToLast([Text("")], "Hi") == [Text("Hi")] by {
        assert "" + "Hi" == "Hi";
      }
    }
    assert Run([], [e0, e0, e2, e3, e4], cfg) == Ok([Text("Hi")]) by {
      RunSnoc([], [e0, e0, e2, e3], e4, cfg);
      assert [e0, e0, e2, e3] + [e4] == [e0, e0, e2, e3, e4];
      QuietEventsChangeNothing([Text("Hi")], e4, cfg);
    }
    assert TYPICAL_RUN[..5] == [e0, e0, e2, e3, e4];
  }

  /** As written the typical run raises; corrected, it yields the one text
      block, followed by the usage block when usage printing is on. */
  lemma TypicalRun(cfg: Config)
    ensures RunAsWritten([], TYPICAL_RUN, cfg.fileName) == Err(UsageFlagUnreadable)
    ensures Reduce(TYPICAL_RUN, cfg) == Ok(if cfg.printUsage then [Text("Hi"), Text("usage")] else [Text("Hi")])
  {
    var events := TYPICAL_RUN;
    var said := [Text("Hi")];
    TypicalRunOpening(cfg);
    CrashesAtFirstRunStep([], events, 5, cfg);
    var ending := if cfg.printUsage then said + [Text("usage")] else said;
    assert Run([], events[..6], cfg) == Ok(ending) by {
      RunSnoc([], events[..5], events[5], cfg);
      assert events[..5] + [events[5]] == events[..6];
    }
    RunSnoc([], events[..6], Other, cfg);
    assert events[..6] + [Other] == events;
    assert said + [Text("usage")] == [Text("Hi"), Text("usage")];
  }
}
