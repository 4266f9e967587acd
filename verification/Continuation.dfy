/** The writer class and the projection loop of `packages/switchboard/src/continuation.ts`,
    proved to compute what ContinuationModel says. */
module Continuation {
  import opened Basics
  import opened ContinuationModel

  class ContinuationWriter {
    const rootMessageId: RowId
    var currentOutputId: RowId
    var toolOutputs: map<string, RowId>
    var pendingCompactions: seq<RowId>
    var streamedText: string
    var visibleText: map<RowId, string>
    var lastProseType: map<RowId, Prose>
    var visibleAggregate: string
    var lastJournalProseType: Option<Prose>

    function View(): Writer
      reads this
    {
      Writer(rootMessageId, currentOutputId, toolOutputs, pendingCompactions,
             ProseState(streamedText, visibleText, lastProseType, visibleAggregate, lastJournalProseType))
    }

    /** Rebuild a writer from the events it has journaled so far. */
    constructor (rootMessageId: RowId, journal: seq<Event>)
      ensures View() == Replay(rootMessageId, journal)
    {
      this.rootMessageId := rootMessageId;
      currentOutputId, toolOutputs, pendingCompactions := rootMessageId, map[], [];
      streamedText, visibleText, lastProseType, visibleAggregate, lastJournalProseType := "", map[], map[], "", None;
      new;
      for i := 0 to |journal|
        invariant this.rootMessageId == rootMessageId && View() == Replay(rootMessageId, journal[..i])
      {
        assert journal[..i + 1][..i] == journal[..i];
        ObserveEvent(journal[i]);
      }
      assert journal[..|journal|] == journal;
    }

    method ObserveEvent(e: Event)
      modifies this
      ensures View() == Observe(old(View()), e)
    {
      var target := if TargetOf(e).Some? then TargetOf(e).value else rootMessageId;
      if e.RunItem? {
        var id := CallIdOf(e);
        if e.itemType.ToolCall? && id.Some? { toolOutputs := toolOutputs[id.value := target]; }
        var kind := ProseOf(e);
        if kind.Some? { AppendProse(target, kind.value, TextOf(e)); }
        if !e.itemType.ToolResult? && !e.itemType.ReasoningSummary? { currentOutputId := target; }
        return;
      }
      if e.Timeline? {
        if e.status.Loading? {
          pendingCompactions := pendingCompactions + [target];
          currentOutputId := target;
        } else {
          pendingCompactions := RemoveFirst(pendingCompactions, target);
        }
        return;
      }
      if e.RunCompleted? { currentOutputId := target; }
    }

    method AppendProse(target: RowId, kind: Prose, text: string)
      modifies this
      ensures View() == old(View()).(prose := AddProse(old(View()).prose, target, kind, text))
    {
      streamedText := streamedText + text;
      if |text| > 0 {
        var previous := Lookup(visibleText, target, "");
        var boundary := kind == Block || LookupProse(lastProseType, target) == Some(Block);
        visibleText := visibleText[target := previous + (if boundary && |previous| > 0 then "\n\n" else "") + text];
        lastProseType := lastProseType[target := kind];
        var aggregateBoundary := kind == Block || lastJournalProseType == Some(Block);
        visibleAggregate := visibleAggregate + (if aggregateBoundary && |visibleAggregate| > 0 then "\n\n" else "") + text;
        lastJournalProseType := Some(kind);
      }
    }

    /** `nextId` is what the row allocator returns if it is called. */
    method AssignEvent(e: Event, latestMessageId: RowId, nextId: RowId) returns (placed: Event, created: Option<RowId>)
      modifies this
      ensures var a := Assign(old(View()), e, latestMessageId, nextId);
              View() == a.writer && placed == a.event && created == a.created
    {
      created := None;
      if e.Untargetable? || e.target.Some? {
        ObserveEvent(e);
        return e, None;
      }
      var outputId := currentOutputId;
      if e.RunItem? {
        var id := CallIdOf(e);
        if e.itemType.ToolResult? {
          outputId := if id.None? then currentOutputId else Lookup(toolOutputs, id.value, currentOutputId);
        } else if e.itemType.ReasoningSummary? {
          outputId := currentOutputId;
        } else {
          created := AllocateAfterInterleave(latestMessageId, nextId);
          outputId := currentOutputId;
        }
      } else if e.Timeline? {
        if e.status.Finished? {
          if pendingCompactions != [] {
            outputId := pendingCompactions[0];
            pendingCompactions := pendingCompactions[1..];
          }
        } else {
          created := AllocateAfterInterleave(latestMessageId, nextId);
          outputId := currentOutputId;
        }
      } else {
        if !e.failed && |CompletionResidual(e.finalText, streamedText, visibleAggregate)| > 0 {
          created := AllocateAfterInterleave(latestMessageId, nextId);
        }
        outputId := currentOutputId;
      }
      placed := WithTarget(e, outputId);
      ObserveEvent(placed);
    }

    method AllocateAfterInterleave(latestMessageId: RowId, nextId: RowId) returns (created: Option<RowId>)
      modifies this`currentOutputId
      ensures created == if latestMessageId > old(currentOutputId) then Some(nextId) else None
      ensures currentOutputId == if created.Some? then nextId else old(currentOutputId)
    {
      if latestMessageId <= currentOutputId { return None; }
      currentOutputId := nextId;
      created := Some(nextId);
    }
  }

  /** Rebuild the text of every row, and which rows have something to show, from one journal. */
  method ProjectContinuationOutputs(rootMessageId: RowId, events: seq<Event>) returns (p: Projection)
    ensures p == Project(rootMessageId, events)
  {
    var bodies := map[rootMessageId := ""];
    var referenced, substantive := {rootMessageId}, {};
    var streamed, aggregate, result := "", "", rootMessageId;
    var lastProseType: map<RowId, Prose>, lastJournalProseType: Option<Prose> := map[], None;
    for i := 0 to |events|
      invariant Projection(result, bodies, aggregate, streamed, referenced, substantive, lastProseType, lastJournalProseType)
             == Project(rootMessageId, events[..i])
    {
      var e := events[i];
      assert events[..i + 1][..i] == events[..i];
      if e.Untargetable? { continue; }
      var target := if e.target.Some? then e.target.value else rootMessageId;
      referenced := referenced + {target};
      if target !in bodies { bodies := bodies[target := ""]; }
      result := target;
      if e.RunItem? {
        var kind, text := ProseOf(e), TextOf(e);
        if |text| > 0 {
          bodies := bodies[target := JoinProse(Lookup(bodies, target, ""), LookupProse(lastProseType, target), kind.value, text)];
          lastProseType := lastProseType[target := kind.value];
          aggregate := JoinProse(aggregate, lastJournalProseType, kind.value, text);
          lastJournalProseType := kind;
          streamed := streamed + text;
          substantive := substantive + {target};
        } else if !e.itemType.ReasoningSummary? {
          substantive := substantive + {target};
        }
        continue;
      }
      if e.Timeline? {
        substantive := substantive + {target};
        continue;
      }
      var residual := if e.failed then "" else CompletionResidual(e.finalText, streamed, aggregate);
      if |residual| > 0 {
        bodies := bodies[target := AppendResidualToRow(Lookup(bodies, target, ""), residual)];
        aggregate := aggregate + residual;
        substantive := substantive + {target};
      }
    }
    assert events[..|events|] == events;
    p := Projection(result, bodies, aggregate, streamed, referenced, substantive, lastProseType, lastJournalProseType);
  }
}
