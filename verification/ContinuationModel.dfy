/** Segmentation of a run's events into message rows (`packages/switchboard/src/continuation.ts`)
    as functions: the online writer's state and decisions, and the batch projection. */
module ContinuationModel {
  import opened Basics

  type RowId = int

  datatype ItemType = ToolCall | ToolResult | ReasoningSummary | TextDelta | TextBlock | Commit | FileChange

  datatype CompactionStatus = Loading | Finished

  /** `callId` and `text` are the payload's fields when they are strings, else None and "". */
  datatype Event =
    | RunItem(itemType: ItemType, callId: Option<string>, text: string, target: Option<RowId>)
    | Timeline(status: CompactionStatus, target: Option<RowId>)
    | RunCompleted(failed: bool, finalText: Option<string>, target: Option<RowId>)
    | Untargetable(body: string)

  datatype Prose = Delta | Block

  function TargetOf(e: Event): Option<RowId> {
    if e.Untargetable? then None else e.target
  }

  function WithTarget(e: Event, row: RowId): Event
    requires !e.Untargetable?
  {
    match e
    case RunItem(itemType, callId, text, _) => RunItem(itemType, callId, text, Some(row))
    case Timeline(status, _) => Timeline(status, Some(row))
    case RunCompleted(failed, finalText, _) => RunCompleted(failed, finalText, Some(row))
  }

  function CallIdOf(e: Event): Option<string>
    requires e.RunItem?
  {
    if e.itemType.ToolCall? || e.itemType.ToolResult? then e.callId else None
  }

  function ProseOf(e: Event): Option<Prose>
    requires e.RunItem?
  {
    if e.itemType.TextDelta? then Some(Delta) else if e.itemType.TextBlock? then Some(Block) else None
  }

  function TextOf(e: Event): string
    requires e.RunItem?
  {
    if ProseOf(e).None? then "" else e.text
  }

  predicate EndsWith(s: string, suffix: string) {
    |suffix| <= |s| && s[|s| - |suffix|..] == suffix
  }

  /** The part of a run's final text that the streamed prose does not already show. */
  function CompletionResidual(finalText: Option<string>, streamed: string, visible: string): string {
    if finalText.None? || |finalText.value| == 0 then ""
    else
      var final := finalText.value;
      if |visible| > 0 && visible <= final then final[|visible|..]
      else if |streamed| == 0 then final
      else if streamed <= final then final[|streamed|..]
      else if EndsWith(streamed, final) || (|visible| > 0 && EndsWith(visible, final)) then ""
      else final
  }

  function AppendResidualToRow(body: string, residual: string): string {
    if |body| == 0 && "\n\n" <= residual then residual[2..] else body + residual
  }

  function Lookup<K, V>(m: map<K, V>, k: K, default: V): V {
    if k in m then m[k] else default
  }

  /** Prose joined to what is there: a paragraph break around blocks, nothing between deltas. */
  function JoinProse(previous: string, before: Option<Prose>, kind: Prose, text: string): string {
    previous + (if (kind == Block || before == Some(Block)) && |previous| > 0 then "\n\n" else "") + text
  }

  function LookupProse(m: map<RowId, Prose>, row: RowId): Option<Prose> {
    if row in m then Some(m[row]) else None
  }

  // ---------------------------------------------------------------- the online writer

  datatype Writer = Writer(root: RowId, current: RowId, toolOutputs: map<string, RowId>,
                           pending: seq<RowId>, prose: ProseState)

  /** The prose accumulators, per row and over the whole journal. */
  datatype ProseState = ProseState(streamed: string, visible: map<RowId, string>, lastKind: map<RowId, Prose>,
                                   aggregate: string, lastJournalKind: Option<Prose>)

  const NoProse := ProseState("", map[], map[], "", None)

  function Fresh(root: RowId): Writer {
    Writer(root, root, map[], [], NoProse)
  }

  function AddProse(p: ProseState, row: RowId, kind: Prose, text: string): ProseState {
    if |text| == 0 then p
    else
      ProseState(
        p.streamed + text,
        p.visible[row := JoinProse(Lookup(p.visible, row, ""), LookupProse(p.lastKind, row), kind, text)],
        p.lastKind[row := kind],
        JoinProse(p.aggregate, p.lastJournalKind, kind, text),
        Some(kind))
  }

  /** The first occurrence removed, as `indexOf` and `splice` do. */
  function RemoveFirst(rows: seq<RowId>, row: RowId): seq<RowId> {
    if rows == [] then [] else if rows[0] == row then rows[1..] else [rows[0]] + RemoveFirst(rows[1..], row)
  }

  function ObserveProse(p: ProseState, e: Event, row: RowId): ProseState {
    if e.RunItem? && ProseOf(e).Some? then AddProse(p, row, ProseOf(e).value, TextOf(e)) else p
  }

  function Observe(w: Writer, e: Event): Writer {
    var row := if TargetOf(e).Some? then TargetOf(e).value else w.root;
    match e
    case RunItem(itemType, _, _, _) =>
      w.(toolOutputs := if itemType.ToolCall? && CallIdOf(e).Some? then w.toolOutputs[CallIdOf(e).value := row]
                        else w.toolOutputs,
         prose := ObserveProse(w.prose, e, row),
         current := if itemType.ToolResult? || itemType.ReasoningSummary? then w.current else row)
    case Timeline(status, _) =>
      if status.Loading? then w.(pending := w.pending + [row], current := row)
      else w.(pending := RemoveFirst(w.pending, row))
    case RunCompleted(_, _, _) => w.(current := row)
    case Untargetable(_) => w
  }

  function Replay(root: RowId, journal: seq<Event>): Writer {
    if journal == [] then Fresh(root)
    else Observe(Replay(root, journal[..|journal| - 1]), journal[|journal| - 1])
  }

  /** The writer's own view of how much of the final text is still missing. */
  function WriterResidual(w: Writer, e: Event): string
    requires e.RunCompleted?
  {
    if e.failed then "" else CompletionResidual(e.finalText, w.prose.streamed, w.prose.aggregate)
  }

  /** The events that get a new row when other messages have come in between. */
  predicate Advances(w: Writer, e: Event) {
    match e
    case RunItem(itemType, _, _, _) => !itemType.ToolResult? && !itemType.ReasoningSummary?
    case Timeline(status, _) => status.Loading?
    case RunCompleted(_, _, _) => |WriterResidual(w, e)| > 0
    case Untargetable(_) => false
  }

  /** `assign` must find a row for this event: it may carry one, but does not yet. */
  predicate NeedsRow(e: Event) {
    !e.Untargetable? && e.target.None?
  }

  predicate Allocates(w: Writer, e: Event, latest: RowId) {
    NeedsRow(e) && Advances(w, e) && latest > w.current
  }

  /** The row of an event that needs one; `nextId` is what the allocator returns if asked. */
  function RowFor(w: Writer, e: Event, latest: RowId, nextId: RowId): RowId {
    if Allocates(w, e, latest) then nextId
    else if e.RunItem? && e.itemType.ToolResult? then
      (if CallIdOf(e).Some? then Lookup(w.toolOutputs, CallIdOf(e).value, w.current) else w.current)
    else if e.Timeline? && e.status.Finished? then
      (if w.pending == [] then w.current else w.pending[0])
    else w.current
  }

  datatype Assignment = Assignment(writer: Writer, event: Event, created: Option<RowId>)

  function Assign(w: Writer, e: Event, latest: RowId, nextId: RowId): Assignment {
    if !NeedsRow(e) then Assignment(Observe(w, e), e, None)
    else
      var row := RowFor(w, e, latest, nextId);
      var shifted := if e.Timeline? && e.status.Finished? && w.pending != [] then w.(pending := w.pending[1..]) else w;
      var moved := if Allocates(w, e, latest) then shifted.(current := nextId) else shifted;
      Assignment(Observe(moved, WithTarget(e, row)), WithTarget(e, row),
                 if Allocates(w, e, latest) then Some(nextId) else None)
  }

  // ---------------------------------------------------------------- a live run

  /** One call of `assign`: the event, the newest message of the room, and the id that the
      allocator would return. */
  datatype Input = Input(event: Event, latest: RowId, nextId: RowId)

  datatype Live = Live(writer: Writer, journal: seq<Event>, rows: seq<Option<RowId>>)

  function RunFrom(start: Live, inputs: seq<Input>): Live {
    if inputs == [] then start
    else Land(RunFrom(start, inputs[..|inputs| - 1]), inputs[|inputs| - 1])
  }

  /** Assign one event and journal it. */
  function Land(l: Live, i: Input): Live {
    var a := Assign(l.writer, i.event, i.latest, i.nextId);
    Live(a.writer, l.journal + [a.event], l.rows + [a.created])
  }

  function Run(root: RowId, inputs: seq<Input>): Live {
    RunFrom(Live(Fresh(root), [], []), inputs)
  }

  // ---------------------------------------------------------------- the batch projection

  datatype Projection = Projection(result: RowId, bodies: map<RowId, string>, aggregate: string, raw: string,
                                   referenced: set<RowId>, substantive: set<RowId>,
                                   lastKind: map<RowId, Prose>, lastJournalKind: Option<Prose>)

  function EmptyProjection(root: RowId): Projection {
    Projection(root, map[root := ""], "", "", {root}, {}, map[], None)
  }

  function BatchResidual(p: Projection, e: Event): string
    requires e.RunCompleted?
  {
    if e.failed then "" else CompletionResidual(e.finalText, p.raw, p.aggregate)
  }

  function ProjectText(p: Projection, row: RowId, kind: Prose, text: string): Projection {
    p.(bodies := p.bodies[row := JoinProse(Lookup(p.bodies, row, ""), LookupProse(p.lastKind, row), kind, text)],
       lastKind := p.lastKind[row := kind],
       aggregate := JoinProse(p.aggregate, p.lastJournalKind, kind, text),
       lastJournalKind := Some(kind),
       raw := p.raw + text,
       substantive := p.substantive + {row})
  }

  function Refer(p: Projection, row: RowId): Projection {
    p.(referenced := p.referenced + {row},
       bodies := if row in p.bodies then p.bodies else p.bodies[row := ""],
       result := row)
  }

  function ProjectEvent(root: RowId, p: Projection, e: Event): Projection {
    if e.Untargetable? then p
    else
      var row := if e.target.Some? then e.target.value else root;
      var q := Refer(p, row);
      match e
      case RunItem(itemType, _, _, _) =>
        if |TextOf(e)| > 0 then ProjectText(q, row, ProseOf(e).value, TextOf(e))
        else if !itemType.ReasoningSummary? then q.(substantive := q.substantive + {row})
        else q
      case Timeline(_, _) => q.(substantive := q.substantive + {row})
      case RunCompleted(_, _, _) =>
        var residual := BatchResidual(q, e);
        if |residual| > 0 then
          q.(bodies := q.bodies[row := AppendResidualToRow(Lookup(q.bodies, row, ""), residual)],
             aggregate := q.aggregate + residual,
             substantive := q.substantive + {row})
        else q
  }

  function Project(root: RowId, journal: seq<Event>): Projection {
    if journal == [] then EmptyProjection(root)
    else ProjectEvent(root, Project(root, journal[..|journal| - 1]), journal[|journal| - 1])
  }
}
