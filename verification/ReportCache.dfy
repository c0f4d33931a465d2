/** Retained reports as the engine keeps them: an insertion-ordered cache of ranges into a
    write-once event arena, indexed by command identity. */
module ReportCache {
  import opened Domain
  import opened EngineModel
  import opened EngineTypes
  import opened RunLaws

  datatype CachedCallAuctionReport = CachedCallAuctionReport(
    command: CallAuctionCommand, commandSequence: u64, outcome: CallAuctionCommandOutcome, start: nat, count: nat)

  type Arena = seq<CallAuctionEvent>
  type Cache = seq<CachedCallAuctionReport>

  ghost predicate InArena(arena: Arena, cached: CachedCallAuctionReport) {
    cached.start + cached.count <= |arena|
  }

  function ReportAt(arena: Arena, cached: CachedCallAuctionReport): CallAuctionExecutionReport
    requires InArena(arena, cached)
  {
    CallAuctionExecutionReport(cached.command.commandId, cached.commandSequence, cached.outcome,
                               arena[cached.start..cached.start + cached.count], false)
  }

  ghost predicate RangesFit(arena: Arena, reports: Cache) {
    forall i {:trigger reports[i]} :: 0 <= i < |reports| ==> InArena(arena, reports[i])
  }

  ghost function EntryAt(arena: Arena, cached: CachedCallAuctionReport): CallAuctionHistoryEntry
    requires InArena(arena, cached)
  {
    CallAuctionHistoryEntry(cached.command, ReportAt(arena, cached))
  }

  ghost function HistoryOf(arena: Arena, reports: Cache): (history: History)
    requires RangesFit(arena, reports)
    ensures |history| == |reports| && forall i {:trigger history[i]} :: 0 <= i < |reports| ==> history[i] == EntryAt(arena, reports[i])
  {
    seq(|reports|, i requires 0 <= i < |reports| => EntryAt(arena, reports[i]))
  }

  /** The index leads every identity to its one report. */
  ghost predicate Indexed(index: map<CommandId, nat>, reports: Cache) {
    && (forall i {:trigger reports[i]} :: 0 <= i < |reports| ==> reports[i].command.commandId in index && index[reports[i].command.commandId] == i)
    && forall id :: id in index ==> index[id] < |reports| && reports[index[id]].command.commandId == id
  }

  lemma {:induction false} RetainedOfUnique(history: History, id: CommandId, at: int)
    requires -1 <= at < |history| && forall i {:trigger history[i]} :: 0 <= i < |history| ==> (history[i].command.commandId == id <==> i == at)
    ensures Retained(history, id) == if at >= 0 then Some(history[at]) else None
  {
    if history != [] && at != |history| - 1 {
      RetainedOfUnique(history[..|history| - 1], id, at);
    }
  }

  /** Looking an identity up is finding its retained entry. */
  lemma LookupIsRetained(arena: Arena, reports: Cache, index: map<CommandId, nat>, id: CommandId)
    requires RangesFit(arena, reports) && Indexed(index, reports)
    ensures Retained(HistoryOf(arena, reports), id) == if id in index then Some(EntryAt(arena, reports[index[id]])) else None
  {
    var history := HistoryOf(arena, reports);
    forall i | 0 <= i < |history| ensures history[i].command.commandId == id <==> i == (if id in index then index[id] else -1) {
      assert history[i] == EntryAt(arena, reports[i]);
    }
    RetainedOfUnique(history, id, if id in index then index[id] else -1);
  }

  /** A new report takes the next arena range and leaves every other report as it was. */
  lemma CacheGrows(arena: Arena, reports: Cache, index: map<CommandId, nat>, cached: CachedCallAuctionReport, events: seq<CallAuctionEvent>)
    requires RangesFit(arena, reports) && Indexed(index, reports) && cached.command.commandId !in index
    requires cached.start == |arena| && cached.count == |events|
    ensures RangesFit(arena + events, reports + [cached])
    ensures Indexed(index[cached.command.commandId := |reports|], reports + [cached])
    ensures HistoryOf(arena + events, reports + [cached]) ==
              HistoryOf(arena, reports) + [CallAuctionHistoryEntry(cached.command,
                CallAuctionExecutionReport(cached.command.commandId, cached.commandSequence, cached.outcome, events, false))]
  {
    var grown, all := arena + events, reports + [cached];
    assert grown[|arena|..|arena| + |events|] == events;
    forall i | 0 <= i < |all| ensures InArena(grown, all[i]) { if i < |reports| { assert all[i] == reports[i]; } }
    forall i | 0 <= i < |reports| ensures EntryAt(grown, all[i]) == EntryAt(arena, reports[i]) {
      assert grown[reports[i].start..reports[i].start + reports[i].count] == arena[reports[i].start..reports[i].start + reports[i].count];
    }
  }
}
