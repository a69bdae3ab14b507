/**
 * The files of one partition of the columnar store, changed step by step
 * (packages/history-store/src/duckdb-backend.ts, `append`, `roll`, `rewritePartition`,
 * `deletePartition`): rows are appended to a staging file, and rolled into the next generation of a
 * Parquet file before the staging file and the generations before it are removed. Any step may be the
 * last before a crash, which leaves the files and forgets the rest.
 */
module Roll {
  import opened Wrappers

  type Row = string

  /** What is on disk: the Parquet generations, the staging file, and a file of an earlier format. */
  datatype Disk = Disk(parquet: map<nat, multiset<Row>>, staging: multiset<Row>, legacy: multiset<Row>)

  /** Where the work under way is. */
  datatype Phase =
    | Idle
    | Listed(previous: Option<nat>, next: nat, existing: set<nat>)
    | Copied(next: nat, existing: set<nat>)
    | Unstaged(next: nat, stale: set<nat>)
    | Restaged
    | Dropping(left: set<nat>)
    | Deleting(left: set<nat>)

  /**
   * The files, the highest generation this process has given out, and
   * the work under way. `required` is the rows the partition is to hold: those appended, until a rewrite
   * or a delete says otherwise.
   */
  datatype State = State(disk: Disk, mark: Option<nat>, phase: Phase, required: multiset<Row>)

  datatype Event =
    | Appends(rows: multiset<Row>)
    | RollLists
    | RollCopies
    | CopyFails
    | RollUnstages
    | RollDrops(generation: nat)
    | RollEnds
    | RewriteStages(rows: multiset<Row>)
    | RewriteLists
    | RewriteDrops(generation: nat)
    | RewriteEnds
    | DeleteLists
    | DeleteDrops(generation: nat)
    | DeleteEnds
    | Crashes

  // ---- generations -------------------------------------------------------------------------------------------

  ghost predicate IsTop(g: nat, gens: set<nat>) {
    g in gens && forall h :: h in gens ==> h <= g
  }

  /** The highest generation. */
  ghost function Top(gens: set<nat>): (r: Option<nat>)
    ensures r.None? <==> gens == {}
    ensures r.Some? ==> IsTop(r.value, gens)
  {
    if gens == {} then None else
      var g :| g in gens;
      var rest := Top(gens - {g});
      assert forall h :: h in gens ==> h == g || h in gens - {g};
      if rest.None? || rest.value < g then Some(g) else rest
  }

  lemma TopIs(g: nat, gens: set<nat>)
    requires IsTop(g, gens)
    ensures Top(gens) == Some(g)
  {
  }

  ghost function RowsOf(parquet: map<nat, multiset<Row>>, g: Option<nat>): multiset<Row> {
    if g.Some? && g.value in parquet then parquet[g.value] else multiset{}
  }

  /** What a read gives: the highest generation, the staging file, the file of the earlier format. */
  ghost function Held(d: Disk): multiset<Row> {
    RowsOf(d.parquet, Top(d.parquet.Keys)) + d.staging + d.legacy
  }

  /** One more than the highest generation given out, or on disk. */
  function NextGeneration(mark: Option<nat>, onDisk: Option<nat>): nat {
    var m := if mark.Some? then mark.value as int else -1;
    var d := if onDisk.Some? then onDisk.value as int else -1;
    (if m > d then m else d) + 1
  }

  // ---- the steps ----------------------------------------------------------------------------------------------

  predicate Enabled(s: State, e: Event) {
    match e
    case Appends(_) => true
    case RollLists => s.phase.Idle? && s.disk.staging != multiset{}
    case RollCopies => s.phase.Listed?
    case CopyFails => s.phase.Listed?
    case RollUnstages => s.phase.Copied?
    case RollDrops(g) => s.phase.Unstaged? && g in s.phase.stale
    case RollEnds => s.phase.Unstaged? && s.phase.stale == {}
    case RewriteStages(_) => s.phase.Idle?
    case RewriteLists => s.phase.Restaged?
    case RewriteDrops(g) => s.phase.Dropping? && g in s.phase.left
    case RewriteEnds => s.phase.Dropping? && s.phase.left == {}
    case DeleteLists => s.phase.Idle?
    case DeleteDrops(g) => s.phase.Deleting? && g in s.phase.left
    case DeleteEnds => s.phase.Deleting? && s.phase.left == {}
    case Crashes => true
  }

  ghost function Next(s: State, e: Event): State
    requires Enabled(s, e)
  {
    var d := s.disk;
    match e
    case Appends(rows) =>
      s.(disk := d.(staging := d.staging + rows), required := s.required + rows)
    case RollLists =>
      var previous := Top(d.parquet.Keys);
      var next := NextGeneration(s.mark, previous);
      s.(mark := Some(next), phase := Listed(previous, next, d.parquet.Keys))
    case RollCopies =>
      s.(disk := d.(parquet := d.parquet[s.phase.next := RowsOf(d.parquet, s.phase.previous) + d.staging]),
         phase := Copied(s.phase.next, s.phase.existing))
    case CopyFails => s.(phase := Idle)
    case RollUnstages => s.(disk := d.(staging := multiset{}), phase := Unstaged(s.phase.next, s.phase.existing))
    case RollDrops(g) => s.(disk := d.(parquet := d.parquet - {g}), phase := s.phase.(stale := s.phase.stale - {g}))
    case RollEnds => s.(phase := Idle)
    case RewriteStages(rows) => s.(disk := d.(staging := rows), phase := Restaged, required := rows)
    case RewriteLists => s.(phase := Dropping(d.parquet.Keys))
    case RewriteDrops(g) => s.(disk := d.(parquet := d.parquet - {g}), phase := Dropping(s.phase.left - {g}))
    case RewriteEnds => s.(disk := d.(legacy := multiset{}), phase := Idle)
    case DeleteLists => s.(phase := Deleting(d.parquet.Keys), required := multiset{})
    case DeleteDrops(g) => s.(disk := d.(parquet := d.parquet - {g}), phase := Deleting(s.phase.left - {g}))
    case DeleteEnds => s.(disk := d.(staging := multiset{}, legacy := multiset{}), phase := Idle, required := multiset{})
    case Crashes => s.(mark := None, phase := Idle)
  }

  // ---- no row is lost ---------------------------------------------------------------------------------------------

  /** The rows that the work under way will not remove. */
  ghost function Lasting(s: State): multiset<Row> {
    match s.phase
    case Copied(next, _) => RowsOf(s.disk.parquet, Some(next)) + s.disk.legacy
    case Restaged => s.disk.staging
    case Dropping(_) => s.disk.staging
    case Deleting(_) => multiset{}
    case _ => Held(s.disk)
  }

  /** The generations the work under way knows of are those on disk. */
  ghost predicate PhaseFits(s: State) {
    match s.phase
    case Listed(previous, next, existing) =>
      existing == s.disk.parquet.Keys && previous == Top(existing) && forall g :: g in existing ==> g < next
    case Copied(next, existing) => s.disk.parquet.Keys == existing + {next} && forall g :: g in existing ==> g < next
    case Unstaged(next, stale) => next in s.disk.parquet && s.disk.parquet.Keys == stale + {next} && forall g :: g in stale ==> g < next
    case Dropping(left) => left == s.disk.parquet.Keys
    case Deleting(left) => left == s.disk.parquet.Keys
    case _ => true
  }

  ghost predicate Safe(s: State) {
    && PhaseFits(s)
    && s.required <= Lasting(s)
  }

  /** What lasts through the work under way is on disk, whatever happens to the rest. */
  lemma LastingIsHeld(s: State)
    requires PhaseFits(s)
    ensures Lasting(s) <= Held(s.disk)
  {
    match s.phase
    case Copied(next, existing) => TopIs(next, s.disk.parquet.Keys);
    case _ =>
  }

  /** Rows are not appended between the copy and the removal of the staging file, nor to a partition being deleted. */
  predicate Orderly(s: State, e: Event) {
    e.Appends? ==> !s.phase.Copied? && !s.phase.Deleting?
  }

  lemma CopyKeeps(s: State)
    requires Safe(s) && s.phase.Listed?
    ensures Safe(Next(s, RollCopies))
  {
    assert Next(s, RollCopies).disk.parquet.Keys == s.disk.parquet.Keys + {s.phase.next};
  }

  lemma UnstageKeeps(s: State)
    requires Safe(s) && s.phase.Copied?
    ensures Safe(Next(s, RollUnstages))
  {
    TopIs(s.phase.next, s.disk.parquet.Keys);
  }

  lemma DropKeeps(s: State, g: nat)
    requires Safe(s) && s.phase.Unstaged? && g in s.phase.stale
    ensures Safe(Next(s, RollDrops(g)))
  {
    TopIs(s.phase.next, s.disk.parquet.Keys);
    assert (s.disk.parquet - {g}).Keys == s.disk.parquet.Keys - {g};
    TopIs(s.phase.next, (s.disk.parquet - {g}).Keys);
  }

  predicate IsRewriteOrDelete(e: Event) {
    e.RewriteStages? || e.RewriteLists? || e.RewriteDrops? || e.RewriteEnds? || e.DeleteLists? || e.DeleteDrops? || e.DeleteEnds?
  }

  lemma RewriteKeeps(s: State, e: Event)
    requires Safe(s) && Enabled(s, e) && IsRewriteOrDelete(e)
    ensures Safe(Next(s, e))
  {
  }

  /** Each step, the crash included, keeps every row that the partition is to hold. */
  lemma StepKeeps(s: State, e: Event)
    requires Safe(s) && Enabled(s, e) && Orderly(s, e)
    ensures Safe(Next(s, e))
  {
    match e
    case RollCopies => CopyKeeps(s);
    case RollUnstages => UnstageKeeps(s);
    case RollDrops(g) => DropKeeps(s, g);
    case Crashes => LastingIsHeld(s);
    case Appends(rows) =>
    case RollLists =>
    case CopyFails =>
    case RollEnds =>
    case _ => RewriteKeeps(s, e);
  }

  lemma StepIsSafe(s: State, e: Event)
    requires Enabled(s, e)
    ensures Safe(s) && Orderly(s, e) ==> Safe(Next(s, e))
  {
    hide Safe, Next, Enabled, Orderly;
    if Safe(s) && Orderly(s, e) { StepKeeps(s, e); }
  }

  // ---- whole runs ------------------------------------------------------------------------------------------------------

  /** A process starting on a partition that is to hold what it holds. */
  ghost function Started(d: Disk): State {
    State(d, None, Idle, Held(d))
  }

  /** The state after a run of steps, if each was enabled in its turn. */
  ghost function Play(d: Disk, events: seq<Event>): Option<State> {
    if events == [] then Some(Started(d)) else
      var before, e := Play(d, events[..|events| - 1]), events[|events| - 1];
      if before.Some? && Enabled(before.value, e) then Some(Next(before.value, e)) else None
  }

  /** Every step of a run was orderly. */
  ghost predicate OrderlyRun(d: Disk, events: seq<Event>)
    requires Play(d, events).Some?
  {
    events == [] ||
    (OrderlyRun(d, events[..|events| - 1]) && Orderly(Play(d, events[..|events| - 1]).value, events[|events| - 1]))
  }

  lemma {:induction false} RunKeeps(d: Disk, events: seq<Event>)
    requires Play(d, events).Some? && OrderlyRun(d, events)
    ensures Safe(Play(d, events).value)
  {
    if events != [] {
      RunKeeps(d, events[..|events| - 1]);
      StepKeeps(Play(d, events[..|events| - 1]).value, events[|events| - 1]);
    }
  }

  // ---- no path is written twice --------------------------------------------------------------------------------

  /** The generations written in a run by the process that is now running, one after another. */
  ghost function WrittenIn(d: Disk, events: seq<Event>): seq<nat>
    requires Play(d, events).Some?
  {
    if events == [] then [] else
      var front, e := events[..|events| - 1], events[|events| - 1];
      if e.Crashes? then []
      else if e.RollCopies? then WrittenIn(d, front) + [Play(d, front).value.phase.next]
      else WrittenIn(d, front)
  }

  ghost predicate Increasing(gens: seq<nat>) {
    forall i, j :: 0 <= i < j < |gens| ==> gens[i] < gens[j]
  }

  /** What was written is up to the mark; what is to be written is above it, and above what is on disk. */
  ghost predicate Fresh(s: State, written: seq<nat>) {
    && Increasing(written)
    && (forall g :: g in written ==> s.mark.Some? && g <= s.mark.value)
    && (s.phase.Listed? ==>
          && s.mark == Some(s.phase.next)
          && (forall g :: g in written ==> g < s.phase.next)
          && (forall g :: g in s.disk.parquet ==> g < s.phase.next))
  }

  lemma StepIsFresh(s: State, e: Event, written: seq<nat>)
    requires Fresh(s, written) && Enabled(s, e)
    ensures Fresh(Next(s, e), if e.Crashes? then [] else if e.RollCopies? then written + [s.phase.next] else written)
  {
    hide RowsOf;
    if e.RollCopies? {
      forall i | 0 <= i < |written| ensures written[i] < s.phase.next { assert written[i] in written; }
    }
  }

  /**
   * In every run, whatever is appended meanwhile and across rewrites and deletes, a process writes ever
   * higher generations, none of them there when it is written: no path is written twice.
   */
  lemma {:induction false} NoPathWrittenTwice(d: Disk, events: seq<Event>)
    requires Play(d, events).Some?
    ensures Fresh(Play(d, events).value, WrittenIn(d, events))
    ensures Increasing(WrittenIn(d, events))
    ensures var s := Play(d, events).value;
            Enabled(s, RollCopies) ==> s.phase.next !in s.disk.parquet && s.phase.next !in WrittenIn(d, events)
  {
    if events != [] {
      var front, e := events[..|events| - 1], events[|events| - 1];
      NoPathWrittenTwice(d, front);
      hide Next, Increasing;
      StepIsFresh(Play(d, front).value, e, WrittenIn(d, front));
    }
  }

  // ---- no run loses a row ----------------------------------------------------------------------------------------

  /** The rows appended in the course of a run. */
  ghost function AppendedIn(events: seq<Event>): multiset<Row> {
    if events == [] then multiset{} else
      AppendedIn(events[..|events| - 1]) + if events[|events| - 1].Appends? then events[|events| - 1].rows else multiset{}
  }

  predicate OnlyRolls(events: seq<Event>) {
    forall i :: 0 <= i < |events| ==> !events[i].RewriteStages? && !events[i].DeleteLists?
  }

  /** No rewrite and no delete is under way, and what is required is what was there and what was appended. */
  ghost predicate OnlyAppended(s: State, all: multiset<Row>) {
    s.required == all && !s.phase.Restaged? && !s.phase.Dropping? && !s.phase.Deleting?
  }

  lemma StepAppends(s: State, e: Event, all: multiset<Row>)
    requires OnlyAppended(s, all) && Enabled(s, e) && !e.RewriteStages? && !e.DeleteLists?
    ensures OnlyAppended(Next(s, e), all + if e.Appends? then e.rows else multiset{})
  {
    hide Top, RowsOf;
  }

  lemma {:induction false} RequiredIsAll(d: Disk, events: seq<Event>)
    requires Play(d, events).Some? && OnlyRolls(events)
    ensures OnlyAppended(Play(d, events).value, Held(d) + AppendedIn(events))
  {
    hide Held, Next, Enabled, OnlyAppended;
    if events == [] {
      StartsWithAll(d);
    } else {
      var front, e := events[..|events| - 1], events[|events| - 1];
      RequiredIsAll(d, front);
      StepAppends(Play(d, front).value, e, Held(d) + AppendedIn(front));
      var more := if e.Appends? then e.rows else multiset{};
      assert Held(d) + AppendedIn(front) + more == Held(d) + AppendedIn(events);
    }
  }

  lemma StartsWithAll(d: Disk)
    ensures OnlyAppended(Started(d), Held(d) + AppendedIn([]))
  {
  }

  /**
   * Appends, rolls and crashes, in any order and at any step: every row that was there and every row
   * appended is held, at least as many times as it came.
   */
  lemma EveryRowIsHeld(d: Disk, events: seq<Event>)
    requires Play(d, events).Some? && OrderlyRun(d, events) && OnlyRolls(events)
    ensures Held(d) + AppendedIn(events) <= Held(Play(d, events).value.disk)
  {
    RunKeeps(d, events);
    RequiredIsAll(d, events);
    LastingIsHeld(Play(d, events).value);
  }

  /** Rewrites and deletes too: what the last of them and the appends since then left to hold is held. */
  lemma RequiredIsHeld(d: Disk, events: seq<Event>)
    requires Play(d, events).Some? && OrderlyRun(d, events)
    ensures Play(d, events).value.required <= Held(Play(d, events).value.disk)
  {
    RunKeeps(d, events);
    LastingIsHeld(Play(d, events).value);
  }

  /**
   * `append` does not wait for a roll under way. When the partition lasts with no row to spare, rows
   * appended are sure to last exactly when the copy is not waiting for its staging file to be removed
   * (nor the partition for its files to be).
   */
  lemma AppendLastsUnlessCopied(s: State, rows: multiset<Row>)
    requires Safe(s) && s.required == Lasting(s) && rows != multiset{}
    ensures Safe(Next(s, Appends(rows))) <==> !s.phase.Copied? && !s.phase.Deleting?
  {
    if s.phase.Copied? || s.phase.Deleting? {
      var t := Next(s, Appends(rows));
      var x :| x in rows;
      assert Lasting(t) == Lasting(s);
      assert t.required[x] == s.required[x] + rows[x] && t.required[x] > Lasting(t)[x];
    } else {
      StepKeeps(s, Appends(rows));
    }
  }

  /** Rows appended between the copy and the removal of the staging file are gone after it. */
  lemma AppendAfterCopyIsLost()
    ensures var d := Disk(map[], multiset{"a"}, multiset{});
            var copied := Next(Next(Started(d), RollLists), RollCopies);
            var after := Next(Next(copied, Appends(multiset{"b"})), RollUnstages);
            Held(after.disk) == multiset{"a"}
  {
    var d := Disk(map[], multiset{"a"}, multiset{});
    assert d.parquet.Keys == {};
    var copied := Next(Next(Started(d), RollLists), RollCopies);
    assert copied.disk.parquet.Keys == {0};
    TopIs(0, copied.disk.parquet.Keys);
  }

  // ---- the backend -----------------------------------------------------------------------------------------------------------

  /** One partition's part of the backend: each method is what runs between two awaits. */
  class Partition {
    var parquet: map<nat, multiset<Row>>
    var staging: multiset<Row>
    var legacy: multiset<Row>
    var generationMark: Option<nat>
    var phase: Phase
    ghost var required: multiset<Row>

    ghost function View(): State
      reads this
    {
      State(Disk(parquet, staging, legacy), generationMark, phase, required)
    }

    constructor (d: Disk)
      ensures View() == Started(d)
    {
      parquet, staging, legacy := d.parquet, d.staging, d.legacy;
      generationMark, phase := None, Idle;
      required := Held(d);
    }

    /** `parquetGenerations`: the generations on disk, and the highest. */
    method Generations() returns (existing: set<nat>, top: Option<nat>)
      ensures existing == parquet.Keys && top == Top(existing)
    {
      existing, top := parquet.Keys, None;
      var left := existing;
      while left != {}
        invariant left <= existing
        invariant top.None? <==> left == existing
        invariant top.Some? ==> IsTop(top.value, existing - left)
      {
        var g :| g in left;
        assert existing - (left - {g}) == (existing - left) + {g};
        left := left - {g};
        if top.None? || g > top.value {
          top := Some(g);
        }
      }
      if top.Some? {
        assert existing - left == existing;
        TopIs(top.value, existing);
      }
    }

    method Append(rows: multiset<Row>)
      modifies this
      ensures View() == Next(old(View()), Appends(rows))
      ensures Safe(old(View())) && Orderly(old(View()), Appends(rows)) ==> Safe(View())
    {
      hide Safe;
      StepIsSafe(View(), Appends(rows));
      staging := staging + rows;
      required := required + rows;
    }

    /** The first part of a roll: which generation comes next. */
    method ListForRoll() returns (toRoll: bool)
      requires phase == Idle
      modifies this
      ensures toRoll == Enabled(old(View()), RollLists)
      ensures View() == if toRoll then Next(old(View()), RollLists) else old(View())
      ensures Safe(old(View())) ==> Safe(View())
    {
      hide Safe;
      if Enabled(View(), RollLists) { StepIsSafe(View(), RollLists); }
      if staging == multiset{} {
        return false;
      }
      var existing, previous := Generations();
      var next := NextGeneration(generationMark, previous);
      generationMark := Some(next);
      phase := Listed(previous, next, existing);
      return true;
    }

    /** The copy of the previous generation and the staging file into the next. */
    method CopyForRoll()
      requires Enabled(View(), RollCopies)
      modifies this
      ensures View() == Next(old(View()), RollCopies)
      ensures Safe(old(View())) ==> Safe(View())
    {
      hide Safe;
      StepIsSafe(View(), RollCopies);
      var previous := if phase.previous.Some? && phase.previous.value in parquet then parquet[phase.previous.value] else multiset{};
      parquet := parquet[phase.next := previous + staging];
      phase := Copied(phase.next, phase.existing);
    }

    /** The staging file is removed. */
    method UnstageForRoll()
      requires Enabled(View(), RollUnstages)
      modifies this
      ensures View() == Next(old(View()), RollUnstages)
      ensures Safe(old(View())) ==> Safe(View())
    {
      hide Safe;
      StepIsSafe(View(), RollUnstages);
      staging := multiset{};
      phase := Unstaged(phase.next, phase.existing);
    }

    /** A generation before the one written is removed. */
    method DropForRoll(g: nat)
      requires Enabled(View(), RollDrops(g))
      modifies this
      ensures View() == Next(old(View()), RollDrops(g))
      ensures Safe(old(View())) ==> Safe(View())
    {
      hide Safe;
      StepIsSafe(View(), RollDrops(g));
      parquet := parquet - {g};
      phase := Unstaged(phase.next, phase.stale - {g});
    }

    /** A rewrite first makes the staging file the only source. */
    method Restage(rows: multiset<Row>)
      requires phase == Idle
      modifies this
      ensures View() == Next(old(View()), RewriteStages(rows))
      ensures Safe(old(View())) ==> Safe(View())
    {
      hide Safe;
      StepIsSafe(View(), RewriteStages(rows));
      staging := rows;
      required := rows;
      phase := Restaged;
    }

    /** Then it lists the generations, to remove them all. */
    method ListForRewrite()
      requires phase == Restaged
      modifies this
      ensures View() == Next(old(View()), RewriteLists)
      ensures Safe(old(View())) ==> Safe(View())
    {
      hide Safe;
      StepIsSafe(View(), RewriteLists);
      var existing, _ := Generations();
      phase := Dropping(existing);
    }

    method DropForRewrite(g: nat)
      requires Enabled(View(), RewriteDrops(g))
      modifies this
      ensures View() == Next(old(View()), RewriteDrops(g))
      ensures Safe(old(View())) ==> Safe(View())
    {
      hide Safe;
      StepIsSafe(View(), RewriteDrops(g));
      parquet := parquet - {g};
      phase := Dropping(phase.left - {g});
    }

    method EndRewrite()
      requires Enabled(View(), RewriteEnds)
      modifies this
      ensures View() == Next(old(View()), RewriteEnds)
      ensures Safe(old(View())) ==> Safe(View())
    {
      hide Safe;
      StepIsSafe(View(), RewriteEnds);
      legacy := multiset{};
      phase := Idle;
    }

    /** The copy has failed: nothing is written, and the generation is not given out again. */
    method FailCopy()
      requires Enabled(View(), CopyFails)
      modifies this
      ensures View() == Next(old(View()), CopyFails)
      ensures Safe(old(View())) ==> Safe(View())
    {
      hide Safe;
      StepIsSafe(View(), CopyFails);
      phase := Idle;
    }

    /** A delete lists the generations, to remove them all. */
    method ListForDelete()
      requires phase == Idle
      modifies this
      ensures View() == Next(old(View()), DeleteLists)
      ensures Safe(old(View())) ==> Safe(View())
    {
      hide Safe;
      StepIsSafe(View(), DeleteLists);
      var existing, _ := Generations();
      required := multiset{};
      phase := Deleting(existing);
    }

    method DropForDelete(g: nat)
      requires Enabled(View(), DeleteDrops(g))
      modifies this
      ensures View() == Next(old(View()), DeleteDrops(g))
      ensures Safe(old(View())) ==> Safe(View())
    {
      hide Safe;
      StepIsSafe(View(), DeleteDrops(g));
      parquet := parquet - {g};
      phase := Deleting(phase.left - {g});
    }

    method EndDelete()
      requires Enabled(View(), DeleteEnds)
      modifies this
      ensures View() == Next(old(View()), DeleteEnds)
      ensures Safe(old(View())) ==> Safe(View())
    {
      hide Safe;
      StepIsSafe(View(), DeleteEnds);
      staging, legacy, required := multiset{}, multiset{}, multiset{};
      phase := Idle;
    }

    /** A crash, and a new process: the files are what is left. */
    method Restart()
      modifies this
      ensures View() == Next(old(View()), Crashes)
      ensures Safe(old(View())) ==> Safe(View())
    {
      hide Safe;
      StepIsSafe(View(), Crashes);
      generationMark, phase := None, Idle;
    }

    /** A roll with nothing in its way, from its start to its end: one generation, with every row. */
    method RollAll() returns (rolled: bool)
      requires Safe(View()) && phase == Idle
      modifies this
      ensures Safe(View()) && phase == Idle
      ensures rolled == (old(staging) != multiset{})
      ensures !rolled ==> View() == old(View())
      ensures rolled ==> staging == multiset{} && generationMark.Some? && parquet.Keys == {generationMark.value}
      ensures rolled ==> Held(View().disk) == old(Held(View().disk)) && required == old(required)
    {
      hide Safe, Next, Held;
      ghost var before := View();
      rolled := ListForRoll();
      if !rolled {
        return;
      }
      ListedIs(before);
      CopyForRoll();
      ghost var copied := View();
      CopiedIs(before, copied);
      UnstageForRoll();
      while phase.stale != {}
        invariant Rolled(View(), before)
        decreases |phase.stale|
      {
        var g :| g in phase.stale;
        RolledDrops(View(), before, g);
        DropForRoll(g);
      }
      RolledEnds(View(), before);
      phase := Idle;
    }
  }

  /** The steps of a roll from an idle partition. */
  lemma ListedIs(s: State)
    requires Safe(s) && s.phase == Idle && Enabled(s, RollLists)
    ensures var listed := Next(s, RollLists); Enabled(listed, RollCopies)
  {
  }

  /** The next generation is written and the staging file is gone: the rows held are those held before. */
  ghost predicate Rolled(s: State, before: State) {
    && Safe(s) && s.phase.Unstaged? && s.mark == Some(s.phase.next) && s.disk.staging == multiset{} && s.required == before.required
    && s.phase.next in s.disk.parquet
    && s.disk.parquet[s.phase.next] + s.disk.legacy == Held(before.disk)
  }

  lemma CopiedIs(before: State, copied: State)
    requires Safe(before) && before.phase == Idle && Enabled(before, RollLists)
    requires var listed := Next(before, RollLists); Enabled(listed, RollCopies) && copied == Next(listed, RollCopies)
    ensures Enabled(copied, RollUnstages) && Rolled(Next(copied, RollUnstages), before)
  {
    var listed := Next(before, RollLists);
    StepKeeps(before, RollLists);
    StepKeeps(listed, RollCopies);
    StepKeeps(copied, RollUnstages);
    hide Safe;
    var rows := RowsOf(before.disk.parquet, listed.phase.previous);
    assert copied.disk.parquet[copied.phase.next] == rows + before.disk.staging;
    assert rows + before.disk.staging + before.disk.legacy == Held(before.disk);
  }

  lemma RolledDrops(s: State, before: State, g: nat)
    requires Rolled(s, before) && g in s.phase.stale
    ensures Enabled(s, RollDrops(g)) && Rolled(Next(s, RollDrops(g)), before)
    ensures Next(s, RollDrops(g)).phase == Unstaged(s.phase.next, s.phase.stale - {g})
  {
    StepKeeps(s, RollDrops(g));
    assert s.phase.next != g;
    hide Safe, Held;
  }

  lemma RolledEnds(s: State, before: State)
    requires Rolled(s, before) && s.phase.stale == {}
    ensures Safe(s.(phase := Idle)) && s.disk.parquet.Keys == {s.mark.value}
    ensures Held(s.disk) == Held(before.disk) && s.required == before.required && s.disk.staging == multiset{}
  {
    StepKeeps(s, RollEnds);
    assert s.disk.parquet.Keys == {s.phase.next};
    TopIs(s.phase.next, s.disk.parquet.Keys);
  }
}
