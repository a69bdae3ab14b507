/**
 * The history store's write queue, drain loop and exclusive lock as a state machine
 * (packages/history-store/src/store.ts). An async function is cut at its awaits: each step below is the
 * code that runs between two of them, and the steps interleave in any order their awaits allow.
 */
module HistoryStore {
  import opened Wrappers
  import opened HistoryQueue

  /** How an append's promise stands. */
  datatype Outcome = Waiting | Wrote | Threw

  /** The `number`th append handed to the backend. */
  datatype Append = Append(number: nat, item: Item, outcome: Outcome)

  /** Where the drain loop is: not running, awaiting the lock, awaiting its append, or returned but not yet cleared. */
  datatype Drain = Idle | AwaitLock | AwaitAppend | Returned

  /** Where a call of `withExclusive` is: awaiting the lock, holding it and awaiting an append, or running its function. */
  datatype Phase = Blocked | Settling(append: nat) | Running

  datatype Stats = Stats(writtenRows: nat, failedRows: nat, failedAppends: nat, droppedRows: nat, skippedByPolicy: nat,
                         skippedByRetention: nat, invalidObservations: nat, skippedUnchanged: nat)

  /**
   * The store's fields, the calls of `withExclusive` under way, and three histories: the observations
   * sent, the rows accepted, and the rows of the appends that have settled.
   */
  datatype State = State(
    queue: seq<Item>, queuedRows: int, lastWritten: map<string, int>, flushed: bool, closed: bool, stats: Stats,
    draining: Drain, appending: Option<Append>, appends: nat, exclusive: Option<nat>, callers: map<nat, Phase>,
    sent: nat, accepted: seq<Item>, settled: seq<Item>)

  /** A provider's batch; `allowed` when its policy lets it be kept. */
  datatype Batch = Batch(providerId: string, allowed: bool, observations: seq<Observation>)

  datatype Receipt = Receipt(queued: int, skippedByPolicy: nat, skippedByRetention: nat, invalid: nat, dropped: nat, skippedUnchanged: nat)

  datatype Event =
    | Writes(batch: Batch)
    | Settles(ok: bool)
    | DrainWakes
    | DrainEnds
    | Asks(caller: nat)
    | CallerWakes(caller: nat)
    | FnEnds(caller: nat)
    | Flushes
    | Closes

  const NO_STATS := Stats(0, 0, 0, 0, 0, 0, 0, 0)
  const INITIAL := State([], 0, map[], false, false, NO_STATS, Idle, None, 0, None, map[], 0, [], [])

  // ---- the steps ------------------------------------------------------------------------------------------

  /** An append has been started and its promise has not settled. */
  predicate InFlight(s: State) {
    s.appending.Some? && s.appending.value.outcome.Waiting?
  }

  /** The drain loop takes the first partition and starts its append. */
  function Take(s: State): State
    requires s.queue != []
  {
    s.(queue := s.queue[1..], queuedRows := s.queuedRows - |s.queue[0].rows|, draining := AwaitAppend,
       appending := Some(Append(s.appends, s.queue[0], Waiting)), appends := s.appends + 1)
  }

  /** The drain loop from the top, up to its next await. */
  function Turn(s: State): State {
    if s.queue == [] then s.(draining := Returned) else if s.exclusive.Some? then s.(draining := AwaitLock) else Take(s)
  }

  function Kick(s: State): State {
    if s.draining != Idle then s else Turn(s)
  }

  /** The append awaited has settled: it is counted, and the loop goes on. */
  function Count(s: State, a: Append): State {
    var n := |a.item.rows|;
    s.(stats := if a.outcome.Wrote? then s.stats.(writtenRows := s.stats.writtenRows + n)
                else s.stats.(failedRows := s.stats.failedRows + n, failedAppends := s.stats.failedAppends + 1),
       appending := None, settled := s.settled + [a.item])
  }

  function Woken(s: State): State {
    if s.draining == AwaitLock then
      if s.exclusive.Some? then s else if s.queue == [] then s.(draining := Returned) else Take(s)
    else if s.appending.Some? then Turn(Count(s, s.appending.value))
    else s
  }

  function Acquire(s: State, caller: nat): State {
    s.(exclusive := Some(caller),
       callers := s.callers[caller := if s.appending.Some? then Settling(s.appending.value.number) else Running])
  }

  function Sent(s: State, batch: Batch): State {
    s.(sent := s.sent + |batch.observations|)
  }

  /** A batch sifted and admitted. */
  function Queued(s: State, t: Sifted, q: Admitted): State {
    s.(lastWritten := t.memory, queue := q.queue, queuedRows := q.queuedRows, accepted := s.accepted + q.accepted,
       stats := s.stats.(skippedByRetention := s.stats.skippedByRetention + t.skippedByRetention,
                         invalidObservations := s.stats.invalidObservations + t.invalid,
                         skippedUnchanged := s.stats.skippedUnchanged + t.skippedUnchanged,
                         droppedRows := s.stats.droppedRows + q.dropped))
  }

  function AfterBatch(s: State, batch: Batch, maxQueuedRows: int): State {
    var s, n := Sent(s, batch), |batch.observations|;
    if s.closed then s.(stats := s.stats.(droppedRows := s.stats.droppedRows + n))
    else if !batch.allowed then s.(stats := s.stats.(skippedByPolicy := s.stats.skippedByPolicy + n))
    else
      var t := Sift(s.lastWritten, batch.providerId, batch.observations);
      var q := Admit(s.queue, s.queuedRows, t.groups, maxQueuedRows);
      if q.queuedRows > s.queuedRows then Kick(Queued(s, t, q)) else Queued(s, t, q)
  }

  function ReceiptOf(s: State, batch: Batch, maxQueuedRows: int): Receipt {
    var n := |batch.observations|;
    if s.closed then Receipt(0, 0, 0, 0, n, 0)
    else if !batch.allowed then Receipt(0, n, 0, 0, 0, 0)
    else
      var t := Sift(s.lastWritten, batch.providerId, batch.observations);
      var q := Admit(s.queue, s.queuedRows, t.groups, maxQueuedRows);
      Receipt(q.queuedRows - s.queuedRows, 0, t.skippedByRetention, t.invalid, q.dropped, t.skippedUnchanged)
  }

  /** The awaits that let a step run. */
  predicate Enabled(s: State, e: Event) {
    match e
    case Writes(_) => true
    case Settles(_) => InFlight(s)
    case DrainWakes => s.draining == AwaitLock || (s.draining == AwaitAppend && !InFlight(s))
    case DrainEnds => s.draining == Returned
    case Asks(n) => n !in s.callers
    case CallerWakes(n) =>
      n in s.callers
      && match s.callers[n] {
           case Blocked => true
           case Settling(k) => !(InFlight(s) && s.appending.value.number == k)
           case Running => false
         }
    case FnEnds(n) => n in s.callers && s.callers[n] == Running
    case Flushes => s.draining == Idle
    case Closes => s.flushed
  }

  function Next(s: State, e: Event, maxQueuedRows: int): State
    requires Enabled(s, e)
  {
    match e
    case Writes(batch) => AfterBatch(s, batch, maxQueuedRows)
    case Settles(ok) => s.(appending := Some(s.appending.value.(outcome := if ok then Wrote else Threw)))
    case DrainWakes => Woken(s)
    case DrainEnds => if s.queue != [] then Turn(s) else s.(draining := Idle)
    case Asks(n) => if s.exclusive.Some? then s.(callers := s.callers[n := Blocked]) else Acquire(s, n)
    case CallerWakes(n) =>
      if s.callers[n] == Blocked then (if s.exclusive.Some? then s else Acquire(s, n))
      else s.(callers := s.callers[n := Running])
    case FnEnds(n) => s.(exclusive := None, callers := s.callers - {n})
    case Flushes => s.(flushed := true)
    case Closes => s.(closed := true)
  }

  // ---- the lock --------------------------------------------------------------------------------------------

  predicate Holding(p: Phase) {
    p != Blocked
  }

  /** Who holds the lock, and what the drain loop and the lock wait for. */
  ghost predicate Locks(s: State) {
    && (s.draining == AwaitAppend <==> s.appending.Some?)
    && (s.draining == Idle ==> s.queue == [])
    && (s.draining == AwaitLock ==> s.queue != [])
    && (s.exclusive.Some? ==> s.exclusive.value in s.callers)
    && (forall n :: n in s.callers ==> (Holding(s.callers[n]) <==> s.exclusive == Some(n)))
    && (forall n :: n in s.callers && s.callers[n] == Running ==> !InFlight(s))
    && (forall n :: n in s.callers && s.callers[n].Settling? && InFlight(s) ==> s.callers[n].append == s.appending.value.number)
  }

  lemma TurnLocks(s: State)
    requires Locks(s.(draining := Returned)) && s.appending.None?
    ensures Locks(Turn(s))
  {
    assert s.(draining := Returned).callers == s.callers;
    if s.queue != [] && s.exclusive.None? {
      assert forall n :: n in s.callers ==> s.callers[n] == Blocked;
    }
  }

  lemma QueuedLocks(s: State, t: Sifted, q: Admitted)
    requires Locks(s) && (s.queue != [] ==> q.queue != []) && (q.queuedRows <= s.queuedRows ==> q.queue == s.queue)
    ensures Locks(if q.queuedRows > s.queuedRows then Kick(Queued(s, t, q)) else Queued(s, t, q))
  {
    hide Turn;
    if q.queuedRows > s.queuedRows && s.draining == Idle {
      TurnLocks(Queued(s, t, q));
    }
  }

  lemma BatchLocks(s: State, batch: Batch, maxQueuedRows: int)
    requires Locks(s)
    ensures Locks(AfterBatch(s, batch, maxQueuedRows))
  {
    if !s.closed && batch.allowed {
      var t := Sift(s.lastWritten, batch.providerId, batch.observations);
      var q := Admit(s.queue, s.queuedRows, t.groups, maxQueuedRows);
      SiftCountsAll(s.lastWritten, batch.providerId, batch.observations);
      AdmitKeeps(s.queue, s.queuedRows, t.groups, maxQueuedRows);
      assert Locks(Sent(s, batch));
      hide Sift, Admit, Locks, Kick, Queued;
      QueuedLocks(Sent(s, batch), t, q);
    }
  }

  /** The steps of the lock's callers, and those that change neither the queue nor the drain loop, keep the lock. */
  lemma CallersKeepLocks(s: State, e: Event, maxQueuedRows: int)
    requires Locks(s) && Enabled(s, e) && !e.Writes? && !e.DrainWakes? && !e.DrainEnds?
    ensures Locks(Next(s, e, maxQueuedRows))
  {
    hide AfterBatch, Turn, Take, Woken;
  }

  lemma DrainEndsLocks(s: State)
    requires Locks(s) && s.draining == Returned
    ensures Locks(if s.queue != [] then Turn(s) else s.(draining := Idle))
  {
    if s.queue != [] { TurnLocks(s); }
  }

  /** Every step of the store keeps the lock. */
  lemma NextLocks(s: State, e: Event, maxQueuedRows: int)
    requires Locks(s) && Enabled(s, e)
    ensures Locks(Next(s, e, maxQueuedRows))
  {
    hide AfterBatch, Turn, Take, Woken, Locks;
    match e
    case Writes(batch) => BatchLocks(s, batch, maxQueuedRows);
    case DrainWakes => WokenLocks(s);
    case DrainEnds => DrainEndsLocks(s);
    case _ => CallersKeepLocks(s, e, maxQueuedRows);
  }

  lemma WokenLocks(s: State)
    requires Locks(s) && Enabled(s, DrainWakes)
    ensures Locks(Woken(s))
  {
    if s.draining == AwaitLock {
      if s.exclusive.None? { TurnLocks(s); }
    } else {
      TurnLocks(Count(s, s.appending.value));
    }
  }

  /** Nothing leaves the queue while rows are admitted to it. */
  lemma {:induction false} AdmitKeeps(queue: seq<Item>, queuedRows: int, groups: seq<Item>, maxQueuedRows: int)
    ensures var q := Admit(queue, queuedRows, groups, maxQueuedRows);
            && (queue != [] ==> q.queue != []) && q.queuedRows >= queuedRows
            && (q.queuedRows == queuedRows && (forall i :: 0 <= i < |groups| ==> groups[i].rows != []) ==> q.queue == queue)
  {
    if groups != [] {
      AdmitKeeps(queue, queuedRows, groups[..|groups| - 1], maxQueuedRows);
    }
  }

  // ---- the books ---------------------------------------------------------------------------------------------

  /** The rows handed to the backend and not yet counted. */
  function UnderWay(s: State): seq<Item> {
    if s.appending.Some? then [s.appending.value.item] else []
  }

  /** The queue is counted and bounded; every observation sent and every row accepted is in one place. */
  ghost predicate Books(s: State, maxQueuedRows: int) {
    && Tidy(s.queue) && s.queuedRows == Total(s.queue) && (s.queuedRows <= maxQueuedRows || s.queuedRows == 0)
    && s.sent == Total(s.accepted) + s.stats.droppedRows + s.stats.skippedByPolicy + s.stats.skippedByRetention
                 + s.stats.invalidObservations + s.stats.skippedUnchanged
    && Total(s.accepted) == s.stats.writtenRows + s.stats.failedRows + Total(UnderWay(s)) + s.queuedRows
  }

  /** A partition's rows reach the backend in the order they were accepted: first those settled, then those under way, then those queued. */
  ghost predicate InOrder(s: State, key: string) {
    RowsIn(s.accepted, key) == RowsIn(s.settled, key) + RowsIn(UnderWay(s), key) + RowsIn(s.queue, key)
  }

  ghost predicate AllInOrder(s: State) {
    forall key :: InOrder(s, key)
  }

  lemma TurnBooks(s: State, maxQueuedRows: int)
    requires Books(s, maxQueuedRows) && s.appending.None?
    ensures Books(Turn(s), maxQueuedRows)
  {
    if s.queue != [] && s.exclusive.None? {
      TidyTail(s.queue);
      hide Tidy;
      assert Total(UnderWay(Take(s))) == |s.queue[0].rows|;
    }
  }

  lemma TurnInOrder(s: State, key: string)
    requires InOrder(s, key) && s.appending.None?
    ensures InOrder(Turn(s), key)
  {
    if s.queue != [] && s.exclusive.None? {
      hide RowsIn, InOrder;
      var first, rest := s.queue[0], s.queue[1..];
      assert UnderWay(Take(s)) == [first] && UnderWay(s) == [] && s.queue == [first] + rest;
      FirstInOrder(s.settled, first, rest, key);
      InOrderIs(s, key);
      InOrderIs(Take(s), key);
    } else {
      assert UnderWay(Turn(s)) == UnderWay(s);
    }
  }

  lemma InOrderIs(s: State, key: string)
    ensures InOrder(s, key) <==> RowsIn(s.accepted, key) == RowsIn(s.settled, key) + RowsIn(UnderWay(s), key) + RowsIn(s.queue, key)
  {
    hide RowsIn;
  }

  lemma FirstInOrder(settled: seq<Item>, first: Item, rest: seq<Item>, key: string)
    ensures RowsIn(settled, key) + RowsIn([], key) + RowsIn([first] + rest, key)
         == RowsIn(settled, key) + RowsIn([first], key) + RowsIn(rest, key)
  {
    EmptyRows(key);
    RowsInCons(first, rest, key);
    RowsInCons(first, [], key);
    assert [first] + [] == [first];
    hide RowsIn;
    Regroup(RowsIn(settled, key), if first.key == key then first.rows else [], RowsIn(rest, key));
  }

  lemma EmptyRows(key: string)
    ensures RowsIn([], key) == []
  {
  }

  lemma CountBooks(s: State, maxQueuedRows: int)
    requires Books(s, maxQueuedRows) && s.appending.Some?
    ensures Books(Count(s, s.appending.value), maxQueuedRows)
  {
    hide Tidy;
    var item := s.appending.value.item;
    assert Total([item]) == |item.rows|;
  }

  lemma CountInOrder(s: State, key: string)
    requires InOrder(s, key) && s.appending.Some?
    ensures InOrder(Count(s, s.appending.value), key)
  {
    var item := s.appending.value.item;
    RowsInAppend(s.settled, [item], key);
    assert UnderWay(Count(s, s.appending.value)) == [] && UnderWay(s) == [item];
    EmptyRows(key);
    hide RowsIn;
    assert RowsIn(s.settled, key) + RowsIn([item], key) + [] + RowsIn(s.queue, key)
        == RowsIn(s.settled, key) + RowsIn([item], key) + RowsIn(s.queue, key);
  }

  lemma BatchBooks(s: State, batch: Batch, maxQueuedRows: int)
    requires Locks(s) && Books(s, maxQueuedRows)
    ensures Books(AfterBatch(s, batch, maxQueuedRows), maxQueuedRows)
    ensures AllInOrder(s) ==> AllInOrder(AfterBatch(s, batch, maxQueuedRows))
  {
    hide Tidy, RowsIn, InOrder;
    var t := Sift(s.lastWritten, batch.providerId, batch.observations);
    var q := Admit(s.queue, s.queuedRows, t.groups, maxQueuedRows);
    if s.closed || !batch.allowed {
      SameInOrder(s, AfterBatch(s, batch, maxQueuedRows));
    } else {
      var after := Queued(Sent(s, batch), t, q);
      QueuedBooks(s, batch, maxQueuedRows);
      if q.queuedRows > s.queuedRows && s.draining == Idle {
        TurnBooks(after, maxQueuedRows);
        hide Turn;
        forall key ensures AllInOrder(s) ==> InOrder(Turn(after), key) {
          if AllInOrder(s) { TurnInOrder(after, key); }
        }
      }
    }
  }

  lemma SameInOrder(s: State, t: State)
    requires s.accepted == t.accepted && s.settled == t.settled && s.queue == t.queue && UnderWay(s) == UnderWay(t)
    ensures AllInOrder(s) ==> AllInOrder(t)
  {
    if AllInOrder(s) {
      forall key ensures InOrder(t, key) { assert InOrder(s, key); }
    }
  }

  lemma QueuedBooks(s: State, batch: Batch, maxQueuedRows: int)
    requires Books(s, maxQueuedRows)
    ensures var t := Sift(s.lastWritten, batch.providerId, batch.observations);
            var q := Admit(s.queue, s.queuedRows, t.groups, maxQueuedRows);
            var after := Queued(Sent(s, batch), t, q);
            Books(after, maxQueuedRows) && (AllInOrder(s) ==> AllInOrder(after))
  {
    hide Tidy, Sift, Admit, RowsIn, Total, Flat, InOrder, Queues;
    var t := Sift(s.lastWritten, batch.providerId, batch.observations);
    var q := Admit(s.queue, s.queuedRows, t.groups, maxQueuedRows);
    var after := Queued(Sent(s, batch), t, q);
    SiftCountsAll(s.lastWritten, batch.providerId, batch.observations);
    TidyIsNotEmpty(t.groups);
    AdmitsUpToTheRoom(s.queue, s.queuedRows, t.groups, maxQueuedRows);
    AdmitQueues(s.queue, s.queuedRows, t.groups, maxQueuedRows, "");
    QueuesFacts(s.queue, s.queuedRows, q, "");
    TotalAppend(s.accepted, q.accepted);
    FlatIsTotal(t.groups);
    assert UnderWay(after) == UnderWay(s);
    forall key ensures AllInOrder(s) ==> InOrder(after, key) {
      if AllInOrder(s) {
        AdmitQueues(s.queue, s.queuedRows, t.groups, maxQueuedRows, key);
        QueuedInOrder(s, after, q, key);
      }
    }
  }

  lemma TidyIsNotEmpty(items: seq<Item>)
    requires Tidy(items)
    ensures forall i :: 0 <= i < |items| ==> items[i].rows != []
  {
  }

  lemma QueuesFacts(queue: seq<Item>, queuedRows: int, q: Admitted, key: string)
    requires Queues(queue, queuedRows, q, key)
    ensures Tidy(q.queue) && Total(q.queue) == Total(queue) + Total(q.accepted) && q.queuedRows == queuedRows + Total(q.accepted)
  {
  }

  lemma QueuedInOrder(s: State, after: State, q: Admitted, key: string)
    requires InOrder(s, key) && Queues(s.queue, s.queuedRows, q, key)
    requires after.queue == q.queue && after.accepted == s.accepted + q.accepted
             && after.settled == s.settled && UnderWay(after) == UnderWay(s)
    ensures InOrder(after, key)
  {
    RowsInAppend(s.accepted, q.accepted, key);
    hide RowsIn, Tidy;
    Regroup(RowsIn(s.settled, key) + RowsIn(UnderWay(s), key), RowsIn(s.queue, key), RowsIn(q.accepted, key));
  }

  /** Every step of the store keeps the books. */
  lemma NextBooks(s: State, e: Event, maxQueuedRows: int)
    requires Locks(s) && Books(s, maxQueuedRows) && AllInOrder(s) && Enabled(s, e)
    ensures Books(Next(s, e, maxQueuedRows), maxQueuedRows) && AllInOrder(Next(s, e, maxQueuedRows))
  {
    hide AfterBatch, Turn, Take, Tidy, InOrder, RowsIn;
    match e
    case Writes(batch) => BatchBooks(s, batch, maxQueuedRows);
    case DrainWakes => WokenBooks(s, maxQueuedRows);
    case DrainEnds => if s.queue != [] { TurnAllBooks(s, maxQueuedRows); } else { SameInOrder(s, Next(s, e, maxQueuedRows)); }
    case Settles(ok) => SameInOrder(s, Next(s, e, maxQueuedRows));
    case Asks(n) => SameInOrder(s, Next(s, e, maxQueuedRows));
    case CallerWakes(n) => SameInOrder(s, Next(s, e, maxQueuedRows));
    case FnEnds(n) => SameInOrder(s, Next(s, e, maxQueuedRows));
    case Flushes => SameInOrder(s, Next(s, e, maxQueuedRows));
    case Closes => SameInOrder(s, Next(s, e, maxQueuedRows));
  }

  lemma TurnAllBooks(s: State, maxQueuedRows: int)
    requires Books(s, maxQueuedRows) && AllInOrder(s) && s.appending.None?
    ensures Books(Turn(s), maxQueuedRows) && AllInOrder(Turn(s))
  {
    TurnBooks(s, maxQueuedRows);
    hide Turn, InOrder;
    forall key ensures InOrder(Turn(s), key) { TurnInOrder(s, key); }
  }

  lemma WokenBooks(s: State, maxQueuedRows: int)
    requires Locks(s) && Books(s, maxQueuedRows) && AllInOrder(s) && Enabled(s, DrainWakes)
    ensures Books(Woken(s), maxQueuedRows) && AllInOrder(Woken(s))
  {
    hide InOrder, Take, Tidy;
    if s.draining == AwaitLock {
      if s.exclusive.None? { TurnAllBooks(s, maxQueuedRows); }
    } else {
      CountBooks(s, maxQueuedRows);
      var counted := Count(s, s.appending.value);
      forall key ensures InOrder(counted, key) { CountInOrder(s, key); }
      TurnAllBooks(counted, maxQueuedRows);
    }
  }

  // ---- whole runs ----------------------------------------------------------------------------------------------

  /** The state after a run of steps from the start, if each was enabled in its turn. */
  function Play(events: seq<Event>, maxQueuedRows: int): Option<State> {
    if events == [] then Some(INITIAL) else
      var before, e := Play(events[..|events| - 1], maxQueuedRows), events[|events| - 1];
      if before.Some? && Enabled(before.value, e) then Some(Next(before.value, e, maxQueuedRows)) else None
  }

  lemma NothingKept(maxQueuedRows: int)
    ensures Locks(INITIAL) && Books(INITIAL, maxQueuedRows) && AllInOrder(INITIAL)
  {
  }

  lemma {:induction false} RunKeeps(events: seq<Event>, maxQueuedRows: int)
    requires Play(events, maxQueuedRows).Some?
    ensures var s := Play(events, maxQueuedRows).value; Locks(s) && Books(s, maxQueuedRows) && AllInOrder(s)
  {
    if events == [] {
      NothingKept(maxQueuedRows);
    } else {
      var before, e := Play(events[..|events| - 1], maxQueuedRows), events[|events| - 1];
      RunKeeps(events[..|events| - 1], maxQueuedRows);
      hide Next, Enabled, Locks, Books, AllInOrder;
      NextLocks(before.value, e, maxQueuedRows);
      NextBooks(before.value, e, maxQueuedRows);
    }
  }

  /** In no run does an append overlap an exclusive section, or one exclusive section another. */
  lemma ExclusiveIsExclusive(events: seq<Event>, maxQueuedRows: int, a: nat, b: nat)
    requires Play(events, maxQueuedRows).Some?
    ensures var s := Play(events, maxQueuedRows).value;
            && (a in s.callers && s.callers[a] == Running ==> !InFlight(s))
            && (a in s.callers && s.callers[a] == Running && b in s.callers && s.callers[b] == Running ==> a == b)
  {
    RunKeeps(events, maxQueuedRows);
  }

  /** In every run each row accepted is in one place, in its partition's order, and the queue stays within its bound. */
  lemma RowsAreKept(events: seq<Event>, maxQueuedRows: int, key: string)
    requires Play(events, maxQueuedRows).Some?
    ensures var s := Play(events, maxQueuedRows).value;
            && s.queuedRows == Total(s.queue) && (s.queuedRows <= maxQueuedRows || s.queuedRows == 0)
            && Total(s.accepted) == s.stats.writtenRows + s.stats.failedRows + Total(UnderWay(s)) + s.queuedRows
            && RowsIn(s.accepted, key) == RowsIn(s.settled, key) + RowsIn(UnderWay(s), key) + RowsIn(s.queue, key)
  {
    hide Tidy;
    RunKeeps(events, maxQueuedRows);
    assert InOrder(Play(events, maxQueuedRows).value, key);
  }

  /** `flush` waits for the drain loop to be gone: then every row accepted has been written or has failed. */
  lemma FlushedIsSettled(events: seq<Event>, maxQueuedRows: int, key: string)
    requires Play(events, maxQueuedRows).Some? && Play(events, maxQueuedRows).value.draining == Idle
    ensures var s := Play(events, maxQueuedRows).value;
            && s.queue == [] && s.appending.None?
            && Total(s.accepted) == s.stats.writtenRows + s.stats.failedRows
            && RowsIn(s.accepted, key) == RowsIn(s.settled, key)
  {
    RunKeeps(events, maxQueuedRows);
    var s := Play(events, maxQueuedRows).value;
    assert InOrder(s, key);
    EmptyRows(key);
    hide RowsIn;
    assert UnderWay(s) == [] && s.queue == [];
    assert RowsIn(s.settled, key) + [] + [] == RowsIn(s.settled, key);
  }

  lemma TurnKeepsSettled(s: State)
    ensures Turn(s).settled == s.settled
  {
  }

  lemma BatchKeepsSettled(s: State, batch: Batch, maxQueuedRows: int)
    ensures AfterBatch(s, batch, maxQueuedRows).settled == s.settled
  {
    hide Sift, Admit, Turn;
    if !s.closed && batch.allowed {
      var t := Sift(s.lastWritten, batch.providerId, batch.observations);
      TurnKeepsSettled(Queued(Sent(s, batch), t, Admit(s.queue, s.queuedRows, t.groups, maxQueuedRows)));
    }
  }

  lemma StepKeepsSettled(s: State, e: Event, maxQueuedRows: int)
    requires Enabled(s, e)
    ensures s.settled <= Next(s, e, maxQueuedRows).settled
  {
    hide AfterBatch, Turn;
    match e
    case Writes(batch) => BatchKeepsSettled(s, batch, maxQueuedRows);
    case DrainWakes => if s.appending.Some? { TurnKeepsSettled(Count(s, s.appending.value)); }
    case DrainEnds => TurnKeepsSettled(s);
    case _ =>
  }

  lemma {:induction false} SettledGrows(events: seq<Event>, more: seq<Event>, maxQueuedRows: int)
    requires Play(events, maxQueuedRows).Some? && Play(events + more, maxQueuedRows).Some?
    ensures Play(events, maxQueuedRows).value.settled <= Play(events + more, maxQueuedRows).value.settled
  {
    hide Next, Enabled;
    if more == [] {
      assert events + more == events;
    } else {
      var front := more[..|more| - 1];
      assert (events + more)[..|events + more| - 1] == events + front && (events + more)[|events + more| - 1] == more[|more| - 1];
      assert Play(events + front, maxQueuedRows).Some?;
      SettledGrows(events, front, maxQueuedRows);
      StepKeepsSettled(Play(events + front, maxQueuedRows).value, more[|more| - 1], maxQueuedRows);
    }
  }

  /**
   * `close` flushes before it closes: every row accepted by the time its flush found the drain loop gone
   * has been written or has failed, in its partition's order, however the run goes on.
   */
  lemma CloseSettlesWhatWasAccepted(events: seq<Event>, more: seq<Event>, maxQueuedRows: int, key: string)
    requires Play(events + [Flushes] + more, maxQueuedRows).Some? && Play(events, maxQueuedRows).Some?
    requires Enabled(Play(events, maxQueuedRows).value, Flushes)
    ensures RowsIn(Play(events, maxQueuedRows).value.accepted, key)
         <= RowsIn(Play(events + [Flushes] + more, maxQueuedRows).value.settled, key)
  {
    hide Play, RowsIn, Total;
    FlushedIsSettled(events, maxQueuedRows, key);
    assert events + [Flushes] + more == events + ([Flushes] + more);
    SettledGrows(events, [Flushes] + more, maxQueuedRows);
    var a, b := Play(events, maxQueuedRows).value.settled, Play(events + ([Flushes] + more), maxQueuedRows).value.settled;
    assert b == a + b[|a|..];
    RowsInAppend(a, b[|a|..], key);
  }

  // ---- what was written, from the run itself ---------------------------------------------------------------------

  /** How the appends' promises settled, in order. */
  function Settlings(events: seq<Event>): seq<bool> {
    if events == [] then [] else
      Settlings(events[..|events| - 1]) + match events[|events| - 1] case Settles(ok) => [ok] case _ => []
  }

  /** The items of the appends started in a run, in order: each time their number grows, what is then under way. */
  function Started(events: seq<Event>, maxQueuedRows: int): seq<Item> {
    if events == [] then [] else
      var front := events[..|events| - 1];
      var before, after, items := Play(front, maxQueuedRows), Play(events, maxQueuedRows), Started(front, maxQueuedRows);
      if before.Some? && after.Some? && after.value.appends > before.value.appends then items + UnderWay(after.value) else items
  }

  /** The rows of those of the items whose append settled so. */
  function RowsWith(items: seq<Item>, settlings: seq<bool>, ok: bool): nat
    requires |items| <= |settlings|
  {
    if items == [] then 0 else
      var n := |items| - 1;
      RowsWith(items[..n], settlings, ok) + if settlings[n] == ok then |items[n].rows| else 0
  }

  function HowMany(settlings: seq<bool>, ok: bool): nat {
    if settlings == [] then 0 else
      HowMany(settlings[..|settlings| - 1], ok) + if settlings[|settlings| - 1] == ok then 1 else 0
  }

  /**
   * What the drain loop has come past is counted as its promise settled; a promise that has settled
   * while the loop has not come past it yet is the last to settle.
   */
  ghost predicate Tallied(s: State, started: seq<Item>, settlings: seq<bool>) {
    var n := |s.settled|;
    && started == s.settled + UnderWay(s) && |started| == s.appends
    && (s.appending.Some? ==> s.appending.value.number == n)
    && |settlings| == n + (if s.appending.Some? && s.appending.value.outcome != Waiting then 1 else 0)
    && (|settlings| == n + 1 ==> s.appending.value.outcome == if settlings[n] then Wrote else Threw)
    && s.stats.writtenRows == RowsWith(s.settled, settlings, true)
    && s.stats.failedRows == RowsWith(s.settled, settlings, false)
    && s.stats.failedAppends == HowMany(settlings[..n], false)
  }

  lemma {:induction false} RowsWithMore(items: seq<Item>, settlings: seq<bool>, last: bool, ok: bool)
    requires |items| <= |settlings|
    ensures RowsWith(items, settlings + [last], ok) == RowsWith(items, settlings, ok)
  {
    if items != [] { RowsWithMore(items[..|items| - 1], settlings, last, ok); }
  }

  /** Steps that neither start an append nor come past one leave the tally. */
  lemma SameTally(s: State, t: State, started: seq<Item>, settlings: seq<bool>)
    requires Tallied(s, started, settlings)
    requires t.settled == s.settled && t.appending == s.appending && t.appends == s.appends
    requires t.stats.writtenRows == s.stats.writtenRows && t.stats.failedRows == s.stats.failedRows && t.stats.failedAppends == s.stats.failedAppends
    ensures Tallied(t, started, settlings)
  {
  }

  lemma TurnTallied(s: State, started: seq<Item>, settlings: seq<bool>)
    requires Tallied(s, started, settlings) && s.appending.None?
    ensures var t := Turn(s);
            Tallied(t, if t.appends > s.appends then started + UnderWay(t) else started, settlings) && t.appends >= s.appends
  {
  }

  lemma SettleTallied(s: State, ok: bool, started: seq<Item>, settlings: seq<bool>, maxQueuedRows: int)
    requires Tallied(s, started, settlings) && InFlight(s)
    ensures Tallied(Next(s, Settles(ok), maxQueuedRows), started, settlings + [ok])
  {
    RowsWithMore(s.settled, settlings, ok, true);
    RowsWithMore(s.settled, settlings, ok, false);
    assert (settlings + [ok])[..|s.settled|] == settlings[..|s.settled|];
  }

  lemma CountTallied(s: State, started: seq<Item>, settlings: seq<bool>)
    requires Tallied(s, started, settlings) && s.appending.Some? && !InFlight(s)
    ensures Tallied(Count(s, s.appending.value), started, settlings)
  {
    var n, t := |s.settled|, Count(s, s.appending.value);
    assert t.settled[..n] == s.settled && settlings[..n + 1][..n] == settlings[..n];
    assert settlings[..|t.settled|][..n] == settlings[..n];
  }

  lemma WokenTallied(s: State, started: seq<Item>, settlings: seq<bool>)
    requires Locks(s) && Enabled(s, DrainWakes) && Tallied(s, started, settlings)
    ensures var t := Woken(s);
            Tallied(t, if t.appends > s.appends then started + UnderWay(t) else started, settlings)
  {
    hide Tallied, Turn, Count;
    if s.draining == AwaitLock {
      if s.exclusive.None? {
        TurnTallied(s, started, settlings);
        TurnFromLock(s);
      }
    } else {
      var counted := Count(s, s.appending.value);
      CountTallied(s, started, settlings);
      CountedIs(s);
      TurnTallied(counted, started, settlings);
    }
  }

  lemma TurnFromLock(s: State)
    requires s.exclusive.None?
    ensures Turn(s) == if s.queue == [] then s.(draining := Returned) else Take(s)
  {
  }

  lemma CountedIs(s: State)
    requires s.appending.Some?
    ensures Count(s, s.appending.value).appending.None? && Count(s, s.appending.value).appends == s.appends
  {
  }

  lemma BatchTallied(s: State, batch: Batch, maxQueuedRows: int, started: seq<Item>, settlings: seq<bool>)
    requires Locks(s) && Tallied(s, started, settlings)
    ensures var t := AfterBatch(s, batch, maxQueuedRows);
            Tallied(t, if t.appends > s.appends then started + UnderWay(t) else started, settlings)
  {
    hide Tallied, Turn, Sift, Admit;
    if s.closed || !batch.allowed {
      SameTally(s, AfterBatch(s, batch, maxQueuedRows), started, settlings);
    } else {
      var t := Sift(s.lastWritten, batch.providerId, batch.observations);
      var q := Admit(s.queue, s.queuedRows, t.groups, maxQueuedRows);
      var after := Queued(Sent(s, batch), t, q);
      SameTally(s, after, started, settlings);
      if q.queuedRows > s.queuedRows && s.draining == Idle { TurnTallied(after, started, settlings); }
    }
  }

  lemma NextTallied(s: State, e: Event, maxQueuedRows: int, started: seq<Item>, settlings: seq<bool>)
    requires Locks(s) && Enabled(s, e) && Tallied(s, started, settlings)
    ensures var t := Next(s, e, maxQueuedRows);
            Tallied(t, if t.appends > s.appends then started + UnderWay(t) else started,
                    settlings + match e case Settles(ok) => [ok] case _ => [])
  {
    assert settlings + [] == settlings;
    hide Tallied, AfterBatch, Turn;
    match e
    case Writes(batch) => BatchTallied(s, batch, maxQueuedRows, started, settlings);
    case DrainWakes => WokenTallied(s, started, settlings);
    case DrainEnds =>
      if s.queue != [] { TurnTallied(s, started, settlings); } else { SameTally(s, s.(draining := Idle), started, settlings); }
    case Settles(ok) => SettleTallied(s, ok, started, settlings, maxQueuedRows);
    case _ => SameTally(s, Next(s, e, maxQueuedRows), started, settlings);
  }

  /**
   * In every run the rows written are those of the appends whose promise resolved, and those failed of
   * the ones that threw, among those the drain loop has come past: all of them but one that has just
   * settled.
   */
  lemma {:induction false} WrittenIsWhatResolved(events: seq<Event>, maxQueuedRows: int)
    requires Play(events, maxQueuedRows).Some?
    ensures Tallied(Play(events, maxQueuedRows).value, Started(events, maxQueuedRows), Settlings(events))
  {
    if events != [] {
      var front, e := events[..|events| - 1], events[|events| - 1];
      RunKeeps(front, maxQueuedRows);
      WrittenIsWhatResolved(front, maxQueuedRows);
      hide Next, Enabled, Locks, Tallied, Books, AllInOrder;
      NextTallied(Play(front, maxQueuedRows).value, e, maxQueuedRows, Started(front, maxQueuedRows), Settlings(front));
    }
  }

  /** Flushed, the rows written are those of all the appends started that resolved, and those failed of all that threw. */
  lemma FlushedIsWhatResolved(events: seq<Event>, maxQueuedRows: int)
    requires Play(events, maxQueuedRows).Some? && Play(events, maxQueuedRows).value.draining == Idle
    ensures var s, started, settlings := Play(events, maxQueuedRows).value, Started(events, maxQueuedRows), Settlings(events);
            && |settlings| == |started| == s.appends
            && s.stats.writtenRows == RowsWith(started, settlings, true)
            && s.stats.failedRows == RowsWith(started, settlings, false)
            && s.stats.failedAppends == HowMany(settlings, false)
  {
    hide Books, AllInOrder;
    RunKeeps(events, maxQueuedRows);
    WrittenIsWhatResolved(events, maxQueuedRows);
    var s := Play(events, maxQueuedRows).value;
    assert s.settled + [] == s.settled && Settlings(events)[..|s.settled|] == Settlings(events);
  }

  // ---- every flush comes to an end --------------------------------------------------------------------------------

  /** A step that needs no new call and does something: a wake-up that finds the lock held does not. */
  predicate Moves(s: State, e: Event) {
    Enabled(s, e)
    && match e {
         case Settles(_) => true
         case DrainWakes => s.draining == AwaitLock ==> s.exclusive.None?
         case DrainEnds => true
         case CallerWakes(n) => s.callers[n] == Blocked ==> s.exclusive.None?
         case FnEnds(_) => true
         case _ => false
       }
  }

  function DrainRank(s: State): int {
    match s.draining
    case Idle => 0
    case AwaitLock => 1
    case Returned => 2
    case AwaitAppend => if InFlight(s) then 4 else 3
  }

  /** A bound on the moves left. */
  function Rank(s: State): int {
    5 * |s.queue| + DrainRank(s) + 3 * |s.callers|
    - (if s.exclusive.None? then 0
       else if s.exclusive.value in s.callers && s.callers[s.exclusive.value] == Running then 2 else 1)
  }

  lemma SizeOfSet(callers: map<nat, Phase>, n: nat, p: Phase)
    requires n in callers
    ensures |callers[n := p]| == |callers| && |callers - {n}| == |callers| - 1
  {
    assert callers[n := p].Keys == callers.Keys && (callers - {n}).Keys == callers.Keys - {n};
    assert |callers[n := p].Keys| == |callers[n := p]| && |callers.Keys| == |callers| && |(callers - {n}).Keys| == |callers - {n}|;
  }

  lemma TurnRank(s: State)
    requires s.draining != Idle && s.appending.None?
    ensures Rank(Turn(s)) <= Rank(s) - DrainRank(s) + if s.queue == [] then 2 else 1
  {
  }

  /** Without new calls each move brings the store nearer to rest. */
  lemma MovesComeToAnEnd(s: State, e: Event, maxQueuedRows: int)
    requires Locks(s) && Moves(s, e)
    ensures 0 <= Rank(Next(s, e, maxQueuedRows)) < Rank(s)
  {
    hide AfterBatch, Turn;
    NextLocks(s, e, maxQueuedRows);
    RankIsNat(Next(s, e, maxQueuedRows));
    hide Locks;
    match e
    case DrainWakes => WokenRank(s);
    case DrainEnds => DrainEndsRank(s);
    case Settles(ok) => SettlesRank(s, ok, maxQueuedRows);
    case CallerWakes(n) => CallerWakesRank(s, n, maxQueuedRows);
    case FnEnds(n) => FnEndsRank(s, n, maxQueuedRows);
  }

  lemma RankIsNat(s: State)
    requires Locks(s)
    ensures Rank(s) >= 0
  {
    if s.exclusive.Some? {
      SizeOfSet(s.callers, s.exclusive.value, Running);
    }
  }

  lemma SettlesRank(s: State, ok: bool, maxQueuedRows: int)
    requires Locks(s) && Moves(s, Settles(ok))
    ensures Rank(Next(s, Settles(ok), maxQueuedRows)) < Rank(s)
  {
  }

  lemma CallerWakesRank(s: State, n: nat, maxQueuedRows: int)
    requires Locks(s) && Moves(s, CallerWakes(n))
    ensures Rank(Next(s, CallerWakes(n), maxQueuedRows)) < Rank(s)
  {
    SizeOfSet(s.callers, n, Running);
    if s.appending.Some? { SizeOfSet(s.callers, n, Settling(s.appending.value.number)); }
  }

  lemma FnEndsRank(s: State, n: nat, maxQueuedRows: int)
    requires Locks(s) && Moves(s, FnEnds(n))
    ensures Rank(Next(s, FnEnds(n), maxQueuedRows)) < Rank(s)
  {
    SizeOfSet(s.callers, n, Running);
  }

  lemma DrainEndsRank(s: State)
    requires Locks(s) && Moves(s, DrainEnds)
    ensures Rank(Next(s, DrainEnds, 0)) < Rank(s)
  {
    if s.queue != [] { TurnRank(s); }
  }

  lemma WokenRank(s: State)
    requires Locks(s) && Moves(s, DrainWakes)
    ensures Rank(Woken(s)) < Rank(s)
  {
    if s.draining == AwaitAppend {
      TurnRank(Count(s, s.appending.value));
    }
  }

  ghost predicate AtRest(s: State) {
    s.draining == Idle && s.queue == [] && s.appending.None? && s.exclusive.None? && s.callers == map[]
  }

  /** Until the drain loop is gone and the lock is free something can move: a flush under way returns. */
  lemma SomethingMoves(s: State) returns (e: Event)
    requires Locks(s) && !AtRest(s)
    ensures Moves(s, e)
  {
    if s.exclusive.Some? {
      var n := s.exclusive.value;
      return if s.callers[n] == Running then FnEnds(n) else if InFlight(s) then Settles(true) else CallerWakes(n);
    }
    if s.draining != Idle {
      return if s.draining == Returned then DrainEnds else if InFlight(s) then Settles(true) else DrainWakes;
    }
    var n :| n in s.callers;
    return CallerWakes(n);
  }

  // ---- a dropped row -------------------------------------------------------------------------------------------------

  /**
   * The fingerprint of a row is remembered even when the row is dropped. So an observation sent again
   * after it was dropped is taken for a repeat, and is never written: of the two tries one is accepted
   * exactly when there was room at the first.
   */
  lemma RetryIsAcceptedOnlyIfNotNeeded(s: State, later: State, o: Observation, maxQueuedRows: int)
    requires !s.closed && !later.closed && IsValid(o.providerId, o) && !Repeats(s.lastWritten, o.placed.value.row)
    requires later.lastWritten == AfterBatch(s, Batch(o.providerId, true, [o]), maxQueuedRows).lastWritten
    ensures var batch := Batch(o.providerId, true, [o]);
            var first, second := ReceiptOf(s, batch, maxQueuedRows), ReceiptOf(later, batch, maxQueuedRows);
            && second.skippedUnchanged == 1 && second.queued == 0
            && (first.queued + second.queued == 1 <==> s.queuedRows < maxQueuedRows)
            && (first.dropped == 1 <==> s.queuedRows >= maxQueuedRows)
  {
    SiftSingle(s.lastWritten, o);
    SiftSingle(later.lastWritten, o);
    var item := Item(o.placed.value.key, [o.placed.value.row]);
    AdmitSingle(s.queue, s.queuedRows, item, maxQueuedRows);
  }

  lemma SiftSingle(memory: map<string, int>, o: Observation)
    requires IsValid(o.providerId, o)
    ensures Sift(memory, o.providerId, [o]) == SiftOne(Sifted([], memory, 0, 0, 0), o.providerId, o)
  {
    assert [o][..0] == [];
  }

  lemma AdmitSingle(queue: seq<Item>, queuedRows: int, item: Item, maxQueuedRows: int)
    ensures Admit(queue, queuedRows, [item], maxQueuedRows) == AdmitOne(Admitted(queue, queuedRows, [], 0), item, maxQueuedRows)
  {
    assert [item][..0] == [];
  }

  /** Every observation of a batch is counted once on its receipt. */
  lemma ReceiptAddsUp(s: State, batch: Batch, maxQueuedRows: int)
    ensures var r := ReceiptOf(s, batch, maxQueuedRows);
            && r.queued >= 0
            && r.queued + r.skippedByPolicy + r.skippedByRetention + r.invalid + r.dropped + r.skippedUnchanged == |batch.observations|
  {
    var t := Sift(s.lastWritten, batch.providerId, batch.observations);
    SiftCountsAll(s.lastWritten, batch.providerId, batch.observations);
    AdmitsUpToTheRoom(s.queue, s.queuedRows, t.groups, maxQueuedRows);
    FlatIsTotal(t.groups);
  }

  /**
   * Why observations were not queued: all are dropped once the store is closed, else all are skipped
   * when the provider's policy forbids them; else those invalid and those not retained are counted, and
   * the new rows that found no room are dropped. The store's own counts grow by what the receipt says.
   */
  lemma ReceiptSaysWhy(s: State, batch: Batch, maxQueuedRows: int)
    ensures var r, n := ReceiptOf(s, batch, maxQueuedRows), |batch.observations|;
            && (s.closed ==> r == Receipt(0, 0, 0, 0, n, 0))
            && (!s.closed && !batch.allowed ==> r == Receipt(0, n, 0, 0, 0, 0))
            && (!s.closed && batch.allowed ==>
                  && r.skippedByPolicy == 0
                  && r.invalid == |InvalidAt(batch.providerId, batch.observations)|
                  && r.skippedByRetention == |NotRetainedAt(batch.providerId, batch.observations)|
                  && r.queued <= (if s.queuedRows < maxQueuedRows then maxQueuedRows - s.queuedRows else 0)
                  && (r.dropped > 0 ==> s.queuedRows + r.queued >= maxQueuedRows))
    ensures var r, a, b := ReceiptOf(s, batch, maxQueuedRows), s.stats, AfterBatch(s, batch, maxQueuedRows).stats;
            && b.droppedRows == a.droppedRows + r.dropped && b.skippedByPolicy == a.skippedByPolicy + r.skippedByPolicy
            && b.skippedByRetention == a.skippedByRetention + r.skippedByRetention
            && b.invalidObservations == a.invalidObservations + r.invalid && b.skippedUnchanged == a.skippedUnchanged + r.skippedUnchanged
            && b.writtenRows == a.writtenRows && b.failedRows == a.failedRows && b.failedAppends == a.failedAppends
  {
    hide Sift, Admit, InvalidAt, NotRetainedAt;
    if !s.closed && batch.allowed {
      var t := Sift(s.lastWritten, batch.providerId, batch.observations);
      SiftCountsEach(s.lastWritten, batch.providerId, batch.observations);
      AdmitsUpToTheRoom(s.queue, s.queuedRows, t.groups, maxQueuedRows);
      TurnKeepsStats(Queued(Sent(s, batch), t, Admit(s.queue, s.queuedRows, t.groups, maxQueuedRows)));
    }
  }

  lemma TurnKeepsStats(s: State)
    ensures Turn(s).stats == s.stats
  {
  }

  /** What every step keeps: the lock, the books, and the order of each partition's rows. */
  ghost predicate Sound(s: State, maxQueuedRows: int) {
    Locks(s) && Books(s, maxQueuedRows) && AllInOrder(s)
  }

  lemma NextSound(s: State, e: Event, maxQueuedRows: int)
    requires Enabled(s, e)
    ensures Sound(s, maxQueuedRows) ==> Sound(Next(s, e, maxQueuedRows), maxQueuedRows)
  {
    hide Locks, Books, AllInOrder, Next, Enabled;
    if Sound(s, maxQueuedRows) {
      NextLocks(s, e, maxQueuedRows);
      NextBooks(s, e, maxQueuedRows);
    }
  }

  // ---- the store -----------------------------------------------------------------------------------------------------

  /** The store: each method is what runs between two awaits, and takes its state to the state of that step. */
  class Store {
    const maxQueuedRows: int
    var queue: seq<Item>
    var queuedRows: int
    var lastWritten: map<string, int>
    var flushed: bool
    var closed: bool
    var stats: Stats
    var draining: Drain
    var appending: Option<Append>
    var appends: nat
    var exclusive: Option<nat>
    var callers: map<nat, Phase>
    ghost var sent: nat
    ghost var accepted: seq<Item>
    ghost var settled: seq<Item>

    ghost function View(): State
      reads this
    {
      State(queue, queuedRows, lastWritten, flushed, closed, stats, draining, appending, appends, exclusive, callers, sent, accepted, settled)
    }

    constructor (maxQueuedRows: int)
      ensures View() == INITIAL && this.maxQueuedRows == maxQueuedRows && Sound(View(), maxQueuedRows)
    {
      NothingKept(maxQueuedRows);
      this.maxQueuedRows := maxQueuedRows;
      queue, queuedRows, lastWritten, flushed, closed, stats := [], 0, map[], false, false, NO_STATS;
      draining, appending, appends, exclusive, callers := Idle, None, 0, None, map[];
      sent, accepted, settled := 0, [], [];
    }

    /** Sift a batch into rows per partition, remembering what each object says. */
    method SiftBatch(batch: Batch) returns (groups: seq<Item>, invalid: nat, skippedByRetention: nat, skippedUnchanged: nat)
      modifies this`lastWritten
      ensures Sift(old(lastWritten), batch.providerId, batch.observations)
           == Sifted(groups, lastWritten, invalid, skippedByRetention, skippedUnchanged)
    {
      hide Sift;
      ghost var memory := lastWritten;
      groups, invalid, skippedByRetention, skippedUnchanged := [], 0, 0, 0;
      SiftStarts(memory, batch.providerId);
      for i := 0 to |batch.observations|
        invariant Sift(memory, batch.providerId, batch.observations[..i])
               == Sifted(groups, lastWritten, invalid, skippedByRetention, skippedUnchanged)
      {
        var o := batch.observations[i];
        SiftStep(memory, batch.providerId, batch.observations, i);
        if o.providerId != batch.providerId {
          invalid := invalid + 1;
        } else if !o.retained {
          skippedByRetention := skippedByRetention + 1;
        } else if o.placed.None? {
          invalid := invalid + 1;
        } else {
          var Placed(key, row) := o.placed.value;
          if row.objectId in lastWritten && lastWritten[row.objectId] == row.fingerprint {
            skippedUnchanged := skippedUnchanged + 1;
          } else {
            if |lastWritten| >= MAX_REMEMBERED_OBJECTS {
              lastWritten := map[];
            }
            lastWritten := lastWritten[row.objectId := row.fingerprint];
            groups := AddTo(groups, key, [row]);
          }
        }
      }
      assert batch.observations[..|batch.observations|] == batch.observations;
    }

    /** Put as many rows in the queue as there is room for, partition by partition. */
    method AdmitGroups(groups: seq<Item>) returns (queued: nat, dropped: nat)
      modifies this`queue, this`queuedRows, this`accepted
      ensures var q := Admit(old(queue), old(queuedRows), groups, maxQueuedRows);
              && queue == q.queue && queuedRows == q.queuedRows && dropped == q.dropped
              && queued == q.queuedRows - old(queuedRows) && accepted == old(accepted) + q.accepted
    {
      hide Admit;
      ghost var queue0, queuedRows0, accepted0 := queue, queuedRows, accepted;
      ghost var taken := [];
      queued, dropped := 0, 0;
      AdmitStarts(queue, queuedRows, maxQueuedRows);
      for i := 0 to |groups|
        invariant Admit(queue0, queuedRows0, groups[..i], maxQueuedRows) == Admitted(queue, queuedRows, taken, dropped)
        invariant accepted == accepted0 + taken && queued == queuedRows - queuedRows0
      {
        AdmitStep(queue0, queuedRows0, groups, i, maxQueuedRows);
        var item := groups[i];
        var room := maxQueuedRows - queuedRows;
        if room <= 0 {
          dropped := dropped + |item.rows|;
        } else {
          var rows := if |item.rows| > room then item.rows[..room] else item.rows;
          dropped := dropped + |item.rows| - |rows|;
          queue := AddTo(queue, item.key, rows);
          queuedRows := queuedRows + |rows|;
          queued := queued + |rows|;
          taken := taken + [Item(item.key, rows)];
          accepted := accepted0 + taken;
        }
      }
      assert groups[..|groups|] == groups;
    }

    method WriteBatch(batch: Batch) returns (receipt: Receipt)
      modifies this
      ensures View() == AfterBatch(old(View()), batch, maxQueuedRows)
      ensures receipt == ReceiptOf(old(View()), batch, maxQueuedRows)
      ensures Sound(old(View()), maxQueuedRows) ==> Sound(View(), maxQueuedRows)
    {
      hide Sift, Admit, Turn, Kick, Queued, Sound;
      NextSound(View(), Writes(batch), maxQueuedRows);
      var n := |batch.observations|;
      sent := sent + n;
      if closed {
        stats := stats.(droppedRows := stats.droppedRows + n);
        return Receipt(0, 0, 0, 0, n, 0);
      }
      if !batch.allowed {
        stats := stats.(skippedByPolicy := stats.skippedByPolicy + n);
        return Receipt(0, n, 0, 0, 0, 0);
      }
      receipt := QueueBatch(batch);
    }

    /** Sift a batch, admit what is new, and start the drain loop if anything was. */
    method QueueBatch(batch: Batch) returns (receipt: Receipt)
      modifies this
      ensures var s := old(View());
              var t := Sift(s.lastWritten, batch.providerId, batch.observations);
              var q := Admit(s.queue, s.queuedRows, t.groups, maxQueuedRows);
              && View() == (if q.queuedRows > s.queuedRows then Kick(Queued(s, t, q)) else Queued(s, t, q))
              && receipt == Receipt(q.queuedRows - s.queuedRows, 0, t.skippedByRetention, t.invalid, q.dropped, t.skippedUnchanged)
    {
      hide Sift, Admit, Turn, Kick;
      var groups, invalid, byRetention, repeated := SiftBatch(batch);
      var queued, dropped := AdmitGroups(groups);
      stats := stats.(skippedByRetention := stats.skippedByRetention + byRetention,
                      invalidObservations := stats.invalidObservations + invalid,
                      skippedUnchanged := stats.skippedUnchanged + repeated,
                      droppedRows := stats.droppedRows + dropped);
      if queued > 0 {
        KickDrain();
      }
      return Receipt(queued, 0, byRetention, invalid, dropped, repeated);
    }

    method KickDrain()
      modifies this
      ensures View() == Kick(old(View()))
    {
      if draining == Idle {
        DrainOn();
      }
    }

    /** The drain loop from the top, up to its next await. */
    method DrainOn()
      modifies this
      ensures View() == Turn(old(View()))
    {
      if queue == [] {
        draining := Returned;
      } else if exclusive.Some? {
        draining := AwaitLock;
      } else {
        TakeFirst();
      }
    }

    method TakeFirst()
      requires queue != []
      modifies this
      ensures View() == Take(old(View()))
    {
      var item := queue[0];
      queue := queue[1..];
      queuedRows := queuedRows - |item.rows|;
      appending := Some(Append(appends, item, Waiting));
      appends := appends + 1;
      draining := AwaitAppend;
    }

    /** What the drain loop awaited is over: the lock's release, or its append. */
    method DrainResumes()
      requires Enabled(View(), DrainWakes)
      modifies this
      ensures View() == Next(old(View()), DrainWakes, maxQueuedRows)
      ensures Sound(old(View()), maxQueuedRows) ==> Sound(View(), maxQueuedRows)
    {
      hide Sound, Turn, Count, Take;
      NextSound(View(), DrainWakes, maxQueuedRows);
      if draining == AwaitLock {
        if exclusive.Some? {
          return;
        }
        if queue == [] {
          draining := Returned;
        } else {
          TakeFirst();
        }
      } else if appending.Some? {
        CountAppend();
        DrainOn();
      }
    }

    /** The append that has settled is counted, as written or as failed. */
    method CountAppend()
      requires appending.Some?
      modifies this
      ensures View() == Count(old(View()), old(appending).value)
    {
      var a := appending.value;
      if a.outcome.Wrote? {
        stats := stats.(writtenRows := stats.writtenRows + |a.item.rows|);
      } else {
        stats := stats.(failedAppends := stats.failedAppends + 1, failedRows := stats.failedRows + |a.item.rows|);
      }
      appending := None;
      settled := settled + [a.item];
    }

    /** The drain loop has returned: it starts again when rows came in the meantime. */
    method DrainFinally()
      requires Enabled(View(), DrainEnds)
      modifies this
      ensures View() == Next(old(View()), DrainEnds, maxQueuedRows)
      ensures Sound(old(View()), maxQueuedRows) ==> Sound(View(), maxQueuedRows)
    {
      hide Sound;
      NextSound(View(), DrainEnds, maxQueuedRows);
      draining := Idle;
      if queue != [] {
        KickDrain();
      }
    }

    /** A call of `withExclusive`. */
    method WithExclusive(caller: nat)
      requires Enabled(View(), Asks(caller))
      modifies this
      ensures View() == Next(old(View()), Asks(caller), maxQueuedRows)
      ensures Sound(old(View()), maxQueuedRows) ==> Sound(View(), maxQueuedRows)
    {
      hide Sound;
      NextSound(View(), Asks(caller), maxQueuedRows);
      if exclusive.Some? {
        callers := callers[caller := Blocked];
      } else {
        Hold(caller);
      }
    }

    method Hold(caller: nat)
      modifies this
      ensures View() == Acquire(old(View()), caller)
    {
      exclusive := Some(caller);
      callers := callers[caller := if appending.Some? then Settling(appending.value.number) else Running];
    }

    /** What a call of `withExclusive` awaited is over. */
    method CallerResumes(caller: nat)
      requires Enabled(View(), CallerWakes(caller))
      modifies this
      ensures View() == Next(old(View()), CallerWakes(caller), maxQueuedRows)
      ensures Sound(old(View()), maxQueuedRows) ==> Sound(View(), maxQueuedRows)
    {
      hide Sound;
      NextSound(View(), CallerWakes(caller), maxQueuedRows);
      if callers[caller] != Blocked {
        callers := callers[caller := Running];
      } else if exclusive.None? {
        Hold(caller);
      }
    }

    /** The promise of the append under way settles. */
    method SettleAppend(ok: bool)
      requires Enabled(View(), Settles(ok))
      modifies this
      ensures View() == Next(old(View()), Settles(ok), maxQueuedRows)
      ensures Sound(old(View()), maxQueuedRows) ==> Sound(View(), maxQueuedRows)
    {
      hide Sound;
      NextSound(View(), Settles(ok), maxQueuedRows);
      appending := Some(appending.value.(outcome := if ok then Wrote else Threw));
    }

    /** The flush of a close looks whether the drain loop is gone; while it is not, it awaits it and looks again. */
    method FlushLooks() returns (gone: bool)
      modifies this
      ensures gone == Enabled(old(View()), Flushes)
      ensures View() == if gone then Next(old(View()), Flushes, maxQueuedRows) else old(View())
      ensures Sound(old(View()), maxQueuedRows) ==> Sound(View(), maxQueuedRows)
    {
      hide Sound;
      gone := draining == Idle;
      if gone {
        NextSound(View(), Flushes, maxQueuedRows);
        flushed := true;
      }
    }

    /** Flushed, the store is closed: later batches are dropped. */
    method Close()
      requires Enabled(View(), Closes)
      modifies this
      ensures View() == Next(old(View()), Closes, maxQueuedRows)
      ensures Sound(old(View()), maxQueuedRows) ==> Sound(View(), maxQueuedRows)
    {
      hide Sound;
      NextSound(View(), Closes, maxQueuedRows);
      closed := true;
    }

    /** The function run under the lock has ended, well or not. */
    method Release(caller: nat)
      requires Enabled(View(), FnEnds(caller))
      modifies this
      ensures View() == Next(old(View()), FnEnds(caller), maxQueuedRows)
      ensures Sound(old(View()), maxQueuedRows) ==> Sound(View(), maxQueuedRows)
    {
      hide Sound;
      NextSound(View(), FnEnds(caller), maxQueuedRows);
      exclusive := None;
      callers := callers - {caller};
    }
  }

  lemma SiftStarts(memory: map<string, int>, providerId: string)
    ensures Sift(memory, providerId, []) == Sifted([], memory, 0, 0, 0)
  {
  }

  lemma SiftStep(memory: map<string, int>, providerId: string, os: seq<Observation>, i: nat)
    requires i < |os|
    ensures Sift(memory, providerId, os[..i + 1]) == SiftOne(Sift(memory, providerId, os[..i]), providerId, os[i])
  {
    assert os[..i + 1][..i] == os[..i];
  }

  lemma AdmitStarts(queue: seq<Item>, queuedRows: int, maxQueuedRows: int)
    ensures Admit(queue, queuedRows, [], maxQueuedRows) == Admitted(queue, queuedRows, [], 0)
  {
  }

  lemma AdmitStep(queue: seq<Item>, queuedRows: int, groups: seq<Item>, i: nat, maxQueuedRows: int)
    requires i < |groups|
    ensures Admit(queue, queuedRows, groups[..i + 1], maxQueuedRows)
         == AdmitOne(Admit(queue, queuedRows, groups[..i], maxQueuedRows), groups[i], maxQueuedRows)
  {
    assert groups[..i + 1][..i] == groups[..i];
  }
}
