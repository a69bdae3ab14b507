/**
 * What the history store does with a batch before anything is awaited: the observations sifted into
 * rows per partition, and the rows admitted to the bounded queue
 * (packages/history-store/src/store.ts, `writeBatch`).
 */
module HistoryQueue {
  import opened Wrappers

  /** A row, with what identifies it to the sifting: its object and the fingerprint of what it says. */
  datatype Row = Row(objectId: string, fingerprint: int, text: string)

  /** Rows of one partition, on their way to the backend. */
  datatype Item = Item(key: string, rows: seq<Row>)

  /** What an observation becomes: the row and its partition. */
  datatype Placed = Placed(key: string, row: Row)

  /** An observation; `placed` is absent when it cannot be made a row, `retained` when it is kept any time. */
  datatype Observation = Observation(providerId: string, retained: bool, placed: Option<Placed>)

  // ---- rows by partition, in order of first use ---------------------------------------------------------

  function AddTo(items: seq<Item>, key: string, rows: seq<Row>): seq<Item> {
    if items == [] then [Item(key, rows)]
    else if items[0].key == key then [Item(key, items[0].rows + rows)] + items[1..]
    else [items[0]] + AddTo(items[1..], key, rows)
  }

  /** The rows held for one partition. */
  function RowsIn(items: seq<Item>, key: string): seq<Row> {
    if items == [] then [] else (if items[0].key == key then items[0].rows else []) + RowsIn(items[1..], key)
  }

  function Total(items: seq<Item>): nat {
    if items == [] then 0 else |items[0].rows| + Total(items[1..])
  }

  /** One item per partition, none empty. */
  ghost predicate Tidy(items: seq<Item>) {
    && (forall i :: 0 <= i < |items| ==> items[i].rows != [])
    && (forall i, j :: 0 <= i < j < |items| ==> items[i].key != items[j].key)
  }

  predicate Holds(items: seq<Item>, key: string) {
    exists i :: 0 <= i < |items| && items[i].key == key
  }

  lemma RowsInAppend(a: seq<Item>, b: seq<Item>, key: string)
    ensures RowsIn(a + b, key) == RowsIn(a, key) + RowsIn(b, key)
  {
    if a == [] {
      assert a + b == b;
    } else {
      assert (a + b)[1..] == a[1..] + b;
      RowsInAppend(a[1..], b, key);
    }
  }

  lemma TotalAppend(a: seq<Item>, b: seq<Item>)
    ensures Total(a + b) == Total(a) + Total(b)
  {
    if a == [] {
      assert a + b == b;
    } else {
      assert (a + b)[1..] == a[1..] + b;
      TotalAppend(a[1..], b);
    }
  }

  /** Rows of a partition go behind those it already has; the other partitions are as they were. */
  lemma {:induction false} AddToAppends(items: seq<Item>, key: string, rows: seq<Row>, k: string)
    requires Tidy(items)
    ensures RowsIn(AddTo(items, key, rows), k) == RowsIn(items, k) + if k == key then rows else []
  {
    hide Tidy, AddTo, RowsIn;
    if items == [] {
      AddToNone(key, rows, k);
    } else {
      var first, rest := items[0], items[1..];
      assert items == [first] + rest;
      TidyTail(items);
      AddToCons(items, key, rows);
      RowsInCons(first, rest, k);
      if first.key == key {
        RowsInCons(Item(key, first.rows + rows), rest, k);
        if k == key { NoneHeld(rest, key); }
      } else {
        RowsInCons(first, AddTo(rest, key, rows), k);
        AddToAppends(rest, key, rows, k);
        Regroup(if first.key == k then first.rows else [], RowsIn(rest, k), if k == key then rows else []);
      }
    }
  }

  lemma AddToNone(key: string, rows: seq<Row>, k: string)
    ensures RowsIn(AddTo([], key, rows), k) == RowsIn([], k) + if k == key then rows else []
  {
    RowsInCons(Item(key, rows), [], k);
    assert [Item(key, rows)] + [] == [Item(key, rows)];
  }

  lemma AddToCons(items: seq<Item>, key: string, rows: seq<Row>)
    requires items != []
    ensures AddTo(items, key, rows) ==
            if items[0].key == key then [Item(key, items[0].rows + rows)] + items[1..] else [items[0]] + AddTo(items[1..], key, rows)
  {
  }

  lemma RowsInCons(item: Item, items: seq<Item>, k: string)
    ensures RowsIn([item] + items, k) == (if item.key == k then item.rows else []) + RowsIn(items, k)
  {
    assert ([item] + items)[1..] == items;
  }

  lemma TidyTail(items: seq<Item>)
    requires Tidy(items) && items != []
    ensures Tidy(items[1..]) && items[0].rows != [] && !Holds(items[1..], items[0].key)
  {
    var tail := items[1..];
    assert forall i :: 0 <= i < |tail| ==> tail[i] == items[i + 1];
  }

  lemma {:induction false} NoneHeld(items: seq<Item>, key: string)
    requires !Holds(items, key)
    ensures RowsIn(items, key) == []
  {
    if items != [] {
      var tail := items[1..];
      assert items[0].key != key;
      assert forall i :: 0 <= i < |tail| ==> tail[i] == items[i + 1];
      NoneHeld(tail, key);
    }
  }

  lemma {:induction false} AddToTotal(items: seq<Item>, key: string, rows: seq<Row>)
    ensures Total(AddTo(items, key, rows)) == Total(items) + |rows|
  {
    if items == [] {
    } else if items[0].key == key {
      assert ([Item(key, items[0].rows + rows)] + items[1..])[1..] == items[1..];
    } else {
      assert ([items[0]] + AddTo(items[1..], key, rows))[1..] == AddTo(items[1..], key, rows);
      AddToTotal(items[1..], key, rows);
    }
  }

  lemma {:induction false} AddToTidy(items: seq<Item>, key: string, rows: seq<Row>)
    requires Tidy(items) && rows != []
    ensures Tidy(AddTo(items, key, rows))
    ensures forall k :: Holds(AddTo(items, key, rows), k) <==> k == key || Holds(items, k)
  {
    if items == [] {
      assert AddTo(items, key, rows)[0].key == key;
    } else if items[0].key == key {
      var after := [Item(key, items[0].rows + rows)] + items[1..];
      assert |after| == |items| && forall i :: 0 <= i < |items| ==> after[i].key == items[i].key;
    } else {
      TidyTail(items);
      AddToTidy(items[1..], key, rows);
      TidyCons(items[0], AddTo(items[1..], key, rows));
      HoldsCons(items[0], AddTo(items[1..], key, rows));
      HoldsCons(items[0], items[1..]);
      assert [items[0]] + items[1..] == items;
    }
  }

  lemma TidyCons(item: Item, items: seq<Item>)
    requires Tidy(items) && item.rows != [] && !Holds(items, item.key)
    ensures Tidy([item] + items)
  {
    var all := [item] + items;
    assert forall i :: 1 <= i < |all| ==> all[i] == items[i - 1];
  }

  lemma HoldsCons(item: Item, items: seq<Item>)
    ensures forall k :: Holds([item] + items, k) <==> k == item.key || Holds(items, k)
  {
    var all := [item] + items;
    assert all[0] == item && forall i :: 0 <= i < |items| ==> all[i + 1] == items[i];
  }

  // ---- sifting a batch -------------------------------------------------------------------------------------

  /** Objects whose last fingerprint is remembered; past this the memory starts over. */
  const MAX_REMEMBERED_OBJECTS: nat := 500_000

  datatype Sifted = Sifted(groups: seq<Item>, memory: map<string, int>, invalid: nat, skippedByRetention: nat, skippedUnchanged: nat)

  predicate IsValid(providerId: string, o: Observation) {
    o.providerId == providerId && o.retained && o.placed.Some?
  }

  predicate Repeats(memory: map<string, int>, row: Row) {
    row.objectId in memory && memory[row.objectId] == row.fingerprint
  }

  function Remember(memory: map<string, int>, row: Row): map<string, int> {
    (if |memory| >= MAX_REMEMBERED_OBJECTS then map[] else memory)[row.objectId := row.fingerprint]
  }

  function SiftOne(t: Sifted, providerId: string, o: Observation): Sifted {
    if o.providerId != providerId then t.(invalid := t.invalid + 1)
    else if !o.retained then t.(skippedByRetention := t.skippedByRetention + 1)
    else if o.placed.None? then t.(invalid := t.invalid + 1)
    else
      var Placed(key, row) := o.placed.value;
      if Repeats(t.memory, row) then t.(skippedUnchanged := t.skippedUnchanged + 1)
      else t.(memory := Remember(t.memory, row), groups := AddTo(t.groups, key, [row]))
  }

  /** The observations of a batch, sifted one after another. */
  function Sift(memory: map<string, int>, providerId: string, os: seq<Observation>): Sifted {
    if os == [] then Sifted([], memory, 0, 0, 0)
    else SiftOne(Sift(memory, providerId, os[..|os| - 1]), providerId, os[|os| - 1])
  }

  /** Every observation of the batch is counted once. */
  lemma {:induction false} SiftCountsAll(memory: map<string, int>, providerId: string, os: seq<Observation>)
    ensures var t := Sift(memory, providerId, os);
            && Tidy(t.groups)
            && Total(t.groups) + t.invalid + t.skippedByRetention + t.skippedUnchanged == |os|
  {
    if os != [] {
      SiftCountsAll(memory, providerId, os[..|os| - 1]);
      var t, o := Sift(memory, providerId, os[..|os| - 1]), os[|os| - 1];
      if IsValid(providerId, o) {
        AddToTotal(t.groups, o.placed.value.key, [o.placed.value.row]);
        AddToTidy(t.groups, o.placed.value.key, [o.placed.value.row]);
      }
    }
  }

  /** The places of the observations that are not the provider's own, or cannot be made a row. */
  ghost function InvalidAt(providerId: string, os: seq<Observation>): set<nat> {
    set i: nat | i < |os| && (os[i].providerId != providerId || (os[i].retained && os[i].placed.None?))
  }

  /** The places of the provider's observations that are kept no time at all. */
  ghost function NotRetainedAt(providerId: string, os: seq<Observation>): set<nat> {
    set i: nat | i < |os| && os[i].providerId == providerId && !os[i].retained
  }

  /** Each observation that is not kept is counted for the first reason there is. */
  lemma {:induction false} SiftCountsEach(memory: map<string, int>, providerId: string, os: seq<Observation>)
    ensures var t := Sift(memory, providerId, os);
            t.invalid == |InvalidAt(providerId, os)| && t.skippedByRetention == |NotRetainedAt(providerId, os)|
  {
    if os != [] {
      var front, n := os[..|os| - 1], |os| - 1;
      SiftCountsEach(memory, providerId, front);
      assert os == front + [os[n]];
      InvalidMore(providerId, front, os[n]);
      NotRetainedMore(providerId, front, os[n]);
      hide InvalidAt, NotRetainedAt, Remember, Repeats, AddTo;
    }
  }

  lemma InvalidMore(providerId: string, front: seq<Observation>, o: Observation)
    ensures |InvalidAt(providerId, front + [o])|
         == |InvalidAt(providerId, front)| + if o.providerId != providerId || (o.retained && o.placed.None?) then 1 else 0
  {
    var more := InvalidAt(providerId, front + [o]);
    if o.providerId != providerId || (o.retained && o.placed.None?) {
      assert more == InvalidAt(providerId, front) + {|front|};
    } else {
      assert more == InvalidAt(providerId, front);
    }
  }

  lemma NotRetainedMore(providerId: string, front: seq<Observation>, o: Observation)
    ensures |NotRetainedAt(providerId, front + [o])|
         == |NotRetainedAt(providerId, front)| + if o.providerId == providerId && !o.retained then 1 else 0
  {
    var more := NotRetainedAt(providerId, front + [o]);
    if o.providerId == providerId && !o.retained {
      assert more == NotRetainedAt(providerId, front) + {|front|};
    } else {
      assert more == NotRetainedAt(providerId, front);
    }
  }

  /** What an object's last valid observation said: in the batch, or before it. */
  function LastSaid(memory: map<string, int>, providerId: string, os: seq<Observation>, objectId: string): Option<int> {
    if os == [] then (if objectId in memory then Some(memory[objectId]) else None) else
      var o := os[|os| - 1];
      if IsValid(providerId, o) && o.placed.value.row.objectId == objectId then Some(o.placed.value.row.fingerprint)
      else LastSaid(memory, providerId, os[..|os| - 1], objectId)
  }

  /** The observation at the end of `os` says something its object's last one did not. */
  predicate SaysNew(memory: map<string, int>, providerId: string, os: seq<Observation>)
    requires os != []
  {
    var o := os[|os| - 1];
    && IsValid(providerId, o)
    && LastSaid(memory, providerId, os[..|os| - 1], o.placed.value.row.objectId) != Some(o.placed.value.row.fingerprint)
  }

  /** The rows of one partition that say something new, in the order of the batch. */
  function NewRows(memory: map<string, int>, providerId: string, os: seq<Observation>, key: string): seq<Row> {
    if os == [] then [] else
      var o := os[|os| - 1];
      NewRows(memory, providerId, os[..|os| - 1], key)
      + if SaysNew(memory, providerId, os) && o.placed.value.key == key then [o.placed.value.row] else []
  }

  /** The memory stays within its bound while the batch is sifted, so it does not start over. */
  lemma {:induction false} SiftRemembers(memory: map<string, int>, providerId: string, os: seq<Observation>)
    requires |memory| + |os| <= MAX_REMEMBERED_OBJECTS
    ensures var m := Sift(memory, providerId, os).memory;
            && |m| <= |memory| + |os|
            && forall id :: LastSaid(memory, providerId, os, id) == if id in m then Some(m[id]) else None
  {
    if os != [] {
      SiftRemembers(memory, providerId, os[..|os| - 1]);
      var m, o := Sift(memory, providerId, os[..|os| - 1]).memory, os[|os| - 1];
      if IsValid(providerId, o) && !Repeats(m, o.placed.value.row) {
        var row := o.placed.value.row;
        assert Remember(m, row) == m[row.objectId := row.fingerprint];
        SizeOfUpdate(m, row.objectId, row.fingerprint);
      }
    }
  }

  /** No more objects are remembered than there may be, whatever is sent. */
  lemma {:induction false} MemoryIsBounded(memory: map<string, int>, providerId: string, os: seq<Observation>)
    requires |memory| <= 500_000
    ensures |Sift(memory, providerId, os).memory| <= 500_000
  {
    if os != [] {
      MemoryIsBounded(memory, providerId, os[..|os| - 1]);
      var m, o := Sift(memory, providerId, os[..|os| - 1]).memory, os[|os| - 1];
      if IsValid(providerId, o) {
        var row := o.placed.value.row;
        SizeOfUpdate(if |m| >= MAX_REMEMBERED_OBJECTS then map[] else m, row.objectId, row.fingerprint);
      }
    }
  }

  lemma SizeOfUpdate(m: map<string, int>, k: string, v: int)
    ensures |m[k := v]| <= |m| + 1
  {
    assert m[k := v].Keys == m.Keys + {k};
    assert |m[k := v].Keys| == |m[k := v]| && |m.Keys| == |m|;
  }

  /** The rows kept are exactly those that say something their object's last observation did not. */
  lemma {:induction false} SiftKeepsWhatIsNew(memory: map<string, int>, providerId: string, os: seq<Observation>, key: string)
    requires |memory| + |os| <= MAX_REMEMBERED_OBJECTS
    ensures RowsIn(Sift(memory, providerId, os).groups, key) == NewRows(memory, providerId, os, key)
  {
    if os != [] {
      var before := os[..|os| - 1];
      SiftKeepsWhatIsNew(memory, providerId, before, key);
      SiftRemembers(memory, providerId, before);
      SiftCountsAll(memory, providerId, before);
      var t, o := Sift(memory, providerId, before), os[|os| - 1];
      assert Sift(memory, providerId, os) == SiftOne(t, providerId, o);
      hide Sift, RowsIn, AddTo, Tidy, LastSaid, Total;
      if IsValid(providerId, o) {
        AddToAppends(t.groups, o.placed.value.key, [o.placed.value.row], key);
        assert SaysNew(memory, providerId, os) <==> !Repeats(t.memory, o.placed.value.row);
      }
    }
  }

  /** However often the memory starts over, what it has of an object is what the object's last valid observation said. */
  lemma {:induction false} MemoryIsOfTheLast(memory: map<string, int>, providerId: string, os: seq<Observation>, id: string)
    ensures var m := Sift(memory, providerId, os).memory;
            id in m ==> LastSaid(memory, providerId, os, id) == Some(m[id])
  {
    if os != [] {
      MemoryIsOfTheLast(memory, providerId, os[..|os| - 1], id);
    }
  }

  /** The rows of `a` are among those of `b`, in the same order. */
  ghost predicate Among(a: seq<Row>, b: seq<Row>) {
    a == [] ||
    (b != [] && (Among(a, b[..|b| - 1]) || (a[|a| - 1] == b[|b| - 1] && Among(a[..|a| - 1], b[..|b| - 1]))))
  }

  lemma AmongMore(a: seq<Row>, b: seq<Row>, row: Row)
    requires Among(a, b)
    ensures Among(a, b + [row]) && Among(a + [row], b + [row])
  {
    assert (b + [row])[..|b|] == b && (a + [row])[..|a|] == a;
  }

  /**
   * However many objects are remembered, nothing new is skipped: the rows that say something their
   * object's last observation did not are all kept, in the order of the batch.
   */
  lemma {:induction false} NothingNewIsSkipped(memory: map<string, int>, providerId: string, os: seq<Observation>, key: string)
    ensures Among(NewRows(memory, providerId, os, key), RowsIn(Sift(memory, providerId, os).groups, key))
  {
    if os != [] {
      var before := os[..|os| - 1];
      var t, o := Sift(memory, providerId, before), os[|os| - 1];
      NothingNewIsSkipped(memory, providerId, before, key);
      SiftCountsAll(memory, providerId, before);
      assert Sift(memory, providerId, os) == SiftOne(t, providerId, o);
      NewRowsMore(memory, providerId, os, key);
      hide Sift, RowsIn, AddTo, Tidy, LastSaid, Total, Among, NewRows;
      if IsValid(providerId, o) {
        var Placed(k, row) := o.placed.value;
        MemoryIsOfTheLast(memory, providerId, before, row.objectId);
        AddToAppends(t.groups, k, [row], key);
        AmongMore(NewRows(memory, providerId, before, key), RowsIn(t.groups, key), row);
        assert RowsIn(t.groups, key) + [] == RowsIn(t.groups, key);
      }
    }
  }

  lemma NewRowsMore(memory: map<string, int>, providerId: string, os: seq<Observation>, key: string)
    requires os != []
    ensures NewRows(memory, providerId, os, key) ==
            if SaysNew(memory, providerId, os) && os[|os| - 1].placed.value.key == key
            then NewRows(memory, providerId, os[..|os| - 1], key) + [os[|os| - 1].placed.value.row]
            else NewRows(memory, providerId, os[..|os| - 1], key)
  {
  }

  // ---- admission to the queue -----------------------------------------------------------------------------------

  /** The queue and its count while a batch is admitted, the rows admitted and the count of those that were not. */
  datatype Admitted = Admitted(queue: seq<Item>, queuedRows: int, accepted: seq<Item>, dropped: nat)

  function AdmitOne(q: Admitted, item: Item, maxQueuedRows: int): Admitted {
    var room := maxQueuedRows - q.queuedRows;
    if room <= 0 then q.(dropped := q.dropped + |item.rows|) else
      var rows := if |item.rows| > room then item.rows[..room] else item.rows;
      Admitted(AddTo(q.queue, item.key, rows), q.queuedRows + |rows|, q.accepted + [Item(item.key, rows)],
               q.dropped + |item.rows| - |rows|)
  }

  function Admit(queue: seq<Item>, queuedRows: int, groups: seq<Item>, maxQueuedRows: int): Admitted {
    if groups == [] then Admitted(queue, queuedRows, [], 0)
    else AdmitOne(Admit(queue, queuedRows, groups[..|groups| - 1], maxQueuedRows), groups[|groups| - 1], maxQueuedRows)
  }

  /** All the rows, group after group. */
  function Flat(items: seq<Item>): seq<Row> {
    if items == [] then [] else Flat(items[..|items| - 1]) + items[|items| - 1].rows
  }

  function Min(a: int, b: int): int {
    if a < b then a else b
  }

  function RoomFor(queuedRows: int, maxQueuedRows: int): nat {
    if queuedRows < maxQueuedRows then maxQueuedRows - queuedRows else 0
  }

  lemma FlatMore(items: seq<Item>, item: Item)
    ensures Flat(items + [item]) == Flat(items) + item.rows && Total(items + [item]) == Total(items) + |item.rows|
  {
    assert (items + [item])[..|items|] == items;
    TotalAppend(items, [item]);
  }

  /** What one group adds to what is admitted: as many of its rows as there is room for. */
  lemma AdmitOneMore(q: Admitted, item: Item, maxQueuedRows: int)
    ensures var r := AdmitOne(q, item, maxQueuedRows);
            var n := Min(|item.rows|, RoomFor(q.queuedRows, maxQueuedRows));
            && Flat(r.accepted) == Flat(q.accepted) + item.rows[..n]
            && r.queuedRows == q.queuedRows + n
            && r.dropped == q.dropped + |item.rows| - n
  {
    var room := maxQueuedRows - q.queuedRows;
    if room > 0 {
      var rows := if |item.rows| > room then item.rows[..room] else item.rows;
      FlatMore(q.accepted, Item(item.key, rows));
    }
  }

  lemma TakeOfConcat(a: seq<Row>, b: seq<Row>, n: nat)
    ensures (a + b)[..Min(|a + b|, n)] == a[..Min(|a|, n)] + b[..Min(|b|, n - Min(|a|, n))]
  {
  }

  /** What is admitted is the new rows, group after group, up to the room there was; the rest is dropped. */
  lemma {:induction false} AdmitsUpToTheRoom(queue: seq<Item>, queuedRows: int, groups: seq<Item>, maxQueuedRows: int)
    ensures var q := Admit(queue, queuedRows, groups, maxQueuedRows);
            var n := Min(|Flat(groups)|, RoomFor(queuedRows, maxQueuedRows));
            Flat(q.accepted) == Flat(groups)[..n] && q.queuedRows == queuedRows + n && q.dropped == |Flat(groups)| - n
  {
    if groups != [] {
      var front, item := groups[..|groups| - 1], groups[|groups| - 1];
      AdmitsUpToTheRoom(queue, queuedRows, front, maxQueuedRows);
      var q := Admit(queue, queuedRows, front, maxQueuedRows);
      assert Flat(groups) == Flat(front) + item.rows;
      AdmitOneMore(q, item, maxQueuedRows);
      hide Flat;
      TakeOfConcat(Flat(front), item.rows, RoomFor(queuedRows, maxQueuedRows));
    }
  }

  lemma {:induction false} FlatIsTotal(items: seq<Item>)
    ensures |Flat(items)| == Total(items)
  {
    if items != [] {
      FlatIsTotal(items[..|items| - 1]);
      assert items == items[..|items| - 1] + [items[|items| - 1]];
      TotalAppend(items[..|items| - 1], [items[|items| - 1]]);
    }
  }

  /** The queue is tidy, holds what it did with what was accepted behind it, and is counted. */
  ghost predicate Queues(queue: seq<Item>, queuedRows: int, q: Admitted, key: string) {
    && Tidy(q.queue)
    && Total(q.queue) == Total(queue) + Total(q.accepted)
    && q.queuedRows == queuedRows + Total(q.accepted)
    && RowsIn(q.queue, key) == RowsIn(queue, key) + RowsIn(q.accepted, key)
  }

  lemma QueuesOneMore(queue: seq<Item>, queuedRows: int, q: Admitted, item: Item, rows: seq<Row>, dropped: nat, key: string)
    requires Queues(queue, queuedRows, q, key) && rows != []
    ensures Queues(queue, queuedRows,
                   Admitted(AddTo(q.queue, item.key, rows), q.queuedRows + |rows|, q.accepted + [Item(item.key, rows)], dropped), key)
  {
    hide Tidy, AddTo, Total, RowsIn, Holds, Flat;
    AddToTidy(q.queue, item.key, rows);
    AddToTotal(q.queue, item.key, rows);
    FlatMore(q.accepted, Item(item.key, rows));
    assert RowsIn(AddTo(q.queue, item.key, rows), key) == RowsIn(queue, key) + RowsIn(q.accepted + [Item(item.key, rows)], key) by {
      AddToAppends(q.queue, item.key, rows, key);
      RowsInMore(q.accepted, Item(item.key, rows), key);
      Regroup(RowsIn(queue, key), RowsIn(q.accepted, key), if key == item.key then rows else []);
    }
  }

  lemma Regroup(a: seq<Row>, b: seq<Row>, c: seq<Row>)
    ensures (a + b) + c == a + (b + c)
  {
  }

  lemma RowsInMore(items: seq<Item>, item: Item, key: string)
    ensures RowsIn(items + [item], key) == RowsIn(items, key) + if key == item.key then item.rows else []
  {
    RowsInAppend(items, [item], key);
    RowsInCons(item, [], key);
    assert [item] + [] == [item];
  }

  /** Admission keeps the queue tidy, puts what it accepts behind what each partition had, and counts it. */
  lemma {:induction false} AdmitQueues(queue: seq<Item>, queuedRows: int, groups: seq<Item>, maxQueuedRows: int, key: string)
    requires Tidy(queue) && forall i :: 0 <= i < |groups| ==> groups[i].rows != []
    ensures Queues(queue, queuedRows, Admit(queue, queuedRows, groups, maxQueuedRows), key)
  {
    if groups != [] {
      var front, item := groups[..|groups| - 1], groups[|groups| - 1];
      hide Queues, Tidy, AdmitOne;
      AdmitQueues(queue, queuedRows, front, maxQueuedRows, key);
      AdmitOneQueues(queue, queuedRows, Admit(queue, queuedRows, front, maxQueuedRows), item, maxQueuedRows, key);
    } else {
      NothingQueued(queue, queuedRows, key);
    }
  }

  lemma NothingQueued(queue: seq<Item>, queuedRows: int, key: string)
    requires Tidy(queue)
    ensures Queues(queue, queuedRows, Admitted(queue, queuedRows, [], 0), key)
  {
  }

  lemma AdmitOneQueues(queue: seq<Item>, queuedRows: int, q: Admitted, item: Item, maxQueuedRows: int, key: string)
    requires Queues(queue, queuedRows, q, key) && item.rows != []
    ensures Queues(queue, queuedRows, AdmitOne(q, item, maxQueuedRows), key)
  {
    hide Queues, AddTo;
    var room := maxQueuedRows - q.queuedRows;
    if room > 0 {
      var rows := if |item.rows| > room then item.rows[..room] else item.rows;
      QueuesOneMore(queue, queuedRows, q, item, rows, q.dropped + |item.rows| - |rows|, key);
    } else {
      QueuesDropped(queue, queuedRows, q, item, maxQueuedRows, key);
    }
  }

  lemma QueuesDropped(queue: seq<Item>, queuedRows: int, q: Admitted, item: Item, maxQueuedRows: int, key: string)
    requires Queues(queue, queuedRows, q, key) && maxQueuedRows - q.queuedRows <= 0
    ensures Queues(queue, queuedRows, AdmitOne(q, item, maxQueuedRows), key)
  {
  }
}
