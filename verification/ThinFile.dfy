/**
 * Thinning rows in memory (packages/history-store/src/retention.ts, `downsampleRows`) and thinning a
 * file of rows in two passes that never hold the rows (packages/history-store/src/ndjson-backend.ts,
 * `thinPartition`): columns that grow as the file is read, and the kept lines picked out on the second read.
 */
module ThinFile {
  import opened Wrappers
  import opened Strings
  import opened Retention

  // ---- objects as numbers -----------------------------------------------------------------------------------

  /** Each object has a number of its own, below the count of them. */
  ghost predicate Interned(keys: map<string, nat>) {
    && (forall id :: id in keys ==> keys[id] < |keys|)
    && (forall a, b :: a in keys && b in keys && keys[a] == keys[b] ==> a == b)
  }

  function Intern(keys: map<string, nat>, id: string): map<string, nat> {
    if id in keys then keys else keys[id := |keys|]
  }

  lemma InternKeeps(keys: map<string, nat>, id: string)
    requires Interned(keys)
    ensures Interned(Intern(keys, id)) && id in Intern(keys, id)
    ensures forall a :: a in keys ==> a in Intern(keys, id) && Intern(keys, id)[a] == keys[a]
  {
    if id !in keys {
      assert keys[id := |keys|].Keys == keys.Keys + {id};
      assert |keys[id := |keys|].Keys| == |keys[id := |keys|]| && |keys.Keys| == |keys|;
    }
  }

  /** The same rows, their objects named one way and the other. */
  ghost predicate SameButNames<A, B>(a: seq<Col<A>>, b: seq<Col<B>>) {
    && |a| == |b|
    && (forall i :: 0 <= i < |a| ==> a[i].time == b[i].time && a[i].tie == b[i].tie && a[i].ordinal == b[i].ordinal && a[i].user == b[i].user)
    && (forall i, j :: 0 <= i < |a| && 0 <= j < |a| ==> (a[i].key == a[j].key <==> b[i].key == b[j].key))
  }

  lemma SamePrecedes<A, B>(a: seq<Col<A>>, b: seq<Col<B>>, i: nat, j: nat)
    requires SameButNames(a, b)
    ensures Precedes(a, i, j) <==> Precedes(b, i, j)
  {
  }

  lemma SameEnds<A, B>(a: seq<Col<A>>, b: seq<Col<B>>, i: nat)
    requires SameButNames(a, b) && i < |a|
    ensures (IsFirst(a, i) <==> IsFirst(b, i)) && (IsLast(a, i) <==> IsLast(b, i)) && Waiting(a, i) == Waiting(b, i)
  {
    forall j: nat ensures (Precedes(a, i, j) <==> Precedes(b, i, j)) && (Precedes(a, j, i) <==> Precedes(b, j, i)) {
      SamePrecedes(a, b, i, j);
      SamePrecedes(a, b, j, i);
    }
    hide Precedes;
  }

  lemma SameNext<A, B>(a: seq<Col<A>>, b: seq<Col<B>>, i: nat)
    requires SameButNames(a, b) && i < |a|
    ensures NextAfter(a, a[i].key) == NextAfter(b, b[i].key)
  {
    var n := NextAfter(a, a[i].key);
    forall j | 0 <= j < |b| && b[j].key == b[i].key ensures b[j].ordinal < n { NextIsAfter(a, j); }
    NextIsBelow(b, b[i].key, n);
    var m := NextAfter(b, b[i].key);
    forall j | 0 <= j < |a| && a[j].key == a[i].key ensures a[j].ordinal < m { NextIsAfter(b, j); }
    NextIsBelow(a, a[i].key, m);
  }

  /** What is kept, and under which ordinal, does not depend on the objects' names. */
  lemma SamePlan<A, B>(a: seq<Col<A>>, b: seq<Col<B>>, tiers: seq<Tier>, tier: int)
    requires SameButNames(a, b)
    ensures KeepSet(a, tiers, tier) == KeepSet(b, tiers, tier)
    ensures forall i :: 0 <= i < |a| ==> NewOrdinal(a, tiers, tier, i) == NewOrdinal(b, tiers, tier, i)
  {
    hide IsFirst, IsLast, Waiting, NextAfter, OnTheGrid;
    forall i: nat | i < |a|
      ensures NewOrdinal(a, tiers, tier, i) == NewOrdinal(b, tiers, tier, i) && (Kept(a, tiers, tier, i) <==> Kept(b, tiers, tier, i))
    {
      SameEnds(a, b, i);
      SameNext(a, b, i);
    }
  }

  /** The columns read so far: the rows, their objects as numbers. */
  ghost predicate ReadInto(rows: seq<Row>, keys: map<string, nat>, cols: seq<Col<int>>) {
    && Interned(keys) && |cols| == |rows|
    && (forall i :: 0 <= i < |rows| ==> rows[i].col.key in keys && cols[i] == Numbered(rows[i].col, keys[rows[i].col.key]))
  }

  function Numbered(col: Col<string>, k: nat): Col<int> {
    Col(k, col.time, col.tie, col.ordinal, col.user)
  }

  lemma ReadMore(rows: seq<Row>, keys: map<string, nat>, cols: seq<Col<int>>, row: Row)
    requires ReadInto(rows, keys, cols)
    ensures Interned(Intern(keys, row.col.key)) && row.col.key in Intern(keys, row.col.key)
    ensures ReadInto(rows + [row], Intern(keys, row.col.key), cols + [Numbered(row.col, Intern(keys, row.col.key)[row.col.key])])
  {
    InternKeeps(keys, row.col.key);
    hide Interned;
  }

  lemma ReadIsSame(rows: seq<Row>, keys: map<string, nat>, cols: seq<Col<int>>)
    requires ReadInto(rows, keys, cols)
    ensures SameButNames(Cols(rows), cols)
  {
  }

  // ---- rows in memory -----------------------------------------------------------------------------------------

  /** The rows among the first `n` that are kept, with their new ordinals. */
  ghost function Chosen(rows: seq<Row>, tiers: seq<Tier>, tier: int, n: nat): seq<Row>
    requires n <= |rows|
  {
    if n == 0 then [] else
      Chosen(rows, tiers, tier, n - 1)
      + if n - 1 in KeepSet(Cols(rows), tiers, tier) then [Renumber(rows[n - 1], NewOrdinal(Cols(rows), tiers, tier, n - 1))] else []
  }

  lemma {:induction false} ChosenAre(rows: seq<Row>, tiers: seq<Tier>, tier: int, n: nat)
    requires n <= |rows|
    ensures var idx := Idx(n, KeepSet(Cols(rows), tiers, tier));
            && |Chosen(rows, tiers, tier, n)| == |idx|
            && forall k :: 0 <= k < |idx| ==> idx[k] < |rows| && Chosen(rows, tiers, tier, n)[k] == Renumber(rows[idx[k]], NewOrdinal(Cols(rows), tiers, tier, idx[k]))
  {
    hide KeepSet, NewOrdinal;
    if n > 0 {
      ChosenAre(rows, tiers, tier, n - 1);
    }
  }

  lemma ChosenIsThinned(rows: seq<Row>, tiers: seq<Tier>, tier: int)
    ensures Chosen(rows, tiers, tier, |rows|) == Thinned(rows, tiers, tier)
  {
    ChosenAre(rows, tiers, tier, |rows|);
  }

  /** The columns of rows held in memory. */
  method ReadRows(rows: seq<Row>) returns (cols: seq<Col<int>>)
    ensures exists keys :: ReadInto(rows, keys, cols)
  {
    hide ReadInto, Interned;
    var numbers: map<string, nat> := map[];
    cols := [];
    NothingRead();
    assert rows[..0] == [];
    for i := 0 to |rows|
      invariant ReadInto(rows[..i], numbers, cols)
    {
      ReadMore(rows[..i], numbers, cols, rows[i]);
      assert rows[..i + 1] == rows[..i] + [rows[i]];
      numbers := Intern(numbers, rows[i].col.key);
      cols := cols + [Numbered(rows[i].col, numbers[rows[i].col.key])];
    }
    assert rows[..|rows|] == rows;
  }

  /** The rows thinned, and how many fewer they are. */
  method DownsampleRows(rows: seq<Row>, tiers: seq<Tier>, tier: int) returns (out: seq<Row>, removed: nat)
    ensures out == Thinned(rows, tiers, tier) && removed == |rows| - |out|
  {
    hide KeepSet, NewOrdinal, ReadInto, Idx, Thinned, Chosen;
    if tier <= 0 || tiers == [] {
      NothingThinned(rows, tiers, tier);
      return rows, 0;
    }
    var cols := ReadRows(rows);
    ghost var keys :| ReadInto(rows, keys, cols);
    PlanIsFor(rows, keys, cols, tiers, tier);
    var keep, ordinals;
    keep, ordinals, removed := PlanThinning(cols, tiers, tier);
    out := PickKept(rows, keep, ordinals, tiers, tier);
  }

  /** The rows the plan keeps, renumbered. */
  method PickKept(rows: seq<Row>, keep: array<bool>, ordinals: array<int>, tiers: seq<Tier>, tier: int) returns (out: seq<Row>)
    requires keep.Length == ordinals.Length == |rows|
    requires forall i :: 0 <= i < |rows| ==>
               && (keep[i] <==> i in KeepSet(Cols(rows), tiers, tier))
               && ordinals[i] == NewOrdinal(Cols(rows), tiers, tier, i)
    ensures out == Thinned(rows, tiers, tier)
  {
    hide KeepSet, NewOrdinal, Thinned, Chosen;
    out := [];
    ChosenNone(rows, tiers, tier);
    for i := 0 to |rows|
      invariant out == Chosen(rows, tiers, tier, i)
    {
      ChosenMore(rows, tiers, tier, i);
      if keep[i] {
        out := out + [Renumber(rows[i], ordinals[i])];
      }
    }
    ChosenIsThinned(rows, tiers, tier);
  }

  lemma NothingRead()
    ensures ReadInto([], map[], [])
  {
  }

  lemma PlanIsFor(rows: seq<Row>, keys: map<string, nat>, cols: seq<Col<int>>, tiers: seq<Tier>, tier: int)
    requires ReadInto(rows, keys, cols)
    ensures |cols| == |rows| && KeepSet(cols, tiers, tier) == KeepSet(Cols(rows), tiers, tier)
    ensures forall i :: 0 <= i < |rows| ==> NewOrdinal(cols, tiers, tier, i) == NewOrdinal(Cols(rows), tiers, tier, i)
    ensures |Idx(|rows|, KeepSet(cols, tiers, tier))| == |Thinned(rows, tiers, tier)|
  {
    ReadIsSame(rows, keys, cols);
    SamePlan(Cols(rows), cols, tiers, tier);
  }

  lemma ChosenNone(rows: seq<Row>, tiers: seq<Tier>, tier: int)
    ensures Chosen(rows, tiers, tier, 0) == []
  {
  }

  lemma ChosenMore(rows: seq<Row>, tiers: seq<Tier>, tier: int, n: nat)
    requires n < |rows|
    ensures Chosen(rows, tiers, tier, n + 1) ==
            if n in KeepSet(Cols(rows), tiers, tier)
            then Chosen(rows, tiers, tier, n) + [Renumber(rows[n], NewOrdinal(Cols(rows), tiers, tier, n))]
            else Chosen(rows, tiers, tier, n)
  {
  }

  // ---- a file of rows -----------------------------------------------------------------------------------------

  /** A line of the file: blank, not a row, or a row. Rows of one time stand in file order: they have no other tie. */
  datatype Line = Blank | Malformed | Parsed(row: Row)

  function FileRow(row: Row): Row {
    row.(col := row.col.(tie := 0))
  }

  function FileRows(lines: seq<Line>): seq<Row> {
    if lines == [] then [] else
      FileRows(lines[..|lines| - 1]) + if lines[|lines| - 1].Parsed? then [FileRow(lines[|lines| - 1].row)] else []
  }

  function NonBlank(lines: seq<Line>): nat {
    if lines == [] then 0 else NonBlank(lines[..|lines| - 1]) + if lines[|lines| - 1].Blank? then 0 else 1
  }

  /** The numbers, among the lines that are not blank, of those that hold a row. */
  function ValidLines(lines: seq<Line>): seq<nat> {
    if lines == [] then [] else
      ValidLines(lines[..|lines| - 1]) + if lines[|lines| - 1].Parsed? then [NonBlank(lines[..|lines| - 1])] else []
  }

  lemma {:induction false} ValidLinesOf(lines: seq<Line>, k: nat)
    requires k <= |lines|
    ensures |ValidLines(lines)| == |FileRows(lines)|
    ensures |FileRows(lines[..k])| <= |FileRows(lines)| && FileRows(lines[..k]) == FileRows(lines)[..|FileRows(lines[..k])|]
    ensures |ValidLines(lines[..k])| <= |ValidLines(lines)| && ValidLines(lines[..k]) == ValidLines(lines)[..|ValidLines(lines[..k])|]
    ensures |ValidLines(lines[..k])| == |FileRows(lines[..k])|
    ensures NonBlank(lines[..k]) <= NonBlank(lines)
    ensures forall j :: |ValidLines(lines[..k])| <= j < |ValidLines(lines)| ==> ValidLines(lines)[j] >= NonBlank(lines[..k])
  {
    if k == |lines| {
      assert lines[..k] == lines;
      if k > 0 {
        ValidLinesOf(lines[..k - 1], k - 1);
      }
    } else {
      var front := lines[..|lines| - 1];
      assert front[..k] == lines[..k];
      ValidLinesOf(front, k);
    }
  }

  /** What the second pass finds at line `k`: the row whose turn it is, exactly when the line holds one. */
  lemma LineAt(lines: seq<Line>, k: nat)
    requires k < |lines|
    ensures var v := |ValidLines(lines[..k])|;
            && |ValidLines(lines[..k + 1])| == v + (if lines[k].Parsed? then 1 else 0)
            && NonBlank(lines[..k + 1]) == NonBlank(lines[..k]) + (if lines[k].Blank? then 0 else 1)
            && (lines[k].Parsed? ==>
                  v < |ValidLines(lines)| == |FileRows(lines)| && ValidLines(lines)[v] == NonBlank(lines[..k]) && FileRows(lines)[v] == FileRow(lines[k].row))
            && (lines[k].Malformed? && v < |ValidLines(lines)| ==> ValidLines(lines)[v] != NonBlank(lines[..k]))
  {
    assert lines[..k + 1][..k] == lines[..k];
    ValidLinesOf(lines, k);
    ValidLinesOf(lines, k + 1);
    if lines[k].Parsed? {
      var v := |ValidLines(lines[..k])|;
      assert ValidLines(lines)[v] == ValidLines(lines[..k + 1])[v];
      assert FileRows(lines)[v] == FileRows(lines[..k + 1])[v];
    }
  }

  /** The columns of a file's rows, in arrays with room to spare. */
  class Columns {
    var length: nat
    var objectKey: array<int>
    var time: array<int>
    var ordinal: array<int>
    var user: array<bool>

    ghost predicate Valid()
      reads this
    {
      && objectKey.Length == time.Length == ordinal.Length == user.Length && length <= time.Length && time.Length > 0
      && objectKey != time && objectKey != ordinal && time != ordinal
    }

    ghost function Repr(): set<object>
      reads this
    {
      {this, objectKey, time, ordinal, user}
    }

    function View(): (r: seq<Col<int>>)
      requires Valid()
      reads this, objectKey, time, ordinal, user
      ensures |r| == length
    {
      seq(length, i requires 0 <= i < length && Valid() reads this, objectKey, time, ordinal, user => Col(objectKey[i], time[i], 0, ordinal[i], user[i]))
    }

    constructor (cap: nat)
      requires cap > 0
      ensures Valid() && fresh(Repr()) && View() == []
    {
      length := 0;
      objectKey, time, ordinal, user := new int[cap], new int[cap], new int[cap], new bool[cap];
    }

    /** Twice the room, with what was there. */
    method Grow()
      requires Valid()
      modifies Repr()
      ensures Valid() && fresh(Repr() - old(Repr())) && View() == old(View())
      ensures length < time.Length
    {
      var cap := time.Length * 2;
      var objectKey', time', ordinal', user' := new int[cap], new int[cap], new int[cap], new bool[cap];
      forall i | 0 <= i < length { objectKey'[i] := objectKey[i]; }
      forall i | 0 <= i < length { time'[i] := time[i]; }
      forall i | 0 <= i < length { ordinal'[i] := ordinal[i]; }
      forall i | 0 <= i < length { user'[i] := user[i]; }
      objectKey, time, ordinal, user := objectKey', time', ordinal', user';
    }

    method Push(col: Col<int>)
      requires Valid() && col.tie == 0
      modifies Repr()
      ensures Valid() && fresh(Repr() - old(Repr())) && View() == old(View()) + [col]
    {
      if length == time.Length {
        Grow();
      }
      objectKey[length], time[length], ordinal[length], user[length] := col.key, col.time, col.ordinal, col.user;
      length := length + 1;
    }
  }

  /** The first pass: the columns of the rows, and where the rows are. */
  method ReadColumns(lines: seq<Line>, expected: nat) returns (cols: Columns, valid: seq<nat>, malformed: nat, ghost keys: map<string, nat>)
    ensures cols.Valid() && fresh(cols.Repr()) && ReadInto(FileRows(lines), keys, cols.View())
    ensures valid == ValidLines(lines)
    ensures malformed == NonBlank(lines) - |FileRows(lines)|
  {
    hide ReadInto, Interned, FileRows, ValidLines, NonBlank;
    cols := new Columns(if expected + 1024 > 1024 then expected + 1024 else 1024);
    var numbers: map<string, nat>, lineNo: nat := map[], 0;
    valid, malformed := [], 0;
    NothingRead();
    assert lines[..0] == [];
    NoLines();
    for k := 0 to |lines|
      invariant cols.Valid() && fresh(cols.Repr())
      invariant ReadInto(FileRows(lines[..k]), numbers, cols.View())
      invariant valid == ValidLines(lines[..k]) && lineNo == NonBlank(lines[..k])
      invariant malformed == NonBlank(lines[..k]) - |FileRows(lines[..k])|
    {
      OneLineMore(lines, k);
      if lines[k].Blank? {
        continue;
      }
      var n := lineNo;
      lineNo := lineNo + 1;
      if lines[k].Malformed? {
        malformed := malformed + 1;
        continue;
      }
      var row := FileRow(lines[k].row);
      ReadMore(FileRows(lines[..k]), numbers, cols.View(), row);
      numbers := Intern(numbers, row.col.key);
      cols.Push(Numbered(row.col, numbers[row.col.key]));
      valid := valid + [n];
    }
    assert lines[..|lines|] == lines;
    keys := numbers;
  }

  lemma NoLines()
    ensures FileRows([]) == [] && ValidLines([]) == [] && NonBlank([]) == 0
  {
  }

  lemma OneLineMore(lines: seq<Line>, k: nat)
    requires k < |lines|
    ensures FileRows(lines[..k + 1]) == if lines[k].Parsed? then FileRows(lines[..k]) + [FileRow(lines[k].row)] else FileRows(lines[..k])
    ensures ValidLines(lines[..k + 1]) == if lines[k].Parsed? then ValidLines(lines[..k]) + [NonBlank(lines[..k])] else ValidLines(lines[..k])
    ensures NonBlank(lines[..k + 1]) == NonBlank(lines[..k]) + if lines[k].Blank? then 0 else 1
  {
    assert lines[..k + 1][..k] == lines[..k];
  }

  // ---- what is written ---------------------------------------------------------------------------------------

  /** The rows written, how many lost their raw hash, and the first and last of their times. */
  datatype Tally = Tally(rows: seq<Row>, stripped: nat, minObservedAt: Option<string>, maxObservedAt: Option<string>)

  function WithoutHash(row: Row, stripRaw: bool): Row {
    if stripRaw then row.(rawPayloadHash := None) else row
  }

  function Write(t: Tally, row: Row, stripRaw: bool): Tally {
    Tally(t.rows + [WithoutHash(row, stripRaw)],
          t.stripped + if stripRaw && row.rawPayloadHash.Some? then 1 else 0,
          if t.minObservedAt.None? || Less(row.observedAt, t.minObservedAt.value) then Some(row.observedAt) else t.minObservedAt,
          if t.maxObservedAt.None? || Less(t.maxObservedAt.value, row.observedAt) then Some(row.observedAt) else t.maxObservedAt)
  }

  /** The rows written one after another. */
  function WrittenOf(rows: seq<Row>, stripRaw: bool): Tally {
    if rows == [] then Tally([], 0, None, None) else Write(WrittenOf(rows[..|rows| - 1], stripRaw), rows[|rows| - 1], stripRaw)
  }

  function HashesIn(rows: seq<Row>): nat {
    if rows == [] then 0 else HashesIn(rows[..|rows| - 1]) + if rows[|rows| - 1].rawPayloadHash.Some? then 1 else 0
  }

  /** The time is one of the rows' own, and none is before it. */
  ghost predicate IsEarliest(at: string, rows: seq<Row>) {
    (exists i :: 0 <= i < |rows| && rows[i].observedAt == at) && forall i :: 0 <= i < |rows| ==> !Less(rows[i].observedAt, at)
  }

  ghost predicate IsLatestTime(at: string, rows: seq<Row>) {
    (exists i :: 0 <= i < |rows| && rows[i].observedAt == at) && forall i :: 0 <= i < |rows| ==> !Less(at, rows[i].observedAt)
  }

  ghost predicate Bounds(t: Tally, rows: seq<Row>) {
    && (t.minObservedAt.Some? <==> rows != []) && (t.maxObservedAt.Some? <==> rows != [])
    && (rows != [] ==> IsEarliest(t.minObservedAt.value, rows) && IsLatestTime(t.maxObservedAt.value, rows))
  }

  /** What is written of some rows: all of them, without raw hashes if asked, and the bounds of their times. */
  lemma {:induction false} WrittenIs(rows: seq<Row>, stripRaw: bool)
    ensures var t := WrittenOf(rows, stripRaw);
            && |t.rows| == |rows| && (forall i :: 0 <= i < |rows| ==> t.rows[i] == if stripRaw then rows[i].(rawPayloadHash := None) else rows[i])
            && t.stripped == (if stripRaw then HashesIn(rows) else 0)
            && Bounds(t, rows)
  {
    hide Bounds, Less;
    if rows == [] {
      NoBounds();
    } else {
      var front, row := rows[..|rows| - 1], rows[|rows| - 1];
      WrittenIs(front, stripRaw);
      assert WrittenOf(rows, stripRaw) == Write(WrittenOf(front, stripRaw), row, stripRaw);
      BoundsMore(front, row, WrittenOf(front, stripRaw), stripRaw);
      assert rows == front + [row];
    }
  }

  lemma NoBounds()
    ensures Bounds(Tally([], 0, None, None), [])
  {
  }

  lemma BoundsMore(rows: seq<Row>, row: Row, t: Tally, stripRaw: bool)
    requires Bounds(t, rows)
    ensures Bounds(Write(t, row, stripRaw), rows + [row])
  {
    hide Less;
    StringsAreOrdered();
    var all := rows + [row];
    assert forall i :: 0 <= i < |rows| ==> all[i] == rows[i];
    assert all[|rows|] == row;
  }

  /** The second pass: the lines of the rows kept, renumbered. */
  method WriteKept(lines: seq<Line>, valid: seq<nat>, keep: array<bool>, ordinals: array<int>, ghost tiers: seq<Tier>, ghost tier: int, stripRaw: bool)
    returns (written: Tally)
    requires valid == ValidLines(lines) && keep.Length == ordinals.Length == |FileRows(lines)|
    requires forall i :: 0 <= i < keep.Length ==>
               && (keep[i] <==> i in KeepSet(Cols(FileRows(lines)), tiers, tier))
               && ordinals[i] == NewOrdinal(Cols(FileRows(lines)), tiers, tier, i)
    ensures written == WrittenOf(Thinned(FileRows(lines), tiers, tier), stripRaw)
  {
    hide KeepSet, NewOrdinal, Thinned, Chosen, FileRows, ValidLines, NonBlank, Less;
    ghost var rows := FileRows(lines);
    var n: nat, v: nat := 0, 0;
    written := Tally([], 0, None, None);
    WriteStarts(lines, tiers, tier);
    for k := 0 to |lines|
      invariant n == NonBlank(lines[..k]) && v == |ValidLines(lines[..k])| <= |rows|
      invariant written == WrittenOf(Chosen(rows, tiers, tier, v), stripRaw)
    {
      LineAt(lines, k);
      if lines[k].Blank? {
        continue;
      }
      var lineIndex := n;
      n := n + 1;
      if v >= |valid| || valid[v] != lineIndex {
        continue;
      }
      ChosenMore(rows, tiers, tier, v);
      var i := v;
      v := v + 1;
      if keep[i] {
        var row := Renumber(FileRow(lines[k].row), ordinals[i]);
        assert (Chosen(rows, tiers, tier, i) + [row])[..|Chosen(rows, tiers, tier, i)|] == Chosen(rows, tiers, tier, i);
        written := Write(written, row, stripRaw);
      }
    }
    assert lines[..|lines|] == lines;
    ValidLinesOf(lines, |lines|);
    ChosenIsThinned(rows, tiers, tier);
  }

  lemma WriteStarts(lines: seq<Line>, tiers: seq<Tier>, tier: int)
    ensures NonBlank(lines[..0]) == 0 && ValidLines(lines[..0]) == [] && Chosen(FileRows(lines), tiers, tier, 0) == []
  {
  }

  /**
   * The file thinned: in its place the rows that thinning them in memory would leave, in file order, and
   * no file when none is left.
   */
  method ThinPartition(lines: seq<Line>, expected: nat, tiers: seq<Tier>, tier: int, stripRaw: bool)
    returns (file: Option<Tally>, rowsBefore: nat, malformed: nat)
    ensures var left := Thinned(FileRows(lines), tiers, tier);
            file == if left == [] then None else Some(WrittenOf(left, stripRaw))
    ensures rowsBefore == |FileRows(lines)| && malformed == NonBlank(lines) - rowsBefore
  {
    hide KeepSet, NewOrdinal, ReadInto, Idx, Thinned, FileRows, ValidLines, NonBlank, WrittenOf;
    var cols, valid; ghost var keys;
    cols, valid, malformed, keys := ReadColumns(lines, expected);
    PlanIsFor(FileRows(lines), keys, cols.View(), tiers, tier);
    var keep, ordinals, removed := PlanThinning(cols.View(), tiers, tier);
    rowsBefore := cols.length;
    var written := WriteKept(lines, valid, keep, ordinals, tiers, tier, stripRaw);
    WrittenIs(Thinned(FileRows(lines), tiers, tier), stripRaw);
    file := if |written.rows| == 0 then None else Some(written);
  }
}
