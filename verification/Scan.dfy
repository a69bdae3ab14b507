/**
 * Questions answered by scanning partitions (packages/history-store/src/scan-queries.ts,
 * `scanObjectsAt` and `scanTrack`): lines that cannot matter are skipped unparsed, partitions are read
 * newest first, and the answer is that of reading every row in any order.
 */
module Scan {
  import opened Wrappers
  import opened Sorting
  import opened RowText
  import opened Strings

  // ---- rows ------------------------------------------------------------------------------------------------

  /** A history row: what the questions read of it, and the rest. Timestamps are ISO text of one width. */
  datatype Row = Row(objectId: string, observedAt: string, receivedAt: string, observationId: string, rest: string)

  datatype Range = Range(start: string, end: string)

  predicate InRange(row: Row, range: Range) {
    !Less(row.observedAt, range.start) && !Less(range.end, row.observedAt)
  }

  /** The newest observation wins; then the last received, then the higher id. */
  predicate IsNewer(a: Row, b: Row) {
    if a.observedAt != b.observedAt then Less(b.observedAt, a.observedAt)
    else if a.receivedAt != b.receivedAt then Less(b.receivedAt, a.receivedAt)
    else Less(b.observationId, a.observationId)
  }

  predicate SameMoment(a: Row, b: Row) {
    a.observedAt == b.observedAt && a.receivedAt == b.receivedAt && a.observationId == b.observationId
  }

  lemma NewerIsOrder(a: Row, b: Row, c: Row)
    ensures SameMoment(a, b) || IsNewer(a, b) || IsNewer(b, a)
    ensures !(IsNewer(a, b) && IsNewer(b, a)) && !IsNewer(a, a)
    ensures IsNewer(a, b) && IsNewer(b, c) ==> IsNewer(a, c)
  {
    hide Less;
    StringsAreOrdered();
  }

  /** Two rows of an object are told apart by when they were observed, received, and their id. */
  ghost predicate Identified(rows: set<Row>) {
    forall a, b :: a in rows && b in rows && a.objectId == b.objectId && SameMoment(a, b) ==> a == b
  }

  /** The newest row of its object. */
  ghost predicate IsLatestRow(row: Row, rows: set<Row>) {
    row in rows && forall r :: r in rows && r.objectId == row.objectId ==> r == row || IsNewer(row, r)
  }

  /** The newest row of each object. */
  ghost predicate IsLatest(latest: map<string, Row>, rows: set<Row>) {
    && (forall id :: id in latest ==> latest[id].objectId == id && IsLatestRow(latest[id], rows))
    && (forall r :: r in rows ==> r.objectId in latest)
  }

  /** The newest row of an object, in plain terms: the last observed, of those the last received, and of those the highest id. */
  lemma LatestInPlainTerms(row: Row, rows: set<Row>)
    ensures IsLatestRow(row, rows) <==>
              row in rows && forall r :: r in rows && r.objectId == row.objectId && r != row ==>
                || Less(r.observedAt, row.observedAt)
                || (r.observedAt == row.observedAt && Less(r.receivedAt, row.receivedAt))
                || (r.observedAt == row.observedAt && r.receivedAt == row.receivedAt && Less(r.observationId, row.observationId))
  {
    hide Less;
    forall r: Row
      ensures IsNewer(row, r) <==>
                || Less(r.observedAt, row.observedAt)
                || (r.observedAt == row.observedAt && Less(r.receivedAt, row.receivedAt))
                || (r.observedAt == row.observedAt && r.receivedAt == row.receivedAt && Less(r.observationId, row.observationId))
    {
      LessOneWay(r.observedAt, row.observedAt);
      LessOneWay(r.receivedAt, row.receivedAt);
    }
  }

  function Reduced(latest: map<string, Row>, row: Row): map<string, Row> {
    if row.objectId !in latest || IsNewer(row, latest[row.objectId]) then latest[row.objectId := row] else latest
  }

  lemma ReducedIsLatest(latest: map<string, Row>, rows: set<Row>, row: Row)
    requires IsLatest(latest, rows) && Identified(rows + {row})
    ensures IsLatest(Reduced(latest, row), rows + {row})
  {
    hide IsNewer, SameMoment;
    var after := Reduced(latest, row);
    forall id | id in after
      ensures after[id].objectId == id && IsLatestRow(after[id], rows + {row})
    {
      forall r | r in rows + {row} && r.objectId == id
        ensures r == after[id] || IsNewer(after[id], r)
      {
        if id in latest {
          NewerIsOrder(row, latest[id], r);
          NewerIsOrder(latest[id], row, r);
        }
      }
    }
  }

  function Members(rows: seq<Row>): set<Row> {
    set r | r in rows
  }

  /** `reduceLatestPerObject`. */
  method ReduceLatest(rows: seq<Row>, into: map<string, Row>, ghost seen: set<Row>) returns (latest: map<string, Row>)
    requires IsLatest(into, seen) && Identified(seen + Members(rows))
    ensures IsLatest(latest, seen + Members(rows))
  {
    hide IsLatest, IsNewer, Identified;
    latest := into;
    assert seen + Members(rows[..0]) == seen;
    for i := 0 to |rows|
      invariant IsLatest(latest, seen + Members(rows[..i]))
    {
      assert seen + Members(rows[..i + 1]) == seen + Members(rows[..i]) + {rows[i]};
      FewerIdentified(seen + Members(rows[..i + 1]), seen + Members(rows));
      ReducedIsLatest(latest, seen + Members(rows[..i]), rows[i]);
      if rows[i].objectId !in latest || IsNewer(rows[i], latest[rows[i].objectId]) {
        latest := latest[rows[i].objectId := rows[i]];
      }
    }
    assert rows[..|rows|] == rows;
  }

  lemma FewerIdentified(few: set<Row>, rows: set<Row>)
    requires Identified(rows) && few <= rows
    ensures Identified(few)
  {
  }

  // ---- lines -----------------------------------------------------------------------------------------------------

  /** A line of a file, and the row it parses to, if any. */
  datatype Line = Line(text: string, row: Option<Row>)

  datatype Partition = Partition(minObservedAt: string, maxObservedAt: string, lines: seq<Line>)

  /** What can be read of a line without parsing it is what its row says. */
  ghost predicate Faithful(line: Line) {
    line.row.Some? ==>
      && PeekRowString(line.text, "observedAt") in {None, Some(line.row.value.observedAt)}
      && PeekRowString(line.text, "objectId") in {None, Some(line.row.value.objectId)}
  }

  lemma {:induction false} PlainOfField(fs: seq<Field>, i: nat)
    requires IsFlatRow(fs) && i < |fs| && fs[i].Str?
    ensures FieldPlain(fs, fs[i].key) in {None, Some(fs[i].value)}
  {
    if i > 0 {
      FlatTail(fs);
      PlainOfField(fs[1..], i - 1);
    }
  }

  /** A line printed from a row is faithful to it. */
  lemma PrintedIsFaithful(line: Line, fs: seq<Field>)
    requires line.row.Some? && line.text == LineText(fs) && IsFlatRow(fs)
    requires Str("observedAt", line.row.value.observedAt) in fs && Str("objectId", line.row.value.objectId) in fs
    ensures Faithful(line)
  {
    var i :| 0 <= i < |fs| && fs[i] == Str("observedAt", line.row.value.observedAt);
    var j :| 0 <= j < |fs| && fs[j] == Str("objectId", line.row.value.objectId);
    PlainOfField(fs, i);
    PlainOfField(fs, j);
    PeekIsTheField(fs, "observedAt");
    PeekIsTheField(fs, "objectId");
  }

  predicate Digit(c: char) {
    '0' <= c <= '9'
  }

  /** Text that starts as a timestamp does. */
  predicate StartsAsIso(s: string) {
    && |s| >= 11 && Digit(s[0]) && Digit(s[1]) && Digit(s[2]) && Digit(s[3]) && s[4] == '-' && Digit(s[5]) && Digit(s[6])
    && s[7] == '-' && Digit(s[8]) && Digit(s[9]) && s[10] == 'T'
  }

  /** `lineMayBeLatest`: the line is parsed unless it is out of range, or older than the row held for its object. */
  predicate MayBeLatest(text: string, range: Range, latest: map<string, Row>) {
    var observedAt := PeekRowString(text, "observedAt");
    if observedAt.None? || !StartsAsIso(observedAt.value) then true
    else if Less(observedAt.value, range.start) || Less(range.end, observedAt.value) then false
    else
      var objectId := PeekRowString(text, "objectId");
      objectId.None? || objectId.value !in latest || !Less(observedAt.value, latest[objectId.value].observedAt)
  }

  /** `lineWithin`, with an object asked for. */
  predicate MayBeWithin(text: string, range: Range, objectId: string) {
    var observedAt := PeekRowString(text, "observedAt");
    if observedAt.Some? && StartsAsIso(observedAt.value) && (Less(observedAt.value, range.start) || Less(range.end, observedAt.value)) then false
    else
      var id := PeekRowString(text, "objectId");
      id.None? || id.value == objectId
  }

  lemma SkippedIsOldOrOut(line: Line, range: Range, latest: map<string, Row>)
    requires Faithful(line) && line.row.Some? && !MayBeLatest(line.text, range, latest)
    ensures var r := line.row.value;
            !InRange(r, range) || (r.objectId in latest && Less(r.observedAt, latest[r.objectId].observedAt))
  {
    hide PeekRowString, Less;
  }

  lemma SkippedIsElsewhere(line: Line, range: Range, objectId: string)
    requires Faithful(line) && line.row.Some? && !MayBeWithin(line.text, range, objectId)
    ensures line.row.value.objectId != objectId || !InRange(line.row.value, range)
  {
    hide PeekRowString, Less;
  }

  // ---- the latest row of each object --------------------------------------------------------------------------------

  /** What is asked: a range of time, and whether a row is inside the bounds, if any. */
  datatype Question = Question(range: Range, inBounds: Row -> bool)

  predicate Matches(row: Row, q: Question) {
    InRange(row, q.range) && q.inBounds(row)
  }

  /** The rows of a file that match. */
  ghost function Matching(lines: seq<Line>, q: Question): set<Row> {
    set line | line in lines && line.row.Some? && Matches(line.row.value, q) :: line.row.value
  }

  ghost function MatchingIn(parts: seq<Partition>, q: Question): set<Row> {
    if parts == [] then {} else MatchingIn(parts[..|parts| - 1], q) + Matching(parts[|parts| - 1].lines, q)
  }

  lemma {:induction false} MatchingInIs(parts: seq<Partition>, q: Question, r: Row)
    ensures r in MatchingIn(parts, q) <==> exists p :: p in parts && r in Matching(p.lines, q)
  {
    if parts != [] {
      var front, last := parts[..|parts| - 1], parts[|parts| - 1];
      MatchingInIs(front, q, r);
      hide Matching;
      assert parts == front + [last];
    }
  }

  /** A partition's times bound its rows. */
  ghost predicate Bounded(p: Partition) {
    forall line :: line in p.lines && line.row.Some? ==>
      !Less(line.row.value.observedAt, p.minObservedAt) && !Less(p.maxObservedAt, line.row.value.observedAt)
  }

  ghost predicate WellKept(parts: seq<Partition>) {
    forall p :: p in parts ==> Bounded(p) && forall line :: line in p.lines ==> Faithful(line)
  }

  predicate Overlaps(p: Partition, range: Range) {
    !Less(p.maxObservedAt, range.start) && !Less(range.end, p.minObservedAt)
  }

  /** A partition outside the range has nothing to say. */
  lemma OutsideHasNone(p: Partition, q: Question)
    requires Bounded(p) && !Overlaps(p, q.range)
    ensures Matching(p.lines, q) == {}
  {
    hide Less;
    StringsAreOrdered();
  }

  /** The rows read from a file: all that match, but for those older than the row held for their object. */
  ghost predicate ReadEnough(rows: set<Row>, all: set<Row>, latest: map<string, Row>) {
    && rows <= all
    && forall r :: r in all && r !in rows ==> r.objectId in latest && Less(r.observedAt, latest[r.objectId].observedAt)
  }

  method ReadMatching(lines: seq<Line>, q: Question, latest: map<string, Row>, filtered: bool) returns (rows: seq<Row>)
    requires forall line :: line in lines ==> Faithful(line)
    ensures ReadEnough(Members(rows), Matching(lines, q), latest)
  {
    hide Faithful, MayBeLatest, Less, InRange;
    rows := [];
    assert lines[..0] == [];
    for i := 0 to |lines|
      invariant ReadEnough(Members(rows), Matching(lines[..i], q), latest)
    {
      var line := lines[i];
      assert Faithful(line);
      assert lines[..i + 1] == lines[..i] + [line];
      ghost var before := Members(rows);
      if (!filtered || MayBeLatest(line.text, q.range, latest)) && line.row.Some? && Matches(line.row.value, q) {
        rows := rows + [line.row.value];
      } else if line.row.Some? && !(!filtered || MayBeLatest(line.text, q.range, latest)) {
        SkippedIsOldOrOut(line, q.range, latest);
      }
      OneLineMore(lines[..i], line, q);
      assert Members(rows) == before || Members(rows) == before + {line.row.value};
    }
    assert lines[..|lines|] == lines;
  }

  lemma OneLineMore(lines: seq<Line>, line: Line, q: Question)
    ensures Matching(lines + [line], q) ==
            if line.row.Some? && Matches(line.row.value, q) then Matching(lines, q) + {line.row.value} else Matching(lines, q)
  {
    hide Matches;
    assert forall l :: l in lines + [line] <==> l in lines || l == line;
  }

  /** Rows older than the row held for their object change nothing. */
  lemma SkippingIsHarmless(before: map<string, Row>, latest: map<string, Row>, seen: set<Row>, rows: set<Row>, all: set<Row>)
    requires IsLatest(before, seen) && IsLatest(latest, seen + rows) && ReadEnough(rows, all, before)
    ensures IsLatest(latest, seen + all)
  {
    hide IsNewer;
    forall id, r | id in latest && r in seen + all && r.objectId == id
      ensures r == latest[id] || IsNewer(latest[id], r)
    {
      if r !in seen + rows {
        var cur := before[id];
        assert cur in seen + rows;
        OlderIsNotNewer(cur, r);
        NewerIsOrder(latest[id], cur, r);
      }
    }
    forall r | r in seen + all ensures r.objectId in latest {
      if r !in seen + rows {
        assert before[r.objectId] in seen + rows;
      }
    }
  }

  lemma OlderIsNotNewer(a: Row, b: Row)
    requires Less(b.observedAt, a.observedAt)
    ensures IsNewer(a, b)
  {
    LessOneWay(a.observedAt, b.observedAt);
  }

  /** Newest partitions first. */
  function NewestFirst(): (Partition, Partition) -> bool {
    (a: Partition, b: Partition) => !Less(a.maxObservedAt, b.maxObservedAt)
  }

  lemma NewestFirstIsTotal()
    ensures TotalOrder(NewestFirst())
  {
    hide Less;
    StringsAreOrdered();
  }

  function Overlapping(parts: seq<Partition>, range: Range): seq<Partition> {
    if parts == [] then [] else
      Overlapping(parts[..|parts| - 1], range) + if Overlaps(parts[|parts| - 1], range) then [parts[|parts| - 1]] else []
  }

  lemma {:induction false} OverlappingAre(parts: seq<Partition>, range: Range, p: Partition)
    ensures p in Overlapping(parts, range) <==> p in parts && Overlaps(p, range)
  {
    if parts != [] {
      OverlappingAre(parts[..|parts| - 1], range, p);
      assert parts == parts[..|parts| - 1] + [parts[|parts| - 1]];
    }
  }

  /** The partitions to read, and their order. */
  function ToRead(parts: seq<Partition>, range: Range, filtered: bool): seq<Partition> {
    if filtered then Sort(Overlapping(parts, range), NewestFirst()) else Overlapping(parts, range)
  }

  /** Which partitions are read, and in which order, does not matter. */
  lemma ToReadHasAll(parts: seq<Partition>, q: Question, filtered: bool)
    requires WellKept(parts)
    ensures MatchingIn(ToRead(parts, q.range, filtered), q) == MatchingIn(parts, q)
    ensures WellKept(ToRead(parts, q.range, filtered))
  {
    hide Matching, Overlaps, Sort, Overlapping, Bounded, Faithful, TotalOrder;
    var read := ToRead(parts, q.range, filtered);
    forall p ensures p in read <==> p in parts && Overlaps(p, q.range) {
      OverlappingAre(parts, q.range, p);
      NewestFirstIsTotal();
      SortMembers<Partition>(Overlapping(parts, q.range), NewestFirst(), p);
    }
    forall r ensures r in MatchingIn(read, q) <==> r in MatchingIn(parts, q) {
      MatchingInIs(read, q, r);
      MatchingInIs(parts, q, r);
      forall p | p in parts && !Overlaps(p, q.range) ensures Matching(p.lines, q) == {} { OutsideHasNone(p, q); }
    }
  }

  /** The newest matching row of each object, over all the partitions. */
  method FindLatest(parts: seq<Partition>, q: Question, filtered: bool) returns (latest: map<string, Row>)
    requires WellKept(parts) && Identified(MatchingIn(parts, q))
    ensures IsLatest(latest, MatchingIn(parts, q))
  {
    hide IsLatest, Identified, Matching, WellKept, ToRead, MatchingIn;
    var read := ToRead(parts, q.range, filtered);
    ToReadHasAll(parts, q, filtered);
    latest := map[];
    NothingIsLatest(read, q);
    for i := 0 to |read|
      invariant IsLatest(latest, MatchingIn(read[..i], q))
    {
      OnePartMore(read, q, i);
      var rows := ReadMatching(read[i].lines, q, latest, filtered);
      ghost var seen, before := MatchingIn(read[..i], q), latest;
      FewerIdentified(seen + Members(rows), MatchingIn(parts, q));
      latest := ReduceLatest(rows, latest, seen);
      SkippingIsHarmless(before, latest, seen, Members(rows), Matching(read[i].lines, q));
    }
    assert read[..|read|] == read;
  }

  lemma NothingIsLatest(parts: seq<Partition>, q: Question)
    ensures IsLatest(map[], MatchingIn(parts[..0], q))
  {
  }

  lemma OnePartMore(parts: seq<Partition>, q: Question, i: nat)
    requires i < |parts| && WellKept(parts)
    ensures MatchingIn(parts[..i + 1], q) == MatchingIn(parts[..i], q) + Matching(parts[i].lines, q)
    ensures MatchingIn(parts[..i + 1], q) <= MatchingIn(parts, q)
    ensures forall line :: line in parts[i].lines ==> Faithful(line)
  {
    assert parts[..i + 1][..i] == parts[..i];
    assert parts[i] in parts;
    forall r | r in MatchingIn(parts[..i + 1], q) ensures r in MatchingIn(parts, q) {
      MatchingInIs(parts[..i + 1], q, r);
      MatchingInIs(parts, q, r);
    }
  }

  // ---- the answer ----------------------------------------------------------------------------------------------------

  function ByObjectId(): (Row, Row) -> bool {
    (a: Row, b: Row) => !Less(b.objectId, a.objectId)
  }

  lemma ByObjectIdIsTotal()
    ensures TotalOrder(ByObjectId())
  {
    hide Less;
    StringsAreOrdered();
  }

  /** The newest matching row of each object, in order of their ids. */
  ghost predicate IsAnswer(full: seq<Row>, rows: set<Row>) {
    && (forall i, j :: 0 <= i < j < |full| ==> Less(full[i].objectId, full[j].objectId))
    && (forall r :: r in full <==> IsLatestRow(r, rows))
  }

  /** The answer, or its first rows up to the limit. */
  ghost predicate IsAnswerUpTo(out: seq<Row>, rows: set<Row>, limit: Option<nat>) {
    exists full :: IsAnswer(full, rows) && out == if limit.Some? && limit.value < |full| then full[..limit.value] else full
  }

  /** There is one answer. */
  lemma {:induction false} AnswerIsUnique(a: seq<Row>, b: seq<Row>)
    requires forall i, j :: 0 <= i < j < |a| ==> Less(a[i].objectId, a[j].objectId)
    requires forall i, j :: 0 <= i < j < |b| ==> Less(b[i].objectId, b[j].objectId)
    requires forall r :: r in a <==> r in b
    ensures a == b
  {
    assert (a != [] ==> a[0] in b) && (b != [] ==> b[0] in a);
    if a != [] {
      FirstsAgree(a, b);
      forall r ensures r in a[1..] <==> r in b[1..] {
        LessOneWay(a[0].objectId, a[0].objectId);
        NotFirst(a, r);
        NotFirst(b, r);
      }
      AnswerIsUnique(a[1..], b[1..]);
      assert a == [a[0]] + a[1..] && b == [b[0]] + b[1..];
    }
  }

  lemma NotFirst(a: seq<Row>, r: Row)
    requires a != [] && !Less(a[0].objectId, a[0].objectId)
    requires forall i, j :: 0 <= i < j < |a| ==> Less(a[i].objectId, a[j].objectId)
    ensures r in a[1..] <==> r in a && r != a[0]
  {
    hide Less;
    if r in a[1..] {
      var i :| 0 <= i < |a| - 1 && a[1..][i] == r;
      assert a[i + 1] == r && Less(a[0].objectId, a[i + 1].objectId);
    }
    if r in a && r != a[0] {
      var i :| 0 <= i < |a| && a[i] == r;
      assert a[1..][i - 1] == r;
    }
  }

  lemma FirstsAgree(a: seq<Row>, b: seq<Row>)
    requires a != [] && b != []
    requires forall i, j :: 0 <= i < j < |a| ==> Less(a[i].objectId, a[j].objectId)
    requires forall i, j :: 0 <= i < j < |b| ==> Less(b[i].objectId, b[j].objectId)
    requires forall r :: r in a <==> r in b
    ensures a[0] == b[0]
  {
    hide Less;
    assert a[0] in a && b[0] in b;
    var i :| 0 <= i < |b| && b[i] == a[0];
    var j :| 0 <= j < |a| && a[j] == b[0];
    LessOneWay(a[0].objectId, b[0].objectId);
  }

  /** The rows held, in no particular order. */
  method ValuesOf(latest: map<string, Row>) returns (rows: seq<Row>)
    requires forall id :: id in latest ==> latest[id].objectId == id
    ensures NoDuplicates(rows) && forall r :: r in rows <==> r.objectId in latest && latest[r.objectId] == r
    ensures forall i, j :: 0 <= i < j < |rows| ==> rows[i].objectId != rows[j].objectId
  {
    rows := [];
    var left := latest.Keys;
    while left != {}
      invariant left <= latest.Keys
      invariant forall r :: r in rows <==> r.objectId in latest.Keys - left && latest[r.objectId] == r
      invariant forall i, j :: 0 <= i < j < |rows| ==> rows[i].objectId != rows[j].objectId
    {
      var id :| id in left;
      left := left - {id};
      assert latest[id] !in rows;
      rows := rows + [latest[id]];
    }
  }

  lemma SortedIsAnswer(values: seq<Row>, latest: map<string, Row>, rows: set<Row>)
    requires IsLatest(latest, rows) && Identified(rows)
    requires NoDuplicates(values) && forall r :: r in values <==> r.objectId in latest && latest[r.objectId] == r
    requires forall i, j :: 0 <= i < j < |values| ==> values[i].objectId != values[j].objectId
    ensures IsAnswer(Sort(values, ByObjectId()), rows)
  {
    var full := Sort(values, ByObjectId());
    hide Less, Sort, IsLatest, IsLatestRow, Identified, NoDuplicates, ByObjectId;
    SortedById(values);
    forall r
      ensures r in full <==> IsLatestRow(r, rows)
    {
      HeldIsLatest(latest, rows, r);
    }
  }

  lemma HeldIsLatest(latest: map<string, Row>, rows: set<Row>, r: Row)
    requires IsLatest(latest, rows) && Identified(rows)
    ensures r.objectId in latest && latest[r.objectId] == r <==> IsLatestRow(r, rows)
  {
    hide IsNewer;
    if IsLatestRow(r, rows) {
      NewerIsOrder(r, latest[r.objectId], r);
    }
  }

  lemma SortedById(values: seq<Row>)
    requires NoDuplicates(values) && forall i, j :: 0 <= i < j < |values| ==> values[i].objectId != values[j].objectId
    ensures var full := Sort(values, ByObjectId());
            && (forall r :: r in full <==> r in values)
            && forall i, j :: 0 <= i < j < |full| ==> Less(full[i].objectId, full[j].objectId)
  {
    hide Less, Sort, TotalOrder, NoDuplicates;
    var full := Sort(values, ByObjectId());
    ByObjectIdIsTotal();
    SortSorts<Row>(values, ByObjectId());
    SortKeepsDistinct<Row>(values, ByObjectId());
    forall r ensures r in full <==> r in values { SortMembers<Row>(values, ByObjectId(), r); }
    forall i, j | 0 <= i < j < |full|
      ensures Less(full[i].objectId, full[j].objectId)
    {
      DistinctIds(values, full, i, j);
      assert ByObjectId()(full[i], full[j]);
      LessOneWay(full[i].objectId, full[j].objectId);
    }
  }

  lemma DistinctIds(values: seq<Row>, full: seq<Row>, i: nat, j: nat)
    requires forall i, j :: 0 <= i < j < |values| ==> values[i].objectId != values[j].objectId
    requires (forall r :: r in full <==> r in values) && NoDuplicates(full) && i < j < |full|
    ensures full[i].objectId != full[j].objectId
  {
    assert full[i] in full && full[j] in full;
    var a :| 0 <= a < |values| && values[a] == full[i];
    var b :| 0 <= b < |values| && values[b] == full[j];
  }

  /**
   * The newest matching row of each object, in order of the objects' ids, up to the limit: whatever
   * is skipped and in whatever order the partitions stand, the answer is this one.
   */
  method ScanObjectsAt(parts: seq<Partition>, q: Question, filtered: bool, limit: Option<nat>) returns (out: seq<Row>)
    requires WellKept(parts) && Identified(MatchingIn(parts, q))
    ensures IsAnswerUpTo(out, MatchingIn(parts, q), limit)
  {
    hide IsAnswer, WellKept, Identified, MatchingIn, Sort, IsLatestRow;
    var latest := FindLatest(parts, q, filtered);
    var values := ValuesOf(latest);
    SortedIsAnswer(values, latest, MatchingIn(parts, q));
    out := Sort(values, ByObjectId());
    if limit.Some? && limit.value < |out| {
      out := out[..limit.value];
    }
  }

  /** So two scans of the same partitions agree, whatever they skip and however the partitions stand. */
  lemma ScansAgree(a: seq<Row>, b: seq<Row>, parts: seq<Partition>, others: seq<Partition>, q: Question, limit: Option<nat>)
    requires forall p :: p in parts <==> p in others
    requires IsAnswerUpTo(a, MatchingIn(parts, q), limit) && IsAnswerUpTo(b, MatchingIn(others, q), limit)
    ensures a == b
  {
    hide Matching, IsLatestRow;
    forall r ensures r in MatchingIn(parts, q) <==> r in MatchingIn(others, q) {
      MatchingInIs(parts, q, r);
      MatchingInIs(others, q, r);
    }
    assert MatchingIn(parts, q) == MatchingIn(others, q);
    var all := MatchingIn(parts, q);
    var x :| IsAnswer(x, all) && a == if limit.Some? && limit.value < |x| then x[..limit.value] else x;
    var y :| IsAnswer(y, all) && b == if limit.Some? && limit.value < |y| then y[..limit.value] else y;
    AnswerIsUnique(x, y);
  }

  // ---- one object's track ---------------------------------------------------------------------------------------------

  predicate OnTrack(line: Line, objectId: string, range: Range) {
    line.row.Some? && line.row.value.objectId == objectId && InRange(line.row.value, range)
  }

  /** The object's rows in the range, as they stand in the file. */
  function TrackOf(lines: seq<Line>, objectId: string, range: Range): seq<Row> {
    if lines == [] then [] else
      TrackOf(lines[..|lines| - 1], objectId, range)
      + if OnTrack(lines[|lines| - 1], objectId, range) then [lines[|lines| - 1].row.value] else []
  }

  function TrackIn(parts: seq<Partition>, objectId: string, range: Range): seq<Row> {
    if parts == [] then [] else
      TrackIn(parts[..|parts| - 1], objectId, range) + TrackOf(parts[|parts| - 1].lines, objectId, range)
  }

  function ByObservedAt(): (Row, Row) -> bool {
    (a: Row, b: Row) =>
      if a.observedAt == b.observedAt then !Less(b.observationId, a.observationId) else Less(a.observedAt, b.observedAt)
  }

  /** How many of the lines parse to a row. */
  function CountOf(lines: seq<Line>, row: Row): nat {
    if lines == [] then 0 else CountOf(lines[..|lines| - 1], row) + if lines[|lines| - 1].row == Some(row) then 1 else 0
  }

  function CountIn(parts: seq<Partition>, row: Row): nat {
    if parts == [] then 0 else CountIn(parts[..|parts| - 1], row) + CountOf(parts[|parts| - 1].lines, row)
  }

  predicate OfObjectWithin(row: Row, objectId: string, range: Range) {
    row.objectId == objectId && !Less(row.observedAt, range.start) && !Less(range.end, row.observedAt)
  }

  lemma {:induction false} TrackOfCounts(lines: seq<Line>, objectId: string, range: Range, row: Row)
    ensures multiset(TrackOf(lines, objectId, range))[row] == if OfObjectWithin(row, objectId, range) then CountOf(lines, row) else 0
  {
    if lines != [] {
      TrackOfCounts(lines[..|lines| - 1], objectId, range, row);
    }
  }

  lemma {:induction false} TrackInCounts(parts: seq<Partition>, objectId: string, range: Range, row: Row)
    ensures multiset(TrackIn(parts, objectId, range))[row] == if OfObjectWithin(row, objectId, range) then CountIn(parts, row) else 0
  {
    if parts != [] {
      hide TrackOf, CountOf, OfObjectWithin;
      TrackInCounts(parts[..|parts| - 1], objectId, range, row);
      TrackOfCounts(parts[|parts| - 1].lines, objectId, range, row);
    }
  }

  /** A track is ordered by when its rows were observed, and then by their ids. */
  ghost predicate InTime(rows: seq<Row>) {
    forall i, j :: 0 <= i < j < |rows| ==>
      || Less(rows[i].observedAt, rows[j].observedAt)
      || (rows[i].observedAt == rows[j].observedAt
          && (rows[i].observationId == rows[j].observationId || Less(rows[i].observationId, rows[j].observationId)))
  }

  lemma ObservedIsTotal()
    ensures TotalOrder(ByObservedAt())
  {
    hide Less;
    StringsAreOrdered();
  }

  /** An object's track: each of its rows in the range as often as a line says it, in order of time. */
  lemma TrackIs(parts: seq<Partition>, objectId: string, range: Range)
    ensures var out := Sort(TrackIn(parts, objectId, range), ByObservedAt());
            && InTime(out)
            && forall row :: multiset(out)[row] == if OfObjectWithin(row, objectId, range) then CountIn(parts, row) else 0
  {
    hide TrackIn, OfObjectWithin, CountIn, Sort, Less;
    var rows := TrackIn(parts, objectId, range);
    var out := Sort(rows, ByObservedAt());
    ObservedIsTotal();
    SortSorts<Row>(rows, ByObservedAt());
    forall i, j | 0 <= i < j < |out|
      ensures Less(out[i].observedAt, out[j].observedAt)
           || (out[i].observedAt == out[j].observedAt
               && (out[i].observationId == out[j].observationId || Less(out[i].observationId, out[j].observationId)))
    {
      assert ByObservedAt()(out[i], out[j]);
      LessOneWay(out[i].observationId, out[j].observationId);
    }
    forall row ensures multiset(out)[row] == if OfObjectWithin(row, objectId, range) then CountIn(parts, row) else 0 {
      TrackInCounts(parts, objectId, range, row);
    }
  }

  /** The object's rows of one file, others' lines skipped unparsed. */
  method ReadTrack(lines: seq<Line>, objectId: string, range: Range, filtered: bool) returns (rows: seq<Row>)
    requires forall line :: line in lines ==> Faithful(line)
    ensures rows == TrackOf(lines, objectId, range)
  {
    hide Faithful, MayBeWithin, Less, InRange;
    rows := [];
    assert lines[..0] == [];
    for i := 0 to |lines|
      invariant rows == TrackOf(lines[..i], objectId, range)
    {
      assert lines[..i + 1][..i] == lines[..i];
      var line := lines[i];
      assert Faithful(line);
      if (!filtered || MayBeWithin(line.text, range, objectId)) && line.row.Some? {
        if line.row.value.objectId == objectId && InRange(line.row.value, range) {
          rows := rows + [line.row.value];
        }
      } else if line.row.Some? {
        SkippedIsElsewhere(line, range, objectId);
      }
    }
    assert lines[..|lines|] == lines;
  }

  /** Rows outside every overlapping partition are not on the track. */
  lemma {:induction false} OutsideHasNoTrack(lines: seq<Line>, p: Partition, objectId: string, range: Range)
    requires Bounded(p) && !Overlaps(p, range) && forall line :: line in lines ==> line in p.lines
    ensures TrackOf(lines, objectId, range) == []
  {
    if lines != [] {
      var line := lines[|lines| - 1];
      OutsideHasNoTrack(lines[..|lines| - 1], p, objectId, range);
      assert line in p.lines;
      if line.row.Some? {
        hide Less;
        StringsAreOrdered();
      }
    }
  }

  lemma {:induction false} TrackOfOverlapping(parts: seq<Partition>, objectId: string, range: Range)
    requires forall p :: p in parts ==> Bounded(p)
    ensures TrackIn(Overlapping(parts, range), objectId, range) == TrackIn(parts, objectId, range)
  {
    if parts != [] {
      hide Overlaps, TrackOf, Bounded;
      var front, last := parts[..|parts| - 1], parts[|parts| - 1];
      TrackOfOverlapping(front, objectId, range);
      if Overlaps(last, range) {
        assert (Overlapping(front, range) + [last])[..|Overlapping(front, range)|] == Overlapping(front, range);
      } else {
        OutsideHasNoTrack(last.lines, last, objectId, range);
        assert Overlapping(parts, range) == Overlapping(front, range);
      }
    }
  }

  /** The object's rows in the range from every partition, in order: those that reading everything would give. */
  method ScanTrack(parts: seq<Partition>, objectId: string, range: Range, filtered: bool) returns (out: seq<Row>)
    requires WellKept(parts)
    ensures out == Sort(TrackIn(parts, objectId, range), ByObservedAt())
    ensures InTime(out) && forall row :: multiset(out)[row] == if OfObjectWithin(row, objectId, range) then CountIn(parts, row) else 0
  {
    hide TrackOf, Faithful, Bounded, Overlapping, InTime, OfObjectWithin, CountIn, Sort;
    var read := Overlapping(parts, range);
    TrackOfOverlapping(parts, objectId, range);
    out := [];
    for i := 0 to |read|
      invariant out == TrackIn(read[..i], objectId, range)
    {
      assert read[..i + 1][..i] == read[..i];
      OverlappingAre(parts, range, read[i]);
      var rows := ReadTrack(read[i].lines, objectId, range, filtered);
      out := out + rows;
    }
    assert read[..|read|] == read;
    TrackIs(parts, objectId, range);
    out := Sort(out, ByObservedAt());
  }
}
