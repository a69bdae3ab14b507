/**
 * The store of world events: bounded, newest first, indexed by id, type and object
 * (packages/event-engine/src/store.ts).
 */
module EventStore {
  import opened Wrappers
  import opened Strings

  /** An event; `startAt` is its parsed start time, absent when the text does not parse. */
  datatype Event = Event(id: string, kind: string, objectIds: seq<string>, startAt: Option<int>, receivedAt: string, content: string)

  datatype Outcome = Added | Updated | Unchanged

  /** Everything but when the event was received. */
  function Fingerprint(e: Event): Event {
    e.(receivedAt := "")
  }

  /** `compareEvents(a, b) < 0`: newest first, then by id. A time that does not parse compares with nothing. */
  predicate Before(a: Event, b: Event) {
    a.startAt.Some? && b.startAt.Some?
    && (a.startAt.value > b.startAt.value || (a.startAt.value == b.startAt.value && Less(a.id, b.id)))
  }

  lemma BeforeIsOrder(a: Event, b: Event, c: Event)
    ensures a.startAt.Some? && b.startAt.Some? && a.id != b.id ==> Before(a, b) || Before(b, a)
    ensures !(Before(a, b) && Before(b, a)) && !Before(a, a)
    ensures Before(a, b) && Before(b, c) ==> Before(a, c)
  {
    LessOneWay(a.id, b.id);
    LessOneWay(a.id, a.id);
    if Less(a.id, b.id) && Less(b.id, c.id) { LessThrough(a.id, b.id, c.id); }
  }

  ghost predicate Sorted(s: seq<Event>) {
    forall i, j :: 0 <= i < j < |s| ==> Before(s[i], s[j])
  }

  // ---- the ordered list --------------------------------------------------------------------------------------

  /** The binary search between `lo` and `hi`. */
  function SearchIn(s: seq<Event>, e: Event, lo: nat, hi: nat): (i: nat)
    requires lo <= hi <= |s|
    ensures lo <= i <= hi
    decreases hi - lo
  {
    if lo == hi then lo else
      var mid := (lo + hi) / 2;
      if Before(s[mid], e) then SearchIn(s, e, mid + 1, hi) else SearchIn(s, e, lo, mid)
  }

  /** In a sorted list the search finds where the event belongs. */
  lemma {:induction false} SearchFinds(s: seq<Event>, e: Event, lo: nat, hi: nat)
    requires Sorted(s) && lo <= hi <= |s|
    requires forall k :: 0 <= k < lo ==> Before(s[k], e)
    requires forall k :: hi <= k < |s| ==> !Before(s[k], e)
    ensures forall k :: 0 <= k < SearchIn(s, e, lo, hi) ==> Before(s[k], e)
    ensures forall k :: SearchIn(s, e, lo, hi) <= k < |s| ==> !Before(s[k], e)
    decreases hi - lo
  {
    hide Before;
    if lo < hi {
      var mid := (lo + hi) / 2;
      if Before(s[mid], e) {
        forall k | 0 <= k < mid ensures Before(s[k], e) { BeforeIsOrder(s[k], s[mid], e); }
        SearchFinds(s, e, mid + 1, hi);
      } else {
        forall k | mid < k < |s| ensures !Before(s[k], e) { BeforeIsOrder(s[mid], s[k], e); }
        SearchFinds(s, e, lo, mid);
      }
    }
  }

  function InsertAt(s: seq<Event>, i: nat, e: Event): seq<Event>
    requires i <= |s|
  {
    s[..i] + [e] + s[i..]
  }

  function Insert(s: seq<Event>, e: Event): seq<Event> {
    InsertAt(s, SearchIn(s, e, 0, |s|), e)
  }

  ghost predicate DistinctIds(s: seq<Event>) {
    forall i, j :: 0 <= i < j < |s| ==> s[i].id != s[j].id
  }

  ghost predicate HasId(s: seq<Event>, id: string) {
    exists i :: 0 <= i < |s| && s[i].id == id
  }

  /** An event whose time parses keeps the list in order. */
  lemma InsertSorts(s: seq<Event>, e: Event)
    requires Sorted(s) && e.startAt.Some? && !HasId(s, e.id) && forall k :: 0 <= k < |s| ==> s[k].startAt.Some?
    ensures Sorted(Insert(s, e))
  {
    hide Before;
    SearchFinds(s, e, 0, |s|);
    var i := SearchIn(s, e, 0, |s|);
    forall k | i <= k < |s| ensures Before(e, s[k]) {
      BeforeIsOrder(e, s[k], e);
      BeforeIsOrder(s[k], e, e);
    }
  }

  /** One event without a time that parses, among others, is in order with none of them. */
  lemma InsertSortsIffItParses(s: seq<Event>, e: Event)
    requires Sorted(s) && !HasId(s, e.id) && s != [] && forall k :: 0 <= k < |s| ==> s[k].startAt.Some?
    ensures Sorted(Insert(s, e)) <==> e.startAt.Some?
  {
    if e.startAt.Some? {
      InsertSorts(s, e);
    } else {
      var i, t := SearchIn(s, e, 0, |s|), Insert(s, e);
      assert t[i] == e;
      if i > 0 {
        assert !Before(t[0], t[i]);
      } else {
        assert !Before(t[i], t[1]);
      }
    }
  }

  /** Then a later event can be put before one that is newer than it: a list made by insertions, and one more. */
  lemma UnparseableLosesOrder()
    ensures var newest, none, newer, older :=
              Event("a", "", [], Some(3), "", ""), Event("b", "", [], None, "", ""), Event("c", "", [], Some(2), "", ""), Event("d", "", [], Some(1), "", "");
            && Insert(Insert(Insert([], newer), none), newest) == [newest, none, newer]
            && Insert([newest, none, newer], older) == [newest, older, none, newer]
  {
    var newest, none, newer, older :=
      Event("a", "", [], Some(3), "", ""), Event("b", "", [], None, "", ""), Event("c", "", [], Some(2), "", ""), Event("d", "", [], Some(1), "", "");
    assert Insert([], newer) == [newer];
    assert SearchIn([newer], none, 0, 1) == SearchIn([newer], none, 0, 0) == 0;
    assert Insert([newer], none) == [none, newer];
    assert SearchIn([none, newer], newest, 0, 2) == SearchIn([none, newer], newest, 0, 1) == SearchIn([none, newer], newest, 0, 0) == 0;
    var s := [newest, none, newer];
    assert SearchIn(s, older, 0, 3) == SearchIn(s, older, 0, 1) == SearchIn(s, older, 1, 1) == 1;
  }

  function Without(s: seq<Event>, id: string): seq<Event> {
    if s == [] then [] else if s[0].id == id then s[1..] else [s[0]] + Without(s[1..], id)
  }

  lemma HasIdTail(s: seq<Event>, id: string)
    requires s != []
    ensures HasId(s, id) <==> s[0].id == id || HasId(s[1..], id)
  {
    if HasId(s, id) && s[0].id != id { var i :| 0 <= i < |s| && s[i].id == id; assert s[1..][i - 1].id == id; }
    if HasId(s[1..], id) { var i :| 0 <= i < |s[1..]| && s[1..][i].id == id; assert s[i + 1].id == id; }
  }

  lemma DistinctTail(s: seq<Event>)
    requires DistinctIds(s) && s != []
    ensures DistinctIds(s[1..]) && !HasId(s[1..], s[0].id)
  {
    assert forall i :: 0 <= i < |s[1..]| ==> s[1..][i] == s[i + 1];
  }

  lemma DistinctCons(e: Event, s: seq<Event>)
    requires DistinctIds(s) && !HasId(s, e.id)
    ensures DistinctIds([e] + s)
  {
  }

  lemma MemberHasId(s: seq<Event>, e: Event)
    requires e in s
    ensures HasId(s, e.id)
  {
  }

  lemma HasIdMember(s: seq<Event>, id: string)
    requires HasId(s, id)
    ensures exists e :: e in s && e.id == id
  {
    var i :| 0 <= i < |s| && s[i].id == id;
    assert s[i] in s;
  }

  /** The list without an event: the others, as they stood. */
  lemma {:induction false} WithoutIs(s: seq<Event>, id: string)
    requires DistinctIds(s)
    ensures DistinctIds(Without(s, id))
    ensures forall e :: e in Without(s, id) <==> e in s && e.id != id
    ensures |Without(s, id)| == |s| - if HasId(s, id) then 1 else 0
  {
    hide DistinctIds, HasId;
    if s == [] {
      NoIds(id);
    } else {
      var tail := s[1..];
      assert s == [s[0]] + tail;
      DistinctTail(s);
      HasIdTail(s, id);
      if s[0].id == id {
        forall e | e in tail ensures e.id != id { MemberHasId(tail, e); }
      } else {
        WithoutIs(tail, id);
        var w := Without(tail, id);
        if HasId(w, s[0].id) {
          HasIdMember(w, s[0].id);
          var e :| e in w && e.id == s[0].id;
          MemberHasId(tail, e);
        }
        DistinctCons(s[0], w);
      }
    }
  }

  lemma NoIds(id: string)
    ensures DistinctIds([]) && !HasId([], id)
  {
  }

  lemma {:induction false} WithoutSorted(s: seq<Event>, id: string)
    requires Sorted(s)
    ensures Sorted(Without(s, id)) && forall e :: e in Without(s, id) ==> e in s
  {
    hide Before;
    if s != [] && s[0].id != id {
      var tail := s[1..];
      assert forall i, j :: 0 <= i < j < |tail| ==> tail[i] == s[i + 1] && tail[j] == s[j + 1];
      WithoutSorted(tail, id);
      var w := Without(tail, id);
      forall k | 0 <= k < |w| ensures Before(s[0], w[k]) && w[k] in s {
        assert w[k] in tail;
        var i :| 0 <= i < |tail| && tail[i] == w[k];
        assert s[i + 1] == w[k];
      }
    }
  }

  lemma InsertIs(s: seq<Event>, e: Event)
    requires DistinctIds(s) && !HasId(s, e.id)
    ensures DistinctIds(Insert(s, e)) && |Insert(s, e)| == |s| + 1
    ensures forall x :: x in Insert(s, e) <==> x in s || x == e
  {
    InsertAtIs(s, SearchIn(s, e, 0, |s|), e);
  }

  lemma InsertAtIs(s: seq<Event>, i: nat, e: Event)
    requires DistinctIds(s) && !HasId(s, e.id) && i <= |s|
    ensures DistinctIds(InsertAt(s, i, e)) && |InsertAt(s, i, e)| == |s| + 1
    ensures forall x :: x in InsertAt(s, i, e) <==> x in s || x == e
  {
    var t := InsertAt(s, i, e);
    assert s == s[..i] + s[i..];
    forall a, b | 0 <= a < b < |t| ensures t[a].id != t[b].id {
      assert t[a] == if a < i then s[a] else if a == i then e else s[a - 1];
      assert t[b] == if b < i then s[b] else if b == i then e else s[b - 1];
    }
  }

  lemma {:induction false} WithoutNone(s: seq<Event>, id: string)
    requires !HasId(s, id)
    ensures Without(s, id) == s
  {
    if s != [] {
      HasIdTail(s, id);
      WithoutNone(s[1..], id);
    }
  }

  lemma {:induction false} WithoutLast(s: seq<Event>)
    requires DistinctIds(s) && s != []
    ensures Without(s, s[|s| - 1].id) == s[..|s| - 1]
  {
    if |s| > 1 {
      var tail := s[1..];
      assert forall i :: 0 <= i < |tail| ==> tail[i] == s[i + 1];
      assert s[0].id != s[|s| - 1].id;
      WithoutLast(tail);
      assert [s[0]] + tail[..|tail| - 1] == s[..|s| - 1];
    }
  }

  function Kept(s: seq<Event>, maxEvents: nat): seq<Event> {
    if |s| > maxEvents then s[..maxEvents] else s
  }

  /** What an upsert makes of the list: the event in place of the one of its id, and the newest of them kept. */
  function Upserted(s: seq<Event>, e: Event, maxEvents: nat): seq<Event> {
    Kept(Insert(Without(s, e.id), e), maxEvents)
  }

  /** Sorted, with every start time parsed. */
  ghost predicate InOrder(s: seq<Event>) {
    Sorted(s) && forall k :: 0 <= k < |s| ==> s[k].startAt.Some?
  }

  /** The events in order: those with a later start first, and those that start together by id. */
  lemma InOrderIs(s: seq<Event>)
    ensures InOrder(s) <==>
              && (forall k :: 0 <= k < |s| ==> s[k].startAt.Some?)
              && forall i, j :: 0 <= i < j < |s| ==>
                   || s[i].startAt.value > s[j].startAt.value
                   || (s[i].startAt.value == s[j].startAt.value && Less(s[i].id, s[j].id))
  {
    hide Less;
  }

  lemma UpsertedInOrder(s: seq<Event>, e: Event, maxEvents: nat)
    requires InOrder(s) && DistinctIds(s) && e.startAt.Some?
    ensures InOrder(Upserted(s, e, maxEvents))
  {
    UpsertKeepsTheNewest(s, e, maxEvents);
    var all, r := Insert(Without(s, e.id), e), Upserted(s, e, maxEvents);
    hide Sorted, Insert, Without, DistinctIds;
    forall k | 0 <= k < |r| ensures r[k].startAt.Some? {
      assert r[k] == all[k] && all[k] in all;
    }
  }

  lemma WithoutInOrder(s: seq<Event>, id: string)
    requires InOrder(s)
    ensures InOrder(Without(s, id))
  {
    WithoutSorted(s, id);
    hide Without, Sorted;
    forall k | 0 <= k < |Without(s, id)| ensures Without(s, id)[k].startAt.Some? { assert Without(s, id)[k] in s; }
  }

  /**
   * Replace by id, then keep the newest: the list stays in order, what it has are the events there were
   * but for the one replaced, and no event left out comes before one kept.
   */
  lemma UpsertKeepsTheNewest(s: seq<Event>, e: Event, maxEvents: nat)
    requires Sorted(s) && DistinctIds(s) && e.startAt.Some? && forall k :: 0 <= k < |s| ==> s[k].startAt.Some?
    ensures var all, r := Insert(Without(s, e.id), e), Upserted(s, e, maxEvents);
            && (forall x :: x in all <==> x == e || (x in s && x.id != e.id))
            && Sorted(r) && |r| == (if |all| < maxEvents then |all| else maxEvents)
            && forall x, y :: x in r && y in all && y !in r ==> Before(x, y)
  {
    hide Before;
    WithoutIs(s, e.id);
    WithoutSorted(s, e.id);
    var w := Without(s, e.id);
    forall k | 0 <= k < |w| ensures w[k].startAt.Some? && w[k].id != e.id { assert w[k] in s; }
    InsertSorts(w, e);
    InsertIs(w, e);
    hide Without, Insert, Sorted, DistinctIds, HasId;
    var all := Insert(w, e);
    FirstAreKept(all, maxEvents);
  }

  lemma FirstAreKept(all: seq<Event>, maxEvents: nat)
    requires Sorted(all)
    ensures Sorted(Kept(all, maxEvents)) && |Kept(all, maxEvents)| == (if |all| < maxEvents then |all| else maxEvents)
    ensures forall x, y :: x in Kept(all, maxEvents) && y in all && y !in Kept(all, maxEvents) ==> Before(x, y)
  {
    hide Before;
    var r := Kept(all, maxEvents);
    forall x, y | x in r && y in all && y !in r
      ensures Before(x, y)
    {
      var i :| 0 <= i < |r| && r[i] == x;
      var j :| 0 <= j < |all| && all[j] == y;
      assert all[i] == x;
    }
  }

  // ---- the indexes ---------------------------------------------------------------------------------------------

  predicate Holds(m: map<string, set<string>>, k: string, id: string) {
    k in m && id in m[k]
  }

  function AddTo(m: map<string, set<string>>, k: string, id: string): map<string, set<string>> {
    m[k := (if k in m then m[k] else {}) + {id}]
  }

  function DropFrom(m: map<string, set<string>>, k: string, id: string): map<string, set<string>> {
    if k in m then m[k := m[k] - {id}] else m
  }

  function AddAll(m: map<string, set<string>>, keys: seq<string>, id: string): map<string, set<string>> {
    if keys == [] then m else AddTo(AddAll(m, keys[..|keys| - 1], id), keys[|keys| - 1], id)
  }

  function DropAll(m: map<string, set<string>>, keys: seq<string>, id: string): map<string, set<string>> {
    if keys == [] then m else DropFrom(DropAll(m, keys[..|keys| - 1], id), keys[|keys| - 1], id)
  }

  lemma {:induction false} AddAllIs(m: map<string, set<string>>, keys: seq<string>, id: string, k: string, i: string)
    ensures Holds(AddAll(m, keys, id), k, i) <==> Holds(m, k, i) || (k in keys && i == id)
  {
    if keys != [] {
      AddAllIs(m, keys[..|keys| - 1], id, k, i);
      assert keys == keys[..|keys| - 1] + [keys[|keys| - 1]];
    }
  }

  lemma {:induction false} DropAllIs(m: map<string, set<string>>, keys: seq<string>, id: string, k: string, i: string)
    ensures Holds(DropAll(m, keys, id), k, i) <==> Holds(m, k, i) && !(k in keys && i == id)
  {
    if keys != [] {
      DropAllIs(m, keys[..|keys| - 1], id, k, i);
      assert keys == keys[..|keys| - 1] + [keys[|keys| - 1]];
    }
  }

  /** The ids held under each type are those of the events of that type. */
  ghost predicate TypesAre(byType: map<string, set<string>>, byId: map<string, Event>) {
    forall k, i :: Holds(byType, k, i) <==> i in byId && byId[i].kind == k
  }

  /** The ids held under each object are those of the events that name it. */
  ghost predicate ObjectsAre(byObject: map<string, set<string>>, byId: map<string, Event>) {
    forall k, i :: Holds(byObject, k, i) <==> i in byId && k in byId[i].objectIds
  }

  /** The list holds the events held by id, each once. */
  ghost predicate ListIs(ordered: seq<Event>, byId: map<string, Event>) {
    && DistinctIds(ordered)
    && (forall id :: id in byId ==> byId[id].id == id)
    && (forall e :: e in ordered <==> e.id in byId && byId[e.id] == e)
  }

  lemma LinkTypes(byType: map<string, set<string>>, byId: map<string, Event>, e: Event)
    requires TypesAre(byType, byId) && e.id !in byId
    ensures TypesAre(AddTo(byType, e.kind, e.id), byId[e.id := e])
  {
    forall k, i ensures Holds(AddTo(byType, e.kind, e.id), k, i) <==> i in byId[e.id := e] && byId[e.id := e][i].kind == k {
      assert Holds(byType, k, i) <==> i in byId && byId[i].kind == k;
    }
  }

  lemma UnlinkTypes(byType: map<string, set<string>>, byId: map<string, Event>, e: Event)
    requires TypesAre(byType, byId) && e.id in byId && byId[e.id] == e
    ensures TypesAre(DropFrom(byType, e.kind, e.id), byId - {e.id})
  {
    forall k, i ensures Holds(DropFrom(byType, e.kind, e.id), k, i) <==> i in byId - {e.id} && (byId - {e.id})[i].kind == k {
      assert Holds(byType, k, i) <==> i in byId && byId[i].kind == k;
    }
  }

  lemma LinkObjects(byObject: map<string, set<string>>, byId: map<string, Event>, e: Event)
    requires ObjectsAre(byObject, byId) && e.id !in byId
    ensures ObjectsAre(AddAll(byObject, e.objectIds, e.id), byId[e.id := e])
  {
    hide Holds, AddAll;
    forall k, i
      ensures Holds(AddAll(byObject, e.objectIds, e.id), k, i) <==> i in byId[e.id := e] && k in byId[e.id := e][i].objectIds
    {
      AddAllIs(byObject, e.objectIds, e.id, k, i);
      assert Holds(byObject, k, i) <==> i in byId && k in byId[i].objectIds;
    }
  }

  lemma UnlinkObjects(byObject: map<string, set<string>>, byId: map<string, Event>, e: Event)
    requires ObjectsAre(byObject, byId) && e.id in byId && byId[e.id] == e
    ensures ObjectsAre(DropAll(byObject, e.objectIds, e.id), byId - {e.id})
  {
    hide Holds, DropAll;
    forall k, i
      ensures Holds(DropAll(byObject, e.objectIds, e.id), k, i) <==> i in byId - {e.id} && k in (byId - {e.id})[i].objectIds
    {
      DropAllIs(byObject, e.objectIds, e.id, k, i);
      assert Holds(byObject, k, i) <==> i in byId && k in byId[i].objectIds;
    }
  }

  lemma ListHasId(ordered: seq<Event>, byId: map<string, Event>, id: string)
    requires ListIs(ordered, byId)
    ensures HasId(ordered, id) <==> id in byId
  {
    if HasId(ordered, id) {
      var i :| 0 <= i < |ordered| && ordered[i].id == id;
      assert ordered[i] in ordered;
    }
    if id in byId {
      assert byId[id] in ordered;
      var i :| 0 <= i < |ordered| && ordered[i] == byId[id];
    }
  }

  lemma LinkList(ordered: seq<Event>, byId: map<string, Event>, e: Event)
    requires ListIs(ordered, byId) && e.id !in byId
    ensures ListIs(Insert(ordered, e), byId[e.id := e])
  {
    ListHasId(ordered, byId, e.id);
    InsertIs(ordered, e);
    hide Insert, DistinctIds, HasId;
  }

  lemma UnlinkList(ordered: seq<Event>, byId: map<string, Event>, e: Event)
    requires ListIs(ordered, byId)
    ensures ListIs(Without(ordered, e.id), byId - {e.id})
  {
    WithoutIs(ordered, e.id);
    hide Without, DistinctIds, HasId;
  }

  // ---- the store -------------------------------------------------------------------------------------------------

  class Store {
    const maxEvents: nat
    var byId: map<string, Event>
    var byType: map<string, set<string>>
    var byObject: map<string, set<string>>
    var ordered: seq<Event>

    /** The list and the indexes hold the same events. */
    ghost predicate Linked()
      reads this
    {
      ListIs(ordered, byId) && TypesAre(byType, byId) && ObjectsAre(byObject, byId)
    }

    ghost predicate Valid()
      reads this
    {
      Linked() && |ordered| <= maxEvents && maxEvents >= 1
    }

    constructor (maxEvents: int)
      ensures Valid() && ordered == [] && InOrder(ordered) && this.maxEvents == if maxEvents > 1 then maxEvents else 1
    {
      this.maxEvents := if maxEvents > 1 then maxEvents else 1;
      byId, byType, byObject, ordered := map[], map[], map[], [];
    }

    method Link(event: Event)
      requires Linked() && event.id !in byId
      modifies this
      ensures Linked() && ordered == Insert(old(ordered), event) && byId == old(byId)[event.id := event]
    {
      hide ListIs, TypesAre, ObjectsAre;
      LinkList(ordered, byId, event);
      LinkTypes(byType, byId, event);
      LinkObjects(byObject, byId, event);
      byId := byId[event.id := event];
      byType := AddTo(byType, event.kind, event.id);
      ghost var objects := byObject;
      for k := 0 to |event.objectIds|
        invariant byObject == AddAll(objects, event.objectIds[..k], event.id)
        invariant byId == old(byId)[event.id := event] && byType == AddTo(old(byType), event.kind, event.id) && ordered == old(ordered)
      {
        assert event.objectIds[..k + 1][..k] == event.objectIds[..k];
        byObject := AddTo(byObject, event.objectIds[k], event.id);
      }
      assert event.objectIds[..|event.objectIds|] == event.objectIds;
      var at := InsertionIndex(ordered, event);
      ordered := ordered[..at] + [event] + ordered[at..];
    }

    method Unlink(event: Event)
      requires Linked() && event.id in byId && byId[event.id] == event
      modifies this
      ensures Linked() && ordered == Without(old(ordered), event.id) && byId == old(byId) - {event.id}
    {
      hide ListIs, TypesAre, ObjectsAre;
      UnlinkList(ordered, byId, event);
      UnlinkTypes(byType, byId, event);
      UnlinkObjects(byObject, byId, event);
      byId := byId - {event.id};
      byType := DropFrom(byType, event.kind, event.id);
      ghost var objects := byObject;
      for k := 0 to |event.objectIds|
        invariant byObject == DropAll(objects, event.objectIds[..k], event.id)
        invariant byId == old(byId) - {event.id} && byType == DropFrom(old(byType), event.kind, event.id) && ordered == old(ordered)
      {
        assert event.objectIds[..k + 1][..k] == event.objectIds[..k];
        byObject := DropFrom(byObject, event.objectIds[k], event.id);
      }
      assert event.objectIds[..|event.objectIds|] == event.objectIds;
      ordered := RemoveId(ordered, event.id);
    }

    /** Remove the last events while there are too many. */
    method Evict()
      requires Linked() && maxEvents >= 1
      modifies this
      ensures Valid() && ordered == Kept(old(ordered), maxEvents)
    {
      hide ListIs, TypesAre, ObjectsAre, Without;
      while |ordered| > maxEvents
        invariant Linked()
        invariant |ordered| <= |old(ordered)| && ordered == old(ordered)[..|ordered|]
        invariant |ordered| < |old(ordered)| ==> |ordered| >= maxEvents
        decreases |ordered|
      {
        var oldest := ordered[|ordered| - 1];
        LastIsHeld(ordered, byId);
        Unlink(oldest);
      }
    }

    /** Put an event in, in place of the one of its id; what it says twice changes nothing. */
    method Upsert(event: Event) returns (outcome: Outcome)
      requires Valid()
      modifies this
      ensures Valid()
      ensures outcome == Added <==> event.id !in old(byId)
      ensures outcome == Unchanged <==>
                event.id in old(byId)
                && var was := old(byId)[event.id];
                   was.kind == event.kind && was.objectIds == event.objectIds && was.startAt == event.startAt && was.content == event.content
      ensures ordered == if outcome == Unchanged then old(ordered) else Upserted(old(ordered), event, maxEvents)
      ensures InOrder(old(ordered)) && event.startAt.Some? ==> InOrder(ordered)
    {
      hide TypesAre, ObjectsAre, DistinctIds, HasId, InOrder, Upserted;
      assert event.id in byId ==> byId[event.id].id == event.id;
      if InOrder(ordered) && event.startAt.Some? { UpsertedInOrder(ordered, event, maxEvents); }
      UpsertedIs(ordered, event, maxEvents);
      if event.id in byId {
        if Fingerprint(byId[event.id]) == Fingerprint(event) {
          return Unchanged;
        }
        Unlink(byId[event.id]);
        Link(event);
        Evict();
        return Updated;
      }
      ListHasId(ordered, byId, event.id);
      WithoutNone(ordered, event.id);
      Link(event);
      Evict();
      return Added;
    }

    method Remove(id: string) returns (removed: bool)
      requires Valid()
      modifies this
      ensures Valid() && removed == (id in old(byId)) && ordered == Without(old(ordered), id) && byId == old(byId) - {id}
      ensures InOrder(old(ordered)) ==> InOrder(ordered)
    {
      hide InOrder;
      if InOrder(ordered) { WithoutInOrder(ordered, id); }
      ListHasId(ordered, byId, id);
      hide TypesAre, ObjectsAre, DistinctIds;
      if id !in byId {
        WithoutNone(ordered, id);
        assert byId - {id} == byId;
        return false;
      }
      WithoutIs(ordered, id);
      Unlink(byId[id]);
      return true;
    }

    /** The events of a type, newest first. */
    method OfType(kind: string) returns (events: seq<Event>)
      requires Linked()
      ensures events == Filtered(ordered, set e | e in ordered && e.kind == kind)
      ensures exists at :: ArePlaces(ordered, events, at) && forall i: nat :: i in at <==> i < |ordered| && ordered[i].kind == kind
    {
      ghost var at := FilteredIs(ordered, set e | e in ordered && e.kind == kind);
      hide ObjectsAre, DistinctIds;
      if kind !in byType {
        forall e | e in ordered ensures e.kind != kind { assert !Holds(byType, kind, e.id); }
        FilteredNone(ordered, set e | e in ordered && e.kind == kind);
        return [];
      }
      events := [];
      for i := 0 to |ordered|
        invariant events == Filtered(ordered[..i], set e | e in ordered && e.kind == kind)
      {
        assert ordered[..i + 1][..i] == ordered[..i] && ordered[i] in ordered;
        assert Holds(byType, kind, ordered[i].id) <==> ordered[i].kind == kind;
        if ordered[i].id in byType[kind] {
          events := events + [ordered[i]];
        }
      }
      assert ordered[..|ordered|] == ordered;
    }

    /** The events that name an object, newest first. */
    method ForObject(objectId: string) returns (events: seq<Event>)
      requires Linked()
      ensures events == Filtered(ordered, set e | e in ordered && objectId in e.objectIds)
      ensures exists at :: ArePlaces(ordered, events, at) && forall i: nat :: i in at <==> i < |ordered| && objectId in ordered[i].objectIds
    {
      ghost var at := FilteredIs(ordered, set e | e in ordered && objectId in e.objectIds);
      hide TypesAre, DistinctIds;
      if objectId !in byObject {
        forall e | e in ordered ensures objectId !in e.objectIds { assert !Holds(byObject, objectId, e.id); }
        FilteredNone(ordered, set e | e in ordered && objectId in e.objectIds);
        return [];
      }
      events := [];
      for i := 0 to |ordered|
        invariant events == Filtered(ordered[..i], set e | e in ordered && objectId in e.objectIds)
      {
        assert ordered[..i + 1][..i] == ordered[..i] && ordered[i] in ordered;
        assert Holds(byObject, objectId, ordered[i].id) <==> objectId in ordered[i].objectIds;
        if ordered[i].id in byObject[objectId] {
          events := events + [ordered[i]];
        }
      }
      assert ordered[..|ordered|] == ordered;
    }
  }

  lemma UpsertedIs(s: seq<Event>, e: Event, maxEvents: nat)
    ensures Upserted(s, e, maxEvents) == Kept(Insert(Without(s, e.id), e), maxEvents)
  {
  }

  lemma LastIsHeld(ordered: seq<Event>, byId: map<string, Event>)
    requires ListIs(ordered, byId) && ordered != []
    ensures var last := ordered[|ordered| - 1];
            last.id in byId && byId[last.id] == last && Without(ordered, last.id) == ordered[..|ordered| - 1]
  {
    WithoutLast(ordered);
    assert ordered[|ordered| - 1] in ordered;
  }

  ghost function Filtered(s: seq<Event>, wanted: set<Event>): seq<Event> {
    if s == [] then [] else Filtered(s[..|s| - 1], wanted) + if s[|s| - 1] in wanted then [s[|s| - 1]] else []
  }

  /** `part` is what stands at the places `at` of a list, in its order. */
  ghost predicate ArePlaces(s: seq<Event>, part: seq<Event>, at: seq<nat>) {
    && |at| == |part|
    && (forall k :: 0 <= k < |at| ==> at[k] < |s| && part[k] == s[at[k]])
    && forall k, l :: 0 <= k < l < |at| ==> at[k] < at[l]
  }

  lemma PlacesMore(s: seq<Event>, part: seq<Event>, at: seq<nat>, e: Event)
    requires ArePlaces(s, part, at)
    ensures ArePlaces(s + [e], part, at) && ArePlaces(s + [e], part + [e], at + [|s|])
  {
  }

  lemma {:induction false} FilteredIs(s: seq<Event>, wanted: set<Event>) returns (at: seq<nat>)
    ensures ArePlaces(s, Filtered(s, wanted), at)
    ensures forall i: nat :: i in at <==> i < |s| && s[i] in wanted
  {
    at := [];
    if s != [] {
      var front, n := s[..|s| - 1], |s| - 1;
      at := FilteredIs(front, wanted);
      PlacesMore(front, Filtered(front, wanted), at, s[n]);
      assert s == front + [s[n]];
      hide ArePlaces;
      var was := at;
      if s[n] in wanted { at := at + [n]; }
      forall i: nat ensures i in at <==> i < |s| && s[i] in wanted {
        assert i in at <==> i in was || (i == n && s[n] in wanted);
        if i < n { assert front[i] == s[i]; }
      }
    }
  }

  lemma {:induction false} FilteredNone(s: seq<Event>, wanted: set<Event>)
    requires forall e :: e in s ==> e !in wanted
    ensures Filtered(s, wanted) == []
  {
    if s != [] { FilteredNone(s[..|s| - 1], wanted); }
  }

  /** `insertionIndex`. */
  method InsertionIndex(list: seq<Event>, e: Event) returns (i: nat)
    ensures i <= |list| && i == SearchIn(list, e, 0, |list|)
  {
    var lo: nat, hi: nat := 0, |list|;
    while lo < hi
      invariant lo <= hi <= |list| && SearchIn(list, e, lo, hi) == SearchIn(list, e, 0, |list|)
    {
      var mid := (lo + hi) / 2;
      if Before(list[mid], e) {
        lo := mid + 1;
      } else {
        hi := mid;
      }
    }
    return lo;
  }

  /** The list without its first event of an id. */
  method RemoveId(list: seq<Event>, id: string) returns (r: seq<Event>)
    ensures r == Without(list, id)
  {
    var i: nat := 0;
    assert [] + Without(list[0..], id) == Without(list, id);
    while i < |list| && list[i].id != id
      invariant i <= |list| && list[..i] + Without(list[i..], id) == Without(list, id)
    {
      hide Without;
      WithoutAt(list, i, id);
      i := i + 1;
    }
    if i == |list| {
      assert list[..i] == list;
      return list;
    }
    assert list[i..][1..] == list[i + 1..];
    return list[..i] + list[i + 1..];
  }

  lemma WithoutAt(list: seq<Event>, i: nat, id: string)
    requires i < |list| && list[i].id != id
    ensures list[..i] + Without(list[i..], id) == list[..i + 1] + Without(list[i + 1..], id)
  {
    assert list[i..][1..] == list[i + 1..];
    assert Without(list[i..], id) == [list[i]] + Without(list[i + 1..], id);
    hide Without;
    assert list[..i + 1] == list[..i] + [list[i]];
  }
}
