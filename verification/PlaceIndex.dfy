/**
 * Searching places by name (packages/offline/src/place-index.ts, `PlaceIndex` and `matchEntry`). Names
 * are normalised already: an entry comes with its full names, its tokens and its lower-case codes, a
 * query with its text and its tokens. Scores are real numbers.
 */
module PlaceIndex {
  import opened Wrappers
  import opened Strings
  import opened Sorting

  datatype Entry = Entry(id: string, kind: string, codes: seq<string>, fullNames: seq<string>, tokens: seq<string>, importance: real, rest: string)

  datatype Query = Query(norm: string, tokens: seq<string>)

  /** `split(' ')`: the words between spaces, at least one. */
  function Words(s: string): (ws: seq<string>)
    ensures ws != []
    decreases |s|
  {
    var i := Find(s, ' ');
    if i == |s| then [s] else [s[..i]] + Words(s[i + 1..])
  }

  /** The words with a space between each and the next. */
  function Spaced(ws: seq<string>): string
    requires ws != []
  {
    if |ws| == 1 then ws[0] else ws[0] + " " + Spaced(ws[1..])
  }

  /** The words hold no space, and make the text up with one between each and the next. */
  lemma {:induction false} WordsAre(s: string)
    ensures Spaced(Words(s)) == s && forall k :: 0 <= k < |Words(s)| ==> ' ' !in Words(s)[k]
    decreases |s|
  {
    var i := Find(s, ' ');
    if i < |s| {
      WordsAre(s[i + 1..]);
      assert Words(s)[1..] == Words(s[i + 1..]);
      assert s == s[..i] + " " + s[i + 1..];
    }
  }

  /** The query that a normalised text is. */
  function QueryOf(norm: string): (q: Query)
    ensures q.norm == norm && q.tokens != []
  {
    Query(norm, Words(norm))
  }

  datatype MatchKind = Code | Exact | Prefix | Tokens

  datatype Match = Match(base: real, kind: MatchKind)

  const SCORE_CODE := 3.0
  const SCORE_EXACT := 2.5
  const SCORE_PREFIX := 2.0
  const SCORE_TOKENS := 1.0
  const IMPORTANCE_WEIGHT := 0.5

  // ---- one entry against a query ------------------------------------------------------------------------------

  function RMax(a: real, b: real): real {
    if a < b then b else a
  }

  /** What a token carries of a query token that it starts with. */
  function PrefixShare(qt: string, token: string): real
    requires token != ""
  {
    0.5 + 0.5 * (|qt| as real / |token| as real)
  }

  /** The best share of a query token among the tokens it is a proper prefix of. */
  function BestPrefix(tokens: seq<string>, qt: string): (r: real)
    ensures r >= 0.0
    ensures r > 0.0 <==> exists i :: 0 <= i < |tokens| && tokens[i] != qt && tokens[i] != "" && StartsWith(tokens[i], qt)
  {
    if tokens == [] then 0.0 else
      var front, t := tokens[..|tokens| - 1], tokens[|tokens| - 1];
      var r := BestPrefix(front, qt);
      assert tokens == front + [t];
      if t != qt && t != "" && StartsWith(t, qt) then
        ShareIsPositive(qt, t);
        RMax(r, PrefixShare(qt, t))
      else r
  }

  lemma ShareIsPositive(qt: string, token: string)
    requires token != ""
    ensures PrefixShare(qt, token) > 0.0
  {
  }

  /** How much of a query token the entry's tokens carry. */
  function Partial(tokens: seq<string>, qt: string): real {
    if qt in tokens then 1.0 else if |qt| >= 2 then BestPrefix(tokens, qt) else 0.0
  }

  function SumOf(tokens: seq<string>, qts: seq<string>): real {
    if qts == [] then 0.0 else SumOf(tokens, qts[..|qts| - 1]) + Partial(tokens, qts[|qts| - 1])
  }

  predicate IsCode(e: Entry, q: Query) {
    |q.tokens| == 1 && (|q.norm| == 3 || |q.norm| == 4) && q.norm in e.codes
  }

  /** An entry carries a query token: it has it, or one that starts with it. */
  predicate Carries(e: Entry, qt: string) {
    qt in e.tokens || (|qt| >= 2 && exists i :: 0 <= i < |e.tokens| && StartsWith(e.tokens[i], qt))
  }

  predicate CarriesAll(e: Entry, q: Query) {
    forall i :: 0 <= i < |q.tokens| ==> Carries(e, q.tokens[i])
  }

  function TokenMatch(e: Entry, q: Query): Match
    requires q.tokens != []
  {
    var avg := SumOf(e.tokens, q.tokens) / |q.tokens| as real;
    if q.norm in e.fullNames then Match(SCORE_EXACT, Exact)
    else if exists i :: 0 <= i < |e.fullNames| && StartsWith(e.fullNames[i], q.norm) then Match(SCORE_PREFIX * avg, Prefix)
    else Match(SCORE_TOKENS * avg, Tokens)
  }

  /**
   * How an entry matches: by code, or by carrying every token of the query. The token match is taken
   * unless the code's score is at least as high.
   */
  function MatchOf(e: Entry, q: Query): Option<Match>
    requires q.tokens != []
  {
    var best := if IsCode(e, q) then Some(Match(SCORE_CODE, Code)) else None;
    if !CarriesAll(e, q) then best
    else if best.None? || TokenMatch(e, q).base > best.value.base then Some(TokenMatch(e, q))
    else best
  }

  lemma PartialIsCarried(e: Entry, qt: string)
    ensures Partial(e.tokens, qt) >= 0.0
    ensures Partial(e.tokens, qt) != 0.0 <==> Carries(e, qt)
  {
    if qt !in e.tokens && |qt| >= 2 {
      forall i | 0 <= i < |e.tokens| && StartsWith(e.tokens[i], qt)
        ensures e.tokens[i] != qt && e.tokens[i] != ""
      {
        assert e.tokens[i] in e.tokens;
      }
    }
  }

  /** The best share, token by token. */
  method FindPartial(tokens: seq<string>, qt: string) returns (partial: real)
    ensures partial == Partial(tokens, qt)
  {
    partial := if qt in tokens then 1.0 else 0.0;
    if partial < 1.0 && |qt| >= 2 {
      for i := 0 to |tokens|
        invariant partial == BestPrefix(tokens[..i], qt)
      {
        assert tokens[..i + 1][..i] == tokens[..i];
        if tokens[i] != qt && tokens[i] != "" && StartsWith(tokens[i], qt) {
          partial := RMax(partial, PrefixShare(qt, tokens[i]));
        }
      }
      assert tokens[..|tokens|] == tokens;
    }
  }

  /** `matchEntry`. */
  method MatchEntry(e: Entry, q: Query) returns (m: Option<Match>)
    requires q.tokens != []
    ensures m == MatchOf(e, q)
  {
    hide Partial, Carries;
    var best: Option<Match> := None;
    if IsCode(e, q) {
      best := Some(Match(SCORE_CODE, Code));
    }
    var sum := 0.0;
    for i := 0 to |q.tokens|
      invariant sum == SumOf(e.tokens, q.tokens[..i])
      invariant forall k :: 0 <= k < i ==> Carries(e, q.tokens[k])
    {
      assert q.tokens[..i + 1][..i] == q.tokens[..i];
      var partial := FindPartial(e.tokens, q.tokens[i]);
      PartialIsCarried(e, q.tokens[i]);
      if partial == 0.0 {
        return best;
      }
      sum := sum + partial;
    }
    assert q.tokens[..|q.tokens|] == q.tokens;
    var avg := sum / |q.tokens| as real;
    var token :=
      if q.norm in e.fullNames then Match(SCORE_EXACT, Exact)
      else if exists i :: 0 <= i < |e.fullNames| && StartsWith(e.fullNames[i], q.norm) then Match(SCORE_PREFIX * avg, Prefix)
      else Match(SCORE_TOKENS * avg, Tokens);
    return if best.None? || token.base > best.value.base then Some(token) else best;
  }

  /** An entry matches exactly when its code is the query or it carries every token of the query. */
  lemma MatchesWhen(e: Entry, q: Query)
    requires q.tokens != []
    ensures MatchOf(e, q).Some? <==> IsCode(e, q) || CarriesAll(e, q)
  {
  }

  /** An exact name beats a prefix and an overlap of tokens, and nothing but a code beats it. */
  lemma ExactBeatsOthers(a: Entry, b: Entry, q: Query)
    requires q.tokens != [] && q.norm in a.fullNames && CarriesAll(a, q) && MatchOf(b, q).Some? && !IsCode(b, q)
    ensures MatchOf(a, q).value.base >= MatchOf(b, q).value.base
  {
    SumIsAtMost(b.tokens, q.tokens);
    var avg := SumOf(b.tokens, q.tokens) / |q.tokens| as real;
    AverageIsAtMostOne(SumOf(b.tokens, q.tokens), |q.tokens|);
  }

  lemma AverageIsAtMostOne(sum: real, n: nat)
    requires n > 0 && sum <= n as real
    ensures sum / n as real <= 1.0
  {
  }

  lemma {:induction false} BestIsAtMostOne(tokens: seq<string>, qt: string)
    ensures BestPrefix(tokens, qt) <= 1.0
  {
    if tokens != [] {
      BestIsAtMostOne(tokens[..|tokens| - 1], qt);
      var t := tokens[|tokens| - 1];
      if t != qt && t != "" && StartsWith(t, qt) {
        AverageIsAtMostOne(|qt| as real, |t|);
      }
    }
  }

  lemma {:induction false} SumIsAtMost(tokens: seq<string>, qts: seq<string>)
    ensures SumOf(tokens, qts) <= |qts| as real
  {
    if qts != [] {
      SumIsAtMost(tokens, qts[..|qts| - 1]);
      BestIsAtMostOne(tokens, qts[|qts| - 1]);
    }
  }

  lemma {:induction false} BestIsBest(tokens: seq<string>, qt: string)
    ensures forall i :: 0 <= i < |tokens| && tokens[i] != qt && tokens[i] != "" && StartsWith(tokens[i], qt) ==>
              BestPrefix(tokens, qt) >= PrefixShare(qt, tokens[i])
    ensures BestPrefix(tokens, qt) == 0.0
         || exists i :: 0 <= i < |tokens| && tokens[i] != "" && StartsWith(tokens[i], qt) && BestPrefix(tokens, qt) == PrefixShare(qt, tokens[i])
  {
    if tokens != [] {
      var front := tokens[..|tokens| - 1];
      hide PrefixShare, StartsWith;
      BestIsBest(front, qt);
      assert tokens == front + [tokens[|tokens| - 1]];
      if exists i :: 0 <= i < |front| && front[i] != "" && StartsWith(front[i], qt) && BestPrefix(front, qt) == PrefixShare(qt, front[i]) {
        var i :| 0 <= i < |front| && front[i] != "" && StartsWith(front[i], qt) && BestPrefix(front, qt) == PrefixShare(qt, front[i]);
        assert tokens[i] == front[i];
      }
    }
  }

  /**
   * What a query token counts: one when the entry has it; else, from two letters on, a half and half the
   * part it makes up of the shortest token that starts with it; else nothing.
   */
  lemma PartialIs(tokens: seq<string>, qt: string)
    ensures qt in tokens ==> Partial(tokens, qt) == 1.0
    ensures qt !in tokens && |qt| < 2 ==> Partial(tokens, qt) == 0.0
    ensures qt !in tokens && |qt| >= 2 ==>
              && (forall t :: t in tokens && StartsWith(t, qt) ==>
                    t != "" && Partial(tokens, qt) >= 0.5 + 0.5 * (|qt| as real / |t| as real) > 0.5)
              && (Partial(tokens, qt) == 0.0
                  || exists t :: t in tokens && StartsWith(t, qt) && t != "" && Partial(tokens, qt) == 0.5 + 0.5 * (|qt| as real / |t| as real))
  {
    BestIsBest(tokens, qt);
    if qt !in tokens && |qt| >= 2 {
      forall t | t in tokens && StartsWith(t, qt)
        ensures t != "" && Partial(tokens, qt) >= 0.5 + 0.5 * (|qt| as real / |t| as real) > 0.5
      {
        var i :| 0 <= i < |tokens| && tokens[i] == t;
        ShareIsOverHalf(qt, t);
      }
      if Partial(tokens, qt) != 0.0 {
        var i :| 0 <= i < |tokens| && tokens[i] != "" && StartsWith(tokens[i], qt) && BestPrefix(tokens, qt) == PrefixShare(qt, tokens[i]);
        assert tokens[i] in tokens;
      }
    }
  }

  lemma ShareIsOverHalf(qt: string, t: string)
    requires qt != "" && t != ""
    ensures 0.5 + 0.5 * (|qt| as real / |t| as real) > 0.5
  {
  }

  lemma CarriedIsOverHalf(e: Entry, qt: string)
    requires Carries(e, qt)
    ensures 0.5 < Partial(e.tokens, qt) <= 1.0
  {
    PartialIs(e.tokens, qt);
    BestIsAtMostOne(e.tokens, qt);
    if qt !in e.tokens {
      var i :| 0 <= i < |e.tokens| && StartsWith(e.tokens[i], qt);
      assert e.tokens[i] in e.tokens;
    }
  }

  lemma {:induction false} SumIsOverHalf(e: Entry, qts: seq<string>)
    requires forall i :: 0 <= i < |qts| ==> Carries(e, qts[i])
    ensures SumOf(e.tokens, qts) >= 0.5 * |qts| as real && (qts != [] ==> SumOf(e.tokens, qts) > 0.5 * |qts| as real)
  {
    hide Carries, Partial;
    if qts != [] {
      SumIsOverHalf(e, qts[..|qts| - 1]);
      CarriedIsOverHalf(e, qts[|qts| - 1]);
    }
  }

  lemma AverageIsOverHalf(sum: real, n: nat)
    requires n > 0 && sum > 0.5 * n as real
    ensures sum / n as real > 0.5
  {
  }

  /** A code beats an exact name, that a prefix of one, and that an overlap of tokens; each is taken when those before it do not match. */
  lemma KindDecides(e: Entry, q: Query)
    requires q.tokens != []
    ensures match MatchOf(e, q)
            case None => !IsCode(e, q) && !CarriesAll(e, q)
            case Some(Match(base, Code)) => IsCode(e, q) && base == 3.0
            case Some(Match(base, Exact)) => !IsCode(e, q) && CarriesAll(e, q) && q.norm in e.fullNames && base == 2.5
            case Some(Match(base, Prefix)) =>
              && !IsCode(e, q) && CarriesAll(e, q) && q.norm !in e.fullNames
              && (exists i :: 0 <= i < |e.fullNames| && StartsWith(e.fullNames[i], q.norm)) && 1.0 < base <= 2.0
            case Some(Match(base, Tokens)) =>
              && !IsCode(e, q) && CarriesAll(e, q)
              && (forall i :: 0 <= i < |e.fullNames| ==> !StartsWith(e.fullNames[i], q.norm)) && 0.5 < base <= 1.0
  {
    hide Carries, SumOf, StartsWith;
    var sum := SumOf(e.tokens, q.tokens);
    SumIsAtMost(e.tokens, q.tokens);
    AverageIsAtMostOne(sum, |q.tokens|);
    if CarriesAll(e, q) {
      SumIsOverHalf(e, q.tokens);
      AverageIsOverHalf(sum, |q.tokens|);
      forall i | 0 <= i < |e.fullNames| && e.fullNames[i] == q.norm ensures StartsWith(e.fullNames[i], q.norm) {
        StartsWithItself(q.norm);
      }
    }
  }

  lemma StartsWithItself(s: string)
    ensures StartsWith(s, s)
  {
    assert s[..|s|] == s;
  }

  // ---- ranking ----------------------------------------------------------------------------------------------------

  datatype Hit = Hit(entry: Entry, score: real, kind: MatchKind)

  /** What a search asks for besides its text: kinds, what nearness adds, how a score is rounded, and the order of names. */
  datatype Options = Options(kinds: Option<set<string>>, bias: Entry -> real, round: real -> real, byName: (Entry, Entry) -> bool, limit: Option<int>)

  function Clamp01(v: real): (part: real)
    ensures 0.0 <= part <= 1.0 && (0.0 <= v <= 1.0 ==> part == v)
    ensures (v < 0.0 ==> part == 0.0) && (v > 1.0 ==> part == 1.0)
  {
    if v < 0.0 then 0.0 else if v > 1.0 then 1.0 else v
  }

  function HitOf(e: Entry, q: Query, opts: Options): Option<Hit>
    requires q.tokens != []
  {
    var m := MatchOf(e, q);
    if m.None? || (opts.kinds.Some? && e.kind !in opts.kinds.value) then None
    else Some(Hit(e, opts.round(m.value.base + IMPORTANCE_WEIGHT * Clamp01(e.importance) + opts.bias(e)), m.value.kind))
  }

  /** The hits among the entries at some places, in that order. */
  function HitsAt(items: seq<Entry>, at: seq<nat>, q: Query, opts: Options): seq<Hit>
    requires q.tokens != [] && forall k :: 0 <= k < |at| ==> at[k] < |items|
  {
    if at == [] then [] else
      var h := HitOf(items[at[|at| - 1]], q, opts);
      HitsAt(items, at[..|at| - 1], q, opts) + if h.Some? then [h.value] else []
  }

  function All(n: nat): (r: seq<nat>)
    ensures |r| == n && forall k :: 0 <= k < n ==> r[k] == k
  {
    seq(n, k => k)
  }

  /** Best score first, then by name. */
  function Better(opts: Options): (Hit, Hit) -> bool {
    (a: Hit, b: Hit) => a.score > b.score || (a.score == b.score && opts.byName(a.entry, b.entry))
  }

  function LimitOf(opts: Options): nat {
    var limit := if opts.limit.None? then 10 else if opts.limit.value > 200 then 200 else opts.limit.value;
    if limit < 1 then 1 else limit
  }

  function Take(hits: seq<Hit>, n: nat): seq<Hit> {
    if |hits| > n then hits[..n] else hits
  }

  /** Scoring every entry and ranking those that match. */
  function RankAll(items: seq<Entry>, q: Query, opts: Options): seq<Hit>
    requires q.tokens != []
  {
    Take(Sort(HitsAt(items, All(|items|), q, opts), Better(opts)), LimitOf(opts))
  }

  ghost predicate DistinctIds(items: seq<Entry>) {
    forall i, j :: 0 <= i < j < |items| ==> items[i].id != items[j].id
  }

  /** The order of names puts no two of the entries level. */
  ghost predicate NamesInOrder(items: seq<Entry>, opts: Options) {
    TotalOrder(opts.byName) && NoneLevel(items, opts.byName)
  }

  lemma {:induction false} HitsAre(items: seq<Entry>, at: seq<nat>, q: Query, opts: Options, h: Hit)
    requires q.tokens != [] && forall k :: 0 <= k < |at| ==> at[k] < |items|
    ensures h in HitsAt(items, at, q, opts) <==> exists k :: 0 <= k < |at| && HitOf(items[at[k]], q, opts) == Some(h)
  {
    hide HitOf;
    if at != [] {
      var front, last := at[..|at| - 1], at[|at| - 1];
      HitsAre(items, front, q, opts, h);
      if h in HitsAt(items, front, q, opts) {
        var k :| 0 <= k < |front| && HitOf(items[front[k]], q, opts) == Some(h);
        assert HitOf(items[at[k]], q, opts) == Some(h);
      }
      if exists k :: 0 <= k < |at| && HitOf(items[at[k]], q, opts) == Some(h) {
        var k :| 0 <= k < |at| && HitOf(items[at[k]], q, opts) == Some(h);
        if k < |front| { assert HitOf(items[front[k]], q, opts) == Some(h); }
      }
    }
  }

  lemma HitIsOf(e: Entry, q: Query, opts: Options)
    requires q.tokens != [] && HitOf(e, q, opts).Some?
    ensures HitOf(e, q, opts).value.entry == e
  {
  }

  /** No entry is hit twice. */
  lemma {:induction false} HitsOnce(items: seq<Entry>, at: seq<nat>, q: Query, opts: Options)
    requires q.tokens != [] && (forall k :: 0 <= k < |at| ==> at[k] < |items|) && NoDuplicates(at) && DistinctIds(items)
    ensures NoDuplicates(HitsAt(items, at, q, opts))
  {
    hide HitOf;
    if at != [] {
      var front, last := at[..|at| - 1], at[|at| - 1];
      HitsOnce(items, front, q, opts);
      assert last !in front;
      hide DistinctIds;
      if HitOf(items[last], q, opts).Some? {
        NewEntryNewHit(items, front, last, q, opts, HitOf(items[last], q, opts).value);
      }
    }
  }

  /** The hit of an entry at a new place is a new one. */
  lemma NewEntryNewHit(items: seq<Entry>, at: seq<nat>, last: nat, q: Query, opts: Options, h: Hit)
    requires q.tokens != [] && (forall k :: 0 <= k < |at| ==> at[k] < |items|) && DistinctIds(items)
    requires last < |items| && last !in at && HitOf(items[last], q, opts) == Some(h)
    ensures h !in HitsAt(items, at, q, opts)
  {
    hide HitOf;
    HitsAre(items, at, q, opts, h);
    HitIsOf(items[last], q, opts);
    forall k | 0 <= k < |at|
      ensures HitOf(items[at[k]], q, opts) != Some(h)
    {
      assert at[k] in at;
      OtherPlaceOtherEntry(items, at[k], last);
      if HitOf(items[at[k]], q, opts).Some? { HitIsOf(items[at[k]], q, opts); }
    }
  }

  lemma OtherPlaceOtherEntry(items: seq<Entry>, i: nat, j: nat)
    requires DistinctIds(items) && i < |items| && j < |items| && i != j
    ensures items[i] != items[j]
  {
  }

  lemma BetterIsTotal(opts: Options)
    requires TotalOrder(opts.byName)
    ensures TotalOrder(Better(opts))
  {
    var le := Better(opts);
    forall a, b ensures le(a, b) || le(b, a) {
      assert opts.byName(a.entry, b.entry) || opts.byName(b.entry, a.entry);
    }
    forall a, b, c | le(a, b) && le(b, c) ensures le(a, c) {
      assert opts.byName(a.entry, b.entry) && opts.byName(b.entry, c.entry) ==> opts.byName(a.entry, c.entry);
    }
  }

  /** The same hits in another order are ranked the same. */
  lemma SameRanking(a: seq<Hit>, b: seq<Hit>, items: seq<Entry>, opts: Options)
    requires NoDuplicates(a) && NoDuplicates(b) && (forall h :: h in a <==> h in b) && NamesInOrder(items, opts)
    requires forall g, h :: g in a && h in a && g.entry == h.entry ==> g == h
    requires forall h :: h in a ==> h.entry in items
    ensures Sort(a, Better(opts)) == Sort(b, Better(opts))
  {
    BetterIsTotal(opts);
    SortSorts<Hit>(a, Better(opts));
    SortSorts<Hit>(b, Better(opts));
    SameMembersSameMultiset(a, b);
    forall h ensures h in Sort(a, Better(opts)) <==> h in a { SortMembers<Hit>(a, Better(opts), h); }
    hide Sort, TotalOrder, SortedBy;
    forall g, h | g in Sort(a, Better(opts)) && h in Sort(a, Better(opts)) && Better(opts)(g, h) && Better(opts)(h, g)
      ensures g == h
    {
      assert g.entry in items && h.entry in items && opts.byName(g.entry, h.entry) && opts.byName(h.entry, g.entry);
    }
    SortedIsUnique<Hit>(Sort(a, Better(opts)), Sort(b, Better(opts)), Better(opts));
  }

  lemma SameMembersSameMultiset(a: seq<Hit>, b: seq<Hit>)
    requires NoDuplicates(a) && NoDuplicates(b) && forall h :: h in a <==> h in b
    ensures multiset(a) == multiset(b)
  {
    NoDuplicatesCounts(a);
    NoDuplicatesCounts(b);
    hide NoDuplicates;
    forall h ensures multiset(a)[h] == multiset(b)[h] {
      assert h in a <==> h in multiset(a);
      assert h in b <==> h in multiset(b);
    }
  }

  /** Candidates that have every entry that matches give the ranking of all. */
  lemma CandidatesRankAsAll(items: seq<Entry>, at: seq<nat>, q: Query, opts: Options)
    requires q.tokens != [] && (forall k :: 0 <= k < |at| ==> at[k] < |items|) && NoDuplicates(at) && DistinctIds(items)
    requires NamesInOrder(items, opts) && forall i: nat :: i < |items| && MatchOf(items[i], q).Some? ==> i in at
    ensures Take(Sort(HitsAt(items, at, q, opts), Better(opts)), LimitOf(opts)) == RankAll(items, q, opts)
  {
    hide Sort, MatchOf, DistinctIds, NamesInOrder, NoDuplicates;
    var all := All(|items|);
    var a, b := HitsAt(items, at, q, opts), HitsAt(items, all, q, opts);
    AllOnce(|items|);
    HitsOnce(items, at, q, opts);
    HitsOnce(items, all, q, opts);
    forall h ensures h in a <==> h in b {
      HitsAre(items, at, q, opts, h);
      HitsAre(items, all, q, opts, h);
      CandidateHit(items, at, q, opts, h);
    }
    forall h | h in a ensures h.entry in items && HitOf(h.entry, q, opts) == Some(h) {
      HitsAre(items, at, q, opts, h);
      var k :| 0 <= k < |at| && HitOf(items[at[k]], q, opts) == Some(h);
      HitIsOf(items[at[k]], q, opts);
    }
    SameRanking(a, b, items, opts);
  }

  lemma AllOnce(n: nat)
    ensures NoDuplicates(All(n))
  {
  }

  lemma CandidateHit(items: seq<Entry>, at: seq<nat>, q: Query, opts: Options, h: Hit)
    requires q.tokens != [] && (forall k :: 0 <= k < |at| ==> at[k] < |items|)
    requires forall i: nat :: i < |items| && MatchOf(items[i], q).Some? ==> i in at
    ensures (exists k :: 0 <= k < |at| && HitOf(items[at[k]], q, opts) == Some(h))
       <==> (exists k :: 0 <= k < |items| && HitOf(items[All(|items|)[k]], q, opts) == Some(h))
  {
    var all := All(|items|);
    if exists k :: 0 <= k < |at| && HitOf(items[at[k]], q, opts) == Some(h) {
      var k :| 0 <= k < |at| && HitOf(items[at[k]], q, opts) == Some(h);
      assert all[at[k]] == at[k];
    }
    if exists k :: 0 <= k < |items| && HitOf(items[all[k]], q, opts) == Some(h) {
      var k: nat :| k < |items| && HitOf(items[all[k]], q, opts) == Some(h);
      assert MatchOf(items[k], q).Some?;
      var j :| 0 <= j < |at| && at[j] == k;
      assert items[at[j]] == items[all[k]];
    }
  }

  /** A hit: an entry of a wanted kind that matches, scored by its match, its importance and its nearness. */
  ghost predicate IsHit(h: Hit, q: Query, opts: Options)
    requires q.tokens != []
  {
    && MatchOf(h.entry, q).Some?
    && (opts.kinds.Some? ==> h.entry.kind in opts.kinds.value)
    && h.kind == MatchOf(h.entry, q).value.kind
    && h.score == opts.round(MatchOf(h.entry, q).value.base + 0.5 * Clamp01(h.entry.importance) + opts.bias(h.entry))
  }

  /** A better score, or the same score and an earlier name. */
  ghost predicate ComesBefore(g: Hit, h: Hit, opts: Options) {
    g.score > h.score || (g.score == h.score && opts.byName(g.entry, h.entry))
  }

  ghost predicate InRank(hits: seq<Hit>, opts: Options) {
    forall i, j :: 0 <= i < j < |hits| ==> hits[i] != hits[j] && ComesBefore(hits[i], hits[j], opts)
  }

  lemma HitWhen(items: seq<Entry>, q: Query, opts: Options, h: Hit)
    requires q.tokens != []
    ensures h in HitsAt(items, All(|items|), q, opts) <==> h.entry in items && IsHit(h, q, opts)
  {
    HitsAre(items, All(|items|), q, opts, h);
    hide MatchOf, HitOf, IsHit, HitsAt;
    forall e: Entry ensures HitOf(e, q, opts) == Some(h) <==> e == h.entry && IsHit(h, q, opts) { HitIsHit(e, q, opts, h); }
    if h.entry in items {
      var k :| 0 <= k < |items| && items[k] == h.entry;
      assert All(|items|)[k] == k;
    }
  }

  lemma HitIsHit(e: Entry, q: Query, opts: Options, h: Hit)
    requires q.tokens != []
    ensures HitOf(e, q, opts) == Some(h) <==> e == h.entry && IsHit(h, q, opts)
  {
    hide MatchOf, Clamp01;
  }

  lemma SortedInRank(items: seq<Entry>, q: Query, opts: Options)
    requires q.tokens != [] && DistinctIds(items) && NamesInOrder(items, opts)
    ensures InRank(Sort(HitsAt(items, All(|items|), q, opts), Better(opts)), opts)
  {
    hide DistinctIds, Sort, NoDuplicates, HitOf, HitsAt;
    var all, le := HitsAt(items, All(|items|), q, opts), Better(opts);
    AllOnce(|items|);
    HitsOnce(items, All(|items|), q, opts);
    BetterIsTotal(opts);
    SortSorts<Hit>(all, le);
    SortKeepsDistinct<Hit>(all, le);
    var sorted := Sort(all, le);
    forall i, j | 0 <= i < j < |sorted| ensures sorted[i] != sorted[j] && ComesBefore(sorted[i], sorted[j], opts) {
      HitsApart(sorted, i, j);
      assert le(sorted[i], sorted[j]);
    }
  }

  /**
   * What a search gives: the best scores first and names in order within a score, each of an entry of a
   * wanted kind that matches, with its score; no entry twice, at most as many as asked for, from 1 to
   * 200 and 10 by default; and what is left out comes after all that are given, when they are that many.
   */
  lemma RankedIs(items: seq<Entry>, q: Query, opts: Options)
    requires q.tokens != [] && DistinctIds(items) && NamesInOrder(items, opts)
    ensures var hits := RankAll(items, q, opts);
            var asked := if opts.limit.None? then 10 else opts.limit.value;
            var most := if asked < 1 then 1 else if asked > 200 then 200 else asked;
            && InRank(hits, opts) && |hits| <= most
            && (forall h: Hit :: h in hits ==> h.entry in items && IsHit(h, q, opts))
            && forall h: Hit :: h.entry in items && IsHit(h, q, opts) && h !in hits ==>
                 |hits| == most && forall g: Hit :: g in hits ==> ComesBefore(g, h, opts)
  {
    SortedInRank(items, q, opts);
    hide Sort, HitsAt, IsHit, NamesInOrder, DistinctIds;
    var sorted := Sort(HitsAt(items, All(|items|), q, opts), Better(opts));
    forall h: Hit ensures h in sorted <==> h.entry in items && IsHit(h, q, opts) {
      NamesAreTotal(items, opts);
      BetterIsTotal(opts);
      SortMembers<Hit>(HitsAt(items, All(|items|), q, opts), Better(opts), h);
      HitWhen(items, q, opts, h);
    }
    TakenInRank(sorted, opts, LimitOf(opts));
  }

  lemma NamesAreTotal(items: seq<Entry>, opts: Options)
    requires NamesInOrder(items, opts)
    ensures TotalOrder(opts.byName)
  {
  }

  lemma TakenInRank(sorted: seq<Hit>, opts: Options, n: nat)
    requires InRank(sorted, opts)
    ensures var hits := Take(sorted, n);
            && InRank(hits, opts) && |hits| <= n && (forall h: Hit :: h in hits ==> h in sorted)
            && forall h: Hit :: h in sorted && h !in hits ==> |hits| == n && forall g: Hit :: g in hits ==> ComesBefore(g, h, opts)
  {
    hide ComesBefore;
    var hits := Take(sorted, n);
    assert forall i :: 0 <= i < |hits| ==> hits[i] in hits && hits[i] == sorted[i];
    forall h: Hit | h in sorted && h !in hits
      ensures |hits| == n && forall g: Hit :: g in hits ==> ComesBefore(g, h, opts)
    {
      var j :| 0 <= j < |sorted| && sorted[j] == h;
      assert j >= |hits|;
      forall g: Hit | g in hits ensures ComesBefore(g, h, opts) {
        var i :| 0 <= i < |hits| && hits[i] == g;
        assert sorted[i] == g;
      }
    }
  }

  lemma HitsApart(s: seq<Hit>, i: nat, j: nat)
    requires NoDuplicates(s) && i < j < |s|
    ensures s[i] != s[j]
  {
  }

  // ---- the index -----------------------------------------------------------------------------------------------------

  predicate Lists(m: map<string, seq<nat>>, w: string, i: nat) {
    w in m && i in m[w]
  }

  function Post(m: map<string, seq<nat>>, w: string, i: nat): map<string, seq<nat>> {
    m[w := (if w in m then m[w] else []) + [i]]
  }

  function PostAll(m: map<string, seq<nat>>, ws: seq<string>, i: nat): map<string, seq<nat>> {
    if ws == [] then m else Post(PostAll(m, ws[..|ws| - 1], i), ws[|ws| - 1], i)
  }

  lemma {:induction false} PostAllIs(m: map<string, seq<nat>>, ws: seq<string>, i: nat, w: string, j: nat)
    ensures Lists(PostAll(m, ws, i), w, j) <==> Lists(m, w, j) || (w in ws && j == i)
    ensures w in PostAll(m, ws, i) <==> w in m || w in ws
  {
    if ws != [] {
      PostAllIs(m, ws[..|ws| - 1], i, w, j);
      assert ws == ws[..|ws| - 1] + [ws[|ws| - 1]];
    }
  }

  /** Under each token, the entries that have it. */
  ghost predicate PostingsAre(m: map<string, seq<nat>>, items: seq<Entry>) {
    && (forall w, i: nat :: Lists(m, w, i) <==> i < |items| && w in items[i].tokens)
    && (forall w :: w in m <==> exists i :: 0 <= i < |items| && w in items[i].tokens)
  }

  /** Under each code, the entries that have it. */
  ghost predicate CodesAre(m: map<string, seq<nat>>, items: seq<Entry>) {
    forall w, i: nat :: Lists(m, w, i) <==> i < |items| && w in items[i].codes
  }

  ghost predicate IdsAre(byId: map<string, nat>, items: seq<Entry>) {
    && (forall id :: id in byId ==> byId[id] < |items| && items[byId[id]].id == id)
    && (forall i :: 0 <= i < |items| ==> items[i].id in byId && byId[items[i].id] == i)
  }

  /** All the tokens, in order. */
  ghost predicate TokensSorted(tokens: seq<string>, m: map<string, seq<nat>>) {
    && (forall i, j :: 0 <= i < j < |tokens| ==> Less(tokens[i], tokens[j]))
    && (forall t :: t in tokens <==> t in m)
  }

  lemma PostingsMore(m: map<string, seq<nat>>, items: seq<Entry>, e: Entry)
    requires PostingsAre(m, items)
    ensures PostingsAre(PostAll(m, e.tokens, |items|), items + [e])
  {
    hide Lists, PostAll;
    var after, more := PostAll(m, e.tokens, |items|), items + [e];
    forall w, i: nat ensures Lists(after, w, i) <==> i < |more| && w in more[i].tokens {
      PostAllIs(m, e.tokens, |items|, w, i);
      assert Lists(m, w, i) <==> i < |items| && w in items[i].tokens;
    }
    forall w ensures w in after <==> exists i :: 0 <= i < |more| && w in more[i].tokens {
      PostAllIs(m, e.tokens, |items|, w, 0);
      if w in m {
        var i :| 0 <= i < |items| && w in items[i].tokens;
        assert w in more[i].tokens;
      }
      if w in e.tokens { assert w in more[|items|].tokens; }
      if exists i :: 0 <= i < |more| && w in more[i].tokens {
        var i :| 0 <= i < |more| && w in more[i].tokens;
        assert i < |items| ==> w in items[i].tokens;
      }
    }
  }

  lemma CodesMore(m: map<string, seq<nat>>, items: seq<Entry>, e: Entry)
    requires CodesAre(m, items)
    ensures CodesAre(PostAll(m, e.codes, |items|), items + [e])
  {
    hide Lists, PostAll;
    var after, more := PostAll(m, e.codes, |items|), items + [e];
    forall w, i: nat ensures Lists(after, w, i) <==> i < |more| && w in more[i].codes {
      PostAllIs(m, e.codes, |items|, w, i);
      assert Lists(m, w, i) <==> i < |items| && w in items[i].codes;
    }
  }

  lemma IdsMore(byId: map<string, nat>, items: seq<Entry>, e: Entry)
    requires IdsAre(byId, items) && e.id !in byId
    ensures IdsAre(byId[e.id := |items|], items + [e])
  {
  }

  lemma IdsAreDistinct(byId: map<string, nat>, items: seq<Entry>)
    requires IdsAre(byId, items)
    ensures DistinctIds(items)
  {
  }

  predicate HasEntry(items: seq<Entry>, id: string) {
    exists i :: 0 <= i < |items| && items[i].id == id
  }

  /** The entries added one after another: an id that is there already is ignored. */
  function AddedTo(items: seq<Entry>, entries: seq<Entry>): seq<Entry> {
    if entries == [] then items else
      var before, e := AddedTo(items, entries[..|entries| - 1]), entries[|entries| - 1];
      if HasEntry(before, e.id) then before else before + [e]
  }

  /** What was there stays, and every id is there, once. */
  lemma {:induction false} AddedHas(items: seq<Entry>, entries: seq<Entry>)
    requires DistinctIds(items)
    ensures items <= AddedTo(items, entries) && DistinctIds(AddedTo(items, entries))
    ensures forall k :: 0 <= k < |entries| ==> HasEntry(AddedTo(items, entries), entries[k].id)
  {
    if entries != [] {
      var front, last := entries[..|entries| - 1], entries[|entries| - 1];
      var before, after := AddedTo(items, front), AddedTo(items, entries);
      AddedHas(items, front);
      StillHas(before, last);
      assert before == after || before + [last] == after;
      hide AddedTo, HasEntry;
      forall k | 0 <= k < |entries| ensures HasEntry(after, entries[k].id) {
        if k < |front| { assert HasEntry(before, front[k].id); }
      }
    }
  }

  lemma StillHas(before: seq<Entry>, last: Entry)
    ensures HasEntry(before + [last], last.id)
    ensures forall id :: HasEntry(before, id) ==> HasEntry(before + [last], id)
    ensures DistinctIds(before) && !HasEntry(before, last.id) ==> DistinctIds(before + [last])
  {
    var after := before + [last];
    assert after[|before|] == last;
    forall id | HasEntry(before, id) ensures HasEntry(after, id) {
      var i :| 0 <= i < |before| && before[i].id == id;
      assert after[i].id == id;
    }
  }

  /** Each id is there once: what was there stays, and of the new entries of an id the first is added if there was none. */
  lemma {:induction false} FirstIsAdded(items: seq<Entry>, entries: seq<Entry>, e: Entry)
    requires DistinctIds(items) && items <= AddedTo(items, entries) && e in AddedTo(items, entries)[|items|..]
    ensures !HasEntry(items, e.id) && exists k :: 0 <= k < |entries| && entries[k] == e && !HasEntry(entries[..k], e.id)
  {
    if entries != [] {
      var front, last := entries[..|entries| - 1], entries[|entries| - 1];
      var before, after := AddedTo(items, front), AddedTo(items, entries);
      AddedHas(items, front);
      assert after == before || (after == before + [last] && !HasEntry(before, last.id));
      hide AddedTo, DistinctIds;
      if e in before[|items|..] {
        FirstIsAdded(items, front, e);
        var k :| 0 <= k < |front| && front[k] == e && !HasEntry(front[..k], e.id);
        assert entries[..k] == front[..k] && entries[k] == e;
      } else {
        assert after[|items|..] == before[|items|..] + [last];
        NewIsFirst(items, front, before, last);
        assert e == last && entries[..|front|] == front && entries[|front|] == e;
      }
    }
  }

  lemma NewIsFirst(items: seq<Entry>, front: seq<Entry>, before: seq<Entry>, last: Entry)
    requires items <= before && !HasEntry(before, last.id) && forall k :: 0 <= k < |front| ==> HasEntry(before, front[k].id)
    ensures !HasEntry(items, last.id) && !HasEntry(front, last.id)
  {
    forall i | 0 <= i < |items| ensures items[i].id != last.id { assert before[i] == items[i]; }
  }

  /** Adding one list and then another is adding both: the first of each id wins. */
  lemma {:induction false} AddingInTurn(items: seq<Entry>, a: seq<Entry>, b: seq<Entry>)
    ensures AddedTo(AddedTo(items, a), b) == AddedTo(items, a + b)
  {
    hide HasEntry;
    if b == [] {
      assert a + b == a;
    } else {
      assert (a + b)[..|a + b| - 1] == a + b[..|b| - 1] && (a + b)[|a + b| - 1] == b[|b| - 1];
      AddingInTurn(items, a, b[..|b| - 1]);
    }
  }

  /** An entry is a candidate: by its code, or by the first token of the query. */
  predicate IsCandidate(e: Entry, q: Query)
    requires q.tokens != []
  {
    IsCode(e, q) || Carries(e, q.tokens[0])
  }

  /** Every entry that matches is a candidate: a match needs the first token, or the code. */
  lemma MatchIsCandidate(e: Entry, q: Query)
    requires q.tokens != [] && MatchOf(e, q).Some?
    ensures IsCandidate(e, q)
  {
    MatchesWhen(e, q);
  }

  class Index {
    var items: seq<Entry>
    var byId: map<string, nat>
    var postings: map<string, seq<nat>>
    var codes: map<string, seq<nat>>
    var sortedTokens: Option<seq<string>>

    ghost predicate Indexed()
      reads this
    {
      IdsAre(byId, items) && PostingsAre(postings, items) && CodesAre(codes, items)
    }

    /** The indexes are those of the entries, and the sorted tokens, when there are any, those of the postings. */
    ghost predicate Valid()
      reads this
    {
      Indexed() && (sortedTokens.Some? ==> TokensSorted(sortedTokens.value, postings))
    }

    constructor ()
      ensures Valid() && items == []
    {
      items, byId, postings, codes, sortedTokens := [], map[], map[], map[], None;
    }

    method AddOne(e: Entry)
      requires Indexed() && e.id !in byId
      modifies this`items, this`byId, this`postings, this`codes
      ensures Indexed() && items == old(items) + [e]
    {
      hide IdsAre, PostingsAre, CodesAre;
      IdsMore(byId, items, e);
      PostingsMore(postings, items, e);
      CodesMore(codes, items, e);
      var idx := |items|;
      items := items + [e];
      byId := byId[e.id := idx];
      postings := PostEach(postings, e.tokens, idx);
      codes := PostEach(codes, e.codes, idx);
    }

    /** Add entries; an id that is there already is ignored. The sorted tokens are forgotten when any was added. */
    method Add(entries: seq<Entry>) returns (added: nat)
      requires Valid()
      modifies this
      ensures Valid() && items == AddedTo(old(items), entries) && added == |items| - |old(items)|
    {
      hide IdsAre, PostingsAre, CodesAre, TokensSorted, HasEntry;
      added := 0;
      for k := 0 to |entries|
        invariant Indexed() && items == AddedTo(old(items), entries[..k]) && added == |items| - |old(items)|
        invariant sortedTokens == old(sortedTokens) && (added == 0 ==> postings == old(postings))
      {
        assert entries[..k + 1][..k] == entries[..k];
        HasIt(byId, items, entries[k].id);
        if entries[k].id in byId {
          continue;
        }
        AddOne(entries[k]);
        added := added + 1;
      }
      assert entries[..|entries|] == entries;
      if added > 0 {
        sortedTokens := None;
      }
    }

    method Get(id: string) returns (e: Option<Entry>)
      requires Valid()
      ensures e.Some? ==> e.value in items && e.value.id == id
      ensures e.None? <==> !HasEntry(items, id)
    {
      HasIt(byId, items, id);
      return if id in byId then Some(items[byId[id]]) else None;
    }

    /** The tokens that start with a prefix: one block of the sorted tokens, which are sorted again when they were forgotten. */
    method TokensWithPrefix(prefix: string) returns (out: seq<string>, ghost lo: nat)
      requires Valid()
      modifies this`sortedTokens
      ensures Valid() && sortedTokens.Some? && lo + |out| <= |sortedTokens.value|
      ensures out == sortedTokens.value[lo..lo + |out|]
      ensures forall t :: t in out <==> t in postings && StartsWith(t, prefix)
    {
      hide IdsAre, PostingsAre, CodesAre;
      if sortedTokens.None? {
        var sorted := SortedKeys(postings);
        sortedTokens := Some(sorted);
      }
      var arr := sortedTokens.value;
      var start := FirstNotBefore(arr, prefix, postings);
      lo := start;
      out := [];
      var i := start;
      while i < |arr| && StartsWith(arr[i], prefix)
        invariant start <= i <= |arr| && out == arr[start..i] && forall k :: start <= k < i ==> StartsWith(arr[k], prefix)
      {
        out := out + [arr[i]];
        i := i + 1;
      }
      BlockIsAll(arr, prefix, start, i, postings);
    }

    /** The places of the entries that can match: all of them, each once. */
    method Candidates(q: Query) returns (at: seq<nat>)
      requires Valid() && q.tokens != []
      modifies this`sortedTokens
      ensures Valid() && NoDuplicates(at) && forall i: nat :: i in at <==> i < |items| && IsCandidate(items[i], q)
      ensures forall k :: 0 <= k < |at| ==> at[k] < |items|
    {
      hide IdsAre, PostingsAre, CodesAre, TokensSorted, NoDuplicates, StartsWith;
      at := [];
      NothingTwice();
      if |q.tokens| == 1 && (|q.norm| == 3 || |q.norm| == 4) && q.norm in codes {
        at := AddPlaces(at, codes[q.norm]);
      }
      ghost var byCode := at;
      var first := q.tokens[0];
      if first in postings {
        at := AddPlaces(at, postings[first]);
      }
      ghost var exact := at;
      var tokens := [];
      if |first| >= 2 {
        ghost var lo;
        tokens, lo := TokensWithPrefix(first);
        for k := 0 to |tokens|
          invariant NoDuplicates(at)
          invariant forall i: nat :: i in at <==> i in exact || exists j :: 0 <= j < k && Lists(postings, tokens[j], i)
          invariant Valid() && postings == old(postings) && items == old(items)
        {
          assert tokens[k] in tokens;
          at := AddPlaces(at, postings[tokens[k]]);
        }
      }
      forall i: nat ensures i in at <==> i < |items| && IsCandidate(items[i], q) {
        assert i in byCode <==> |q.tokens| == 1 && (|q.norm| == 3 || |q.norm| == 4) && Lists(codes, q.norm, i);
        assert i in exact <==> i in byCode || Lists(postings, first, i);
        CandidateIs(postings, codes, items, q, tokens, i);
      }
      forall k | 0 <= k < |at| ensures at[k] < |items| { assert at[k] in at; }
    }

    /** The best hits for a normalised text: none for an empty one, else those of scoring every entry and ranking the ones that match. */
    method Search(norm: string, opts: Options) returns (hits: seq<Hit>)
      requires Valid() && NamesInOrder(items, opts)
      modifies this`sortedTokens
      ensures Valid() && hits == if norm == "" then [] else RankAll(items, QueryOf(norm), opts)
    {
      if norm == "" {
        return [];
      }
      hits := SearchFor(QueryOf(norm), opts);
    }

    method SearchFor(q: Query, opts: Options) returns (hits: seq<Hit>)
      requires Valid() && NamesInOrder(items, opts) && q.tokens != []
      modifies this`sortedTokens
      ensures Valid() && hits == RankAll(items, q, opts)
    {
      hide IdsAre, PostingsAre, CodesAre, TokensSorted, NoDuplicates, NamesInOrder, DistinctIds, IsCandidate, HitOf, Sort, MatchOf, RankAll;
      IdsAreDistinct(byId, items);
      var at := Candidates(q);
      forall i: nat | i < |items| && MatchOf(items[i], q).Some? ensures i in at { MatchIsCandidate(items[i], q); }
      CandidatesRankAsAll(items, at, q, opts);
      hits := [];
      for k := 0 to |at|
        invariant hits == HitsAt(items, at[..k], q, opts)
        invariant Valid() && items == old(items)
      {
        assert at[..k + 1][..k] == at[..k];
        var m := MatchEntry(items[at[k]], q);
        HitIs(items[at[k]], q, opts);
        if m.Some? && (opts.kinds.None? || items[at[k]].kind in opts.kinds.value) {
          var score := m.value.base + IMPORTANCE_WEIGHT * Clamp01(items[at[k]].importance) + opts.bias(items[at[k]]);
          hits := hits + [Hit(items[at[k]], opts.round(score), m.value.kind)];
        }
      }
      assert at[..|at|] == at;
      hits := Take(Sort(hits, Better(opts)), LimitOf(opts));
    }
  }

  lemma HitIs(e: Entry, q: Query, opts: Options)
    requires q.tokens != []
    ensures var m := MatchOf(e, q);
            HitOf(e, q, opts) ==
              if m.Some? && (opts.kinds.None? || e.kind in opts.kinds.value)
              then Some(Hit(e, opts.round(m.value.base + IMPORTANCE_WEIGHT * Clamp01(e.importance) + opts.bias(e)), m.value.kind))
              else None
  {
    hide MatchOf;
  }

  method PostEach(m: map<string, seq<nat>>, ws: seq<string>, i: nat) returns (r: map<string, seq<nat>>)
    ensures r == PostAll(m, ws, i)
  {
    r := m;
    for k := 0 to |ws|
      invariant r == PostAll(m, ws[..k], i)
    {
      assert ws[..k + 1][..k] == ws[..k];
      r := Post(r, ws[k], i);
    }
    assert ws[..|ws|] == ws;
  }

  lemma HasIt(byId: map<string, nat>, items: seq<Entry>, id: string)
    requires IdsAre(byId, items)
    ensures id in byId <==> HasEntry(items, id)
    ensures id in byId ==> byId[id] < |items| && items[byId[id]].id == id
  {
  }

  lemma NothingTwice()
    ensures NoDuplicates<nat>([])
  {
  }

  method AddPlaces(at: seq<nat>, more: seq<nat>) returns (r: seq<nat>)
    requires NoDuplicates(at)
    ensures NoDuplicates(r) && forall i :: i in r <==> i in at || i in more
  {
    r := at;
    for k := 0 to |more|
      invariant NoDuplicates(r) && forall i :: i in r <==> i in at || i in more[..k]
    {
      if more[k] !in r {
        r := r + [more[k]];
      }
    }
    assert more[..|more|] == more;
  }

  /** The tokens that have postings, in order. */
  method SortedKeys(m: map<string, seq<nat>>) returns (tokens: seq<string>)
    ensures TokensSorted(tokens, m)
  {
    var keys: seq<string>, left := [], m.Keys;
    while left != {}
      invariant left <= m.Keys && NoDuplicates(keys) && forall t :: t in keys <==> t in m.Keys - left
    {
      var t :| t in left;
      assert t !in keys;
      left := left - {t};
      keys := keys + [t];
    }
    tokens := Sort(keys, NotAfter());
    KeysInOrder(keys, m);
  }

  function NotAfter(): (string, string) -> bool {
    (a: string, b: string) => !Less(b, a)
  }

  lemma KeysInOrder(keys: seq<string>, m: map<string, seq<nat>>)
    requires NoDuplicates(keys) && forall t :: t in keys <==> t in m
    ensures TokensSorted(Sort(keys, NotAfter()), m)
  {
    hide Less, Sort;
    var le, tokens := NotAfter(), Sort(keys, NotAfter());
    assert TotalOrder(le) by { StringsAreOrdered(); }
    SortSorts<string>(keys, le);
    SortKeepsDistinct<string>(keys, le);
    forall t ensures t in tokens <==> t in m { SortMembers<string>(keys, le, t); }
    hide TotalOrder;
    forall i, j | 0 <= i < j < |tokens| ensures Less(tokens[i], tokens[j]) {
      assert le(tokens[i], tokens[j]);
      LessOneWay(tokens[i], tokens[j]);
    }
  }

  /** The binary search: the first token that is not before the prefix. */
  method FirstNotBefore(arr: seq<string>, prefix: string, ghost m: map<string, seq<nat>>) returns (lo: nat)
    requires TokensSorted(arr, m)
    ensures lo <= |arr| && (forall k :: 0 <= k < lo ==> Less(arr[k], prefix)) && forall k :: lo <= k < |arr| ==> !Less(arr[k], prefix)
  {
    hide Less;
    lo := 0;
    var hi: nat := |arr|;
    while lo < hi
      invariant lo <= hi <= |arr|
      invariant forall k :: 0 <= k < lo ==> Less(arr[k], prefix)
      invariant forall k :: hi <= k < |arr| ==> !Less(arr[k], prefix)
    {
      var mid := (lo + hi) / 2;
      if Less(arr[mid], prefix) {
        forall k | 0 <= k < mid ensures Less(arr[k], prefix) { LessThrough(arr[k], arr[mid], prefix); }
        lo := mid + 1;
      } else {
        forall k | mid < k < |arr| ensures !Less(arr[k], prefix) {
          if Less(arr[k], prefix) { LessThrough(arr[mid], arr[k], prefix); }
        }
        hi := mid;
      }
    }
  }

  /** The block from the first token not before the prefix, up to one that does not start with it, has all that do. */
  lemma BlockIsAll(arr: seq<string>, prefix: string, lo: nat, hi: nat, m: map<string, seq<nat>>)
    requires TokensSorted(arr, m) && lo <= hi <= |arr|
    requires (forall k :: 0 <= k < lo ==> Less(arr[k], prefix)) && forall k :: lo <= k < |arr| ==> !Less(arr[k], prefix)
    requires (forall k :: lo <= k < hi ==> StartsWith(arr[k], prefix)) && (hi < |arr| ==> !StartsWith(arr[hi], prefix))
    ensures forall t :: t in arr[lo..hi] <==> t in m && StartsWith(t, prefix)
  {
    hide Less, StartsWith;
    forall k | 0 <= k < |arr|
      ensures StartsWith(arr[k], prefix) <==> lo <= k < hi
    {
      PrefixesAreABlock(prefix, arr[k], arr[k]);
      if hi < k { PrefixesAreABlock(prefix, arr[hi], arr[k]); }
    }
    forall t ensures t in arr[lo..hi] <==> t in m && StartsWith(t, prefix) {
      if t in m && StartsWith(t, prefix) {
        var k :| 0 <= k < |arr| && arr[k] == t;
        assert arr[lo..hi][k - lo] == t;
      }
    }
  }

  lemma CandidateIs(postings: map<string, seq<nat>>, codes: map<string, seq<nat>>, items: seq<Entry>, q: Query, tokens: seq<string>, i: nat)
    requires PostingsAre(postings, items) && CodesAre(codes, items) && q.tokens != []
    requires |q.tokens[0]| >= 2 ==> forall t :: t in tokens <==> t in postings && StartsWith(t, q.tokens[0])
    requires |q.tokens[0]| < 2 ==> tokens == []
    ensures i < |items| && IsCandidate(items[i], q) <==>
            || (|q.tokens| == 1 && (|q.norm| == 3 || |q.norm| == 4) && Lists(codes, q.norm, i))
            || Lists(postings, q.tokens[0], i)
            || exists j :: 0 <= j < |tokens| && Lists(postings, tokens[j], i)
  {
    hide StartsWith;
    var first := q.tokens[0];
    assert Lists(codes, q.norm, i) <==> i < |items| && q.norm in items[i].codes;
    assert Lists(postings, first, i) <==> i < |items| && first in items[i].tokens;
    if i < |items| && |first| >= 2 && exists k :: 0 <= k < |items[i].tokens| && StartsWith(items[i].tokens[k], first) {
      var k :| 0 <= k < |items[i].tokens| && StartsWith(items[i].tokens[k], first);
      var t := items[i].tokens[k];
      assert Lists(postings, t, i);
      var j :| 0 <= j < |tokens| && tokens[j] == t;
    }
    if exists j :: 0 <= j < |tokens| && Lists(postings, tokens[j], i) {
      var j :| 0 <= j < |tokens| && Lists(postings, tokens[j], i);
      var t := tokens[j];
      assert i < |items| && t in items[i].tokens;
      var k :| 0 <= k < |items[i].tokens| && items[i].tokens[k] == t;
    }
  }
}
