/**
 * A history row as one line of JSON, and a field read from the line without parsing it
 * (packages/history-store/src/row.ts, `rowToLine`; packages/history-store/src/scan-queries.ts,
 * `peekRowString`): a flat object of strings and numbers, whose keys are plain words.
 */
module RowText {
  import opened Wrappers

  // ---- printing -----------------------------------------------------------------------------------------

  /** A field: a string, or a number by its text. */
  datatype Field = Str(key: string, value: string) | Num(key: string, text: string)

  predicate IsPlain(c: char) {
    c >= ' ' && c != '"' && c != '\\'
  }

  function Hex(n: nat): char
    requires n < 16
  {
    if n < 10 then '0' + n as char else 'a' + (n - 10) as char
  }

  /** A character inside a JSON string. */
  function Escape(c: char): string {
    if IsPlain(c) then [c]
    else if c == '"' || c == '\\' then ['\\', c]
    else if c == '\n' then ['\\', 'n']
    else if c == '\r' then ['\\', 'r']
    else if c == '\t' then ['\\', 't']
    else if c as int == 8 then ['\\', 'b']
    else if c as int == 12 then ['\\', 'f']
    else ['\\', 'u', '0', '0', Hex(c as int / 16), Hex(c as int % 16)]
  }

  function Escaped(s: string): string {
    if s == [] then [] else Escape(s[0]) + Escaped(s[1..])
  }

  function ValueText(f: Field): string {
    match f
    case Str(_, value) => "\"" + Escaped(value) + "\""
    case Num(_, text) => text
  }

  function FieldText(f: Field): string {
    "\"" + f.key + "\":" + ValueText(f)
  }

  /** The fields, and the brace that closes them. */
  function FieldsText(fs: seq<Field>): string
    decreases |fs|, 0
  {
    if fs == [] then "}" else FieldText(fs[0]) + RestText(fs[1..])
  }

  function RestText(fs: seq<Field>): string
    decreases |fs|, 1
  {
    if fs == [] then "}" else "," + FieldsText(fs)
  }

  /** `rowToLine`. */
  function LineText(fs: seq<Field>): string {
    "{" + FieldsText(fs)
  }

  predicate IsWord(s: string) {
    s != [] && forall i :: 0 <= i < |s| ==> 'a' <= s[i] <= 'z' || 'A' <= s[i] <= 'Z'
  }

  /** Keys are words, none twice; the text of a number has no quote. */
  ghost predicate IsFlatRow(fs: seq<Field>) {
    && (forall i :: 0 <= i < |fs| ==> IsWord(fs[i].key))
    && (forall i, j :: 0 <= i < j < |fs| ==> fs[i].key != fs[j].key)
    && (forall i :: 0 <= i < |fs| && fs[i].Num? ==> '"' !in fs[i].text)
  }

  // ---- reading a field unparsed ------------------------------------------------------------------------------

  predicate OccursAt(s: string, p: nat, t: string) {
    p + |t| <= |s| && s[p..p + |t|] == t
  }

  /** `indexOf`: the first occurrence at or after `from`. */
  function IndexOf(s: string, t: string, from: nat): (r: Option<nat>)
    ensures r.Some? ==> r.value >= from && OccursAt(s, r.value, t) && forall p: nat :: from <= p < r.value ==> !OccursAt(s, p, t)
    ensures r.None? ==> forall p: nat :: from <= p ==> !OccursAt(s, p, t)
    decreases |s| - from
  {
    if from > |s| then None
    else if OccursAt(s, from, t) then Some(from)
    else IndexOf(s, t, from + 1)
  }

  function Tag(key: string): string {
    "\"" + key + "\":\""
  }

  /** The text of a string field, if it is there and has nothing escaped. */
  function PeekRowString(line: string, key: string): Option<string> {
    var at := IndexOf(line, Tag(key), 0);
    if at.None? then None else
      var from := at.value + |Tag(key)|;
      var end := IndexOf(line, "\"", from);
      if end.None? then None else
        var value := line[from..end.value];
        if '\\' in value then None else Some(value)
  }

  /** What is there: the value of the string field of that key, when nothing in it is escaped. */
  function FieldPlain(fs: seq<Field>, key: string): Option<string> {
    if fs == [] then None
    else if fs[0].key == key then
      if fs[0].Str? && AllPlain(fs[0].value) then Some(fs[0].value) else None
    else FieldPlain(fs[1..], key)
  }

  // ---- quotes ----------------------------------------------------------------------------------------------------

  /** Inside a string every quote is escaped. */
  lemma {:induction false} QuotesAreEscaped(s: string, j: nat)
    requires j < |Escaped(s)| && Escaped(s)[j] == '"'
    ensures j > 0 && Escaped(s)[j - 1] == '\\'
  {
    var e := Escape(s[0]);
    if j >= |e| {
      QuotesAreEscaped(s[1..], j - |e|);
    }
  }

  lemma EscapeStarts(c: char)
    ensures if IsPlain(c) then Escape(c) == [c] else Escape(c) != [] && Escape(c)[0] == '\\'
  {
  }

  predicate AllPlain(s: string) {
    forall i :: 0 <= i < |s| ==> IsPlain(s[i])
  }

  lemma {:induction false} PlainIsItself(s: string)
    ensures AllPlain(s) ==> Escaped(s) == s && '"' !in s && '\\' !in s
    ensures !AllPlain(s) ==> '\\' in Escaped(s)
  {
    if s != [] {
      var rest := s[1..];
      assert s == [s[0]] + rest;
      PlainIsItself(rest);
      EscapeStarts(s[0]);
      assert Escaped(s) == Escape(s[0]) + Escaped(rest);
      hide Escaped, Escape;
      if IsPlain(s[0]) && !AllPlain(rest) {
        var k :| 0 <= k < |Escaped(rest)| && Escaped(rest)[k] == '\\';
        assert Escaped(s)[k + 1] == '\\';
      } else if !IsPlain(s[0]) {
        assert Escaped(s)[0] == '\\';
      }
    }
  }

  predicate IsLetter(c: char) {
    'a' <= c <= 'z' || 'A' <= c <= 'Z'
  }

  /** What an occurrence of a field's tag fixes of a line. */
  ghost predicate TagFixes(line: string, p: nat, key: string) {
    && p + |key| + 3 < |line| && line[p] == '"'
    && (forall c :: p < c <= p + |key| ==> line[c] == key[c - p - 1] && IsLetter(line[c]))
    && line[p + |key| + 1] == '"' && line[p + |key| + 2] == ':' && line[p + |key| + 3] == '"'
  }

  lemma TagIsFixed(line: string, p: nat, key: string)
    requires IsWord(key)
    ensures OccursAt(line, p, Tag(key)) ==> TagFixes(line, p, key)
  {
    if OccursAt(line, p, Tag(key)) {
      var t := Tag(key);
      assert forall i :: 0 <= i < |t| ==> line[p + i] == t[i];
      assert t[0] == '"' && t[|key| + 1] == '"' && t[|key| + 2] == ':' && t[|key| + 3] == '"';
      assert line[p + 0] == t[0];
      forall c | p < c <= p + |key| ensures line[c] == key[c - p - 1] && IsLetter(line[c]) {
        assert line[p + (c - p)] == t[c - p] == key[c - p - 1];
      }
      assert line[p + (|key| + 1)] == t[|key| + 1] && line[p + (|key| + 2)] == t[|key| + 2] && line[p + (|key| + 3)] == t[|key| + 3];
    }
  }

  /** A line in which a string with value text `e` opens at `p` and is followed by a comma or a brace. */
  ghost predicate StringAt(line: string, p: nat, s: string) {
    var c := p + 1 + |Escaped(s)|;
    && c + 1 < |line| && line[p] == '"' && line[p + 1..c] == Escaped(s) && line[c] == '"' && line[c + 1] in {',', '}'}
  }

  lemma EscapedBefore(line: string, p: nat, s: string, q: nat)
    requires StringAt(line, p, s) && p < q < p + 1 + |Escaped(s)|
    ensures line[q] == '"' ==> line[q - 1] == '\\'
  {
    if line[q] == '"' {
      var c := p + 1 + |Escaped(s)|;
      assert line[p + 1..c][q - p - 1] == line[q];
      QuotesAreEscaped(s, q - p - 1);
      assert line[p + 1..c][q - p - 2] == line[q - 1];
    }
  }

  /** No tag starts inside a string value, at its quotes or between them. */
  lemma NoTagInString(line: string, p: nat, s: string, key: string, at: nat)
    requires IsWord(key) && StringAt(line, p, s) && p <= at <= p + 1 + |Escaped(s)|
    ensures !OccursAt(line, at, Tag(key))
  {
    hide OccursAt, Tag, IsWord;
    TagIsFixed(line, at, key);
    if at + |key| + 1 < p + 1 + |Escaped(s)| {
      EscapedBefore(line, p, s, at + |key| + 1);
    }
    KeyIsNotEmpty(key);
  }

  lemma KeyIsNotEmpty(key: string)
    requires IsWord(key)
    ensures |key| > 0
  {
  }

  // ---- the first occurrence of a tag ------------------------------------------------------------------------------

  /** No occurrence of the tag of `key` starts in `front`, when `rest` follows it. */
  ghost predicate NoTagIn(front: string, rest: string, key: string) {
    forall at: nat :: at < |front| ==> !OccursAt(front + rest, at, Tag(key))
  }

  lemma OccursInRest(front: string, rest: string, p: nat, t: string)
    ensures OccursAt(front + rest, |front| + p, t) <==> OccursAt(rest, p, t)
  {
    if p + |t| <= |rest| {
      assert (front + rest)[|front| + p..|front| + p + |t|] == rest[p..p + |t|];
    }
  }

  lemma NoTagInBoth(a: string, b: string, rest: string, key: string)
    requires NoTagIn(a, b + rest, key) && NoTagIn(b, rest, key)
    ensures NoTagIn(a + b, rest, key)
  {
    assert a + b + rest == a + (b + rest);
    forall at: nat | at < |a + b|
      ensures !OccursAt(a + b + rest, at, Tag(key))
    {
      if at >= |a| {
        OccursInRest(a, b + rest, at - |a|, Tag(key));
      }
    }
  }

  lemma TagStarts(line: string, at: nat, key: string)
    requires at < |line|
    ensures OccursAt(line, at, Tag(key)) ==> line[at] == '"'
  {
    if OccursAt(line, at, Tag(key)) {
      assert line[at..at + |Tag(key)|][0] == line[at];
    }
  }

  lemma NoQuoteNoTag(front: string, rest: string, key: string)
    requires '"' !in front
    ensures NoTagIn(front, rest, key)
  {
    forall at: nat | at < |front|
      ensures !OccursAt(front + rest, at, Tag(key))
    {
      TagStarts(front + rest, at, key);
      assert front[at] == (front + rest)[at];
    }
  }

  /** What follows a field. */
  ghost predicate Follows(rest: string) {
    rest != [] && rest[0] in {',', '}'}
  }

  lemma StringHasNoTag(value: string, rest: string, key: string)
    requires IsWord(key) && Follows(rest)
    ensures NoTagIn("\"" + Escaped(value) + "\"", rest, key)
  {
    var front := "\"" + Escaped(value) + "\"";
    var line := front + rest;
    var c := 1 + |Escaped(value)|;
    assert line[1..c] == Escaped(value) && line[c] == '"' && line[c + 1] == rest[0];
    assert StringAt(line, 0, value);
    forall at: nat | at < |front|
      ensures !OccursAt(line, at, Tag(key))
    {
      NoTagInString(line, 0, value, key, at);
    }
  }

  /** A key other than the one sought, or the key of a number: the tag does not start in it. */
  lemma KeyHasNoTag(f: Field, rest: string, key: string)
    requires IsWord(key) && IsWord(f.key) && (f.Num? ==> '"' !in f.text) && Follows(rest) && (f.key != key || f.Num?)
    ensures NoTagIn("\"" + f.key + "\":", ValueText(f) + rest, key)
  {
    var front := "\"" + f.key + "\":";
    var line := front + (ValueText(f) + rest);
    assert forall i :: 0 <= i < |front| ==> line[i] == front[i];
    assert forall i :: 0 <= i < |f.key| ==> front[i + 1] == f.key[i];
    assert front[|f.key| + 1] == '"' && front[|f.key| + 2] == ':';
    forall at: nat | at < |front|
      ensures !OccursAt(line, at, Tag(key))
    {
      hide OccursAt, Tag;
      TagIsFixed(line, at, key);
      OtherKey(f, line, rest, key, at);
    }
  }

  lemma OtherKey(f: Field, line: string, rest: string, key: string, at: nat)
    requires IsWord(key) && IsWord(f.key) && (f.Num? ==> '"' !in f.text) && Follows(rest) && (f.key != key || f.Num?)
    requires line == "\"" + f.key + "\":" + (ValueText(f) + rest) && at < |f.key| + 3
    ensures !TagFixes(line, at, key)
  {
    var n, m := |key|, |f.key|;
    var after := ValueText(f) + rest;
    assert f.Num? ==> after[0] != '"';
    hide ValueText, Follows;
    assert line[0] == '"' && line[m + 1] == '"' && line[m + 2] == ':' && (after != [] ==> line[m + 3] == after[0]);
    assert forall c :: 0 < c <= m ==> line[c] == f.key[c - 1];
    if at == 0 && n < m {
      assert line[n + 1] == f.key[n];
    } else if at == 0 && n == m && f.key != key {
      var i :| 0 <= i < n && f.key[i] != key[i];
      assert line[i + 1] == f.key[i];
    }
  }

  lemma FieldHasNoTag(f: Field, rest: string, key: string)
    requires IsWord(key) && IsWord(f.key) && (f.Num? ==> '"' !in f.text) && Follows(rest) && (f.key != key || f.Num?)
    ensures NoTagIn(FieldText(f), rest, key)
  {
    KeyHasNoTag(f, rest, key);
    match f
    case Str(_, value) => StringHasNoTag(value, rest, key);
      NoTagInBoth("\"" + f.key + "\":", ValueText(f), rest, key);
    case Num(_, text) => NoQuoteNoTag(text, rest, key);
      NoTagInBoth("\"" + f.key + "\":", ValueText(f), rest, key);
  }

  /** The field sought, when it is a string: the tag is at its start. */
  lemma FieldHasTag(f: Field, rest: string)
    requires f.Str?
    ensures OccursAt(FieldText(f) + rest, 0, Tag(f.key))
  {
    var line := FieldText(f) + rest;
    assert FieldText(f) == Tag(f.key) + (Escaped(f.value) + "\"");
    assert line == Tag(f.key) + (Escaped(f.value) + "\"" + rest);
  }

  lemma FirstOccurrence(front: string, rest: string, key: string)
    requires NoTagIn(front, rest, key)
    ensures var r := IndexOf(rest, Tag(key), 0);
            IndexOf(front + rest, Tag(key), 0) == if r.Some? then Some(|front| + r.value) else None
  {
    hide OccursAt, IndexOf, Tag;
    var t, line := Tag(key), front + rest;
    var r, q := IndexOf(rest, t, 0), IndexOf(line, t, 0);
    if r.Some? {
      OccursInRest(front, rest, r.value, t);
    }
    if q.Some? {
      assert q.value >= |front|;
      OccursInRest(front, rest, q.value - |front|, t);
      if r.Some? {
        assert r.value <= q.value - |front|;
      }
    }
  }

  lemma RestFollows(fs: seq<Field>)
    ensures Follows(RestText(fs))
  {
  }

  lemma FlatTail(fs: seq<Field>)
    requires IsFlatRow(fs) && fs != []
    ensures IsFlatRow(fs[1..]) && IsWord(fs[0].key) && (fs[0].Num? ==> '"' !in fs[0].text)
    ensures forall i :: 0 <= i < |fs[1..]| ==> fs[1..][i].key != fs[0].key
  {
  }

  lemma {:induction false} NoTagInRest(fs: seq<Field>, key: string)
    requires IsFlatRow(fs) && IsWord(key) && forall i :: 0 <= i < |fs| ==> fs[i].key != key || fs[i].Num?
    ensures IndexOf(FieldsText(fs), Tag(key), 0) == None
  {
    if fs == [] {
      NoQuoteNoTag("}", "", key);
      assert FieldsText(fs) == "}" + "";
      FirstOccurrence("}", "", key);
      NoTagInNothing(key);
    } else {
      FlatTail(fs);
      NoTagInRest(fs[1..], key);
      AfterField(fs, key);
    }
  }

  lemma NoTagInNothing(key: string)
    ensures IndexOf("", Tag(key), 0) == None
  {
    assert |Tag(key)| > 0;
  }

  /** A field without the tag is passed over. */
  lemma AfterField(fs: seq<Field>, key: string)
    requires fs != [] && IsWord(key) && IsWord(fs[0].key) && (fs[0].Num? ==> '"' !in fs[0].text) && (fs[0].key != key || fs[0].Num?)
    ensures var r := IndexOf(FieldsText(fs[1..]), Tag(key), 0);
            var d := |FieldText(fs[0])| + if fs[1..] == [] then 0 else 1;
            IndexOf(FieldsText(fs), Tag(key), 0) == if r.Some? then Some(d + r.value) else None
  {
    hide IndexOf, OccursAt, Tag, FieldText, NoTagIn;
    var rest := RestText(fs[1..]);
    RestFollows(fs[1..]);
    FieldHasNoTag(fs[0], rest, key);
    FirstOccurrence(FieldText(fs[0]), rest, key);
    assert FieldsText(fs) == FieldText(fs[0]) + rest;
    if fs[1..] != [] {
      NoQuoteNoTag(",", FieldsText(fs[1..]), key);
      FirstOccurrence(",", FieldsText(fs[1..]), key);
    }
  }

  /** What `peekRowString` makes of a line from the place of the tag on. */
  function PeekAt(line: string, at: Option<nat>, key: string): Option<string>
    requires at.Some? ==> OccursAt(line, at.value, Tag(key))
  {
    if at.None? then None else
      var from := at.value + |Tag(key)|;
      var end := IndexOf(line, "\"", from);
      if end.None? then None else
        var value := line[from..end.value];
        if '\\' in value then None else Some(value)
  }

  lemma FieldIsTag(f: Field, rest: string)
    requires f.Str?
    ensures FieldText(f) + rest == Tag(f.key) + (Escaped(f.value) + ("\"" + rest))
  {
    assert FieldText(f) == Tag(f.key) + (Escaped(f.value) + "\"");
  }

  lemma SliceOf(a: string, b: string, c: string)
    requires c != []
    ensures |a| + |b| < |a + (b + c)| && (a + (b + c))[|a|..|a| + |b|] == b && (a + (b + c))[|a| + |b|] == c[0]
  {
  }

  /** Read where it stands, a string field is what was printed if nothing in it is escaped, and nothing if something is. */
  lemma PeekField(front: string, f: Field, rest: string)
    requires f.Str?
    ensures var line := front + (FieldText(f) + rest);
            && OccursAt(line, |front|, Tag(f.key))
            && PeekAt(line, Some(|front|), f.key) == if AllPlain(f.value) then Some(f.value) else None
  {
    hide Escaped, Tag, IndexOf, FieldText, OccursAt, AllPlain;
    FieldHasTag(f, rest);
    OccursInRest(front, FieldText(f) + rest, 0, Tag(f.key));
    FieldIsTag(f, rest);
    var pre := front + Tag(f.key);
    assert front + (FieldText(f) + rest) == pre + (Escaped(f.value) + ("\"" + rest));
    SliceOf(pre, Escaped(f.value), "\"" + rest);
    PeekValue(front + (FieldText(f) + rest), |pre|, f.value);
    PlainIsItself(f.value);
  }

  /** The text up to the next quote is the whole value, or has an escape in it. */
  lemma PeekValue(line: string, from: nat, s: string)
    requires from + |Escaped(s)| < |line| && line[from..from + |Escaped(s)|] == Escaped(s) && line[from + |Escaped(s)|] == '"'
    ensures var end := IndexOf(line, "\"", from);
            && end.Some?
            && if '\\' in Escaped(s) then '\\' in line[from..end.value] else line[from..end.value] == Escaped(s)
  {
    hide Escaped;
    forall j | 0 <= j < |Escaped(s)| && Escaped(s)[j] == '"'
      ensures j > 0 && Escaped(s)[j - 1] == '\\'
    {
      QuotesAreEscaped(s, j);
    }
    PeekText(line, from, Escaped(s));
  }

  lemma QuoteAt(line: string, p: nat)
    ensures OccursAt(line, p, "\"") <==> p < |line| && line[p] == '"'
  {
    if p < |line| {
      assert line[p..p + 1] == [line[p]];
    }
  }

  lemma PeekText(line: string, from: nat, e: string)
    requires from + |e| < |line| && line[from..from + |e|] == e && line[from + |e|] == '"'
    requires forall j :: 0 <= j < |e| && e[j] == '"' ==> j > 0 && e[j - 1] == '\\'
    ensures var end := IndexOf(line, "\"", from);
            && end.Some?
            && if '\\' in e then '\\' in line[from..end.value] else line[from..end.value] == e
  {
    hide OccursAt, IndexOf;
    QuoteAt(line, from + |e|);
    var end := IndexOf(line, "\"", from).value;
    QuoteAt(line, end);
    if end < from + |e| {
      var j := end - from;
      assert line[from..from + |e|][j] == e[j];
      assert line[from..end][j - 1] == line[from..from + |e|][j - 1];
    }
  }

  /** Found at the start of what follows. */
  lemma FoundAt(front: string, rest: string, key: string)
    requires NoTagIn(front, rest, key) && OccursAt(rest, 0, Tag(key))
    ensures IndexOf(front + rest, Tag(key), 0) == Some(|front|)
  {
    hide OccursAt, Tag, NoTagIn;
    FirstOccurrence(front, rest, key);
  }

  lemma {:induction false} PeekRest(front: string, fs: seq<Field>, key: string)
    requires IsFlatRow(fs) && IsWord(key) && NoTagIn(front, FieldsText(fs), key)
    ensures PeekRowString(front + FieldsText(fs), key) == FieldPlain(fs, key)
    decreases |fs|, 1
  {
    hide OccursAt, Tag, NoTagIn, IndexOf, FieldText, IsFlatRow, AllPlain, IsWord;
    if fs == [] {
      FlatHasNo(fs, key);
      NoTagInRest(fs, key);
      FirstOccurrence(front, FieldsText(fs), key);
    } else {
      FlatTail(fs);
      var rest := RestText(fs[1..]);
      RestFollows(fs[1..]);
      assert FieldsText(fs) == FieldText(fs[0]) + rest;
      if fs[0].key != key {
        FieldHasNoTag(fs[0], rest, key);
        NoTagInBoth(front, FieldText(fs[0]), rest, key);
        assert front + FieldsText(fs) == front + FieldText(fs[0]) + rest;
        PeekOnward(front + FieldText(fs[0]), fs, key);
      } else if fs[0].Str? {
        PeekField(front, fs[0], rest);
        FieldHasTag(fs[0], rest);
        FoundAt(front, FieldText(fs[0]) + rest, key);
      } else {
        FlatHasNo(fs, key);
        NoTagInRest(fs, key);
        FirstOccurrence(front, FieldsText(fs), key);
      }
    }
  }

  lemma FlatHasNo(fs: seq<Field>, key: string)
    requires IsFlatRow(fs) && (fs == [] || (fs[0].key == key && fs[0].Num?))
    ensures forall i :: 0 <= i < |fs| ==> fs[i].key != key || fs[i].Num?
  {
  }

  /** After a field that is not the one sought. */
  lemma PeekOnward(front: string, fs: seq<Field>, key: string)
    requires fs != [] && IsFlatRow(fs) && IsWord(key) && NoTagIn(front, RestText(fs[1..]), key)
    ensures PeekRowString(front + RestText(fs[1..]), key) == FieldPlain(fs[1..], key)
    decreases |fs|, 0
  {
    hide OccursAt, Tag, NoTagIn, IndexOf, FieldText, IsFlatRow, AllPlain, IsWord;
    FlatTail(fs);
    var tail := fs[1..];
    if tail == [] {
      NoTagInRest(tail, key);
      FirstOccurrence(front, "}", key);
    } else {
      NoQuoteNoTag(",", FieldsText(tail), key);
      NoTagInBoth(front, ",", FieldsText(tail), key);
      assert front + RestText(tail) == front + "," + FieldsText(tail);
      PeekRest(front + ",", tail, key);
    }
  }

  /**
   * A field read from a printed row without parsing is the row's own string of that key when nothing
   * in it is escaped, and nothing otherwise: never text from inside another value.
   */
  lemma PeekIsTheField(fs: seq<Field>, key: string)
    requires IsFlatRow(fs) && IsWord(key)
    ensures PeekRowString(LineText(fs), key) == FieldPlain(fs, key)
  {
    NoQuoteNoTag("{", FieldsText(fs), key);
    PeekRest("{", fs, key);
  }

  // ---- a string read back ------------------------------------------------------------------------------------------

  function HexValue(c: char): Option<nat> {
    if '0' <= c <= '9' then Some(c as int - '0' as int)
    else if 'a' <= c <= 'f' then Some(c as int - 'a' as int + 10)
    else if 'A' <= c <= 'F' then Some(c as int - 'A' as int + 10)
    else None
  }

  /** The character four hexadecimal digits stand for, of those below 256. */
  function HexChar(digits: string): Option<char>
    requires |digits| == 4
  {
    var high, low := HexValue(digits[2]), HexValue(digits[3]);
    if digits[0] != '0' || digits[1] != '0' || high.None? || low.None? then None else Some((16 * high.value + low.value) as char)
  }

  /** The text between the quotes of a JSON string, as section 7 of RFC 8259 reads it. */
  function Unescaped(t: string): Option<string>
    decreases |t|
  {
    if t == "" then Some("")
    else if t[0] != '\\' then After([t[0]], if IsPlain(t[0]) then Unescaped(t[1..]) else None)
    else if |t| < 2 then None
    else
      match t[1]
      case '"' => After("\"", Unescaped(t[2..]))
      case '\\' => After("\\", Unescaped(t[2..]))
      case '/' => After("/", Unescaped(t[2..]))
      case 'n' => After("\n", Unescaped(t[2..]))
      case 'r' => After("\r", Unescaped(t[2..]))
      case 't' => After("\t", Unescaped(t[2..]))
      case 'b' => After([8 as char], Unescaped(t[2..]))
      case 'f' => After([12 as char], Unescaped(t[2..]))
      case 'u' =>
        if |t| < 6 || HexChar(t[2..6]).None? then None else After([HexChar(t[2..6]).value], Unescaped(t[6..]))
      case _ => None
  }

  function After(front: string, rest: Option<string>): Option<string> {
    if rest.None? then None else Some(front + rest.value)
  }

  lemma HexOf(n: nat)
    requires n < 16
    ensures HexValue(Hex(n)) == Some(n)
  {
  }

  lemma ControlCharacter(c: char)
    requires c < ' '
    ensures HexChar(['0', '0', Hex(c as int / 16), Hex(c as int % 16)]) == Some(c)
  {
    HexOf(c as int / 16);
    HexOf(c as int % 16);
  }

  lemma UnescapedFirst(c: char, rest: string)
    ensures Unescaped(Escape(c) + rest) == After([c], Unescaped(rest))
  {
    var t := Escape(c) + rest;
    assert t[|Escape(c)|..] == rest;
    if |Escape(c)| == 6 {
      ControlCharacter(c);
      assert t[2..6] == ['0', '0', Hex(c as int / 16), Hex(c as int % 16)];
    }
  }

  /** Every string can be read back from its printed text. */
  lemma {:induction false} StringRoundTrip(s: string)
    ensures Unescaped(Escaped(s)) == Some(s)
  {
    if s != "" {
      StringRoundTrip(s[1..]);
      UnescapedFirst(s[0], Escaped(s[1..]));
      assert s == [s[0]] + s[1..];
    }
  }
}
