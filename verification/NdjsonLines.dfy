/**
 * Lines of a file that is read in chunks (packages/history-store/src/ndjson-backend.ts,
 * `readNdjsonFile`): the lines are those of the whole text, however it is cut.
 */
module NdjsonLines {
  import opened Wrappers
  import opened Strings

  /** The lines of a text that are ended by a line feed. */
  function Ended(t: string): seq<string>
    decreases |t|
  {
    var i := Find(t, '\n');
    if i == |t| then [] else [t[..i]] + Ended(t[i + 1..])
  }

  /** What is left of a text after its last line feed. */
  function Rest(t: string): string
    decreases |t|
  {
    var i := Find(t, '\n');
    if i == |t| then t else Rest(t[i + 1..])
  }

  /** The lines of a text: the last needs no line feed, but is none when it is empty. */
  function LinesOf(t: string): seq<string> {
    Ended(t) + if Rest(t) == "" then [] else [Rest(t)]
  }

  function Concat(chunks: seq<string>): string {
    if chunks == [] then "" else Concat(chunks[..|chunks| - 1]) + chunks[|chunks| - 1]
  }

  /** Text that comes after is read as if what was left stood before it. */
  lemma {:induction false} CarriedOver(a: string, b: string)
    ensures Ended(a + b) == Ended(a) + Ended(Rest(a) + b)
    ensures Rest(a + b) == Rest(Rest(a) + b)
    decreases |a|
  {
    hide Ended, Rest, Find;
    var i := Find(a, '\n');
    if i < |a| {
      var tail := a[i + 1..];
      CarriedOver(tail, b);
      FindInFront(a, b, '\n');
      NextEnded(a);
      NextEnded(a + b);
      assert (a + b)[..i] == a[..i] && (a + b)[i + 1..] == tail + b;
      assert [a[..i]] + Ended(tail) + Ended(Rest(tail) + b) == [a[..i]] + (Ended(tail) + Ended(Rest(tail) + b));
    } else {
      NoneEnded(a);
      assert [] + Ended(a + b) == Ended(a + b);
    }
  }

  /** Where the next line feed is, at or after a place. */
  method IndexOf(text: string, from: nat) returns (nl: int)
    requires from <= |text|
    ensures nl == if from + Find(text[from..], '\n') < |text| then from + Find(text[from..], '\n') else -1
  {
    nl := from;
    while nl < |text| && text[nl] != '\n'
      invariant from <= nl <= |text| && Find(text[from..], '\n') == nl - from + Find(text[nl..], '\n')
    {
      assert text[nl..][1..] == text[nl + 1..];
      nl := nl + 1;
    }
    if nl == |text| {
      nl := -1;
    }
  }

  lemma NextEnded(t: string)
    requires Find(t, '\n') < |t|
    ensures var i := Find(t, '\n'); Ended(t) == [t[..i]] + Ended(t[i + 1..]) && Rest(t) == Rest(t[i + 1..])
  {
  }

  lemma OneEnded(text: string, from: nat)
    requires from <= |text| && Find(text[from..], '\n') < |text| - from
    ensures var nl := from + Find(text[from..], '\n');
            Ended(text[from..]) == [text[from..nl]] + Ended(text[nl + 1..]) && Rest(text[from..]) == Rest(text[nl + 1..])
  {
    hide Ended, Rest, Find;
    var t, i := text[from..], Find(text[from..], '\n');
    NextEnded(t);
    assert t[..i] == text[from..from + i] && t[i + 1..] == text[from + i + 1..];
  }

  lemma NoneEnded(t: string)
    requires Find(t, '\n') == |t|
    ensures Ended(t) == [] && Rest(t) == t
  {
  }

  // ---- what is made of a line -----------------------------------------------------------------------------

  /** White space, as `trim` takes it off. */
  predicate IsSpace(c: char) {
    || '\t' <= c <= '\r' || c in {' ', '\U{A0}', '\U{1680}', '\U{2028}', '\U{2029}', '\U{202F}', '\U{205F}', '\U{3000}', '\U{FEFF}'}
    || '\U{2000}' <= c <= '\U{200A}'
  }

  predicate IsBlank(line: string) {
    forall i :: 0 <= i < |line| ==> IsSpace(line[i])
  }

  /** A line without the carriage return that ends it. */
  function Stripped(raw: string): string {
    if raw != "" && raw[|raw| - 1] == '\r' then raw[..|raw| - 1] else raw
  }

  /** The rows read, and how many lines were none. */
  datatype Read<R> = Read(rows: seq<R>, malformed: nat)

  /** A line taken: passed over when it is blank or not asked for, else a row or malformed. */
  function Taken<R>(r: Read<R>, raw: string, keep: string -> bool, parse: string -> Option<R>): Read<R> {
    var line := Stripped(raw);
    if IsBlank(line) || !keep(line) then r
    else
      match parse(line)
      case Some(row) => r.(rows := r.rows + [row])
      case None => r.(malformed := r.malformed + 1)
  }

  /** The lines taken one after another. */
  function ReadOf<R>(lines: seq<string>, keep: string -> bool, parse: string -> Option<R>): Read<R> {
    if lines == [] then Read([], 0) else Taken(ReadOf(lines[..|lines| - 1], keep, parse), lines[|lines| - 1], keep, parse)
  }

  /** The reader of a file: `keep` says which lines are asked for, `parse` what row a line is. */
  class Reader<R> {
    const keep: string -> bool
    const parse: string -> Option<R>
    var rows: seq<R>
    var malformed: nat
    ghost var lines: seq<string>

    ghost predicate Valid()
      reads this
    {
      ReadOf(lines, keep, parse) == Read(rows, malformed)
    }

    constructor (keep: string -> bool, parse: string -> Option<R>)
      ensures Valid() && lines == [] && this.keep == keep && this.parse == parse
    {
      this.keep, this.parse, rows, malformed, lines := keep, parse, [], 0, [];
    }

    /** `take`. */
    method Take(raw: string)
      requires Valid()
      modifies this
      ensures Valid() && lines == old(lines) + [raw]
    {
      assert (lines + [raw])[..|lines|] == lines;
      lines := lines + [raw];
      var line := if |raw| > 0 && raw[|raw| - 1] == '\r' then raw[..|raw| - 1] else raw;
      if IsBlank(line) || !keep(line) {
        return;
      }
      var row := parse(line);
      if row.Some? {
        rows := rows + [row.value];
      } else {
        malformed := malformed + 1;
      }
    }

    /** Take the lines a text ends; what is left after them is carried over. */
    method TakeEnded(text: string) returns (carry: string)
      requires Valid()
      modifies this
      ensures Valid() && lines == old(lines) + Ended(text) && carry == Rest(text)
    {
      hide Ended, Rest, Find, ReadOf;
      var from: nat := 0;
      assert text[0..] == text;
      var nl := IndexOf(text, from);
      while nl >= 0
        invariant Valid() && from <= |text|
        invariant nl == if from + Find(text[from..], '\n') < |text| then from + Find(text[from..], '\n') else -1
        invariant old(lines) + Ended(text) == lines + Ended(text[from..]) && Rest(text) == Rest(text[from..])
        decreases |text| - from
      {
        OneEnded(text, from);
        ghost var before, line := lines, text[from..nl];
        Take(text[from..nl]);
        from := nl + 1;
        assert before + ([line] + Ended(text[from..])) == lines + Ended(text[from..]);
        nl := IndexOf(text, from);
      }
      NoneEnded(text[from..]);
      carry := text[from..];
    }
  }

  /** The lines of a file, each taken, whatever the chunks it is read in. */
  method ReadNdjsonFile<R>(chunks: seq<string>, keep: string -> bool, parse: string -> Option<R>) returns (read: Read<R>)
    ensures read == ReadOf(LinesOf(Concat(chunks)), keep, parse)
  {
    hide Ended, Rest, ReadOf;
    var reader := new Reader(keep, parse);
    var carry := "";
    NoChunks();
    assert chunks[..0] == [];
    for k := 0 to |chunks|
      invariant fresh(reader) && reader.Valid() && reader.keep == keep && reader.parse == parse
      invariant reader.lines == Ended(Concat(chunks[..k])) && carry == Rest(Concat(chunks[..k]))
    {
      assert chunks[..k + 1][..k] == chunks[..k];
      CarriedOver(Concat(chunks[..k]), chunks[k]);
      assert "" + chunks[k] == chunks[k];
      carry := reader.TakeEnded(if carry == "" then chunks[k] else carry + chunks[k]);
    }
    assert chunks[..|chunks|] == chunks;
    if carry != "" {
      reader.Take(carry);
    }
    assert reader.lines == LinesOf(Concat(chunks));
    return Read(reader.rows, reader.malformed);
  }

  lemma NoChunks()
    ensures Ended("") == [] && Rest("") == ""
  {
    NoneEnded("");
  }

  /** A line written with its line feed is read back: text without one, and not empty. */
  lemma {:induction false} LinesRoundTrip(lines: seq<string>)
    requires forall i :: 0 <= i < |lines| ==> '\n' !in lines[i]
    ensures LinesOf(Written(lines)) == lines
  {
    if lines != [] {
      hide LinesOf;
      LinesRoundTrip(lines[1..]);
      WrittenLine(lines[0], Written(lines[1..]));
      assert lines[0] + "\n" + Written(lines[1..]) == lines[0] + ("\n" + Written(lines[1..]));
      assert lines == [lines[0]] + lines[1..];
    } else {
      NoneEnded("");
    }
  }

  lemma WrittenLine(s: string, t: string)
    requires '\n' !in s
    ensures LinesOf(s + ("\n" + t)) == [s] + LinesOf(t)
  {
    FindInFront(s, "\n" + t, '\n');
    FindNone(s, '\n');
    StartsWithFeed(t);
    hide Ended, Rest, Find;
    var w := s + ("\n" + t);
    NextEnded(w);
    assert w[..|s|] == s && w[|s| + 1..] == t;
  }

  lemma StartsWithFeed(t: string)
    ensures Find("\n" + t, '\n') == 0
  {
  }

  /** The text appended for some lines. */
  function Written(lines: seq<string>): string {
    if lines == [] then "" else lines[0] + "\n" + Written(lines[1..])
  }

  /** The lines of a text hold no line feed, and make the text up with one after each, but for what is left after the last. */
  lemma {:induction false} LinesMakeUpTheText(t: string)
    ensures t == Written(Ended(t)) + Rest(t)
    ensures (forall k :: 0 <= k < |Ended(t)| ==> '\n' !in Ended(t)[k]) && '\n' !in Rest(t)
    decreases |t|
  {
    var i := Find(t, '\n');
    if i < |t| {
      var tail := t[i + 1..];
      LinesMakeUpTheText(tail);
      NextEnded(t);
      FirstLineOf(t, i, Ended(tail), Rest(tail));
    } else {
      NoneEnded(t);
      assert t[..i] == t;
    }
  }

  lemma FirstLineOf(t: string, i: nat, lines: seq<string>, rest: string)
    requires i < |t| && t[i] == '\n' && t[i + 1..] == Written(lines) + rest
    ensures t == Written([t[..i]] + lines) + rest
  {
    assert ([t[..i]] + lines)[1..] == lines;
    assert t == t[..i] + "\n" + t[i + 1..];
  }

  /** What is parsed of a line: all of it but a carriage return at its end. */
  ghost predicate IsContent(raw: string, line: string) {
    if raw != "" && raw[|raw| - 1] == '\r' then raw == line + "\r" else raw == line
  }

  /**
   * A line is passed over when it holds nothing but white space or is not asked for; else it is one more
   * row, or one more that is malformed.
   */
  lemma LineIsTaken<R>(r: Read<R>, raw: string, line: string, keep: string -> bool, parse: string -> Option<R>)
    requires IsContent(raw, line)
    ensures Taken(r, raw, keep, parse) ==
              if (forall i :: 0 <= i < |line| ==> IsSpace(line[i])) || !keep(line) then r
              else if parse(line).Some? then Read(r.rows + [parse(line).value], r.malformed)
              else Read(r.rows, r.malformed + 1)
  {
    hide IsSpace;
    if raw != "" && raw[|raw| - 1] == '\r' {
      assert raw[..|raw| - 1] == line;
    }
  }
}
