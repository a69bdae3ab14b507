/**
 * Field paths into a JSON record: their text, its parse, and reading along one
 * (packages/connector-sdk/src/path.ts). An index is a whole number; text is a sequence of characters.
 */
module Paths {
  import opened Wrappers
  import opened Strings

  datatype Segment = Key(key: string) | Index(index: int)

  const MAX_PATH_LENGTH: nat := 256
  const MAX_PATH_DEPTH: nat := 32

  // ---- characters and numbers -----------------------------------------------------------------------------

  predicate IsDigit(c: char) {
    '0' <= c <= '9'
  }

  predicate IsWordStart(c: char) {
    'A' <= c <= 'Z' || 'a' <= c <= 'z' || c == '_' || c == '$'
  }

  predicate IsPlainKey(s: string) {
    s != "" && IsWordStart(s[0]) && forall i :: 0 <= i < |s| ==> IsWordStart(s[i]) || IsDigit(s[i])
  }

  function DigitOf(n: nat): (c: char)
    requires n < 10
    ensures IsDigit(c)
  {
    '0' + n as char
  }

  function NatText(n: nat): (s: string)
    ensures s != "" && forall i :: 0 <= i < |s| ==> IsDigit(s[i])
  {
    if n < 10 then [DigitOf(n)] else NatText(n / 10) + [DigitOf(n % 10)]
  }

  function IntText(n: int): string {
    if n < 0 then "-" + NatText(-n) else NatText(n)
  }

  function ValueOf(c: char): nat
    requires IsDigit(c)
  {
    c as int - '0' as int
  }

  /** From here on a number is printed with an exponent. */
  const EXPONENT_FROM: int := 1_000_000_000_000_000_000_000

  /** A number that large in size: its sign and first digit, and how many digits follow. */
  function ExponentText(n: int): string
    requires n <= -EXPONENT_FROM || n >= EXPONENT_FROM
  {
    var digits := NatText(if n < 0 then -n else n);
    (if n < 0 then "-" else "") + [digits[0]] + "e+" + NatText(|digits| - 1)
  }

  /** A whole number as the language prints it. */
  function NumberText(n: int): string {
    if -EXPONENT_FROM < n < EXPONENT_FROM then IntText(n) else ExponentText(n)
  }

  function NatOf(s: string): nat
    requires forall i :: 0 <= i < |s| ==> IsDigit(s[i])
  {
    if s == "" then 0 else NatOf(s[..|s| - 1]) * 10 + ValueOf(s[|s| - 1])
  }

  predicate IsDigits(s: string) {
    s != "" && forall i :: 0 <= i < |s| ==> IsDigit(s[i])
  }

  /** Digits, with or without a minus sign. */
  function IntOf(s: string): Option<int> {
    if IsDigits(s) then Some(NatOf(s))
    else if s != "" && s[0] == '-' && IsDigits(s[1..]) then Some(0 - NatOf(s[1..]) as int)
    else None
  }

  lemma {:induction false} NatRoundTrip(n: nat)
    ensures NatOf(NatText(n)) == n
  {
    if n >= 10 {
      NatRoundTrip(n / 10);
      assert NatText(n)[..|NatText(n)| - 1] == NatText(n / 10);
    } else {
      assert NatText(n)[..0] == "";
    }
  }

  lemma IntRoundTrip(n: int)
    ensures IntOf(IntText(n)) == Some(n)
    ensures ']' !in IntText(n) && IntText(n) != "" && IntText(n)[0] != '"'
  {
    if n < 0 {
      NatRoundTrip(-n);
      assert IntText(n)[1..] == NatText(-n);
    } else {
      NatRoundTrip(n);
    }
  }

  // ---- quoted keys ---------------------------------------------------------------------------------------------

  function Quoted(s: string): string {
    if s == "" then "" else (if s[0] == '"' || s[0] == '\\' then ['\\', s[0]] else [s[0]]) + Quoted(s[1..])
  }

  predicate EndsLine(c: char) {
    c == '\n' || c == '\r' || c == '\U{2028}' || c == '\U{2029}'
  }

  /** What a quoted key says, from after its opening quote: a quote ends it, a backslash takes the next character as it is. */
  function Unquoted(s: string): Option<string> {
    if s == "" then None
    else if s[0] == '"' then (if |s| == 1 then Some("") else None)
    else if s[0] == '\\' then
      if |s| >= 2 && !EndsLine(s[1]) then Prefixed(s[1], Unquoted(s[2..])) else None
    else Prefixed(s[0], Unquoted(s[1..]))
  }

  function Prefixed(c: char, s: Option<string>): Option<string> {
    if s.Some? then Some([c] + s.value) else None
  }

  lemma QuotedCons(s: string, end: string)
    requires s != ""
    ensures Quoted(s) + end == if s[0] == '"' || s[0] == '\\' then ['\\', s[0]] + (Quoted(s[1..]) + end) else [s[0]] + (Quoted(s[1..]) + end)
  {
  }

  /** Quoting is undone, and without its closing quote a quoted key is none. */
  lemma {:induction false} QuoteRoundTrip(s: string)
    ensures Unquoted(Quoted(s) + "\"") == Some(s)
    ensures Unquoted(Quoted(s)) == None
  {
    if s == "" {
      assert Quoted(s) + "\"" == "\"";
    } else {
      QuoteRoundTrip(s[1..]);
      QuotedCons(s, "\"");
      QuotedCons(s, "");
      var t, u := Quoted(s[1..]) + "\"", Quoted(s[1..]);
      assert Quoted(s) + "" == Quoted(s) && u + "" == u;
      assert s == [s[0]] + s[1..];
      if s[0] == '"' || s[0] == '\\' {
        assert (['\\', s[0]] + t)[2..] == t && (['\\', s[0]] + u)[2..] == u;
      } else {
        assert ([s[0]] + t)[1..] == t && ([s[0]] + u)[1..] == u;
      }
    }
  }

  // ---- the text of a path ---------------------------------------------------------------------------------------

  function Piece(seg: Segment, first: bool): string {
    match seg
    case Index(n) => "[" + NumberText(n) + "]"
    case Key(k) => if IsPlainKey(k) then (if first then "" else ".") + k else "[\"" + Quoted(k) + "\"]"
  }

  /** The segments, one after another. */
  function Text(segs: seq<Segment>, first: bool): string {
    if segs == [] then "" else Piece(segs[0], first) + Text(segs[1..], false)
  }

  function FormatOf(segs: seq<Segment>): string {
    if segs == [] then "$" else Text(segs, true)
  }

  lemma {:induction false} TextMore(segs: seq<Segment>, seg: Segment, first: bool)
    ensures Text(segs + [seg], first) == Text(segs, first) + Piece(seg, first && segs == [])
  {
    if segs == [] {
      assert [seg][1..] == [];
    } else {
      assert (segs + [seg])[1..] == segs[1..] + [seg];
      TextMore(segs[1..], seg, false);
    }
  }

  lemma TextIsEmpty(segs: seq<Segment>, first: bool)
    ensures Text(segs, first) == "" <==> segs == []
  {
    if segs != [] { assert Piece(segs[0], first) != ""; }
  }

  /** `formatPath`. */
  method FormatPath(segments: seq<Segment>) returns (out: string)
    ensures out == FormatOf(segments)
  {
    hide Text, Quoted, NumberText, IsPlainKey;
    if |segments| == 0 {
      return "$";
    }
    out := "";
    TextIsEmpty([], true);
    for i := 0 to |segments|
      invariant out == Text(segments[..i], true)
    {
      TextMore(segments[..i], segments[i], true);
      TextIsEmpty(segments[..i], true);
      assert segments[..i + 1] == segments[..i] + [segments[i]];
      match segments[i] {
        case Index(n) => out := out + "[" + NumberText(n) + "]";
        case Key(k) =>
          if IsPlainKey(k) {
            out := out + (if out != "" then "." else "") + k;
          } else {
            out := out + "[\"" + Quoted(k) + "\"]";
          }
      }
    }
    assert segments[..|segments|] == segments;
  }

  // ---- the parse ----------------------------------------------------------------------------------------------------

  /** How long a bare key is. */
  function KeyLength(s: string): (i: nat)
    ensures i <= |s|
  {
    if s == "" || s[0] == '.' || s[0] == '[' then 0 else 1 + KeyLength(s[1..])
  }

  /** What stands between brackets: an index or a quoted key. */
  function InnerOf(s: string): Option<Segment> {
    if IntOf(s).Some? then Some(Index(IntOf(s).value))
    else if s != "" && s[0] == '"' && Unquoted(s[1..]).Some? then Some(Key(Unquoted(s[1..]).value))
    else None
  }

  function With(seg: Segment, rest: Option<seq<Segment>>): Option<seq<Segment>> {
    if rest.Some? then Some([seg] + rest.value) else None
  }

  /** The segments of the rest of a path; `expectKey` when a segment must follow. */
  function SegmentsOf(rest: string, expectKey: bool): Option<seq<Segment>>
    decreases |rest|
  {
    if rest == "" then (if expectKey then None else Some([]))
    else if rest[0] == '[' then
      var close := Find(rest, ']');
      if close == |rest| then None else
        var inner := InnerOf(rest[1..close]);
        if inner.None? then None else With(inner.value, SegmentsOf(rest[close + 1..], false))
    else if rest[0] == '.' then (if expectKey then None else SegmentsOf(rest[1..], true))
    else if !expectKey then None
    else
      var j := KeyLength(rest);
      With(Key(rest[..j]), SegmentsOf(rest[j..], false))
  }

  /** A leading `$.` or `$[` is the record itself. */
  function Start(path: string): (i: nat)
    ensures i <= |path|
  {
    if |path| >= 2 && path[0] == '$' && path[1] == '.' then 2
    else if |path| >= 2 && path[0] == '$' && path[1] == '[' then 1
    else 0
  }

  /** What a path says; nothing when it is refused. */
  function ParseOf(path: string): Option<seq<Segment>> {
    if path == "" || |path| > MAX_PATH_LENGTH then None
    else if path == "$" then Some([])
    else
      var segs := SegmentsOf(path[Start(path)..], true);
      if segs.Some? && |segs.value| > MAX_PATH_DEPTH then None else segs
  }

  // ---- parsing what was printed -----------------------------------------------------------------------------------------

  lemma FindIs(s: string, t: string, c: char)
    requires c !in s
    ensures Find(s + ([c] + t), c) == |s|
  {
    FindInFront(s, [c] + t, c);
    FindNone(s, c);
  }

  lemma {:induction false} KeyLengthIs(s: string, t: string)
    requires '.' !in s && '[' !in s && (t == "" || t[0] == '.' || t[0] == '[')
    ensures KeyLength(s + t) == |s|
  {
    if s == "" {
      assert s + t == t;
    } else {
      assert (s + t)[1..] == s[1..] + t;
      KeyLengthIs(s[1..], t);
    }
  }

  /** A bracket around text without one is what the text says. */
  lemma BracketIs(inner: string, rest: string, expectKey: bool)
    requires ']' !in inner
    ensures SegmentsOf("[" + inner + "]" + rest, expectKey)
         == if InnerOf(inner).None? then None else With(InnerOf(inner).value, SegmentsOf(rest, false))
  {
    var s := "[" + inner + "]" + rest;
    assert s == ("[" + inner) + ("]" + rest);
    FindIs("[" + inner, rest, ']');
    assert s[1..|inner| + 1] == inner && s[|inner| + 2..] == rest;
  }

  /** A key without a closing bracket, or an index printed without an exponent. */
  ghost predicate Clean(seg: Segment) {
    match seg
    case Key(k) => ']' !in k
    case Index(n) => -EXPONENT_FROM < n < EXPONENT_FROM
  }

  ghost predicate AllClean(segs: seq<Segment>) {
    forall i :: 0 <= i < |segs| ==> Clean(segs[i])
  }

  lemma {:induction false} QuotedHasBracket(s: string)
    ensures ']' in Quoted(s) <==> ']' in s
  {
    if s != "" {
      QuotedHasBracket(s[1..]);
      assert s == [s[0]] + s[1..];
    }
  }

  lemma {:induction false} QuotedAppend(a: string, b: string)
    ensures Quoted(a + b) == Quoted(a) + Quoted(b)
  {
    if a == "" {
      assert a + b == b;
    } else {
      assert (a + b)[1..] == a[1..] + b;
      QuotedAppend(a[1..], b);
    }
  }

  lemma InnerOfIndex(n: int)
    requires -EXPONENT_FROM < n < EXPONENT_FROM
    ensures InnerOf(NumberText(n)) == Some(Index(n)) && ']' !in NumberText(n)
  {
    IntRoundTrip(n);
  }

  /** A number printed with an exponent is no index. */
  lemma InnerOfExponent(n: int)
    requires n <= -EXPONENT_FROM || n >= EXPONENT_FROM
    ensures InnerOf(NumberText(n)) == None && ']' !in NumberText(n)
  {
    var digits := NatText(if n < 0 then -n else n);
    var t, k := NumberText(n), if n < 0 then 1 else 0;
    assert IsDigit(digits[0]) && t[k] == digits[0] && t[k + 1] == 'e' && !IsDigit('e');
    if n < 0 {
      assert t[0] == '-' && t[1..][1] == 'e';
    }
    forall i | 0 <= i < |t| ensures t[i] != ']' {
      if i > k + 2 { assert t[i] == NatText(|digits| - 1)[i - k - 3]; }
    }
  }

  lemma InnerOfQuoted(k: string)
    ensures InnerOf("\"" + Quoted(k) + "\"") == Some(Key(k))
    ensures InnerOf("\"" + Quoted(k)) == None
  {
    QuoteRoundTrip(k);
    var a, b := "\"" + Quoted(k) + "\"", "\"" + Quoted(k);
    assert a[0] == '"' && b[0] == '"' && !IsDigit('"');
    assert a[1..] == Quoted(k) + "\"" && b[1..] == Quoted(k);
  }

  /** A piece with no bracket in its key is parsed back, and the parse goes on after it. */
  lemma PieceParses(seg: Segment, rest: string, first: bool)
    requires Clean(seg) && (rest == "" || rest[0] == '.' || rest[0] == '[')
    ensures SegmentsOf(Piece(seg, first) + rest, first) == With(seg, SegmentsOf(rest, false))
  {
    hide SegmentsOf, Quoted, InnerOf, NumberText, With;
    match seg
    case Index(n) =>
      InnerOfIndex(n);
      BracketIs(NumberText(n), rest, first);
    case Key(k) =>
      if IsPlainKey(k) {
        BareKeyParses(k, rest, first);
      } else {
        InnerOfQuoted(k);
        QuotedHasBracket(k);
        var inner := "\"" + Quoted(k) + "\"";
        assert Piece(seg, first) + rest == "[" + inner + "]" + rest;
        BracketIs(inner, rest, first);
      }
  }

  lemma KeyIsBare(k: string)
    requires IsPlainKey(k)
    ensures k != "" && k[0] != '[' && k[0] != '.' && '.' !in k && '[' !in k
  {
  }

  lemma BareKeyAt(t: string)
    requires t != "" && t[0] != '[' && t[0] != '.'
    ensures KeyLength(t) > 0 && SegmentsOf(t, true) == With(Key(t[..KeyLength(t)]), SegmentsOf(t[KeyLength(t)..], false))
  {
  }

  lemma DotAt(t: string)
    ensures SegmentsOf("." + t, false) == SegmentsOf(t, true)
  {
    assert ("." + t)[1..] == t;
  }

  lemma BareKeyParses(k: string, rest: string, first: bool)
    requires IsPlainKey(k) && (rest == "" || rest[0] == '.' || rest[0] == '[')
    ensures SegmentsOf((if first then "" else ".") + k + rest, first) == With(Key(k), SegmentsOf(rest, false))
  {
    hide SegmentsOf, IsPlainKey, KeyLength;
    var t := k + rest;
    KeyIsBare(k);
    KeyLengthIs(k, rest);
    assert t[0] == k[0] && t[..|k|] == k && t[|k|..] == rest;
    BareKeyAt(t);
    DotAt(t);
    if first {
      assert "" + k + rest == t;
    } else {
      assert "." + k + rest == "." + t;
    }
  }

  /** A key with a bracket, quoted: what is before the first bracket, and what is after. */
  lemma QuotedSplits(k: string) returns (before: string, after: string)
    requires ']' in k
    ensures ']' !in Quoted(before) && Quoted(k) == Quoted(before) + "]" + Quoted(after)
  {
    hide Quoted;
    var i := Find(k, ']');
    before := k[..i];
    assert i == |k| ==> before == k;
    after := k[i + 1..];
    assert k == before + ("]" + after);
    QuotedAppend(before, "]" + after);
    QuotedAppend("]", after);
    BracketAlone();
    QuotedHasBracket(before);
  }

  lemma BracketAlone()
    ensures Quoted("]") == "]"
  {
  }

  /** A piece with a bracket in its key is refused: the key is cut short at the bracket. */
  lemma BracketIsRefused(k: string, rest: string, first: bool)
    requires ']' in k
    ensures SegmentsOf(Piece(Key(k), first) + rest, first) == None
  {
    hide SegmentsOf, Quoted, InnerOf;
    assert !IsPlainKey(k);
    var before, after := QuotedSplits(k);
    InnerOfQuoted(before);
    var inner, onward := "\"" + Quoted(before), Quoted(after) + "\"]" + rest;
    assert Piece(Key(k), first) == "[\"" + Quoted(k) + "\"]";
    assert Piece(Key(k), first) + rest == "[" + inner + "]" + onward;
    BracketIs(inner, onward, first);
  }

  lemma ExponentIsRefused(n: int, rest: string, first: bool)
    requires !Clean(Index(n))
    ensures SegmentsOf(Piece(Index(n), first) + rest, first) == None
  {
    hide SegmentsOf, InnerOf, NumberText;
    InnerOfExponent(n);
    BracketIs(NumberText(n), rest, first);
  }

  lemma TextStarts(segs: seq<Segment>)
    ensures var t := Text(segs, false); t == "" || t[0] == '.' || t[0] == '['
  {
  }

  /** The text of segments is parsed back to them, unless a key has a bracket or an index an exponent. */
  lemma {:induction false} TextParses(segs: seq<Segment>, first: bool)
    requires first ==> segs != []
    ensures SegmentsOf(Text(segs, first), first) == if AllClean(segs) then Some(segs) else None
  {
    hide SegmentsOf, Piece;
    if segs == [] {
      NothingParses();
    } else {
      var seg, tail := segs[0], segs[1..];
      TextParses(tail, false);
      TextStarts(tail);
      assert segs == [seg] + tail;
      assert AllClean(segs) <==> Clean(seg) && AllClean(tail);
      if Clean(seg) {
        PieceParses(seg, Text(tail, false), first);
      } else {
        match seg {
          case Key(k) => BracketIsRefused(k, Text(tail, false), first);
          case Index(n) => ExponentIsRefused(n, Text(tail, false), first);
        }
      }
    }
  }

  lemma NothingParses()
    ensures SegmentsOf("", false) == Some([])
  {
  }

  // ---- the round trip -------------------------------------------------------------------------------------------------

  predicate IsDollar(segs: seq<Segment>) {
    segs != [] && segs[0] == Key("$")
  }

  lemma PlainPiece(seg: Segment)
    requires seg.Key? && seg.key == "$"
    ensures Piece(seg, true) == "$"
  {
  }

  /** Only a first key `$` reads as the record itself. */
  lemma StartOfText(segs: seq<Segment>)
    requires segs != [] && !IsDollar(segs)
    ensures Start(Text(segs, true)) == 0 && Text(segs, true) != "$" && Text(segs, true) != ""
  {
    var t, rest := Text(segs, true), Text(segs[1..], false);
    assert t == Piece(segs[0], true) + rest;
    match segs[0]
    case Index(n) => assert t[0] == '[';
    case Key(k) =>
      if IsPlainKey(k) {
        assert Piece(segs[0], true) == k;
        if k[0] == '$' {
          assert k == "$" <==> |k| == 1;
          assert t[1] == k[1];
        } else {
          assert t[0] == k[0];
        }
      } else {
        assert t[0] == '[';
      }
  }

  /** After a first key `$` only the other segments are left. */
  lemma DollarIsLost(segs: seq<Segment>)
    requires IsDollar(segs)
    ensures ParseOf(FormatOf(segs)) != Some(segs)
  {
    PlainPiece(segs[0]);
    var tail, t := segs[1..], Text(segs, true);
    assert t == "$" + Text(tail, false);
    if tail != [] {
      TextStarts(tail);
      TextIsEmpty(tail, false);
      var rest := t[Start(t)..];
      if Text(tail, false)[0] == '.' {
        assert rest == Text(tail, false)[1..];
        assert SegmentsOf(Text(tail, false), false) == SegmentsOf(rest, true);
      } else {
        assert rest == Text(tail, false);
        BracketEither(rest);
      }
      TextParses(tail, false);
      hide SegmentsOf;
      assert SegmentsOf(rest, true) in {None, Some(tail)};
      assert |tail| < |segs|;
    }
  }

  lemma BracketEither(rest: string)
    requires rest != "" && rest[0] == '['
    ensures SegmentsOf(rest, true) == SegmentsOf(rest, false)
  {
  }

  /**
   * A path printed and parsed is the same path, exactly when its text is short enough, it is not too
   * deep, no key has a closing bracket, no index is printed with an exponent, and its first key is not `$`.
   */
  lemma PathRoundTrip(segs: seq<Segment>)
    ensures ParseOf(FormatOf(segs)) == Some(segs) <==>
            |FormatOf(segs)| <= MAX_PATH_LENGTH && |segs| <= MAX_PATH_DEPTH && AllClean(segs) && !IsDollar(segs)
  {
    if IsDollar(segs) {
      DollarIsLost(segs);
    } else if segs != [] {
      StartOfText(segs);
      TextParses(segs, true);
      hide SegmentsOf, Text;
      assert Text(segs, true)[0..] == Text(segs, true);
    }
  }

  // ---- the parser, and reading --------------------------------------------------------------------------------------------

  /** Keys with a dot between each and the next. */
  function Dotted(keys: seq<string>): string
    requires keys != []
  {
    if |keys| == 1 then keys[0] else keys[0] + "." + Dotted(keys[1..])
  }

  function AsKeys(keys: seq<string>): (segs: seq<Segment>)
    ensures |segs| == |keys| && forall k :: 0 <= k < |keys| ==> segs[k] == Key(keys[k])
  {
    seq(|keys|, k requires 0 <= k < |keys| => Key(keys[k]))
  }

  predicate IsBareKey(key: string) {
    key != "" && '.' !in key && '[' !in key
  }

  lemma KeyTextParses(key: string, rest: string)
    requires IsBareKey(key) && (rest == "" || rest[0] == '.' || rest[0] == '[')
    ensures SegmentsOf(key + rest, true) == With(Key(key), SegmentsOf(rest, false))
  {
    KeyLengthIs(key, rest);
    assert (key + rest)[..|key|] == key && (key + rest)[|key|..] == rest && (key + rest)[0] == key[0];
  }

  lemma {:induction false} DottedKeysParse(keys: seq<string>)
    requires keys != [] && forall k :: 0 <= k < |keys| ==> IsBareKey(keys[k])
    ensures SegmentsOf(Dotted(keys), true) == Some(AsKeys(keys))
  {
    var rest := if |keys| == 1 then "" else "." + Dotted(keys[1..]);
    assert Dotted(keys) == keys[0] + rest;
    KeyTextParses(keys[0], rest);
    if |keys| > 1 {
      DottedKeysParse(keys[1..]);
      assert rest[1..] == Dotted(keys[1..]);
      assert AsKeys(keys) == [Key(keys[0])] + AsKeys(keys[1..]);
    } else {
      assert AsKeys(keys) == [Key(keys[0])] + [];
    }
  }

  /** Keys between dots, whatever else is in them, are those keys; `$.` before them stands for the record. */
  lemma DottedParses(keys: seq<string>)
    requires 0 < |keys| <= MAX_PATH_DEPTH && forall k :: 0 <= k < |keys| ==> IsBareKey(keys[k])
    ensures keys[0] != "$" && |Dotted(keys)| <= MAX_PATH_LENGTH ==> ParseOf(Dotted(keys)) == Some(AsKeys(keys))
    ensures |Dotted(keys)| + 2 <= MAX_PATH_LENGTH ==> ParseOf("$." + Dotted(keys)) == Some(AsKeys(keys))
  {
    DottedKeysParse(keys);
    var path := Dotted(keys);
    hide SegmentsOf, Dotted;
    assert ("$." + path)[2..] == path;
    DottedStarts(keys);
    if keys[0] != "$" {
      assert Start(path) == 0 && path[0..] == path;
    }
  }

  lemma DottedStarts(keys: seq<string>)
    requires keys != [] && IsBareKey(keys[0])
    ensures var path := Dotted(keys); path != "" && (keys[0] != "$" ==> path != "$" && Start(path) == 0)
  {
    var path := Dotted(keys);
    assert keys[0] <= path;
    if |keys[0]| >= 2 {
      assert path[0] == keys[0][0] && path[1] == keys[0][1];
    } else if keys[0] != "$" {
      assert keys[0] == [keys[0][0]];
      assert path[0] == keys[0][0];
    }
  }

  /** What a path looks like: dots before keys that are words, quotes round others, brackets round indexes. */
  lemma PathText(segs: seq<Segment>, seg: Segment)
    ensures FormatOf([]) == "$"
    ensures FormatOf(segs + [seg]) ==
              (if segs == [] then "" else FormatOf(segs)) +
              match seg
              case Index(n) => "[" + NumberText(n) + "]"
              case Key(k) =>
                if !IsPlainKey(k) then "[\"" + Quoted(k) + "\"]" else if segs == [] then k else "." + k
  {
    TextMore(segs, seg, true);
    hide Text, Quoted, NumberText, IsPlainKey;
    TextIsEmpty(segs, true);
    assert "" + Piece(seg, true) == Piece(seg, true);
  }

  /** Segments met, before what the rest of the path says. */
  function Before(segs: seq<Segment>, rest: Option<seq<Segment>>): Option<seq<Segment>> {
    if rest.Some? then Some(segs + rest.value) else None
  }

  lemma BeforeWith(segs: seq<Segment>, seg: Segment, rest: Option<seq<Segment>>)
    ensures Before(segs, With(seg, rest)) == Before(segs + [seg], rest)
  {
    if rest.Some? { assert segs + ([seg] + rest.value) == segs + [seg] + rest.value; }
  }

  /** `parse`, as it goes through the text. */
  method Parse(path: string) returns (out: Option<seq<Segment>>)
    ensures out == ParseOf(path)
  {
    hide SegmentsOf, Find, InnerOf;
    if |path| == 0 || |path| > MAX_PATH_LENGTH {
      return None;
    }
    if path == "$" {
      return Some([]);
    }
    var segs: seq<Segment>, i: nat, expectKey := [], Start(path), true;
    NoneBefore(SegmentsOf(path[i..], true));
    while i < |path|
      invariant i <= |path|
      invariant Before(segs, SegmentsOf(path[i..], expectKey)) == SegmentsOf(path[Start(path)..], true)
      decreases |path| - i
    {
      SegmentsAt(path, i, expectKey);
      if path[i] == '[' {
        var close := i + Find(path[i..], ']');
        if close == |path| {
          return None;
        }
        var inner := InnerOf(path[i + 1..close]);
        if inner.None? {
          return None;
        }
        BeforeWith(segs, inner.value, SegmentsOf(path[close + 1..], false));
        segs := segs + [inner.value];
        i, expectKey := close + 1, false;
      } else if path[i] == '.' {
        if expectKey {
          return None;
        }
        i, expectKey := i + 1, true;
      } else if !expectKey {
        return None;
      } else {
        var j := KeyEnd(path, i);
        BeforeWith(segs, Key(path[i..j]), SegmentsOf(path[j..], false));
        segs := segs + [Key(path[i..j])];
        i, expectKey := j, false;
      }
    }
    SegmentsAtEnd(path[i..], expectKey);
    assert segs + [] == segs;
    if expectKey || |segs| > MAX_PATH_DEPTH {
      return None;
    }
    return Some(segs);
  }

  lemma NoneBefore(rest: Option<seq<Segment>>)
    ensures Before([], rest) == rest
  {
    if rest.Some? { assert [] + rest.value == rest.value; }
  }

  lemma SegmentsAtEnd(rest: string, expectKey: bool)
    requires rest == ""
    ensures SegmentsOf(rest, expectKey) == if expectKey then None else Some([])
  {
  }

  lemma SegmentsAt(path: string, i: nat, expectKey: bool)
    requires i < |path|
    ensures var rest := path[i..];
            var close, j := i + Find(rest, ']'), i + KeyLength(rest);
            && close <= |path| && j <= |path| && (path[i] == '[' ==> close > i) && (path[i] != '[' && path[i] != '.' ==> j > i)
            && SegmentsOf(rest, expectKey) ==
               if path[i] == '[' then
                 if close == |path| then None else
                   var inner := InnerOf(path[i + 1..close]);
                   if inner.None? then None else With(inner.value, SegmentsOf(path[close + 1..], false))
               else if path[i] == '.' then (if expectKey then None else SegmentsOf(path[i + 1..], true))
               else if !expectKey then None
               else With(Key(path[i..j]), SegmentsOf(path[j..], false))
  {
    var rest := path[i..];
    var n, m := Find(rest, ']'), KeyLength(rest);
    assert rest[0] == path[i] && rest[1..] == path[i + 1..] && rest[m..] == path[i + m..] && rest[..m] == path[i..i + m];
    if rest[0] == '[' && n < |rest| {
      assert n > 0;
      assert rest[1..n] == path[i + 1..i + n] && rest[n + 1..] == path[i + n + 1..];
    }
  }

  method KeyEnd(path: string, i: nat) returns (j: nat)
    requires i < |path|
    ensures i <= j <= |path| && j == i + KeyLength(path[i..])
  {
    j := i;
    while j < |path| && path[j] != '.' && path[j] != '['
      invariant i <= j <= |path| && KeyLength(path[i..]) == j - i + KeyLength(path[j..])
    {
      assert path[j..][1..] == path[j + 1..];
      j := j + 1;
    }
  }

  datatype Json = Null | Bool(b: bool) | Number(n: real) | String(s: string) | Array(items: seq<Json>) | Object(fields: map<string, Json>)

  /** One step into a value; nothing when it is not there. */
  function StepInto(value: Option<Json>, seg: Segment): Option<Json> {
    if value.None? || value.value.Null? then None
    else
      match seg
      case Index(n) =>
        if !value.value.Array? then None else
          var items := value.value.items;
          var i := if n < 0 then |items| + n else n;
          if 0 <= i < |items| then Some(items[i]) else None
      case Key(k) => if value.value.Object? && k in value.value.fields then Some(value.value.fields[k]) else None
  }

  function ReadOf(record: Option<Json>, segs: seq<Segment>): Option<Json> {
    if segs == [] then record else StepInto(ReadOf(record, segs[..|segs| - 1]), segs[|segs| - 1])
  }

  /** `readPath`: it stops at the first step that is missing. */
  method ReadPath(record: Option<Json>, segs: seq<Segment>) returns (cur: Option<Json>)
    ensures cur == ReadOf(record, segs)
  {
    cur := record;
    for i := 0 to |segs|
      invariant cur == ReadOf(record, segs[..i])
    {
      assert segs[..i + 1][..i] == segs[..i];
      if cur.None? || cur.value.Null? {
        NothingBeyond(record, segs, i);
        return None;
      }
      cur := StepInto(cur, segs[i]);
    }
    assert segs[..|segs|] == segs;
  }

  lemma {:induction false} NothingBeyond(record: Option<Json>, segs: seq<Segment>, i: nat)
    requires i < |segs| && (ReadOf(record, segs[..i]).None? || ReadOf(record, segs[..i]).value.Null?)
    ensures ReadOf(record, segs) == None
  {
    var front := segs[..|segs| - 1];
    assert ReadOf(record, segs) == StepInto(ReadOf(record, front), segs[|segs| - 1]);
    if i < |front| {
      assert front[..i] == segs[..i];
      NothingBeyond(record, front, i);
    } else {
      assert front == segs[..i];
    }
  }

  /** `w` is in `v` under the key, or at the index: from the front, or from the end when it is negative. */
  ghost predicate Leads(v: Json, seg: Segment, w: Json) {
    match seg
    case Key(k) => v.Object? && k in v.fields && v.fields[k] == w
    case Index(n) => v.Array? && exists i :: 0 <= i < |v.items| && v.items[i] == w && (n == i || n == i - |v.items|)
  }

  /** The values from `v` to `w`, each in the one before it. */
  ghost predicate IsTrail(trail: seq<Json>, v: Json, segs: seq<Segment>, w: Json) {
    && |trail| == |segs| + 1 && trail[0] == v && trail[|segs|] == w
    && forall k :: 0 <= k < |segs| ==> Leads(trail[k], segs[k], trail[k + 1])
  }

  lemma StepLeads(v: Json, seg: Segment, w: Json)
    ensures StepInto(Some(v), seg) == Some(w) <==> Leads(v, seg, w)
  {
    if seg.Index? && v.Array? && 0 <= seg.index + |v.items| < |v.items| {
      assert v.items[seg.index + |v.items|] in v.items;
    }
  }

  /** What a path reads is what stands at the end of the trail of values it goes along; without one it reads nothing. */
  lemma {:induction false} ReadIsAtTheEnd(v: Json, segs: seq<Segment>, w: Json)
    ensures ReadOf(Some(v), segs) == Some(w) <==> exists trail :: IsTrail(trail, v, segs, w)
  {
    hide StepInto, Leads;
    if segs == [] {
      assert v == w ==> IsTrail([v], v, segs, w);
    } else {
      var front, n := segs[..|segs| - 1], |segs| - 1;
      var before := ReadOf(Some(v), front);
      if before.Some? { StepLeads(before.value, segs[n], w); } else { NoStep(segs[n]); }
      if before.Some? && Leads(before.value, segs[n], w) {
        ReadIsAtTheEnd(v, front, before.value);
        var trail :| IsTrail(trail, v, front, before.value);
        assert IsTrail(trail + [w], v, segs, w);
      }
      if trail :| IsTrail(trail, v, segs, w) {
        assert IsTrail(trail[..n + 1], v, front, trail[n]);
        ReadIsAtTheEnd(v, front, trail[n]);
        assert Leads(trail[n], segs[n], trail[n + 1]);
      }
    }
  }

  lemma NoStep(seg: Segment)
    ensures StepInto(None, seg) == None
  {
  }

  /** Reading along one path and then another is reading along both. */
  lemma {:induction false} ReadOnward(record: Option<Json>, a: seq<Segment>, b: seq<Segment>)
    ensures ReadOf(record, a + b) == ReadOf(ReadOf(record, a), b)
  {
    if b == [] {
      assert a + b == a;
    } else {
      assert (a + b)[..|a + b| - 1] == a + b[..|b| - 1] && (a + b)[|a + b| - 1] == b[|b| - 1];
      assert ReadOf(record, a + b) == StepInto(ReadOf(record, a + b[..|b| - 1]), b[|b| - 1]);
      ReadOnward(record, a, b[..|b| - 1]);
    }
  }
}
