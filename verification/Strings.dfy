/** Text in order, prefixes, and the first place of a character. */
module Strings {

  /** `<` on text: by the first character that differs. */
  predicate Less(a: string, b: string) {
    b != [] && (a == [] || a[0] < b[0] || (a[0] == b[0] && Less(a[1..], b[1..])))
  }

  lemma {:induction false} LessOneWay(a: string, b: string)
    ensures a == b || Less(a, b) || Less(b, a)
    ensures !(Less(a, b) && Less(b, a)) && !Less(a, a)
  {
    if a != [] && b != [] {
      LessOneWay(a[1..], b[1..]);
      assert a == [a[0]] + a[1..] && b == [b[0]] + b[1..];
    }
    if a != [] { LessOneWay(a[1..], a[1..]); }
  }

  lemma {:induction false} LessThrough(a: string, b: string, c: string)
    requires Less(a, b) && Less(b, c)
    ensures Less(a, c)
  {
    if a != [] && a[0] == b[0] == c[0] { LessThrough(a[1..], b[1..], c[1..]); }
  }

  lemma StringsAreOrdered()
    ensures forall a, b :: a == b || Less(a, b) || Less(b, a)
    ensures forall a, b :: Less(a, b) ==> !Less(b, a)
    ensures forall a, b, c :: Less(a, b) && Less(b, c) ==> Less(a, c)
  {
    forall a, b
      ensures (a == b || Less(a, b) || Less(b, a)) && (Less(a, b) ==> !Less(b, a))
    {
      LessOneWay(a, b);
    }
    forall a, b, c | Less(a, b) && Less(b, c) ensures Less(a, c) { LessThrough(a, b, c); }
  }

  predicate StartsWith(s: string, p: string) {
    |p| <= |s| && s[..|p|] == p
  }

  /** Text that starts with a prefix is not before it, and what stands after text that does not does not either. */
  lemma {:induction false} PrefixesAreABlock(p: string, t: string, u: string)
    ensures StartsWith(t, p) ==> !Less(t, p)
    ensures !Less(t, p) && !StartsWith(t, p) && Less(t, u) ==> !StartsWith(u, p)
  {
    if p != [] && t != [] {
      PrefixesAreABlock(p[1..], t[1..], if u == [] then u else u[1..]);
      StartsWithTail(t, p);
      if u != [] { StartsWithTail(u, p); }
    } else if p == [] {
      assert t[..0] == [];
    }
  }

  lemma StartsWithTail(s: string, p: string)
    requires s != [] && p != []
    ensures StartsWith(s, p) <==> s[0] == p[0] && StartsWith(s[1..], p[1..])
  {
    if |p| <= |s| {
      assert s[..|p|] == [s[0]] + s[1..][..|p| - 1];
      assert p == [p[0]] + p[1..];
    }
  }

  /** Where the first `c` is, or the length when there is none. */
  function Find(s: string, c: char): (i: nat)
    ensures i <= |s| && c !in s[..i] && (i < |s| ==> s[i] == c)
  {
    if s == "" || s[0] == c then 0 else 1 + Find(s[1..], c)
  }

  lemma {:induction false} FindInFront(s: string, t: string, c: char)
    ensures Find(s + t, c) == if Find(s, c) < |s| then Find(s, c) else |s| + Find(t, c)
  {
    if s == "" {
      assert s + t == t;
    } else {
      assert (s + t)[1..] == s[1..] + t;
      FindInFront(s[1..], t, c);
    }
  }

  lemma FindNone(s: string, c: char)
    requires c !in s
    ensures Find(s, c) == |s|
  {
  }
}
