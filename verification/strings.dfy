/** The few Kotlin `String` operations the resolver relies on, over
    `seq<char>`: `startsWith`, `endsWith`, `removePrefix`, `removeSuffix`,
    `split` on one delimiter, and `replace` of a literal substring. */
module Strings {

  predicate StartsWith(s: string, prefix: string) {
    |prefix| <= |s| && s[..|prefix|] == prefix
  }

  predicate EndsWith(s: string, suffix: string) {
    |suffix| <= |s| && s[|s| - |suffix|..] == suffix
  }

  /** A prefix of a prefix is a prefix. */
  lemma StartsWithTransitive(a: string, b: string, c: string)
    requires StartsWith(a, b) && StartsWith(b, c)
    ensures StartsWith(a, c)
  {
    assert a[..|c|] == a[..|b|][..|c|];
  }

  /** A string whose first character differs from the prefix's does not
      start with it. */
  lemma FirstCharRulesOutPrefix(s: string, prefix: string)
    requires |s| > 0 && |prefix| > 0 && s[0] != prefix[0]
    ensures !StartsWith(s, prefix)
  {
    if |prefix| <= |s| {
      assert s[..|prefix|][0] == s[0];
    }
  }

  /** `s.removePrefix(p)`: drops `p` when `s` starts with it. */
  function RemovePrefix(s: string, prefix: string): (r: string)
    ensures StartsWith(s, prefix) ==> s == prefix + r
    ensures !StartsWith(s, prefix) ==> r == s
  {
    if StartsWith(s, prefix) then s[|prefix|..] else s
  }

  /** `s.removeSuffix(p)`: drops `p` when `s` ends with it. */
  function RemoveSuffix(s: string, suffix: string): (r: string)
    ensures EndsWith(s, suffix) ==> s == r + suffix
    ensures !EndsWith(s, suffix) ==> r == s
  {
    if EndsWith(s, suffix) then s[..|s| - |suffix|] else s
  }

  /** How many times `c` appears in `s`. */
  function Occurrences(s: string, c: char): nat
    decreases |s|
  {
    if |s| == 0 then 0 else (if s[0] == c then 1 else 0) + Occurrences(s[1..], c)
  }

  /** Occurrences add up over a concatenation. */
  lemma {:induction false} OccurrencesConcat(a: string, b: string, c: char)
    ensures Occurrences(a + b, c) == Occurrences(a, c) + Occurrences(b, c)
    decreases |a|
  {
    if |a| > 0 {
      assert (a + b)[1..] == a[1..] + b;
      OccurrencesConcat(a[1..], b, c);
    } else {
      assert a + b == b;
    }
  }

  /** Extending a string never loses an occurrence of `c`. */
  lemma OccurrencesPrefix(s: string, p: string, c: char)
    requires StartsWith(s, p)
    ensures Occurrences(s, c) >= Occurrences(p, c)
  {
    assert s == p + s[|p|..];
    OccurrencesConcat(p, s[|p|..], c);
  }

  /** The inverse of `Split`: the parts with `sep` between neighbours. */
  function Join(parts: seq<string>, sep: char): string
  {
    if |parts| == 0 then ""
    else if |parts| == 1 then parts[0]
    else parts[0] + [sep] + Join(parts[1..], sep)
  }

  /** `s.split(sep)`: every field, empty ones included (a trailing
      separator yields a trailing ""), and `[""]` for the empty string. */
  function Split(s: string, sep: char): (parts: seq<string>)
    ensures |parts| >= 1
    ensures forall i :: 0 <= i < |parts| ==> sep !in parts[i]
    ensures Join(parts, sep) == s
    ensures |parts| == Occurrences(s, sep) + 1
    decreases |s|
  {
    if |s| == 0 then [""]
    else
      var rest := Split(s[1..], sep);
      if s[0] == sep then
        assert s == [sep] + s[1..];
        [""] + rest
      else
        var parts := [[s[0]] + rest[0]] + rest[1..];
        assert parts[1..] == rest[1..];
        assert s == [s[0]] + s[1..];
        parts
  }

  /** Splitting a join gives the parts back, provided no part holds `sep`. */
  lemma {:induction false} SplitJoin(parts: seq<string>, sep: char)
    requires |parts| >= 1
    requires forall i :: 0 <= i < |parts| ==> sep !in parts[i]
    ensures Split(Join(parts, sep), sep) == parts
    decreases |parts|
  {
    if |parts| > 1 {
      SplitJoin(parts[1..], sep);
      SplitAfterField(parts[0], Join(parts[1..], sep), sep);
      assert parts == [parts[0]] + parts[1..];
    } else {
      assert Join(parts, sep) == parts[0];
      SplitSingleField(parts[0], sep);
    }
  }

  /** A string without `sep` is one field. */
  lemma {:induction false} SplitSingleField(s: string, sep: char)
    requires sep !in s
    ensures Split(s, sep) == [s]
    decreases |s|
  {
    if |s| > 0 {
      SplitSingleField(s[1..], sep);
      assert [s[0]] + s[1..] == s;
    }
  }

  /** A field followed by `sep` and more text splits off as the first part. */
  lemma {:induction false} SplitAfterField(field: string, rest: string, sep: char)
    requires sep !in field
    ensures Split(field + [sep] + rest, sep) == [field] + Split(rest, sep)
    decreases |field|
  {
    var s := field + [sep] + rest;
    if |field| == 0 {
      assert s[1..] == rest;
    } else {
      assert s[1..] == field[1..] + [sep] + rest;
      SplitAfterField(field[1..], rest, sep);
      assert [field[0]] + field[1..] == field;
    }
  }

  /** `pat` occurs in `s` at index `i`. */
  predicate OccursAt(s: string, pat: string, i: int) {
    0 <= i && i + |pat| <= |s| && s[i..i + |pat|] == pat
  }

  /** `s.replace(pat, rep)`: every non-overlapping occurrence of `pat`,
      scanning from the left, replaced by `rep`. */
  function ReplaceAll(s: string, pat: string, rep: string): string
    requires |pat| > 0
    decreases |s|
  {
    if |s| < |pat| then s
    else if s[..|pat|] == pat then rep + ReplaceAll(s[|pat|..], pat, rep)
    else [s[0]] + ReplaceAll(s[1..], pat, rep)
  }

  /** Replacing one character by another is a pointwise substitution. */
  lemma {:induction false} ReplaceCharPointwise(s: string, from: char, to: char)
    ensures |ReplaceAll(s, [from], [to])| == |s|
    ensures forall i :: 0 <= i < |s| ==>
      ReplaceAll(s, [from], [to])[i] == (if s[i] == from then to else s[i])
    decreases |s|
  {
    if |s| > 0 {
      ReplaceCharPointwise(s[1..], from, to);
      assert s[..1] == [s[0]];
    }
  }

  /** A replacement as long as the pattern keeps the length. */
  lemma {:induction false} ReplaceKeepsLength(s: string, pat: string, rep: string)
    requires |pat| > 0 && |rep| == |pat|
    ensures |ReplaceAll(s, pat, rep)| == |s|
    decreases |s|
  {
    if |s| >= |pat| {
      if s[..|pat|] == pat {
        ReplaceKeepsLength(s[|pat|..], pat, rep);
      } else {
        ReplaceKeepsLength(s[1..], pat, rep);
      }
    }
  }

  /** Dropping the first character of `p` keeps `p + pat` free of early
      occurrences of `pat`. */
  lemma NoEarlierOccurrenceInTail(p: string, pat: string)
    requires |p| > 0
    requires forall i :: 0 <= i < |p| ==> !OccursAt(p + pat, pat, i)
    ensures forall i :: 0 <= i < |p| - 1 ==> !OccursAt(p[1..] + pat, pat, i)
  {
    forall i | 0 <= i < |p| - 1
      ensures !OccursAt(p[1..] + pat, pat, i)
    {
      assert !OccursAt(p + pat, pat, i + 1);
      assert (p[1..] + pat)[i..i + |pat|] == (p + pat)[i + 1..i + 1 + |pat|];
    }
  }

  /** When `p + pat` holds no occurrence of `pat` before the one at the
      end, replacing in `p + pat + t` keeps `p`, replaces that occurrence
      and carries on with `t`. */
  lemma {:induction false} ReplaceFirstOccurrence(p: string, pat: string, rep: string, t: string)
    requires |pat| > 0
    requires forall i :: 0 <= i < |p| ==> !OccursAt(p + pat, pat, i)
    ensures ReplaceAll(p + pat + t, pat, rep) == p + rep + ReplaceAll(t, pat, rep)
    decreases |p|
  {
    var s := p + pat + t;
    if |p| == 0 {
      assert s[..|pat|] == pat;
      assert s[|pat|..] == t;
    } else {
      var tail := p[1..];
      assert s[..|pat|] != pat by {
        assert !OccursAt(p + pat, pat, 0);
        assert (p + pat)[..|pat|] == s[..|pat|];
      }
      assert s[1..] == tail + pat + t;
      NoEarlierOccurrenceInTail(p, pat);
      ReplaceFirstOccurrence(tail, pat, rep, t);
      calc {
        ReplaceAll(s, pat, rep);
        [s[0]] + ReplaceAll(tail + pat + t, pat, rep);
        [p[0]] + (tail + rep + ReplaceAll(t, pat, rep));
        { assert [p[0]] + tail == p; }
        p + rep + ReplaceAll(t, pat, rep);
      }
    }
  }

  /** When the only occurrence of `pat` is the one that ends `p + pat`,
      exactly that occurrence is replaced. */
  lemma ReplaceOnlySuffix(p: string, pat: string, rep: string)
    requires |pat| > 0
    requires forall i :: 0 <= i < |p| ==> !OccursAt(p + pat, pat, i)
    ensures ReplaceAll(p + pat, pat, rep) == p + rep
  {
    ReplaceFirstOccurrence(p, pat, rep, []);
    assert p + pat + [] == p + pat;
    assert p + rep + [] == p + rep;
  }
}
