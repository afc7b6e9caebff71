/** Kotlin collection operations used on lists of strings and nodes:
    `filter`, `filterNotNull`, and the insertion-ordered de-duplication of
    `toMutableSet()`. */
module Lists {
  import opened Wrappers

  /** `s.filter(p)`: the elements satisfying `p`, in order. */
  function Filter<T(==,!new)>(s: seq<T>, p: T -> bool): (r: seq<T>)
    ensures |r| <= |s|
    ensures forall x :: x in r <==> x in s && p(x)
    decreases |s|
  {
    if |s| == 0 then []
    else if p(s[0]) then [s[0]] + Filter(s[1..], p)
    else Filter(s[1..], p)
  }

  /** `s.filterNotNull()`: the present values, in order. */
  function FilterNotNull<T(==,!new)>(s: seq<Option<T>>): (r: seq<T>)
    ensures |r| <= |s|
    ensures forall x :: x in r <==> Some(x) in s
    decreases |s|
  {
    if |s| == 0 then []
    else
      if s[0].Some? then [s[0].value] + FilterNotNull(s[1..])
      else FilterNotNull(s[1..])
  }

  /** Filtering a list without duplicates leaves none. */
  lemma {:induction false} FilterKeepsNoDuplicates<T(!new)>(s: seq<T>, p: T -> bool)
    ensures NoDuplicates(s) ==> NoDuplicates(Filter(s, p))
    decreases |s|
  {
    if |s| > 0 && NoDuplicates(s) {
      assert NoDuplicates(s[1..]) by {
        forall i, j | 0 <= i < j < |s[1..]| ensures s[1..][i] != s[1..][j] {
          assert s[1..][i] == s[i + 1] && s[1..][j] == s[j + 1];
        }
      }
      FilterKeepsNoDuplicates(s[1..], p);
      assert s[0] !in s[1..];
    }
  }

  /** Mapping every element to an optional value and dropping the absent
      ones is filtering by `p` and then mapping the survivors by `f`. */
  lemma {:induction false} FilterNotNullOfOptions<T(!new), U(!new)>(s: seq<T>, opt: seq<Option<U>>, p: T -> bool, f: T -> U)
    requires |opt| == |s|
    requires forall i :: 0 <= i < |s| ==> opt[i] == (if p(s[i]) then Some(f(s[i])) else None)
    ensures |FilterNotNull(opt)| == |Filter(s, p)|
    ensures forall k :: 0 <= k < |Filter(s, p)| ==> FilterNotNull(opt)[k] == f(Filter(s, p)[k])
    decreases |s|
  {
    if |s| > 0 {
      FilterNotNullOfOptions(s[1..], opt[1..], p, f);
    }
  }

  predicate NoDuplicates<T(==)>(s: seq<T>) {
    forall i, j :: 0 <= i < j < |s| ==> s[i] != s[j]
  }

  /** The position of the first occurrence of `x` in `s`. */
  function IndexOf<T(==)>(s: seq<T>, x: T): (i: nat)
    requires x in s
    ensures i < |s| && s[i] == x
    ensures forall j :: 0 <= j < i ==> s[j] != x
    decreases |s|
  {
    if s[0] == x then 0 else 1 + IndexOf(s[1..], x)
  }

  /** Appending never moves a first occurrence. */
  lemma IndexOfPrefix<T>(p: seq<T>, q: seq<T>)
    ensures forall x :: x in p ==> x in p + q && IndexOf(p + q, x) == IndexOf(p, x)
  {
    forall x | x in p
      ensures x in p + q && IndexOf(p + q, x) == IndexOf(p, x)
    {
      var m := IndexOf(p, x);
      assert (p + q)[m] == x;
    }
  }

  /** `s.toMutableSet()` read back in iteration order: the first occurrence
      of every element, in order of first appearance. */
  function Distinct<T(==,!new)>(s: seq<T>): (r: seq<T>)
    ensures NoDuplicates(r)
    ensures forall x :: x in r <==> x in s
    ensures forall i, j :: 0 <= i < j < |r| ==> IndexOf(s, r[i]) < IndexOf(s, r[j])
    ensures |r| <= |s|
    decreases |s|
  {
    if |s| == 0 then []
    else
      var init := s[..|s| - 1];
      var front := Distinct(init);
      var last := s[|s| - 1];
      assert s == init + [last];
      IndexOfPrefix(init, [last]);
      if last in front then front
      else
        assert IndexOf(s, last) == |init|;
        front + [last]
  }

  /** `flatten()`: the lists one after another, in order. */
  function Flatten<T>(ss: seq<seq<T>>): (r: seq<T>)
    decreases |ss|
  {
    if |ss| == 0 then [] else ss[0] + Flatten(ss[1..])
  }

  /** `map` with a function that may throw: every result in order, or the
      first failure. */
  function MapAll<T, U, E>(s: seq<T>, f: T --> Result<U, E>): (r: Result<seq<U>, E>)
    requires forall i :: 0 <= i < |s| ==> f.requires(s[i])
    ensures r.Ok? <==> forall i :: 0 <= i < |s| ==> f(s[i]).Ok?
    ensures r.Ok? ==> |r.value| == |s| && forall i :: 0 <= i < |s| ==> f(s[i]) == Ok(r.value[i])
    ensures r.Err? ==> exists i :: 0 <= i < |s| && f(s[i]) == Err(r.error) && forall j :: 0 <= j < i ==> f(s[j]).Ok?
    decreases |s|
  {
    if |s| == 0 then Ok([])
    else
      assert forall i :: 1 <= i < |s| ==> s[i] == s[1..][i - 1];
      var head :- f(s[0]);
      var tail :- MapAll(s[1..], f);
      Ok([head] + tail)
  }
}
