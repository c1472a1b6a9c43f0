/** Sequence operations with the semantics of the JavaScript `Array`
    methods the program calls: `filter`, `findIndex`, `find` and `slice`. */
module SeqUtil {
  import opened Wrappers

  /** `a` is obtained from `b` by deleting elements, the rest kept in order. */
  predicate IsSubsequence<T(==)>(a: seq<T>, b: seq<T>)
    decreases |b|
  {
    |a| == 0 ||
    (|b| > 0 && ((a[0] == b[0] && IsSubsequence(a[1..], b[1..])) || IsSubsequence(a, b[1..])))
  }

  /** Every sequence is a subsequence of itself. */
  lemma {:induction false} SubsequenceReflexive<T>(s: seq<T>)
    ensures IsSubsequence(s, s)
    decreases |s|
  {
    if |s| > 0 {
      SubsequenceReflexive(s[1..]);
    }
  }

  /** `Array.prototype.filter`: the elements that satisfy `keep`, in order,
      each kept element as often as it occurs in `s`. */
  function Filter<T>(s: seq<T>, keep: T -> bool): (r: seq<T>)
    ensures |r| <= |s|
    ensures forall i :: 0 <= i < |r| ==> r[i] in s && keep(r[i])
    ensures forall i :: 0 <= i < |s| && keep(s[i]) ==> s[i] in r
    ensures IsSubsequence(r, s)
    ensures (forall i :: 0 <= i < |s| ==> keep(s[i])) ==> r == s
    ensures (forall i :: 0 <= i < |s| ==> !keep(s[i])) ==> r == []
    ensures forall i :: 0 <= i < |s| && keep(s[i]) ==> multiset(r)[s[i]] == multiset(s)[s[i]]
  {
    if |s| == 0 then []
    else
      var rest := Filter(s[1..], keep);
      FilterStepMembers(s, keep, rest);
      FilterStepExtremes(s, keep, rest);
      FilterStepCounts(s, keep, rest);
      KeepHead(s, keep, rest)
  }

  /** One step of `Filter`: the head, when it is kept, before the filtered
      tail. */
  function KeepHead<T>(s: seq<T>, keep: T -> bool, rest: seq<T>): seq<T>
    requires |s| > 0
  {
    if keep(s[0]) then [s[0]] + rest else rest
  }

  /** The membership and order facts of `Filter` carry over one step. */
  lemma FilterStepMembers<T>(s: seq<T>, keep: T -> bool, rest: seq<T>)
    requires |s| > 0 && |rest| <= |s| - 1
    requires forall i :: 0 <= i < |rest| ==> rest[i] in s[1..] && keep(rest[i])
    requires forall i :: 0 <= i < |s| - 1 && keep(s[1..][i]) ==> s[1..][i] in rest
    requires IsSubsequence(rest, s[1..])
    ensures var r := KeepHead(s, keep, rest);
      |r| <= |s| &&
      (forall i :: 0 <= i < |r| ==> r[i] in s && keep(r[i])) &&
      (forall i :: 0 <= i < |s| && keep(s[i]) ==> s[i] in r) &&
      IsSubsequence(r, s)
  {
    var r := KeepHead(s, keep, rest);
    forall i | 0 <= i < |s| && keep(s[i])
      ensures s[i] in r
    {
      if i > 0 {
        assert s[i] == s[1..][i - 1];
      }
    }
    if keep(s[0]) {
      assert r[1..] == rest;
    }
  }

  /** The all-kept and none-kept cases of `Filter` carry over one step. */
  lemma FilterStepExtremes<T>(s: seq<T>, keep: T -> bool, rest: seq<T>)
    requires |s| > 0
    requires (forall i :: 0 <= i < |s| - 1 ==> keep(s[1..][i])) ==> rest == s[1..]
    requires (forall i :: 0 <= i < |s| - 1 ==> !keep(s[1..][i])) ==> rest == []
    ensures var r := KeepHead(s, keep, rest);
      ((forall i :: 0 <= i < |s| ==> keep(s[i])) ==> r == s) &&
      ((forall i :: 0 <= i < |s| ==> !keep(s[i])) ==> r == [])
  {
    if forall i :: 0 <= i < |s| ==> keep(s[i]) {
      assert forall i :: 0 <= i < |s| - 1 ==> keep(s[1..][i]) by {
        forall i | 0 <= i < |s| - 1 ensures keep(s[1..][i]) {
          assert s[1..][i] == s[i + 1];
        }
      }
      assert s == [s[0]] + s[1..];
    }
    if forall i :: 0 <= i < |s| ==> !keep(s[i]) {
      assert forall i :: 0 <= i < |s| - 1 ==> !keep(s[1..][i]) by {
        forall i | 0 <= i < |s| - 1 ensures !keep(s[1..][i]) {
          assert s[1..][i] == s[i + 1];
        }
      }
    }
  }

  /** The multiplicity fact of `Filter` carries over one step: if `rest`
      keeps the count of every kept element of the tail and holds only tail
      elements, then putting back a kept head keeps the counts for all of
      `s`. */
  lemma FilterStepCounts<T>(s: seq<T>, keep: T -> bool, rest: seq<T>)
    requires |s| > 0
    requires forall i :: 0 <= i < |rest| ==> rest[i] in s[1..]
    requires forall i :: 0 <= i < |s| - 1 && keep(s[1..][i]) ==> multiset(rest)[s[1..][i]] == multiset(s[1..])[s[1..][i]]
    ensures var r := KeepHead(s, keep, rest);
      forall i :: 0 <= i < |s| && keep(s[i]) ==> multiset(r)[s[i]] == multiset(s)[s[i]]
  {
    var r := KeepHead(s, keep, rest);
    assert s == [s[0]] + s[1..];
    forall i | 0 <= i < |s| && keep(s[i])
      ensures multiset(r)[s[i]] == multiset(s)[s[i]]
    {
      if i > 0 {
        assert s[i] == s[1..][i - 1];
      } else if s[0] in s[1..] {
        var m :| 0 <= m < |s| - 1 && s[1..][m] == s[0];
      } else {
        assert multiset(rest)[s[0]] == 0;
      }
    }
  }

  /** Filtering depends only on what `keep` says about the elements. */
  lemma {:induction false} FilterSameVerdicts<T>(s: seq<T>, f: T -> bool, g: T -> bool)
    requires forall i :: 0 <= i < |s| ==> f(s[i]) == g(s[i])
    ensures Filter(s, f) == Filter(s, g)
    decreases |s|
  {
    if |s| > 0 {
      FilterSameVerdicts(s[1..], f, g);
    }
  }

  /** No element occurs twice. */
  predicate Distinct<T(==)>(s: seq<T>) {
    forall i, j :: 0 <= i < j < |s| ==> s[i] != s[j]
  }

  /** The elements of a subsequence all occur in the whole. */
  lemma {:induction false} SubsequenceMembers<T>(a: seq<T>, b: seq<T>)
    requires IsSubsequence(a, b)
    ensures forall k :: 0 <= k < |a| ==> a[k] in b
    decreases |b|
  {
    if |a| > 0 {
      if a[0] == b[0] && IsSubsequence(a[1..], b[1..]) {
        SubsequenceMembers(a[1..], b[1..]);
        assert forall k :: 1 <= k < |a| ==> a[k] == a[1..][k - 1];
      } else {
        SubsequenceMembers(a, b[1..]);
      }
    }
  }

  /** A subsequence of a list without repeats has no repeats either. */
  lemma {:induction false} SubsequenceKeepsDistinct<T>(a: seq<T>, b: seq<T>)
    requires IsSubsequence(a, b) && Distinct(b)
    ensures Distinct(a)
    decreases |b|
  {
    if |a| > 0 {
      assert Distinct(b[1..]) by {
        forall i, j | 0 <= i < j < |b| - 1 ensures b[1..][i] != b[1..][j] {
          assert b[1..][i] == b[i + 1] && b[1..][j] == b[j + 1];
        }
      }
      if a[0] == b[0] && IsSubsequence(a[1..], b[1..]) {
        SubsequenceKeepsDistinct(a[1..], b[1..]);
        SubsequenceMembers(a[1..], b[1..]);
        forall i, j | 0 <= i < j < |a| ensures a[i] != a[j] {
          assert a[j] == a[1..][j - 1];
          if i == 0 {
            var m :| 0 <= m < |b[1..]| && b[1..][m] == a[j];
            assert b[m + 1] == a[j];
          } else {
            assert a[i] == a[1..][i - 1];
          }
        }
      } else {
        SubsequenceKeepsDistinct(a, b[1..]);
      }
    }
  }

  /** `Array.prototype.map`. */
  function Map<A, B>(s: seq<A>, f: A -> B): (r: seq<B>)
    ensures |r| == |s|
    ensures forall i :: 0 <= i < |s| ==> r[i] == f(s[i])
  {
    if |s| == 0 then [] else [f(s[0])] + Map(s[1..], f)
  }

  /** Mapping keeps the subsequence relation. */
  lemma {:induction false} MapKeepsSubsequence<A, B>(a: seq<A>, b: seq<A>, f: A -> B)
    requires IsSubsequence(a, b)
    ensures IsSubsequence(Map(a, f), Map(b, f))
    decreases |b|
  {
    if |a| > 0 {
      assert Map(b, f)[1..] == Map(b[1..], f);
      if a[0] == b[0] && IsSubsequence(a[1..], b[1..]) {
        MapKeepsSubsequence(a[1..], b[1..], f);
        assert Map(a, f)[1..] == Map(a[1..], f);
      } else {
        MapKeepsSubsequence(a, b[1..], f);
      }
    }
  }

  /** `Array.prototype.findIndex`: the first index whose element satisfies
      `p`, or -1 when there is none. */
  function FindIndex<T>(s: seq<T>, p: T -> bool): (i: int)
    ensures -1 <= i < |s|
    ensures i == -1 <==> forall k :: 0 <= k < |s| ==> !p(s[k])
    ensures 0 <= i ==> p(s[i]) && forall k :: 0 <= k < i ==> !p(s[k])
  {
    if |s| == 0 then -1
    else if p(s[0]) then 0
    else
      var j := FindIndex(s[1..], p);
      if j == -1 then -1 else j + 1
  }

  /** `Array.prototype.find`: the first element satisfying `p`, if any. */
  function Find<T>(s: seq<T>, p: T -> bool): (r: Option<T>)
    ensures r.None? <==> forall k :: 0 <= k < |s| ==> !p(s[k])
    ensures r.Some? ==> r.value in s && p(r.value)
    ensures r.Some? ==> r.value == s[FindIndex(s, p)]
  {
    var i := FindIndex(s, p);
    if i == -1 then None else Some(s[i])
  }

  /** How `Array.prototype.slice` resolves one relative index against a
      length: a negative index counts from the end, then it is clamped to
      `[0, len]`. */
  function JsIndex(len: nat, rel: int): (r: nat)
    ensures r <= len
    ensures 0 <= rel <= len ==> r == rel
    ensures rel < 0 && len + rel >= 0 ==> r == len + rel
  {
    if rel < 0 then (if len + rel < 0 then 0 else len + rel)
    else if rel > len then len
    else rel
  }

  /** `Array.prototype.slice(start, end)`; an end at or before the start
      gives the empty array. */
  function JsSlice<T>(s: seq<T>, start: int, end: int): (r: seq<T>)
    ensures |r| <= |s|
  {
    var a := JsIndex(|s|, start);
    var b := JsIndex(|s|, end);
    if a >= b then [] else s[a..b]
  }
}
