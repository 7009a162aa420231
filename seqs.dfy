/** The two list operations the component uses: Array#filter, and the de-duplication
    `[...new Set(xs)]`, which keeps each value once, in first-insertion order. */
module Seqs {

  /** `idx` places the elements of `sub` in `s` at strictly increasing positions: `sub`
      is `s` with some elements dropped, nothing reordered, repeated or added. */
  ghost predicate IsEmbedding<T>(sub: seq<T>, s: seq<T>, idx: seq<nat>)
  {
    && |idx| == |sub|
    && (forall k :: 0 <= k < |idx| ==> idx[k] < |s| && sub[k] == s[idx[k]])
    && (forall k, l :: 0 <= k < l < |idx| ==> idx[k] < idx[l])
  }

  predicate NoDuplicates<T(==)>(s: seq<T>)
  {
    forall i, j :: 0 <= i < j < |s| ==> s[i] != s[j]
  }

  /** Array#filter: the elements of `s` that `keep` accepts. */
  function Filter<T(!new)>(s: seq<T>, keep: T -> bool): (r: seq<T>)
    ensures |r| <= |s|
    ensures forall x :: x in r <==> x in s && keep(x)
  {
    if s == [] then []
    else
      var rest := Filter(s[1..], keep);
      assert forall x :: x in s <==> x == s[0] || x in s[1..];
      if keep(s[0]) then [s[0]] + rest else rest
  }

  /** Every position moved one place to the right. */
  function Shift(idx: seq<nat>): (r: seq<nat>)
    ensures |r| == |idx| && forall k :: 0 <= k < |idx| ==> r[k] == idx[k] + 1
  {
    seq(|idx|, k requires 0 <= k < |idx| => idx[k] + 1)
  }

  /** A position is in the shifted sequence iff its predecessor is in the original. */
  lemma ShiftMembership(idx: seq<nat>)
    ensures 0 !in Shift(idx)
    ensures forall i: nat :: i >= 1 ==> (i in Shift(idx) <==> i - 1 in idx)
  {
    forall i: nat | i >= 1 && i - 1 in idx ensures i in Shift(idx) {
      var k :| 0 <= k < |idx| && idx[k] == i - 1;
      assert Shift(idx)[k] == i;
    }
  }

  /** The positions of `s` whose elements `keep` accepts, in increasing order. */
  function KeptPositions<T>(s: seq<T>, keep: T -> bool): (idx: seq<nat>)
    ensures forall k :: 0 <= k < |idx| ==> idx[k] < |s|
    ensures forall k, l :: 0 <= k < l < |idx| ==> idx[k] < idx[l]
  {
    if s == [] then []
    else
      var shifted := Shift(KeptPositions(s[1..], keep));
      if keep(s[0]) then [0] + shifted else shifted
  }

  /** A position is among the kept positions exactly when its element is accepted. */
  lemma {:induction false} KeptPositionsExact<T>(s: seq<T>, keep: T -> bool)
    ensures forall i :: 0 <= i < |s| ==> (i in KeptPositions(s, keep) <==> keep(s[i]))
  {
    if s != [] {
      var tail := KeptPositions(s[1..], keep);
      KeptPositionsExact(s[1..], keep);
      ShiftMembership(tail);
      assert forall i :: 1 <= i < |s| ==> s[1..][i - 1] == s[i];
    }
  }

  /** An embedding into the tail of `s`, shifted by one, is an embedding into `s` that
      avoids position 0. */
  lemma ShiftEmbedding<T>(sub: seq<T>, s: seq<T>, idx: seq<nat>)
    requires s != [] && IsEmbedding(sub, s[1..], idx)
    ensures IsEmbedding(sub, s, Shift(idx))
    ensures forall k :: 0 <= k < |idx| ==> Shift(idx)[k] > 0
  {
    assert forall k :: 0 <= k < |idx| ==> s[Shift(idx)[k]] == s[1..][idx[k]];
  }

  /** An embedding that avoids position 0 extends to one that also places s[0] first. */
  lemma ConsEmbedding<T>(sub: seq<T>, s: seq<T>, idx: seq<nat>)
    requires s != [] && IsEmbedding(sub, s, idx)
    requires forall k :: 0 <= k < |idx| ==> idx[k] > 0
    ensures IsEmbedding([s[0]] + sub, s, [0] + idx)
  {
  }

  /** The result of Filter sits in `s` exactly at the accepted positions, in order:
      nothing is reordered, repeated or invented, and no accepted element is dropped. */
  lemma {:induction false} FilterEmbedding<T(!new)>(s: seq<T>, keep: T -> bool)
    ensures IsEmbedding(Filter(s, keep), s, KeptPositions(s, keep))
  {
    if s != [] {
      var rest := Filter(s[1..], keep);
      var tail := KeptPositions(s[1..], keep);
      FilterEmbedding(s[1..], keep);
      ShiftEmbedding(rest, s, tail);
      if keep(s[0]) {
        ConsEmbedding(rest, s, Shift(tail));
      }
    }
  }

  /** Filter keeps everything exactly when every element is accepted. */
  lemma {:induction false} FilterKeepsAll<T(!new)>(s: seq<T>, keep: T -> bool)
    ensures Filter(s, keep) == s <==> forall i :: 0 <= i < |s| ==> keep(s[i])
  {
    if s != [] {
      FilterKeepsAll(s[1..], keep);
      if forall i :: 0 <= i < |s| ==> keep(s[i]) {
        assert forall i :: 0 <= i < |s[1..]| ==> keep(s[1..][i]) by {
          forall i | 0 <= i < |s[1..]| ensures keep(s[1..][i]) {
            assert s[1..][i] == s[i + 1];
          }
        }
      }
      if Filter(s, keep) == s {
        forall i | 0 <= i < |s| ensures keep(s[i]) {
          assert s[i] in Filter(s, keep);
        }
      }
    }
  }

  /** Filtering an already filtered list again changes nothing. */
  lemma {:induction false} FilterIdempotent<T(!new)>(s: seq<T>, keep: T -> bool)
    ensures Filter(Filter(s, keep), keep) == Filter(s, keep)
  {
    var r := Filter(s, keep);
    FilterKeepsAll(r, keep);
    assert forall i :: 0 <= i < |r| ==> r[i] in r;
  }

  /** Filter only looks at the verdicts on the elements of `s`. */
  lemma {:induction false} FilterCongruent<T(!new)>(s: seq<T>, f: T -> bool, g: T -> bool)
    requires forall i :: 0 <= i < |s| ==> f(s[i]) == g(s[i])
    ensures Filter(s, f) == Filter(s, g)
  {
    if s != [] {
      assert forall i :: 0 <= i < |s[1..]| ==> s[1..][i] == s[i + 1];
      FilterCongruent(s[1..], f, g);
    }
  }

  /** The predicate accepting what both `f` and `g` accept. */
  function Both<T>(f: T -> bool, g: T -> bool): T -> bool
  {
    x => f(x) && g(x)
  }

  /** Two filters in a row keep the elements both accept. */
  lemma {:induction false} FilterFuse<T(!new)>(s: seq<T>, f: T -> bool, g: T -> bool)
    ensures Filter(Filter(s, f), g) == Filter(s, Both(f, g))
  {
    if s != [] {
      FilterFuse(s[1..], f, g);
      if f(s[0]) {
        assert Filter(s, f) == [s[0]] + Filter(s[1..], f);
        assert ([s[0]] + Filter(s[1..], f))[1..] == Filter(s[1..], f);
      }
    }
  }

  /** Two filters in a row give the same result in either order. */
  lemma {:induction false} FilterCommute<T(!new)>(s: seq<T>, f: T -> bool, g: T -> bool)
    ensures Filter(Filter(s, f), g) == Filter(Filter(s, g), f)
  {
    FilterFuse(s, f, g);
    FilterFuse(s, g, f);
    FilterCongruent(s, Both(f, g), Both(g, f));
  }

  /** `[...new Set(s)]`: each value of `s` once, in the order of its first occurrence. */
  function Dedup<T(==,!new)>(s: seq<T>): (r: seq<T>)
    ensures NoDuplicates(r)
    ensures forall x :: x in r <==> x in s
    decreases |s|
  {
    if s == [] then []
    else
      var prefix := s[..|s| - 1];
      var r := Dedup(prefix);
      assert forall x :: x in s <==> x in prefix || x == s[|s| - 1];
      if s[|s| - 1] in r then r else r + [s[|s| - 1]]
  }

  /** `idx` places `sub` in `s` at increasing positions, each the first occurrence of
      its value. */
  ghost predicate AtFirstOccurrences<T>(sub: seq<T>, s: seq<T>, idx: seq<nat>)
  {
    IsEmbedding(sub, s, idx) && forall k :: 0 <= k < |idx| ==> sub[k] !in s[..idx[k]]
  }

  /** Placing at first occurrences in a prefix of `s` is placing at first occurrences in `s`. */
  lemma FirstOccurrencesInPrefix<T>(sub: seq<T>, s: seq<T>, n: nat, idx: seq<nat>)
    requires n <= |s| && AtFirstOccurrences(sub, s[..n], idx)
    ensures AtFirstOccurrences(sub, s, idx)
  {
    assert forall k :: 0 <= k < |idx| ==> s[..idx[k]] == s[..n][..idx[k]];
  }

  /** A value that does not occur before the last position has its first occurrence there. */
  lemma FirstOccurrencesAppend<T>(sub: seq<T>, s: seq<T>, idx: seq<nat>)
    requires s != [] && s[|s| - 1] !in s[..|s| - 1]
    requires AtFirstOccurrences(sub, s, idx)
    requires forall k :: 0 <= k < |idx| ==> idx[k] < |s| - 1
    ensures AtFirstOccurrences(sub + [s[|s| - 1]], s, idx + [|s| - 1])
  {
  }

  /** Dedup keeps each value at its first occurrence in `s`, and those occurrences
      appear in the result in increasing order. */
  lemma {:induction false} DedupFirstOccurrences<T(!new)>(s: seq<T>) returns (idx: seq<nat>)
    ensures AtFirstOccurrences(Dedup(s), s, idx)
    decreases |s|
  {
    if s == [] {
      idx := [];
    } else {
      var n := |s| - 1;
      var before := DedupFirstOccurrences(s[..n]);
      FirstOccurrencesInPrefix(Dedup(s[..n]), s, n, before);
      if s[n] in Dedup(s[..n]) {
        idx := before;
      } else {
        FirstOccurrencesAppend(Dedup(s[..n]), s, before);
        idx := before + [n];
      }
    }
  }
}
