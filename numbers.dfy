/**
 * Generation of the grid labels: the labels 1, 2, ... are collected into a vector
 * and shuffled in place. The random source is not modelled: every swap partner
 * the Fisher-Yates shuffle could draw is allowed.
 */
module Numbers {

  /** The integers lo, lo + 1, ..., hi - 1 (empty when hi <= lo). */
  function Range(lo: nat, hi: nat): (s: seq<nat>)
    ensures |s| == if lo <= hi then hi - lo else 0
    ensures forall k :: 0 <= k < |s| ==> s[k] == lo + k
  {
    if lo < hi then seq(hi - lo, k => lo + k) else []
  }

  /** `x as u8` on an unsigned integer keeps the low eight bits. */
  function CastU8(x: nat): (r: nat)
    ensures r < 256 && r <= x
    ensures x < 256 ==> r == x
  {
    x % 256
  }

  ghost predicate IsPermutationOf(s: seq<nat>, t: seq<nat>)
  {
    multiset(s) == multiset(t)
  }

  /** Every value appears in a range at most once, exactly once inside its bounds. */
  lemma {:induction false} RangeMultiplicity(lo: nat, hi: nat, v: nat)
    requires lo <= hi
    ensures multiset(Range(lo, hi))[v] == if lo <= v < hi then 1 else 0
    decreases hi - lo
  {
    if lo < hi {
      assert Range(lo, hi) == [lo] + Range(lo + 1, hi);
      RangeMultiplicity(lo + 1, hi, v);
    } else {
      assert Range(lo, hi) == [];
    }
  }

  /** A value repeated at two positions of a sequence occurs at least twice in it. */
  lemma Repeated(s: seq<nat>, i: nat, j: nat)
    requires i < j < |s| && s[i] == s[j]
    ensures multiset(s)[s[i]] >= 2
  {
    assert s == s[..i] + [s[i]] + s[i + 1..j] + [s[j]] + s[j + 1..];
  }

  /**
   * What it means for a label vector to be a permutation of 1..=n: it has n
   * entries, each in 1..=n, pairwise distinct, and every label occurs.
   */
  lemma PermutationFacts(s: seq<nat>, n: nat)
    requires IsPermutationOf(s, Range(1, n + 1))
    ensures |s| == n
    ensures forall k :: 0 <= k < |s| ==> 1 <= s[k] <= n
    ensures forall i, j :: 0 <= i < j < |s| ==> s[i] != s[j]
    ensures forall v :: 1 <= v <= n ==> v in s
  {
    assert |multiset(s)| == |s|;
    forall k | 0 <= k < |s|
      ensures 1 <= s[k] <= n
    {
      RangeMultiplicity(1, n + 1, s[k]);
      assert s[k] in multiset(s);
    }
    forall i, j | 0 <= i < j < |s|
      ensures s[i] != s[j]
    {
      if s[i] == s[j] {
        Repeated(s, i, j);
        RangeMultiplicity(1, n + 1, s[i]);
        assert false;
      }
    }
    forall v | 1 <= v <= n
      ensures v in s
    {
      RangeMultiplicity(1, n + 1, v);
      assert v in multiset(s);
    }
  }

  method Swap(a: array<nat>, i: nat, j: nat)
    requires i < a.Length && j < a.Length
    modifies a
    ensures a[..] == old(a[..])[i := old(a[j])][j := old(a[i])]
    ensures multiset(a[..]) == multiset(old(a[..]))
  {
    a[i], a[j] := a[j], a[i];
  }

  /**
   * `SliceRandom::shuffle`: for i from the last index down to 1, swap a[i] with
   * a[j] for some j in 0..=i. The choice of j is left open.
   */
  method Shuffle(a: array<nat>)
    modifies a
    ensures multiset(a[..]) == multiset(old(a[..]))
  {
    var i := a.Length;
    while i > 1
      invariant 0 <= i <= a.Length
      invariant multiset(a[..]) == multiset(old(a[..]))
    {
      i := i - 1;
      var j :| 0 <= j <= i;
      Swap(a, i, j);
    }
  }

  /**
   * `(lo..hi).collect()` followed by `shuffle`: a vector holding each of
   * lo, ..., hi - 1 exactly once, in an order the model leaves open.
   */
  method Shuffled(lo: nat, hi: nat) returns (numbers: seq<nat>)
    ensures IsPermutationOf(numbers, Range(lo, hi))
  {
    var len := if lo < hi then hi - lo else 0;
    var a := new nat[len];
    var k := 0;
    while k < len
      invariant 0 <= k <= len
      invariant forall m :: 0 <= m < k ==> a[m] == lo + m
    {
      a[k] := lo + k;
      k := k + 1;
    }
    assert a[..] == Range(lo, hi);
    Shuffle(a);
    numbers := a[..];
  }

  /**
   * The labels of a w-by-h grid as the Bevy versions generate them,
   * `(1u8..=(WIDTH * HEIGHT) as u8)` shuffled: with at most 255 tiles
   * they are a permutation of 1..=w*h.
   */
  method GridLabels(w: nat, h: nat) returns (numbers: seq<nat>)
    ensures IsPermutationOf(numbers, Range(1, CastU8(w * h) + 1))
    ensures forall k :: 0 <= k < |numbers| ==> 1 <= numbers[k] <= CastU8(w * h) <= w * h
    ensures w * h < 256 ==> |numbers| == w * h
  {
    numbers := Shuffled(1, CastU8(w * h) + 1);
    PermutationFacts(numbers, CastU8(w * h));
  }
}
