/** Array.prototype.filter over immutable sequences, with the facts the
    model needs about it: the result is the order-preserving selection
    of exactly the elements the predicate keeps. */
module Seqs {

  function Filter<T>(s: seq<T>, keep: T -> bool): (r: seq<T>)
    ensures |r| <= |s|
    ensures forall x :: x in r ==> x in s && keep(x)
    ensures forall x :: x in s && keep(x) ==> x in r
    decreases |s|
  {
    if s == [] then []
    else (if keep(s[0]) then [s[0]] else []) + Filter(s[1..], keep)
  }

  ghost predicate Increasing(idx: seq<nat>) {
    forall k, l :: 0 <= k < l < |idx| ==> idx[k] < idx[l]
  }

  /** idx lists, in increasing order, the positions of s that sub is made of. */
  ghost predicate Embeds<T>(sub: seq<T>, s: seq<T>, idx: seq<nat>) {
    && |idx| == |sub|
    && Increasing(idx)
    && forall k :: 0 <= k < |idx| ==> idx[k] < |s| && sub[k] == s[idx[k]]
  }

  ghost predicate IsSubsequence<T>(sub: seq<T>, s: seq<T>) {
    exists idx :: Embeds(sub, s, idx)
  }

  function Shift(idx: seq<nat>): (r: seq<nat>)
    ensures |r| == |idx| && forall k :: 0 <= k < |idx| ==> r[k] == idx[k] + 1
  {
    seq(|idx|, k requires 0 <= k < |idx| => idx[k] + 1)
  }

  /** Filter keeps the elements the predicate accepts, in their original
      order, and a position of s is used exactly when its element is
      kept: the result is the kept elements, in order, and nothing else. */
  lemma {:induction false} FilterPositions<T>(s: seq<T>, keep: T -> bool) returns (idx: seq<nat>)
    ensures Embeds(Filter(s, keep), s, idx)
    ensures forall j :: 0 <= j < |s| ==> (keep(s[j]) <==> j in idx)
    decreases |s|
  {
    if s == [] {
      return [];
    }
    var rest := FilterPositions(s[1..], keep);
    var shifted := Shift(rest);
    ShiftEmbeds(Filter(s[1..], keep), s, rest);
    if keep(s[0]) {
      ConsEmbeds(Filter(s[1..], keep), s, shifted);
      idx := [0] + shifted;
      assert Filter(s, keep) == [s[0]] + Filter(s[1..], keep);
    } else {
      idx := shifted;
      assert Filter(s, keep) == Filter(s[1..], keep);
    }
    forall j | 0 < j < |s| ensures keep(s[j]) <==> j in idx {
      assert s[j] == s[1..][j - 1];
      assert j in idx <==> j - 1 in rest;
    }
  }

  lemma ShiftEmbeds<T>(sub: seq<T>, s: seq<T>, idx: seq<nat>)
    requires |s| > 0 && Embeds(sub, s[1..], idx)
    ensures Embeds(sub, s, Shift(idx))
    ensures 0 !in Shift(idx)
    ensures forall j :: 0 < j ==> (j in Shift(idx) <==> j - 1 in idx)
  {
    var sh := Shift(idx);
    forall j | 0 < j ensures j in sh <==> j - 1 in idx {
      if j - 1 in idx {
        var k :| 0 <= k < |idx| && idx[k] == j - 1;
        assert sh[k] == j;
      }
    }
  }

  lemma ConsEmbeds<T>(sub: seq<T>, s: seq<T>, idx: seq<nat>)
    requires |s| > 0 && Embeds(sub, s, idx) && 0 !in idx
    ensures Embeds([s[0]] + sub, s, [0] + idx)
  {
    var idx' := [0] + idx;
    forall k | 0 < k < |idx'| ensures 0 < idx'[k] {
      assert idx'[k] == idx[k - 1];
      assert idx[k - 1] in idx;
    }
  }

  lemma FilterIsSubsequence<T>(s: seq<T>, keep: T -> bool)
    ensures IsSubsequence(Filter(s, keep), s)
  {
    var idx := FilterPositions(s, keep);
  }

  /** Filtering twice is filtering once by both predicates. */
  lemma {:induction false} FilterTwice<T>(s: seq<T>, p: T -> bool, q: T -> bool, both: T -> bool)
    requires forall x :: both(x) == (p(x) && q(x))
    ensures Filter(Filter(s, p), q) == Filter(s, both)
    decreases |s|
  {
    if s != [] {
      FilterTwice(s[1..], p, q, both);
      var head := if p(s[0]) then [s[0]] else [];
      FilterAppend(head, Filter(s[1..], p), q);
      if p(s[0]) {
        assert Filter(head, q) == if q(s[0]) then [s[0]] else [] by {
          assert head[1..] == [];
        }
      }
    }
  }

  lemma {:induction false} FilterAppend<T>(a: seq<T>, b: seq<T>, keep: T -> bool)
    ensures Filter(a + b, keep) == Filter(a, keep) + Filter(b, keep)
    decreases |a|
  {
    if a == [] {
      assert a + b == b;
    } else {
      assert (a + b)[0] == a[0];
      assert (a + b)[1..] == a[1..] + b;
      FilterAppend(a[1..], b, keep);
    }
  }

  /** A predicate that holds of every element keeps everything. */
  lemma {:induction false} FilterKeepsAll<T>(s: seq<T>, keep: T -> bool)
    requires forall x :: x in s ==> keep(x)
    ensures Filter(s, keep) == s
    decreases |s|
  {
    if s != [] {
      assert s[0] in s;
      assert forall x :: x in s[1..] ==> x in s;
      FilterKeepsAll(s[1..], keep);
      assert [s[0]] + s[1..] == s;
    }
  }

  /** 1 for true, 0 for false: how many lines a conditional write adds. */
  function Indicator(b: bool): nat {
    if b then 1 else 0
  }

  /** Array.prototype.map: f applied to every element, in order. */
  function Map<A, B>(s: seq<A>, f: A -> B): (r: seq<B>)
    ensures |r| == |s|
    ensures forall i :: 0 <= i < |s| ==> r[i] == f(s[i])
    decreases |s|
  {
    if s == [] then [] else [f(s[0])] + Map(s[1..], f)
  }

  /** The number of elements of s that satisfy p. */
  function Count<T>(s: seq<T>, p: T -> bool): nat
    decreases |s|
  {
    if s == [] then 0 else (if p(s[0]) then 1 else 0) + Count(s[1..], p)
  }

  lemma {:induction false} CountIsFilterLength<T>(s: seq<T>, p: T -> bool)
    ensures Count(s, p) == |Filter(s, p)|
    decreases |s|
  {
    if s != [] {
      CountIsFilterLength(s[1..], p);
    }
  }

  lemma {:induction false} CountAppend<T>(a: seq<T>, b: seq<T>, p: T -> bool)
    ensures Count(a + b, p) == Count(a, p) + Count(b, p)
    decreases |a|
  {
    if a == [] {
      assert a + b == b;
    } else {
      assert (a + b)[0] == a[0];
      assert (a + b)[1..] == a[1..] + b;
      CountAppend(a[1..], b, p);
    }
  }
}
