/** When the backtracking matcher's answer is the longest match.

    A backtracking engine does not look for the longest match: it tries
    a greedy repetition's longest run and an optional group's presence
    first, and the first way that lets the rest of the pattern match
    wins. When taking more never lets the rest of the pattern end
    earlier, that first answer is also the longest one. `Greedy` states
    this of a pattern on a text, and the lemmas below derive it element
    by element, from the last element to the first, each under the
    condition its kind of element needs. */
module GreedyMatch {
  import opened Regex

  /** e is the furthest end of any match of p from i. */
  ghost predicate Longest(p: Pattern, t: string, i: nat, e: nat) {
    Accepts(p, t, i, e) && forall e': nat :: Accepts(p, t, i, e') ==> e' <= e
  }

  ghost predicate GreedyAt(p: Pattern, t: string, i: nat) {
    i <= |t| && MatchFrom(p, t, i).Some? ==> Longest(p, t, i, MatchFrom(p, t, i).value)
  }

  /** From every position of t, the matcher's answer for p is the
      longest match of p there. */
  ghost predicate Greedy(p: Pattern, t: string) {
    forall i: nat :: GreedyAt(p, t, i)
  }

  /** Taking the optional group never ends the match earlier than
      skipping it: every way to skip it ends no later than any way to
      take it. */
  ghost predicate OptionalDominates(p: Pattern, k: nat, t: string) {
    k < |p| && p[k].Optional? && EndsNoLater(p[k + 1..], p[k].group + p[k + 1..], t)
  }

  /** Every match of a ends no later than every match of b from the same
      position. */
  ghost predicate EndsNoLater(a: Pattern, b: Pattern, t: string) {
    forall i: nat, e1: nat, e2: nat :: Accepts(b, t, i, e1) && Accepts(a, t, i, e2) ==> e2 <= e1
  }

  /** A longer run of the repetition never lets the rest of the pattern
      end earlier than a shorter run does. */
  ghost predicate RepeatDominatesAt(p: Pattern, k: nat, t: string, i: nat)
    requires k < |p| && p[k].Repeat?
  {
    LongerRunDominates(p[k], p[k + 1..], t, i)
  }

  ghost predicate LongerRunDominates(el: Elem, rest: Pattern, t: string, i: nat)
    requires el.Repeat?
  {
    forall j1: nat, j2: nat, e1: nat, e2: nat ::
      && i + el.min <= j1 < j2 && Within(j2 - i, el.max) && AllIn(el.items, t, i, j2)
      && Accepts(rest, t, j1, e1) && Accepts(rest, t, j2, e2)
      ==> e1 <= e2
  }

  ghost predicate RepeatDominates(p: Pattern, k: nat, t: string) {
    k < |p| && p[k].Repeat? && forall i: nat :: RepeatDominatesAt(p, k, t, i)
  }

  lemma Suffix(p: Pattern, k: nat)
    requires k < |p|
    ensures p[k..] != [] && p[k..][0] == p[k] && p[k..][1..] == p[k + 1..]
  {
  }

  /** The empty pattern matches only the empty slice. */
  lemma GreedyEnd(p: Pattern, t: string)
    ensures Greedy(p[|p|..], t)
  {
    assert p[|p|..] == [];
  }

  /** A single class or a word boundary keeps the property. */
  lemma GreedyClass(p: Pattern, t: string, k: nat)
    requires k < |p| && (p[k].Class? || p[k].WordBoundary?) && Greedy(p[k + 1..], t)
    ensures Greedy(p[k..], t)
  {
    var q := p[k..];
    Suffix(p, k);
    forall i: nat | i <= |t| && MatchFrom(q, t, i).Some?
      ensures Longest(q, t, i, MatchFrom(q, t, i).value)
    {
      var next := if q[0].Class? then i + 1 else i;
      assert GreedyAt(q[1..], t, next);
    }
  }

  /** An optional group keeps the property when taking it dominates
      skipping it. */
  lemma GreedyOptional(p: Pattern, t: string, k: nat)
    requires OptionalDominates(p, k, t)
    requires Greedy(p[k].group + p[k + 1..], t) && Greedy(p[k + 1..], t)
    ensures Greedy(p[k..], t)
  {
    var q := p[k..];
    Suffix(p, k);
    var taken := p[k].group + p[k + 1..];
    forall i: nat | i <= |t| && MatchFrom(q, t, i).Some?
      ensures Longest(q, t, i, MatchFrom(q, t, i).value)
    {
      assert GreedyAt(taken, t, i) && GreedyAt(q[1..], t, i);
      if MatchFrom(taken, t, i).None? {
        forall e': nat ensures !Accepts(taken, t, i, e') {
          if Accepts(taken, t, i, e') {
            MatchComplete(taken, t, i, e');
          }
        }
      }
    }
  }

  /** Where the backtracking of a repetition stops: at the longest run j
      (of at most k characters) after which the rest matches. */
  lemma {:induction false} TryRepeatPicks(q: Pattern, t: string, i: nat, k: nat) returns (j: nat)
    requires q != [] && q[0].Repeat? && i + k <= |t| && TryRepeat(q, t, i, k).Some?
    ensures i + q[0].min <= j <= i + k && MatchFrom(q[1..], t, j) == TryRepeat(q, t, i, k)
    ensures forall j' :: j < j' <= i + k ==> MatchFrom(q[1..], t, j').None?
    decreases k
  {
    if MatchFrom(q[1..], t, i + k).Some? {
      j := i + k;
    } else {
      j := TryRepeatPicks(q, t, i, k - 1);
    }
  }

  /** No run of the class from i within the bound is longer than the
      greedy one. */
  lemma RunLengthMax(items: seq<ClassItem>, t: string, i: nat, b: Bound, j: nat)
    requires i <= |t| && AllIn(items, t, i, j) && Within(j - i, b)
    ensures j <= i + RunLength(items, t, i, b)
  {
    var n := RunLength(items, t, i, b);
    if i + n < j {
      WithinSmaller(n + 1, j - i, b);
    }
  }

  /** A repetition keeps the property when a longer run dominates a
      shorter one. */
  lemma GreedyRepeat(p: Pattern, t: string, k: nat)
    requires RepeatDominates(p, k, t) && Greedy(p[k + 1..], t)
    ensures Greedy(p[k..], t)
  {
    var q := p[k..];
    Suffix(p, k);
    forall i: nat | i <= |t| && MatchFrom(q, t, i).Some?
      ensures Longest(q, t, i, MatchFrom(q, t, i).value)
    {
      RepeatLongest(p, t, k, i);
    }
  }

  lemma RepeatLongest(p: Pattern, t: string, k: nat, i: nat)
    requires RepeatDominates(p, k, t) && Greedy(p[k + 1..], t)
    requires i <= |t| && MatchFrom(p[k..], t, i).Some?
    ensures Longest(p[k..], t, i, MatchFrom(p[k..], t, i).value)
  {
    var q := p[k..];
    Suffix(p, k);
    var items, lo, hi := q[0].items, q[0].min, q[0].max;
    var n := RunLength(items, t, i, hi);
    var e := MatchFrom(q, t, i).value;
    var j := TryRepeatPicks(q, t, i, n);
    MatchSound(q, t, i);
    MatchSound(q[1..], t, j);
    assert GreedyAt(q[1..], t, j);
    AllInPrefix(items, t, i, i + n, j);
    WithinSmaller(j - i, n, hi);
    assert RepeatDominatesAt(p, k, t, i);
    forall e': nat | Accepts(q, t, i, e') ensures e' <= e {
      var j': nat :| i + lo <= j' && Within(j' - i, hi) && AllIn(items, t, i, j') && Accepts(q[1..], t, j', e');
      RunLengthMax(items, t, i, hi, j');
      AcceptsEnds(q[1..], t, j', e');
      MatchComplete(q[1..], t, j', e');
    }
  }

  /** A repetition of exactly n characters has only one run to try. */
  lemma ExactDominates(p: Pattern, t: string, k: nat)
    requires k < |p| && p[k].Repeat? && p[k].max == AtMost(p[k].min)
    ensures RepeatDominates(p, k, t)
  {
  }

  /** A repetition followed by nothing but word boundaries ends where the
      run ends. */
  lemma LastRepeatDominates(p: Pattern, t: string, k: nat)
    requires k < |p| && p[k].Repeat?
    requires forall m :: k < m < |p| ==> p[m].WordBoundary?
    ensures RepeatDominates(p, k, t)
  {
    var rest := p[k + 1..];
    forall i: nat ensures RepeatDominatesAt(p, k, t, i) {
      forall j: nat, e: nat | Accepts(rest, t, j, e) ensures e == j {
        BoundariesEnd(rest, t, j, e);
      }
    }
  }

  lemma {:induction false} BoundariesEnd(p: Pattern, t: string, i: nat, e: nat)
    requires forall m :: 0 <= m < |p| ==> p[m].WordBoundary?
    requires Accepts(p, t, i, e)
    ensures e == i
    decreases |p|
  {
    if p != [] {
      BoundariesEnd(p[1..], t, i, e);
    }
  }

  /** The characters that can begin a match of p (any character, when p
      can match the empty slice). */
  predicate CanStart(p: Pattern, c: char)
    decreases Size(p)
  {
    if p == [] then true
    else
      match p[0]
      case Class(items) => InClass(items, c)
      case Repeat(items, lo, _) => InClass(items, c) || (lo == 0 && CanStart(p[1..], c))
      case Optional(g) =>
        SizeConcat(g, p[1..]);
        CanStart(g + p[1..], c) || CanStart(p[1..], c)
      case WordBoundary => CanStart(p[1..], c)
  }

  /** A match that starts inside the text starts with a character that
      can begin one. */
  lemma {:induction false} AcceptsStart(p: Pattern, t: string, i: nat, e: nat)
    requires Accepts(p, t, i, e) && i < |t|
    ensures CanStart(p, t[i])
    decreases Size(p)
  {
    if p != [] {
      match p[0]
      case Class(items) =>
      case Repeat(items, lo, hi) =>
        var j: nat :| i + lo <= j && Within(j - i, hi) && AllIn(items, t, i, j) && Accepts(p[1..], t, j, e);
        if j == i {
          AcceptsStart(p[1..], t, i, e);
        }
      case Optional(g) =>
        SizeConcat(g, p[1..]);
        if Accepts(g + p[1..], t, i, e) {
          AcceptsStart(g + p[1..], t, i, e);
        } else {
          AcceptsStart(p[1..], t, i, e);
        }
      case WordBoundary =>
        AcceptsStart(p[1..], t, i, e);
    }
  }

  /** A repetition whose characters cannot begin the rest of the pattern
      has only one run after which the rest can match. */
  lemma DisjointDominates(p: Pattern, t: string, k: nat)
    requires k < |p| && p[k].Repeat?
    requires forall c :: InClass(p[k].items, c) ==> !CanStart(p[k + 1..], c)
    ensures RepeatDominates(p, k, t)
  {
    var rest, items := p[k + 1..], p[k].items;
    forall i: nat ensures RepeatDominatesAt(p, k, t, i) {
      forall j1: nat, j2: nat, e1: nat | j1 < j2 && AllIn(items, t, i, j2) && i <= j1 && Accepts(rest, t, j1, e1)
        ensures false
      {
        AcceptsStart(rest, t, j1, e1);
      }
    }
  }

  /** An optional group followed by nothing but word boundaries: skipping
      it ends the match where it starts. */
  lemma LastOptionalDominates(p: Pattern, t: string, k: nat)
    requires k < |p| && p[k].Optional?
    requires forall m :: k < m < |p| ==> p[m].WordBoundary?
    ensures OptionalDominates(p, k, t)
  {
    var rest, taken := p[k + 1..], p[k].group + p[k + 1..];
    forall i: nat, e1: nat, e2: nat | Accepts(taken, t, i, e1) && Accepts(rest, t, i, e2)
      ensures e2 <= e1
    {
      BoundariesEnd(rest, t, i, e2);
      AcceptsEnds(taken, t, i, e1);
    }
  }
  /** A run of a class ends at or before the first character outside it. */
  lemma StopsBefore(items: seq<ClassItem>, t: string, a: nat, b: nat, x: nat)
    requires AllIn(items, t, a, b) && a <= x < |t| && !InClass(items, t[x])
    ensures b <= x
  {
  }

  /** The leftmost match, and the longest one of those starting there. */
  ghost predicate LeftmostLongest(p: Pattern, t: string, from: nat, m: Span) {
    Leftmost(p, t, from, m) && forall e: nat :: Accepts(p, t, m.start, e) ==> e <= m.end
  }

  /** For a pattern whose matcher answers with the longest match, the
      search returns the leftmost match and, of the matches starting
      there, the longest; and nothing exactly when nothing matches. */
  lemma {:induction false} FirstMatchLongest(p: Pattern, t: string, from: nat)
    requires Greedy(p, t)
    ensures match FirstMatch(p, t, from)
            case Some(m) => LeftmostLongest(p, t, from, m)
            case None => NoMatch(p, t, from)
    decreases |t| + 1 - from
  {
    FirstMatchSpec(p, t, from);
    if from <= |t| {
      assert GreedyAt(p, t, from);
      if MatchFrom(p, t, from).None? {
        FirstMatchLongest(p, t, from + 1);
      }
    }
  }
  /** For such a pattern, element 0 of `match` is the leftmost match and
      the longest of those starting there, verbatim; there is none
      exactly when nothing matches. */
  lemma FirstMatchTextLongest(p: Pattern, t: string)
    requires Greedy(p, t)
    ensures FirstMatchText(p, t).None? <==> NoMatch(p, t, 0)
    ensures FirstMatchText(p, t).Some? ==>
              exists m :: LeftmostLongest(p, t, 0, m) && FirstMatchText(p, t).value == t[m.start..m.end]
  {
    FirstMatchLongest(p, t, 0);
    if FirstMatch(p, t, 0).Some? {
      var m := FirstMatch(p, t, 0).value;
      assert LeftmostLongest(p, t, 0, m);
      assert !NoMatch(p, t, 0) by {
        assert m.start <= |t| && Accepts(p, t, m.start, m.end);
      }
    }
  }
}
