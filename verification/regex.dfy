/** The fragment of ECMAScript regular expressions that the contact
    manager's four patterns use, with the engine's backtracking order:
    bracket classes, greedy counted repetition of a class, greedy
    optional groups and the word boundary \b. No pattern here uses the
    `i` or `u` flag.

    `MatchFrom` is the matcher: the end of the first match, in
    backtracking order, of a pattern anchored at a position. `Accepts` is
    its declarative reference: the set of all ways the pattern can match
    a slice. `FirstMatch` is what `String.prototype.match` with the `g`
    flag returns as element 0, and what `RegExp.prototype.exec` finds
    from a `lastIndex`. */
module Regex {
  import opened Text
  import opened Maybe

  datatype ClassItem = Single(c: char) | Range(lo: char, hi: char) | Whitespace

  /** The upper bound of a counted repetition: {m,n} or {m,}. */
  datatype Bound = AtMost(n: nat) | Unbounded

  datatype Elem =
    | Class(items: seq<ClassItem>)                     // one character of [...]
    | Repeat(items: seq<ClassItem>, min: nat, max: Bound)  // [...]{min,max}, greedy
    | Optional(group: seq<Elem>)                       // (?:...)?, greedy
    | WordBoundary                                     // \b

  type Pattern = seq<Elem>

  /** A match of a whole pattern: t[start..end]. */
  datatype Span = Span(start: nat, end: nat)

  function Lit(c: char): Elem {
    Class([Single(c)])
  }

  predicate ItemHas(item: ClassItem, c: char) {
    match item
    case Single(d) => c == d
    case Range(lo, hi) => lo <= c <= hi
    case Whitespace => IsSpace(c)
  }

  predicate InClass(items: seq<ClassItem>, c: char) {
    exists k :: 0 <= k < |items| && ItemHas(items[k], c)
  }

  predicate Within(n: nat, b: Bound) {
    match b
    case AtMost(m) => n <= m
    case Unbounded => true
  }

  /** Every character of t[i..j] is in the class. */
  predicate AllIn(items: seq<ClassItem>, t: string, i: nat, j: nat) {
    i <= j <= |t| && forall m :: i <= m < j ==> InClass(items, t[m])
  }

  predicate IsWordAt(t: string, i: int) {
    0 <= i < |t| && IsWordChar(t[i])
  }

  /** \b holds between positions i-1 and i. */
  predicate AtBoundary(t: string, i: int) {
    IsWordAt(t, i - 1) != IsWordAt(t, i)
  }

  function Size(p: Pattern): nat {
    if p == [] then 0
    else (match p[0] case Optional(g) => 1 + Size(g) case _ => 1) + Size(p[1..])
  }

  lemma {:induction false} SizeConcat(a: Pattern, b: Pattern)
    ensures Size(a + b) == Size(a) + Size(b)
  {
    if a != [] {
      var head := match a[0] case Optional(g) => 1 + Size(g) case _ => 1;
      assert (a + b)[0] == a[0];
      assert (a + b)[1..] == a[1..] + b;
      assert Size(a + b) == head + Size(a[1..] + b);
      SizeConcat(a[1..], b);
    } else {
      assert a + b == b;
    }
  }

  /** How many characters the greedy repetition of a class takes at i:
      as many as are in the class, up to the bound. */
  function RunLength(items: seq<ClassItem>, t: string, i: nat, b: Bound): (n: nat)
    requires i <= |t|
    ensures i + n <= |t| && Within(n, b) && AllIn(items, t, i, i + n)
    ensures i + n < |t| && Within(n + 1, b) ==> !InClass(items, t[i + n])
    decreases |t| - i
  {
    if i < |t| && InClass(items, t[i]) && Within(1, b) then
      1 + RunLength(items, t, i + 1, match b case AtMost(m) => AtMost(m - 1) case Unbounded => Unbounded)
    else 0
  }

  /** The declarative meaning of a pattern: p can match exactly t[i..e]. */
  ghost predicate Accepts(p: Pattern, t: string, i: nat, e: nat)
    decreases Size(p)
  {
    if p == [] then i == e
    else
      match p[0]
      case Class(items) =>
        i < |t| && InClass(items, t[i]) && Accepts(p[1..], t, i + 1, e)
      case Repeat(items, lo, hi) =>
        exists j: nat :: i + lo <= j && Within(j - i, hi) && AllIn(items, t, i, j) && Accepts(p[1..], t, j, e)
      case Optional(g) =>
        SizeConcat(g, p[1..]);
        Accepts(g + p[1..], t, i, e) || Accepts(p[1..], t, i, e)
      case WordBoundary =>
        AtBoundary(t, i) && Accepts(p[1..], t, i, e)
  }

  /** The end of the first match of p anchored at i, in the order a
      backtracking engine tries the alternatives: a greedy repetition
      tries its longest run first, an optional group tries to match the
      group before skipping it. */
  function MatchFrom(p: Pattern, t: string, i: nat): Option<nat>
    requires i <= |t|
    decreases Size(p), |t| - i + 1
  {
    if p == [] then Some(i)
    else
      match p[0]
      case Class(items) =>
        if i < |t| && InClass(items, t[i]) then MatchFrom(p[1..], t, i + 1) else None
      case Repeat(items, lo, hi) =>
        TryRepeat(p, t, i, RunLength(items, t, i, hi))
      case Optional(g) =>
        SizeConcat(g, p[1..]);
        (match MatchFrom(g + p[1..], t, i)
         case Some(e) => Some(e)
         case None => MatchFrom(p[1..], t, i))
      case WordBoundary =>
        if AtBoundary(t, i) then MatchFrom(p[1..], t, i) else None
  }

  /** Backtracking through a greedy repetition: let it take k characters,
      then k-1, ..., down to its minimum. */
  function TryRepeat(p: Pattern, t: string, i: nat, k: nat): Option<nat>
    requires p != [] && p[0].Repeat? && i + k <= |t|
    decreases Size(p), k
  {
    if k < p[0].min then None
    else
      match MatchFrom(p[1..], t, i + k)
      case Some(e) => Some(e)
      case None => if k == 0 then None else TryRepeat(p, t, i, k - 1)
  }

  lemma AllInPrefix(items: seq<ClassItem>, t: string, i: nat, j: nat, k: nat)
    requires AllIn(items, t, i, j) && i <= k <= j
    ensures AllIn(items, t, i, k)
  {
  }

  lemma WithinSmaller(m: nat, n: nat, b: Bound)
    requires m <= n && Within(n, b)
    ensures Within(m, b)
  {
  }

  /** Whatever the matcher returns is a match. */
  lemma {:induction false} MatchSound(p: Pattern, t: string, i: nat)
    requires i <= |t|
    ensures MatchFrom(p, t, i).Some? ==>
              var e := MatchFrom(p, t, i).value; i <= e <= |t| && Accepts(p, t, i, e)
    decreases Size(p), |t| - i + 1
  {
    if p != [] && MatchFrom(p, t, i).Some? {
      match p[0]
      case Class(items) =>
        MatchSound(p[1..], t, i + 1);
      case Repeat(items, lo, hi) =>
        var n := RunLength(items, t, i, hi);
        TryRepeatSound(p, t, i, n);
      case Optional(g) =>
        SizeConcat(g, p[1..]);
        if MatchFrom(g + p[1..], t, i).Some? {
          MatchSound(g + p[1..], t, i);
        } else {
          MatchSound(p[1..], t, i);
        }
      case WordBoundary =>
        MatchSound(p[1..], t, i);
    }
  }

  lemma {:induction false} TryRepeatSound(p: Pattern, t: string, i: nat, k: nat)
    requires p != [] && p[0].Repeat? && i + k <= |t|
    requires Within(k, p[0].max) && AllIn(p[0].items, t, i, i + k)
    ensures TryRepeat(p, t, i, k).Some? ==>
              var e := TryRepeat(p, t, i, k).value; i <= e <= |t| && Accepts(p, t, i, e)
    decreases Size(p), k
  {
    if k >= p[0].min {
      MatchSound(p[1..], t, i + k);
      if MatchFrom(p[1..], t, i + k).Some? {
        var e := MatchFrom(p[1..], t, i + k).value;
        var j: nat := i + k;
        assert i + p[0].min <= j && Within(j - i, p[0].max) && AllIn(p[0].items, t, i, j)
               && Accepts(p[1..], t, j, e);
      } else if k > 0 {
        AllInPrefix(p[0].items, t, i, i + k, i + k - 1);
        WithinSmaller(k - 1, k, p[0].max);
        TryRepeatSound(p, t, i, k - 1);
      }
    }
  }

  /** Whenever the pattern can match at i, the matcher finds a match there. */
  lemma {:induction false} MatchComplete(p: Pattern, t: string, i: nat, e: nat)
    requires i <= |t| && Accepts(p, t, i, e)
    ensures MatchFrom(p, t, i).Some?
    decreases Size(p), |t| - i + 1
  {
    if p != [] {
      match p[0]
      case Class(items) =>
        MatchComplete(p[1..], t, i + 1, e);
      case Repeat(items, lo, hi) =>
        var j: nat :| i + lo <= j && Within(j - i, hi) && AllIn(items, t, i, j) && Accepts(p[1..], t, j, e);
        var n := RunLength(items, t, i, hi);
        TryRepeatComplete(p, t, i, n, j, e);
      case Optional(g) =>
        SizeConcat(g, p[1..]);
        if Accepts(g + p[1..], t, i, e) {
          MatchComplete(g + p[1..], t, i, e);
        } else {
          MatchComplete(p[1..], t, i, e);
        }
      case WordBoundary =>
        MatchComplete(p[1..], t, i, e);
    }
  }

  lemma {:induction false} TryRepeatComplete(p: Pattern, t: string, i: nat, k: nat, j: nat, e: nat)
    requires p != [] && p[0].Repeat? && i + k <= |t|
    requires i + p[0].min <= j <= i + k && Accepts(p[1..], t, j, e)
    ensures TryRepeat(p, t, i, k).Some?
    decreases Size(p), k
  {
    if MatchFrom(p[1..], t, i + k).None? {
      if j == i + k {
        MatchComplete(p[1..], t, j, e);
      }
      TryRepeatComplete(p, t, i, k - 1, j, e);
    }
  }

  /** A match never ends before it starts, nor past the text when it
      starts inside it. */
  lemma {:induction false} AcceptsEnds(p: Pattern, t: string, i: nat, e: nat)
    requires Accepts(p, t, i, e)
    ensures i <= e
    ensures i <= |t| ==> e <= |t|
    decreases Size(p)
  {
    if p != [] {
      match p[0]
      case Class(items) =>
        AcceptsEnds(p[1..], t, i + 1, e);
      case Repeat(items, lo, hi) =>
        var j: nat :| i + lo <= j && Within(j - i, hi) && AllIn(items, t, i, j) && Accepts(p[1..], t, j, e);
        AcceptsEnds(p[1..], t, j, e);
      case Optional(g) =>
        SizeConcat(g, p[1..]);
        if Accepts(g + p[1..], t, i, e) {
          AcceptsEnds(g + p[1..], t, i, e);
        } else {
          AcceptsEnds(p[1..], t, i, e);
        }
      case WordBoundary =>
        AcceptsEnds(p[1..], t, i, e);
    }
  }

  /** The fewest characters a match of p can span. */
  function MinLength(p: Pattern): nat
    decreases |p|
  {
    if p == [] then 0
    else
      match p[0]
      case Class(_) => 1 + MinLength(p[1..])
      case Repeat(_, lo, _) => lo + MinLength(p[1..])
      case Optional(_) => MinLength(p[1..])
      case WordBoundary => MinLength(p[1..])
  }

  lemma {:induction false} MinLengthAppend(a: Pattern, b: Pattern)
    ensures MinLength(a + b) == MinLength(a) + MinLength(b)
    decreases |a|
  {
    if a != [] {
      assert (a + b)[0] == a[0];
      assert (a + b)[1..] == a[1..] + b;
      MinLengthAppend(a[1..], b);
    } else {
      assert a + b == b;
    }
  }

  /** Every match spans at least MinLength(p) characters. */
  lemma {:induction false} AcceptsMinLength(p: Pattern, t: string, i: nat, e: nat)
    requires Accepts(p, t, i, e)
    ensures i + MinLength(p) <= e
    decreases Size(p)
  {
    if p != [] {
      match p[0]
      case Class(items) =>
        AcceptsMinLength(p[1..], t, i + 1, e);
      case Repeat(items, lo, hi) =>
        var j: nat :| i + lo <= j && Within(j - i, hi) && AllIn(items, t, i, j) && Accepts(p[1..], t, j, e);
        AcceptsMinLength(p[1..], t, j, e);
      case Optional(g) =>
        SizeConcat(g, p[1..]);
        if Accepts(g + p[1..], t, i, e) {
          AcceptsMinLength(g + p[1..], t, i, e);
          MinLengthAppend(g, p[1..]);
        } else {
          AcceptsMinLength(p[1..], t, i, e);
        }
      case WordBoundary =>
        AcceptsMinLength(p[1..], t, i, e);
    }
  }

  /** An element no match can skip: a single class, or a repetition that
      must take at least one character. */
  predicate Mandatory(el: Elem) {
    el.Class? || (el.Repeat? && el.min >= 1)
  }

  /** Every match of p holds a character of each mandatory element of p. */
  lemma {:induction false} MandatoryCharPresent(p: Pattern, t: string, i: nat, e: nat, k: nat)
    requires k < |p| && Mandatory(p[k]) && Accepts(p, t, i, e)
    ensures exists m :: i <= m < e && m < |t| && InClass(p[k].items, t[m])
    decreases Size(p)
  {
    match p[0]
    case Class(items) =>
      AcceptsEnds(p[1..], t, i + 1, e);
      if k > 0 {
        MandatoryCharPresent(p[1..], t, i + 1, e, k - 1);
      }
    case Repeat(items, lo, hi) =>
      var j: nat :| i + lo <= j && Within(j - i, hi) && AllIn(items, t, i, j) && Accepts(p[1..], t, j, e);
      AcceptsEnds(p[1..], t, j, e);
      if k > 0 {
        MandatoryCharPresent(p[1..], t, j, e, k - 1);
      } else {
        assert InClass(items, t[i]);
      }
    case Optional(g) =>
      SizeConcat(g, p[1..]);
      if Accepts(g + p[1..], t, i, e) {
        assert (g + p[1..])[|g| + k - 1] == p[k];
        MandatoryCharPresent(g + p[1..], t, i, e, |g| + k - 1);
      } else {
        MandatoryCharPresent(p[1..], t, i, e, k - 1);
      }
    case WordBoundary =>
      MandatoryCharPresent(p[1..], t, i, e, k - 1);
  }

  /** The first match of p in t at or after position `from`: what
      `exec` finds with `lastIndex == from`, and element 0 of
      `t.match(p)` when from == 0. */
  function FirstMatch(p: Pattern, t: string, from: nat): Option<Span>
    decreases |t| + 1 - from
  {
    if from > |t| then None
    else
      match MatchFrom(p, t, from)
      case Some(e) => Some(Span(from, e))
      case None => FirstMatch(p, t, from + 1)
  }

  /** The matcher's answer spans at least MinLength(p) characters. */
  lemma MatchFromMinLength(p: Pattern, t: string, i: nat)
    requires i <= |t|
    ensures MatchFrom(p, t, i).Some? ==> i + MinLength(p) <= MatchFrom(p, t, i).value <= |t|
  {
    MatchSound(p, t, i);
    if MatchFrom(p, t, i).Some? {
      AcceptsMinLength(p, t, i, MatchFrom(p, t, i).value);
    }
  }

  /** No match is found from a position too close to the end of the text
      for the pattern's shortest match. */
  lemma {:induction false} FirstMatchNearEnd(p: Pattern, t: string, from: nat)
    requires |t| < from + MinLength(p)
    ensures FirstMatch(p, t, from).None?
    decreases |t| + 1 - from
  {
    if from <= |t| {
      MatchFromMinLength(p, t, from);
      FirstMatchNearEnd(p, t, from + 1);
    }
  }

  /** The leftmost match: no match starts earlier. */
  ghost predicate Leftmost(p: Pattern, t: string, from: nat, m: Span) {
    && from <= m.start <= m.end <= |t|
    && Accepts(p, t, m.start, m.end)
    && forall s: nat, e: nat :: from <= s < m.start ==> !Accepts(p, t, s, e)
  }

  ghost predicate NoMatch(p: Pattern, t: string, from: nat) {
    forall s: nat, e: nat :: from <= s <= |t| ==> !Accepts(p, t, s, e)
  }

  /** FirstMatch returns the leftmost match, and returns nothing exactly
      when no slice of t from `from` on matches. */
  lemma {:induction false} FirstMatchSpec(p: Pattern, t: string, from: nat)
    ensures match FirstMatch(p, t, from)
            case Some(m) => Leftmost(p, t, from, m)
            case None => NoMatch(p, t, from)
    decreases |t| + 1 - from
  {
    if from <= |t| {
      MatchSound(p, t, from);
      forall e: nat | Accepts(p, t, from, e) ensures MatchFrom(p, t, from).Some? {
        MatchComplete(p, t, from, e);
      }
      if MatchFrom(p, t, from).None? {
        FirstMatchSpec(p, t, from + 1);
      }
    }
  }

  /** `RegExp.prototype.test` with `lastIndex == 0`. */
  predicate Test(p: Pattern, t: string) {
    FirstMatch(p, t, 0).Some?
  }

  /** Test answers whether any slice of t matches. */
  lemma TestSpec(p: Pattern, t: string)
    ensures Test(p, t) <==> exists s: nat, e: nat :: s <= |t| && Accepts(p, t, s, e)
  {
    FirstMatchSpec(p, t, 0);
    if Test(p, t) {
      var m := FirstMatch(p, t, 0).value;
      assert m.start <= |t| && Accepts(p, t, m.start, m.end);
    }
  }

  /** The text of the first match, verbatim. */
  function FirstMatchText(p: Pattern, t: string): (r: Option<string>)
    ensures r.Some? <==> Test(p, t)
  {
    match FirstMatch(p, t, 0)
    case Some(m) => FirstMatchEnds(p, t, 0); Some(t[m.start..m.end])
    case None => None
  }

  lemma {:induction false} FirstMatchEnds(p: Pattern, t: string, from: nat)
    ensures FirstMatch(p, t, from).Some? ==>
              var m := FirstMatch(p, t, from).value; from <= m.start <= m.end <= |t|
    decreases |t| + 1 - from
  {
    if from <= |t| {
      MatchSound(p, t, from);
      FirstMatchEnds(p, t, from + 1);
    }
  }

  /** The text of the first match is the leftmost match, verbatim, and
      there is none exactly when nothing in t matches. */
  lemma FirstMatchTextSpec(p: Pattern, t: string)
    ensures FirstMatchText(p, t).None? <==> NoMatch(p, t, 0)
    ensures FirstMatchText(p, t).Some? ==>
              exists m :: Leftmost(p, t, 0, m) && FirstMatchText(p, t).value == t[m.start..m.end]
  {
    FirstMatchSpec(p, t, 0);
    if FirstMatch(p, t, 0).Some? {
      var m := FirstMatch(p, t, 0).value;
      assert Leftmost(p, t, 0, m);
      assert !NoMatch(p, t, 0) by {
        assert m.start <= |t| && Accepts(p, t, m.start, m.end);
      }
    }
  }
}
