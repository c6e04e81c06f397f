/** The scanner's four patterns are matched longest-first: from the
    position where a match starts, the backtracking matcher's answer is
    the furthest end of any match. So the text `match` returns is the
    leftmost match and, of the matches starting there, the longest. */
module LongestMatch {
  import opened Text
  import opened Regex
  import opened Patterns
  import opened GreedyMatch

  // ---------------------------------------------------------------------
  // ZIP code

  lemma ZipGreedy(t: string)
    ensures Greedy(ZipPattern, t)
  {
    var z := ZipPattern;
    var q := z[2].group + z[3..];
    GreedyEnd(q, t);
    GreedyClass(q, t, 2);
    ExactDominates(q, t, 1);
    GreedyRepeat(q, t, 1);
    GreedyClass(q, t, 0);
    assert q[0..] == q;
    GreedyEnd(z, t);
    GreedyClass(z, t, 3);
    LastOptionalDominates(z, t, 2);
    GreedyOptional(z, t, 2);
    ExactDominates(z, t, 1);
    GreedyRepeat(z, t, 1);
    GreedyClass(z, t, 0);
    assert z[0..] == z;
  }
  // ---------------------------------------------------------------------
  // E-mail address

  /** What follows the domain characters: '.', two or more letters
      (or '|'), a word boundary. */
  lemma EmailTail(t: string, j: nat, e: nat)
    requires Accepts(EmailPattern[4..], t, j, e)
    ensures j < |t| && t[j] == '.' && j + 3 <= e && AllIn(EmailPattern[5].items, t, j + 1, e)
  {
    var p := EmailPattern;
    assert p[4..][0] == p[4] && p[4..][1..] == p[5..];
    assert p[5..][0] == p[5] && p[5..][1..] == p[6..];
    assert p[6..][0] == p[6] && p[6..][1..] == [];
    assert Accepts(p[5..], t, j + 1, e);
    var k: nat :| j + 1 + 2 <= k && AllIn(p[5].items, t, j + 1, k) && Accepts(p[6..], t, k, e);
    assert Accepts(p[6..][1..], t, k, e);
  }

  /** Ending the domain characters later never ends the match earlier:
      a shorter run's top-level domain stops at the '.' a longer run
      takes in. */
  lemma EmailDomainDominates(t: string)
    ensures RepeatDominates(EmailPattern, 3, t)
  {
    var p := EmailPattern;
    var rest := p[4..];
    forall i: nat ensures RepeatDominatesAt(p, 3, t, i) {
      forall j1: nat, j2: nat, e1: nat, e2: nat | j1 < j2 && Accepts(rest, t, j1, e1) && Accepts(rest, t, j2, e2)
        ensures e1 <= e2
      {
        EmailTail(t, j1, e1);
        EmailTail(t, j2, e2);
        StopsBefore(p[5].items, t, j1 + 1, e1, j2);
      }
    }
  }

  lemma EmailGreedy(t: string)
    ensures Greedy(EmailPattern, t)
  {
    var p := EmailPattern;
    GreedyEnd(p, t);
    GreedyClass(p, t, 6);
    LastRepeatDominates(p, t, 5);
    GreedyRepeat(p, t, 5);
    GreedyClass(p, t, 4);
    EmailDomainDominates(t);
    GreedyRepeat(p, t, 3);
    GreedyClass(p, t, 2);
    assert p[2..][0] == Lit('@');
    DisjointDominates(p, t, 1);
    GreedyRepeat(p, t, 1);
    GreedyClass(p, t, 0);
    assert p[0..] == p;
  }
  // ---------------------------------------------------------------------
  // Phone number

  /** The number of digits in t[a..b]. */
  function NumDigits(t: string, a: nat, b: nat): nat
    requires a <= b <= |t|
    decreases b - a
  {
    if a == b then 0 else NumDigits(t, a, b - 1) + (if IsDigit(t[b - 1]) then 1 else 0)
  }

  lemma {:induction false} NumDigitsSplit(t: string, a: nat, m: nat, b: nat)
    requires a <= m <= b <= |t|
    ensures NumDigits(t, a, b) == NumDigits(t, a, m) + NumDigits(t, m, b)
    decreases b - m
  {
    if m < b {
      NumDigitsSplit(t, a, m, b - 1);
    }
  }

  /** A longer slice holds at least as many digits. */
  lemma NumDigitsGrows(t: string, a: nat, b: nat, c: nat)
    requires a <= b && a <= c <= |t| && b <= |t|
    ensures b <= c ==> NumDigits(t, a, b) <= NumDigits(t, a, c)
  {
    if b <= c {
      NumDigitsSplit(t, a, b, c);
    }
  }

  ghost predicate DigitOnly(items: seq<ClassItem>) {
    forall c :: InClass(items, c) ==> IsDigit(c)
  }

  ghost predicate DigitFree(items: seq<ClassItem>) {
    forall c :: InClass(items, c) ==> !IsDigit(c)
  }

  lemma {:induction false} NumDigitsRun(items: seq<ClassItem>, t: string, a: nat, b: nat)
    requires AllIn(items, t, a, b)
    ensures DigitOnly(items) ==> NumDigits(t, a, b) == b - a
    ensures DigitFree(items) ==> NumDigits(t, a, b) == 0
    decreases b - a
  {
    if a < b {
      NumDigitsRun(items, t, a, b - 1);
    }
  }

  /** A repetition of exactly n digits, or an optional run of non-digits. */
  ghost predicate Counted(el: Elem) {
    && el.Repeat?
    && ((DigitOnly(el.items) && el.max == AtMost(el.min)) || (DigitFree(el.items) && el.min == 0))
  }

  /** A pattern of such repetitions matches only slices with exactly its
      minimum length of digits in them. */
  lemma {:induction false} AcceptsDigits(p: Pattern, t: string, i: nat, e: nat)
    requires forall m :: 0 <= m < |p| ==> Counted(p[m])
    requires Accepts(p, t, i, e) && i <= |t|
    ensures i <= e <= |t| && NumDigits(t, i, e) == MinLength(p)
    decreases |p|
  {
    AcceptsEnds(p, t, i, e);
    if p != [] {
      assert Counted(p[0]);
      var j: nat :| i + p[0].min <= j && Within(j - i, p[0].max) && AllIn(p[0].items, t, i, j) && Accepts(p[1..], t, j, e);
      AcceptsEnds(p[1..], t, j, e);
      assert forall m :: 0 <= m < |p[1..]| ==> p[1..][m] == p[m + 1];
      AcceptsDigits(p[1..], t, j, e);
      NumDigitsSplit(t, i, j, e);
      NumDigitsRun(p[0].items, t, i, j);
    }
  }

  lemma DigitClasses()
    ensures DigitOnly([Digits])
    ensures DigitFree(Separator) && DigitFree([Single('(')]) && DigitFree([Single(')')])
  {
    forall c | InClass(Separator, c) ensures !IsDigit(c) {
      var k :| 0 <= k < |Separator| && ItemHas(Separator[k], c);
    }
  }

  /** The phone pattern after its optional '+' and '1' is made of counted
      repetitions, ten digits in all. */
  lemma PhoneRestCounted()
    ensures forall m :: 0 <= m < |PhonePattern[2..]| ==> Counted(PhonePattern[2..][m])
    ensures MinLength(PhonePattern[2..]) == 10
  {
    var p := PhonePattern;
    DigitClasses();
    assert forall m :: 0 <= m < |p[2..]| ==> p[2..][m] == p[m + 2];
    assert p[9..][1..] == [];
    assert MinLength(p[9..]) == 4;
    assert p[8..][1..] == p[9..];
    assert MinLength(p[8..]) == 4;
    assert p[7..][1..] == p[8..];
    assert MinLength(p[7..]) == 7;
    assert p[6..][1..] == p[7..];
    assert MinLength(p[6..]) == 7;
    assert p[5..][1..] == p[6..];
    assert MinLength(p[5..]) == 7;
    assert p[4..][1..] == p[5..];
    assert MinLength(p[4..]) == 10;
    assert p[3..][1..] == p[4..];
    assert MinLength(p[3..]) == 10;
    assert p[2..][1..] == p[3..];
  }

  /** Taking the optional '1' never ends the match earlier: when the
      pattern can match both with and without it, the match without it
      holds ten digits starting with that '1', the match with it eleven,
      so the latter reaches further. */
  lemma PhoneOneDominates(t: string)
    ensures RepeatDominates(PhonePattern, 1, t)
  {
    var p := PhonePattern;
    var rest := p[2..];
    PhoneRestCounted();
    forall i: nat ensures RepeatDominatesAt(p, 1, t, i) {
      forall j1: nat, j2: nat, e1: nat, e2: nat |
        && i + p[1].min <= j1 < j2 && Within(j2 - i, p[1].max) && AllIn(p[1].items, t, i, j2)
        && Accepts(rest, t, j1, e1) && Accepts(rest, t, j2, e2)
        ensures e1 <= e2
      {
        assert j1 == i && j2 == i + 1 && t[i] == '1';
        AcceptsDigits(rest, t, j1, e1);
        AcceptsDigits(rest, t, j2, e2);
        NumDigitsSplit(t, i, i + 1, e2);
        NumDigitsGrows(t, i, e2, e1);
      }
    }
  }
  lemma CanStartRepeat(p: Pattern, k: nat, c: char)
    requires k < |p| && p[k].Repeat?
    ensures CanStart(p[k..], c) <==> InClass(p[k].items, c) || (p[k].min == 0 && CanStart(p[k + 1..], c))
  {
    Suffix(p, k);
  }

  /** A match of the phone pattern from one of its digit groups on
      begins with a digit. */
  lemma DigitGroupFirst(k: nat, c: char)
    requires k == 4 || k == 7 || k == 9
    ensures CanStart(PhonePattern[k..], c) ==> IsDigit(c)
  {
    CanStartRepeat(PhonePattern, k, c);
  }

  lemma SeparatorIsNoDigit(c: char)
    requires InClass(Separator, c)
    ensures !IsDigit(c) && c != '(' && c != ')'
  {
    var k :| 0 <= k < |Separator| && ItemHas(Separator[k], c);
  }

  /** The separators before the last two digit groups are followed by a
      digit group, which cannot begin with a separator. */
  lemma PhoneSeparatorDominates(t: string, k: nat)
    requires k == 6 || k == 8
    ensures RepeatDominates(PhonePattern, k, t)
  {
    forall c | InClass(PhonePattern[k].items, c) ensures !CanStart(PhonePattern[k + 1..], c) {
      SeparatorIsNoDigit(c);
      DigitGroupFirst(k + 1, c);
    }
    DisjointDominates(PhonePattern, t, k);
  }

  /** The first separator is followed by an optional '(' and a digit
      group, and the '(' by the digit group. */
  lemma PhoneOpeningDominates(t: string)
    ensures RepeatDominates(PhonePattern, 2, t) && RepeatDominates(PhonePattern, 3, t)
  {
    var p := PhonePattern;
    forall c | InClass(p[2].items, c) ensures !CanStart(p[3..], c) {
      SeparatorIsNoDigit(c);
      CanStartRepeat(p, 3, c);
      DigitGroupFirst(4, c);
    }
    DisjointDominates(p, t, 2);
    forall c | InClass(p[3].items, c) ensures !CanStart(p[4..], c) {
      DigitGroupFirst(4, c);
    }
    DisjointDominates(p, t, 3);
  }

  /** The ')' is followed by an optional separator and a digit group. */
  lemma PhoneClosingDominates(t: string)
    ensures RepeatDominates(PhonePattern, 5, t)
  {
    var p := PhonePattern;
    forall c | InClass(p[5].items, c) ensures !CanStart(p[6..], c) {
      CanStartRepeat(p, 6, c);
      if InClass(p[6].items, c) {
        SeparatorIsNoDigit(c);
      }
      DigitGroupFirst(7, c);
    }
    DisjointDominates(p, t, 5);
  }

  /** The '+' is followed by an optional '1', separator and '(', then a
      digit group. */
  lemma PhonePlusDominates(t: string)
    ensures RepeatDominates(PhonePattern, 0, t)
  {
    var p := PhonePattern;
    forall c | InClass(p[0].items, c) ensures !CanStart(p[1..], c) {
      assert c == '+';
      CanStartRepeat(p, 1, c);
      CanStartRepeat(p, 2, c);
      if InClass(p[2].items, c) {
        SeparatorIsNoDigit(c);
      }
      CanStartRepeat(p, 3, c);
      DigitGroupFirst(4, c);
    }
    DisjointDominates(p, t, 0);
  }

  lemma PhoneGreedy(t: string)
    ensures Greedy(PhonePattern, t)
  {
    var p := PhonePattern;
    PhonePlusDominates(t);
    PhoneOneDominates(t);
    PhoneOpeningDominates(t);
    PhoneClosingDominates(t);
    PhoneSeparatorDominates(t, 6);
    PhoneSeparatorDominates(t, 8);
    GreedyEnd(p, t);
    ExactDominates(p, t, 9);
    GreedyRepeat(p, t, 9);
    GreedyRepeat(p, t, 8);
    ExactDominates(p, t, 7);
    GreedyRepeat(p, t, 7);
    GreedyRepeat(p, t, 6);
    GreedyRepeat(p, t, 5);
    ExactDominates(p, t, 4);
    GreedyRepeat(p, t, 4);
    GreedyRepeat(p, t, 3);
    GreedyRepeat(p, t, 2);
    GreedyRepeat(p, t, 1);
    GreedyRepeat(p, t, 0);
    assert p[0..] == p;
  }
  // ---------------------------------------------------------------------
  // Website

  lemma AlnumIsHostChar(c: char)
    requires InClass(Alnum, c)
    ensures InClass(HostChars, c)
  {
    var k :| 0 <= k < |Alnum| && ItemHas(Alnum[k], c);
    assert ItemHas(HostChars[k], c);
  }

  /** What follows the host's middle characters: a letter or digit, then
      the '.'. */
  lemma HostRest(t: string, j: nat, e: nat)
    requires Accepts(WebsitePattern[4..], t, j, e)
    ensures j + 1 < |t| && InClass(Alnum, t[j]) && t[j + 1] == '.'
    ensures Accepts(WebsitePattern[6..], t, j + 2, e)
  {
    var p := WebsitePattern;
    Suffix(p, 4);
    Suffix(p, 5);
    assert Accepts(p[5..], t, j + 1, e);
  }

  /** The top-level domain: two or more letters, and the match ends
      with them. */
  lemma HostEnd(t: string, j: nat, e: nat)
    requires Accepts(WebsitePattern[6..], t, j, e)
    ensures j + 2 <= e && AllIn(Letters, t, j, e)
  {
    var p := WebsitePattern;
    Suffix(p, 6);
    var k: nat :| j + 2 <= k && AllIn(Letters, t, j, k) && Accepts(p[7..], t, k, e);
    assert p[7..] == [];
  }

  /** A host match from i, up to its middle characters' end j. */
  lemma HostHead(t: string, i: nat, e: nat) returns (j: nat)
    requires Accepts(WebsitePattern[2..], t, i, e)
    ensures i < |t| && InClass(Alnum, t[i]) && i + 2 <= j && AllIn(HostChars, t, i + 1, j)
    ensures Accepts(WebsitePattern[4..], t, j, e)
  {
    var p := WebsitePattern;
    Suffix(p, 2);
    Suffix(p, 3);
    assert Accepts(p[3..], t, i + 1, e);
    j :| i + 2 <= j && AllIn(HostChars, t, i + 1, j) && Accepts(p[4..], t, j, e);
  }

  /** A host match from i: letters, digits and hyphens up to a '.' at d,
      at least three of them, then two or more letters. */
  lemma HostShape(t: string, i: nat, e: nat) returns (d: nat)
    requires Accepts(WebsitePattern[2..], t, i, e)
    ensures i + 3 <= d < |t| && t[d] == '.' && AllIn(HostChars, t, i, d)
    ensures d + 3 <= e && AllIn(Letters, t, d + 1, e)
  {
    var p := WebsitePattern;
    var j := HostHead(t, i, e);
    HostRest(t, j, e);
    HostEnd(t, j + 2, e);
    d := j + 1;
    forall m | i <= m < d ensures InClass(HostChars, t[m]) {
      if m == i || m == j {
        AlnumIsHostChar(t[m]);
      }
    }
  }

  /** The middle characters of the host stop before its '.': a shorter
      run is followed by the '.' that a longer run would have to hold. */
  lemma HostCharsDominate(t: string)
    ensures RepeatDominates(WebsitePattern, 3, t)
  {
    var p := WebsitePattern;
    var rest := p[4..];
    forall i: nat ensures RepeatDominatesAt(p, 3, t, i) {
      forall j1: nat, j2: nat, e1: nat, e2: nat |
        && i + p[3].min <= j1 < j2 && AllIn(p[3].items, t, i, j2)
        && Accepts(rest, t, j1, e1) && Accepts(rest, t, j2, e2)
        ensures false
      {
        HostRest(t, j1, e1);
        HostRest(t, j2, e2);
      }
    }
  }

  /** A match that takes the "www." group: "www." then a host. */
  lemma WwwShape(t: string, i: nat, e: nat)
    requires Accepts(WebsitePattern[1].group + WebsitePattern[2..], t, i, e)
    ensures i + 3 < |t| && t[i] == 'w' && t[i + 3] == '.' && Accepts(WebsitePattern[2..], t, i + 4, e)
  {
    var q := WebsitePattern[1].group + WebsitePattern[2..];
    assert q[4..] == WebsitePattern[2..];
    assert q[..4] == [Lit('w'), Lit('w'), Lit('w'), Lit('.')];
    Suffix(q, 1);
    Suffix(q, 2);
    Suffix(q, 3);
    assert Accepts(q[1..], t, i + 1, e);
    assert Accepts(q[2..], t, i + 2, e);
    assert Accepts(q[3..], t, i + 3, e);
  }

  /** Taking "www." never ends the match earlier than reading the "www"
      as the start of the host: that host's top-level domain begins right
      after the "www." and stops at the next '.', which the match with
      the group still has to pass. */
  lemma WwwDominates(t: string)
    ensures OptionalDominates(WebsitePattern, 1, t)
  {
    var p := WebsitePattern;
    var q := p[1].group + p[2..];
    var host := p[2..];
    forall i: nat, e1: nat, e2: nat | Accepts(q, t, i, e1) && Accepts(host, t, i, e2)
      ensures e2 <= e1
    {
      WwwShape(t, i, e1);
      var d2 := HostShape(t, i, e2);
      StopsBefore(HostChars, t, i, d2, i + 3);
      var d1 := HostShape(t, i + 4, e1);
      StopsBefore(Letters, t, d2 + 1, e2, d1);
    }
  }

  /** A match that takes the scheme group: "http", an optional 's', then
      ':'. */
  lemma SchemeShape(t: string, i: nat, e: nat)
    requires Accepts(WebsitePattern[0].group + WebsitePattern[1..], t, i, e)
    ensures i + 5 < |t| && t[i] == 'h' && t[i + 3] == 'p'
    ensures t[i + 4] == ':' || (t[i + 4] == 's' && t[i + 5] == ':')
  {
    var q := WebsitePattern[0].group + WebsitePattern[1..];
    SchemeHttp(t, i, e);
    assert q[4..][0] == MaybeOne([Single('s')]) && q[4..][1..] == q[5..];
    var el := q[4..][0];
    assert el == Repeat([Single('s')], 0, AtMost(1)) && q[4..] != [];
    assert Accepts(q[4..], t, i + 4, e);
    var j: nat :| i + 4 + el.min <= j && Within(j - (i + 4), el.max) && AllIn(el.items, t, i + 4, j) && Accepts(q[4..][1..], t, j, e);
    SchemeColon(t, j, e);
  }

  lemma SchemeHttp(t: string, i: nat, e: nat)
    requires Accepts(WebsitePattern[0].group + WebsitePattern[1..], t, i, e)
    ensures i + 3 < |t| && t[i] == 'h' && t[i + 3] == 'p'
    ensures Accepts((WebsitePattern[0].group + WebsitePattern[1..])[4..], t, i + 4, e)
  {
    var q := WebsitePattern[0].group + WebsitePattern[1..];
    assert q[..4] == [Lit('h'), Lit('t'), Lit('t'), Lit('p')];
    Suffix(q, 1);
    Suffix(q, 2);
    Suffix(q, 3);
    assert Accepts(q[1..], t, i + 1, e);
    assert Accepts(q[2..], t, i + 2, e);
    assert Accepts(q[3..], t, i + 3, e);
  }

  lemma SchemeColon(t: string, j: nat, e: nat)
    requires Accepts((WebsitePattern[0].group + WebsitePattern[1..])[5..], t, j, e)
    ensures j + 2 < |t| && t[j] == ':'
  {
    var q := WebsitePattern[0].group + WebsitePattern[1..];
    assert q[5..][0] == Lit(':') && q[5..][1..] == q[6..];
    assert q[6..][0] == Lit('/') && q[6..][1..] == q[7..];
    assert q[7..][0] == Lit('/');
    assert Accepts(q[6..], t, j + 1, e);
    assert Accepts(q[7..], t, j + 2, e);
  }

  /** Where the scheme group can be taken, nothing matches without it:
      the host would have to run through the ':' to reach a '.'. */
  lemma SchemeExcludesHost(t: string, i: nat, e1: nat, e2: nat)
    requires Accepts(WebsitePattern[0].group + WebsitePattern[1..], t, i, e1)
    ensures !Accepts(WebsitePattern[1..], t, i, e2)
  {
    var p := WebsitePattern;
    SchemeShape(t, i, e1);
    Suffix(p, 1);
    if Accepts(p[1].group + p[2..], t, i, e2) {
      WwwShape(t, i, e2);
    }
    NoHostBeforeColon(t, i, e2);
  }

  /** No host match starts at an "http:" or "https:". */
  lemma NoHostBeforeColon(t: string, i: nat, e: nat)
    requires i + 5 < |t| && t[i + 3] == 'p'
    requires t[i + 4] == ':' || (t[i + 4] == 's' && t[i + 5] == ':')
    ensures !Accepts(WebsitePattern[2..], t, i, e)
  {
    if Accepts(WebsitePattern[2..], t, i, e) {
      var d := HostShape(t, i, e);
      StopsBefore(HostChars, t, i, d, if t[i + 4] == ':' then i + 4 else i + 5);
    }
  }

  lemma SchemeDominates(t: string)
    ensures OptionalDominates(WebsitePattern, 0, t)
  {
    var p := WebsitePattern;
    var q := p[0].group + p[1..];
    var rest := p[1..];
    forall i: nat, e1: nat, e2: nat | Accepts(q, t, i, e1) && Accepts(rest, t, i, e2)
      ensures false
    {
      SchemeExcludesHost(t, i, e1, e2);
    }
  }

  lemma WebsiteGreedy(t: string)
    ensures Greedy(WebsitePattern, t)
  {
    var p := WebsitePattern;
    GreedyEnd(p, t);
    LastRepeatDominates(p, t, 6);
    GreedyRepeat(p, t, 6);
    GreedyClass(p, t, 5);
    GreedyClass(p, t, 4);
    HostCharsDominate(t);
    GreedyRepeat(p, t, 3);
    GreedyClass(p, t, 2);

    var q := p[1].group + p[2..];
    assert q[4..] == p[2..];
    GreedyClass(q, t, 3);
    GreedyClass(q, t, 2);
    GreedyClass(q, t, 1);
    GreedyClass(q, t, 0);
    assert q[0..] == q;
    WwwDominates(t);
    GreedyOptional(p, t, 1);

    var s := p[0].group + p[1..];
    assert s[8..] == p[1..];
    GreedyClass(s, t, 7);
    GreedyClass(s, t, 6);
    GreedyClass(s, t, 5);
    Suffix(s, 5);
    DisjointDominates(s, t, 4);
    GreedyRepeat(s, t, 4);
    GreedyClass(s, t, 3);
    GreedyClass(s, t, 2);
    GreedyClass(s, t, 1);
    GreedyClass(s, t, 0);
    assert s[0..] == s;
    SchemeDominates(t);
    GreedyOptional(p, t, 0);
  }
}
