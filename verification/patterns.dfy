/** The four regular expressions of the card scanner (app.js lines 1563,
    1570, 1577 and 1584), written as data for the Regex engine, with the
    facts about them the rest of the model needs. */
module Patterns {
  import opened Text
  import opened Regex

  const Upper: ClassItem := Range('A', 'Z')
  const LowerLetters: ClassItem := Range('a', 'z')
  const Digits: ClassItem := Range('0', '9')

  /** Word boundary; one or more of letters, digits and . _ % + -; '@';
      one or more of letters, digits, '.' and '-'; '.'; two or more of
      A-Z, '|' and a-z (the class as written admits '|'); word boundary. */
  const EmailPattern: Pattern := [
    WordBoundary,
    Repeat([Upper, LowerLetters, Digits, Single('.'), Single('_'), Single('%'), Single('+'), Single('-')], 1, Unbounded),
    Lit('@'),
    Repeat([Upper, LowerLetters, Digits, Single('.'), Single('-')], 1, Unbounded),
    Lit('.'),
    Repeat([Upper, Single('|'), LowerLetters], 2, Unbounded),
    WordBoundary
  ]

  /** The separator class: '-', white space or '.'. */
  const Separator: seq<ClassItem> := [Single('-'), Whitespace, Single('.')]

  function MaybeOne(items: seq<ClassItem>): Elem {
    Repeat(items, 0, AtMost(1))
  }

  function Exactly(items: seq<ClassItem>, n: nat): Elem {
    Repeat(items, n, AtMost(n))
  }

  /** Optional '+', optional '1', optional separator, optional '(',
      three digits, optional ')', optional separator, three digits,
      optional separator, four digits. */
  const PhonePattern: Pattern := [
    MaybeOne([Single('+')]),
    MaybeOne([Single('1')]),
    MaybeOne(Separator),
    MaybeOne([Single('(')]),
    Exactly([Digits], 3),
    MaybeOne([Single(')')]),
    MaybeOne(Separator),
    Exactly([Digits], 3),
    MaybeOne(Separator),
    Exactly([Digits], 4)
  ]

  const Alnum: seq<ClassItem> := [LowerLetters, Upper, Digits]
  const HostChars: seq<ClassItem> := [LowerLetters, Upper, Digits, Single('-')]
  const Letters: seq<ClassItem> := [LowerLetters, Upper]

  /** The host part of a website match: a letter or digit, one to 61
      letters, digits or hyphens, a letter or digit, '.', and two or more
      letters. */
  const HostPattern: Pattern := [
    Class(Alnum),
    Repeat(HostChars, 1, AtMost(61)),
    Class(Alnum),
    Lit('.'),
    Repeat(Letters, 2, Unbounded)
  ]

  /** An optional "http://" or "https://", an optional "www.", then the host. */
  const WebsitePattern: Pattern := [
    Optional([Lit('h'), Lit('t'), Lit('t'), Lit('p'), MaybeOne([Single('s')]), Lit(':'), Lit('/'), Lit('/')]),
    Optional([Lit('w'), Lit('w'), Lit('w'), Lit('.')])
  ] + HostPattern

  /** Word boundary, five digits, optionally '-' and four digits, word boundary. */
  const ZipPattern: Pattern := [
    WordBoundary,
    Exactly([Digits], 5),
    Optional([Lit('-'), Exactly([Digits], 4)]),
    WordBoundary
  ]
}
