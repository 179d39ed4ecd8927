/** The string operations of Rust's standard library that the codec is written in:
    trimming, whitespace splitting, ASCII case folding and decimal numerals. */
module Text {
  import opened Wrappers

  // ----- Whitespace -----

  /** Unicode White_Space, the set `char::is_whitespace` decides. */
  const WHITE_SPACE: set<char> := {
    '\U{9}', '\U{A}', '\U{B}', '\U{C}', '\U{D}', '\U{20}', '\U{85}', '\U{A0}', '\U{1680}',
    '\U{2000}', '\U{2001}', '\U{2002}', '\U{2003}', '\U{2004}', '\U{2005}', '\U{2006}',
    '\U{2007}', '\U{2008}', '\U{2009}', '\U{200A}', '\U{2028}', '\U{2029}', '\U{202F}',
    '\U{205F}', '\U{3000}'
  }

  predicate IsWhitespace(c: char) {
    c in WHITE_SPACE
  }

  lemma NotWhitespace(c: char)
    requires '!' <= c <= '~'
    ensures !IsWhitespace(c)
  {
  }

  predicate Blank(s: string) {
    forall i | 0 <= i < |s| :: IsWhitespace(s[i])
  }

  /** A word: no whitespace inside, and not empty. */
  predicate IsWord(s: string) {
    s != [] && forall i | 0 <= i < |s| :: !IsWhitespace(s[i])
  }

  /** Neither end is whitespace. */
  predicate Tight(s: string) {
    s != [] ==> !IsWhitespace(s[0]) && !IsWhitespace(s[|s| - 1])
  }

  /** How many whitespace characters `s` starts with. */
  function LeadingBlanks(s: string): (n: nat)
    ensures n <= |s|
    ensures forall i | 0 <= i < n :: IsWhitespace(s[i])
    ensures n < |s| ==> !IsWhitespace(s[n])
  {
    if s == [] || !IsWhitespace(s[0]) then 0 else 1 + LeadingBlanks(s[1..])
  }

  /** Where the last non-whitespace character of `s` ends. */
  function CoreEnd(s: string): (n: nat)
    ensures n <= |s|
    ensures forall i | n <= i < |s| :: IsWhitespace(s[i])
    ensures n > 0 ==> !IsWhitespace(s[n - 1])
  {
    if s == [] || !IsWhitespace(s[|s| - 1]) then |s| else CoreEnd(s[..|s| - 1])
  }

  function TrimStart(s: string): string {
    s[LeadingBlanks(s)..]
  }

  function TrimEnd(s: string): string {
    s[..CoreEnd(s)]
  }

  function Trim(s: string): (r: string)
    ensures Tight(r)
  {
    TrimEnd(TrimStart(s))
  }

  lemma TrimStartUnique(lead: string, core: string)
    requires Blank(lead)
    requires core != [] ==> !IsWhitespace(core[0])
    ensures TrimStart(lead + core) == core
  {
    var s := lead + core;
    assert forall i | 0 <= i < |lead| :: s[i] == lead[i];
    assert core != [] ==> s[|lead|] == core[0];
    assert LeadingBlanks(s) == |lead|;
  }

  lemma TrimEndUnique(core: string, trail: string)
    requires Blank(trail)
    requires core != [] ==> !IsWhitespace(core[|core| - 1])
    ensures TrimEnd(core + trail) == core
  {
    var s := core + trail;
    assert core != [] ==> s[|core| - 1] == core[|core| - 1];
    assert forall i | |core| <= i < |s| :: s[i] == trail[i - |core|];
    assert CoreEnd(s) == |core|;
  }

  /** `trim` finds the one tight core between two blank margins. */
  lemma TrimUnique(lead: string, core: string, trail: string)
    requires Blank(lead) && Blank(trail) && Tight(core)
    ensures Trim(lead + core + trail) == core
  {
    if core == [] {
      var all := lead + trail;
      assert Blank(all) && lead + core + trail == all && all == all + [];
      TrimStartUnique(all, []);
    } else {
      assert lead + core + trail == lead + (core + trail);
      TrimStartUnique(lead, core + trail);
      TrimEndUnique(core, trail);
    }
  }

  /** What `trim` removes: the margins around its result. */
  lemma TrimParts(s: string) returns (lead: string, trail: string)
    ensures s == lead + Trim(s) + trail && Blank(lead) && Blank(trail)
  {
    var mid := TrimStart(s);
    lead := s[..|s| - |mid|];
    trail := mid[|Trim(s)|..];
    assert mid == Trim(s) + trail;
    assert s == lead + mid;
  }

  /** Once the front is not whitespace, `trim` only works on the end. */
  lemma TrimIsTrimEnd(s: string)
    requires s != [] ==> !IsWhitespace(s[0])
    ensures Trim(s) == TrimEnd(s)
  {
    TrimStartUnique([], s);
    assert [] + s == s;
  }

  lemma TrimOfTrimEnd(s: string)
    ensures Trim(TrimEnd(s)) == Trim(s)
  {
    var lead, trail := TrimParts(s);
    var core := Trim(s);
    if core == [] {
      assert Blank(s);
      assert CoreEnd(s) == 0;
    } else {
      assert s == (lead + core) + trail;
      TrimEndUnique(lead + core, trail);
      assert TrimEnd(s) == lead + core + [];
      TrimUnique(lead, core, []);
    }
  }

  // ----- Words -----

  function WordEnd(s: string): (n: nat)
    ensures n <= |s|
    ensures forall i | 0 <= i < n :: !IsWhitespace(s[i])
    ensures n < |s| ==> IsWhitespace(s[n])
  {
    if s == [] || IsWhitespace(s[0]) then 0 else 1 + WordEnd(s[1..])
  }

  /** All the items `split_whitespace` yields. */
  function Words(s: string): (ws: seq<string>)
    ensures forall w | w in ws :: IsWord(w)
    decreases |s|
  {
    var t := TrimStart(s);
    if t == [] then []
    else [t[..WordEnd(t)]] + Words(t[WordEnd(t)..])
  }

  lemma WordsOfBlank(s: string)
    requires Blank(s)
    ensures Words(s) == []
  {
    assert s + [] == s;
    TrimStartUnique(s, []);
  }

  /** A word, a space, and the rest: the iterator yields the word first. */
  lemma WordsCons(w: string, rest: string)
    requires IsWord(w) && (rest != [] ==> IsWhitespace(rest[0]))
    ensures Words(w + rest) == [w] + Words(rest)
  {
    var t := w + rest;
    TrimStartUnique([], t);
    assert [] + t == t;
    assert forall i | 0 <= i < |w| :: t[i] == w[i];
    assert rest != [] ==> t[|w|] == rest[0];
    assert WordEnd(t) == |w|;
    assert t[..|w|] == w && t[|w|..] == rest;
  }

  lemma WordsSkipBlank(lead: string, s: string)
    requires Blank(lead)
    ensures Words(lead + s) == Words(s)
  {
    var t := TrimStart(s);
    var margin := s[..|s| - |t|];
    assert lead + s == (lead + margin) + t;
    TrimStartUnique(lead + margin, t);
  }

  lemma {:induction false} WordsDropTrail(s: string, trail: string)
    requires Blank(trail)
    ensures Words(s + trail) == Words(s)
    decreases |s|, 1
  {
    hide Words, IsWhitespace;
    var t := TrimStart(s);
    var margin := s[..LeadingBlanks(s)];
    assert s == margin + t && s + trail == margin + (t + trail) && Blank(margin);
    var n := WordEnd(t);
    if t == [] {
      assert t + trail == trail && s == margin;
      WordsOfBlank(trail);
      WordsOfBlank(s);
      WordsSkipBlank(margin, t + trail);
    } else {
      var w, rest := t[..n], t[n..];
      assert t + trail == w + (rest + trail) && t == w + rest;
      assert t[0] == s[|margin|];
      WordsDropTrailStep(margin, w, rest, trail);
    }
  }

  lemma {:induction false} WordsDropTrailStep(margin: string, w: string, rest: string, trail: string)
    requires Blank(margin) && Blank(trail) && IsWord(w) && (rest != [] ==> IsWhitespace(rest[0]))
    ensures Words(margin + (w + rest) + trail) == Words(margin + (w + rest))
    decreases |margin| + |w| + |rest|, 0
  {
    hide Words, IsWhitespace;
    assert margin + (w + rest) + trail == margin + (w + (rest + trail));
    WordsSkipBlank(margin, w + (rest + trail));
    WordsSkipBlank(margin, w + rest);
    assert (rest + trail) != [] ==> IsWhitespace((rest + trail)[0]);
    WordsCons(w, rest + trail);
    WordsCons(w, rest);
    WordsDropTrail(rest, trail);
  }

  /** Trimming first changes nothing for the iterator. */
  lemma WordsOfTrimmed(s: string)
    ensures Words(Trim(s)) == Words(s)
  {
    hide Words, Trim, IsWhitespace;
    var lead, trail := TrimParts(s);
    assert s == lead + (Trim(s) + trail);
    WordsSkipBlank(lead, Trim(s) + trail);
    WordsDropTrail(Trim(s), trail);
  }

  /** `split_whitespace`: an iterator over what is left of a string. */
  class WordIterator {
    var rest: string

    constructor (s: string)
      ensures rest == s
    {
      rest := s;
    }

    method Next() returns (w: Option<string>)
      modifies this
      ensures Words(old(rest)) == [] ==> w == None && Words(rest) == []
      ensures Words(old(rest)) != [] ==>
                w == Some(Words(old(rest))[0]) && Words(rest) == Words(old(rest))[1..]
    {
      var t := TrimStart(rest);
      if t == [] {
        rest := [];
        w := None;
      } else {
        w := Some(t[..WordEnd(t)]);
        rest := t[WordEnd(t)..];
      }
    }
  }

  // ----- ASCII case -----

  function UpperChar(c: char): (u: char)
    ensures u as int == if 97 <= c as int <= 122 then c as int - 32 else c as int
  {
    if 'a' <= c <= 'z' then (c as int - 32) as char else c
  }

  function Upper(s: string): (r: string)
    ensures |r| == |s| && forall i | 0 <= i < |s| :: r[i] == UpperChar(s[i])
  {
    seq(|s|, i requires 0 <= i < |s| => UpperChar(s[i]))
  }

  predicate EqIgnoreCase(a: string, b: string) {
    Upper(a) == Upper(b)
  }

  // ----- Decimal numerals -----

  const U64_MAX: nat := 0xFFFF_FFFF_FFFF_FFFF

  predicate IsDigit(c: char) {
    '0' <= c <= '9'
  }

  predicate AllDigits(s: string) {
    forall i | 0 <= i < |s| :: IsDigit(s[i])
  }

  function DigitValue(c: char): nat
    requires IsDigit(c)
  {
    c as int - '0' as int
  }

  function DigitChar(d: nat): (c: char)
    requires d < 10
    ensures IsDigit(c) && DigitValue(c) == d
  {
    (d + '0' as int) as char
  }

  /** The unbounded number a digit string denotes; leading zeros count for nothing. */
  function Value(s: string): nat
    requires AllDigits(s)
  {
    if s == [] then 0
    else Value(s[..|s| - 1]) * 10 + DigitValue(s[|s| - 1])
  }

  /** `to_string` of an unsigned integer. */
  function Decimal(n: nat): (s: string)
    ensures s != [] && AllDigits(s) && Value(s) == n
  {
    if n < 10 then
      var s := [DigitChar(n)];
      assert s[..0] == [];
      s
    else
      var front := Decimal(n / 10);
      var s := front + [DigitChar(n % 10)];
      assert s[..|s| - 1] == front;
      s
  }

  /** `str::parse::<u64>` on a digit string: every step of the accumulation is checked. */
  function CheckedU64(s: string): (r: Option<nat>)
    requires AllDigits(s)
    ensures r == if Value(s) <= U64_MAX then Some(Value(s)) else None
  {
    if s == [] then Some(0)
    else
      match CheckedU64(s[..|s| - 1])
      case None => None
      case Some(acc) =>
        if acc * 10 > U64_MAX then None
        else if acc * 10 + DigitValue(s[|s| - 1]) > U64_MAX then None
        else Some(acc * 10 + DigitValue(s[|s| - 1]))
  }

  /** How many digits a text starts with. */
  function DigitRun(s: string): (n: nat)
    ensures n <= |s| && AllDigits(s[..n]) && (n < |s| ==> !IsDigit(s[n]))
  {
    if s == [] || !IsDigit(s[0]) then 0 else 1 + DigitRun(s[1..])
  }

  lemma {:induction false} DigitRunAt(num: string, rest: string)
    requires AllDigits(num) && (rest != [] ==> !IsDigit(rest[0]))
    ensures DigitRun(num + rest) == |num|
  {
    if num == [] {
      assert num + rest == rest;
    } else {
      assert (num + rest)[0] == num[0] && (num + rest)[1..] == num[1..] + rest;
      DigitRunAt(num[1..], rest);
    }
  }

  /** Two numerals each followed by a non-digit are equal as soon as the whole texts are. */
  lemma NumeralPrefix(a: nat, x: string, b: nat, y: string)
    requires x != [] && !IsDigit(x[0]) && y != [] && !IsDigit(y[0])
    requires Decimal(a) + x == Decimal(b) + y
    ensures a == b && x == y
  {
    var s, t := Decimal(a), Decimal(b);
    DigitRunAt(s, x);
    DigitRunAt(t, y);
    assert s == (s + x)[..|s|] && t == (t + y)[..|t|];
    assert x == (s + x)[|s|..] && y == (t + y)[|t|..];
  }
}
