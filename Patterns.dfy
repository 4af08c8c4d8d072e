/**
 * The fragment of .NET regular expressions the phone validator uses:
 * fixed-length patterns made of literal characters and `\d`, tested with
 * `Regex.IsMatch`, which looks for a match ANYWHERE in the input (the
 * patterns are not anchored with `^` or `$`).
 */
module Patterns {
  import opened Text

  /** One pattern position: a literal character, or `\d`. */
  datatype Atom = Literal(c: char) | Digit

  type Pattern = seq<Atom>

  predicate AtomMatches(a: Atom, c: char) {
    match a
    case Literal(x) => c == x
    case Digit => IsAsciiDigit(c)
  }

  /** `\d{n}`. */
  function DigitRun(n: nat): (p: Pattern)
    ensures |p| == n && forall j :: 0 <= j < n ==> p[j] == Digit
  {
    if n == 0 then [] else [Digit] + DigitRun(n - 1)
  }

  /** The pattern matches the |p| characters of `s` that start at `i`. */
  predicate MatchesAt(p: Pattern, s: string, i: nat)
    requires i + |p| <= |s|
  {
    forall j :: 0 <= j < |p| ==> AtomMatches(p[j], s[i + j])
  }

  /** Left-to-right search for a match starting at `start` or later. */
  function SearchFrom(s: string, p: Pattern, start: nat): (found: bool)
    requires start <= |s|
    ensures found <==> exists i :: start <= i && i + |p| <= |s| && MatchesAt(p, s, i)
    decreases |s| - start
  {
    if start + |p| > |s| then false
    else if MatchesAt(p, s, start) then true
    else start < |s| && SearchFrom(s, p, start + 1)
  }

  /** `Regex.IsMatch(s, p)`: some substring of `s` matches `p`. */
  function IsMatch(s: string, p: Pattern): (found: bool)
    ensures found <==> exists i :: 0 <= i && i + |p| <= |s| && MatchesAt(p, s, i)
  {
    SearchFrom(s, p, 0)
  }

  /** A pattern longer than the input never matches. */
  lemma NoMatchInShorterInput(s: string, p: Pattern)
    requires |s| < |p|
    ensures !IsMatch(s, p)
  {
  }

  /** `\d{n}` matches any string of exactly n ASCII digits. */
  lemma DigitRunMatches(s: string)
    requires forall i :: 0 <= i < |s| ==> IsAsciiDigit(s[i])
    ensures IsMatch(s, DigitRun(|s|))
  {
    assert MatchesAt(DigitRun(|s|), s, 0);
  }
}
