/** String functions of the Go standard library that several components use. */
module Text {

  predicate IsLetter(c: char) { 'a' <= c <= 'z' || 'A' <= c <= 'Z' }

  predicate IsDigit(c: char) { '0' <= c <= '9' }

  /** `unicode.ToLower`, as far as it yields ASCII: besides the capitals, the dotted capital I
      and the Kelvin sign become ASCII letters. */
  function LowerChar(c: char): char {
    if 'A' <= c <= 'Z' then c + 32 as char
    else if c == '\U{0130}' then 'i'
    else if c == '\U{212A}' then 'k'
    else c
  }

  /** `unicode.ToUpper`, as far as it yields ASCII: so do the dotless small i and the long s. */
  function UpperChar(c: char): char {
    if 'a' <= c <= 'z' then c - 32 as char
    else if c == '\U{0131}' then 'I'
    else if c == '\U{017F}' then 'S'
    else c
  }

  /** `strings.ToLower`: ASCII capitals become small letters, all other ASCII characters stay. */
  function Lower(s: string): (r: string)
    ensures |r| == |s|
    ensures forall i :: 0 <= i < |s| && 'A' <= s[i] <= 'Z' ==> r[i] == s[i] + 32 as char
    ensures forall i :: 0 <= i < |s| && s[i] < 128 as char && !('A' <= s[i] <= 'Z') ==> r[i] == s[i]
  {
    seq(|s|, i requires 0 <= i < |s| => LowerChar(s[i]))
  }

  /** Both separators stand for `/`. */
  function Canonical(c: char): char { if c == '\\' then '/' else c }

  /** Forward slashes only: a backslash becomes a slash, and nothing else is rewritten. */
  function Posix(p: string): (r: string)
    ensures |r| == |p|
    ensures forall i :: 0 <= i < |p| ==> r[i] == Canonical(p[i])
    ensures forall i :: 0 <= i < |p| ==> if p[i] == '\\' then r[i] == '/' else r[i] == p[i]
    ensures '\\' !in r
    ensures '\\' !in p ==> r == p
  {
    seq(|p|, i requires 0 <= i < |p| => Canonical(p[i]))
  }

  /** `strings.Split` on one character: the parts in order, at least one. */
  function Split(s: string, sep: char): (parts: seq<string>)
    ensures |parts| >= 1
  {
    if s == "" then [""]
    else
      var rest := Split(s[1..], sep);
      if s[0] == sep then [""] + rest else [[s[0]] + rest[0]] + rest[1..]
  }

  /** The first part, taken off. */
  lemma {:induction false} SplitAfter(word: string, rest: string, sep: char)
    requires sep !in word
    ensures Split(word + [sep] + rest, sep) == [word] + Split(rest, sep)
    ensures Split(word, sep) == [word]
  {
    var t := word + [sep] + rest;
    if word == "" {
      assert t[1..] == rest;
    } else {
      SplitAfter(word[1..], rest, sep);
      assert t[1..] == word[1..] + [sep] + rest && word == [word[0]] + word[1..] && word[0] in word;
    }
  }
}
