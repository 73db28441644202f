/** The blocklist of sensitive files (internal/walker/sensitive.go). */
module Sensitive {
  import opened Options
  import opened Text

  // ---- Path patterns --------------------------------------------------------

  predicate HasSuffix(s: string, t: string) { |t| <= |s| && s[|s| - |t|..] == t }

  /** Some path element starts at `i`. */
  predicate ElementAt(path: string, i: nat) { i < |path| && (i == 0 || path[i - 1] == '/') }

  const SECRET_SUFFIXES :=
    {".pem", ".key", ".cert", ".p12", ".pfx", ".jks", ".keystore", ".sqlite", ".db"}

  const SECRET_DIRS := {".ssh/", ".gnupg/", ".gcloud/"}

  const SECRET_NAMES :=
    {".aws/credentials", "id_rsa", "id_rsa.pub", "id_ed25519", "id_ed25519.pub", "id_dsa", "id_dsa.pub",
     ".npmrc", ".pypirc", ".env"}

  /** `.env` with a suffix; the suffix may go on over separators, but not over lines. */
  predicate IsEnvFile(rest: string) { ".env." <= rest && |rest| > 5 && '\n' !in rest[5..] }

  /** `sensitivePathPatterns`, read off the eight regular expressions. */
  predicate MatchesPattern(path: string) {
    || (exists t :: t in SECRET_SUFFIXES && HasSuffix(path, t))
    || (exists i :: 0 <= i < |path| && ElementAt(path, i) && IsListed(path[i..]))
  }

  predicate IsListed(rest: string) {
    rest in SECRET_NAMES || IsEnvFile(rest) || exists d :: d in SECRET_DIRS && d <= rest
  }

  lemma SuffixIff(s: string, t: string)
    ensures HasSuffix(s, t) <==> exists p :: s == p + t
  {
    if HasSuffix(s, t) {
      assert s == s[..|s| - |t|] + t;
    }
    if p :| s == p + t {
      assert s[|s| - |t|..] == t;
    }
  }

  /** `rest` is the path, or what follows one of its separators. */
  ghost predicate Tails(path: string, rest: string) {
    exists dir :: path == dir + rest && (dir == "" || dir[|dir| - 1] == '/')
  }

  lemma TailsIff(path: string, rest: string)
    requires rest != ""
    ensures Tails(path, rest) <==> exists i :: 0 <= i < |path| && ElementAt(path, i) && path[i..] == rest
  {
    if i :| 0 <= i < |path| && ElementAt(path, i) && path[i..] == rest {
      TakenApart(path, i);
    }
    if Tails(path, rest) {
      var dir :| path == dir + rest && (dir == "" || dir[|dir| - 1] == '/');
      PutTogether(dir, rest);
    }
  }

  lemma TakenApart(path: string, i: nat)
    requires ElementAt(path, i)
    ensures path == path[..i] + path[i..] && (i > 0 ==> path[..i][i - 1] == '/')
  {
  }

  lemma PutTogether(dir: string, rest: string)
    requires rest != "" && (dir == "" || dir[|dir| - 1] == '/')
    ensures ElementAt(dir + rest, |dir|) && (dir + rest)[|dir|..] == rest
  {
  }

  predicate SecretSuffix(path: string) {
    || HasSuffix(path, ".pem") || HasSuffix(path, ".key") || HasSuffix(path, ".cert") || HasSuffix(path, ".p12")
    || HasSuffix(path, ".pfx") || HasSuffix(path, ".jks") || HasSuffix(path, ".keystore") || HasSuffix(path, ".sqlite")
    || HasSuffix(path, ".db")
  }

  /** The names of the list, `.env` with any suffix on one line, and what lies in its directories. */
  predicate SecretTail(rest: string) {
    || rest in [".env", ".npmrc", ".pypirc", ".aws/credentials"]
    || rest in ["id_rsa", "id_rsa.pub", "id_ed25519", "id_ed25519.pub", "id_dsa", "id_dsa.pub"]
    || (".env." < rest && '\n' !in rest[5..])
    || ".ssh/" <= rest || ".gnupg/" <= rest || ".gcloud/" <= rest
  }

  lemma SuffixesAre(path: string)
    ensures SecretSuffix(path) <==> exists t :: t in SECRET_SUFFIXES && HasSuffix(path, t)
  {
    hide HasSuffix;
    assert ".pem" in SECRET_SUFFIXES && ".key" in SECRET_SUFFIXES && ".cert" in SECRET_SUFFIXES;
    assert ".p12" in SECRET_SUFFIXES && ".pfx" in SECRET_SUFFIXES && ".jks" in SECRET_SUFFIXES;
    assert ".keystore" in SECRET_SUFFIXES && ".sqlite" in SECRET_SUFFIXES && ".db" in SECRET_SUFFIXES;
  }

  lemma TailsAre(rest: string)
    ensures SecretTail(rest) <==> IsListed(rest)
  {
    assert ".ssh/" in SECRET_DIRS && ".gnupg/" in SECRET_DIRS && ".gcloud/" in SECRET_DIRS;
  }

  /** The patterns take exactly the paths that end in one of nine suffixes or in such a tail. */
  lemma PatternIff(path: string)
    ensures MatchesPattern(path) <==>
              SecretSuffix(path) || exists rest :: rest != "" && Tails(path, rest) && SecretTail(rest)
  {
    hide HasSuffix, Tails, IsListed, SecretTail, SecretSuffix;
    SuffixesAre(path);
    if i :| 0 <= i < |path| && ElementAt(path, i) && IsListed(path[i..]) {
      TailsIff(path, path[i..]);
      TailsAre(path[i..]);
    }
    if rest :| rest != "" && Tails(path, rest) && SecretTail(rest) {
      TailsIff(path, rest);
      TailsAre(rest);
    }
  }

  // ---- Keywords in the name -------------------------------------------------

  const KEYWORDS := ["credential", "secret", "token"]

  predicate OccursAt(s: string, needle: string, at: nat) {
    at + |needle| <= |s| && s[at..at + |needle|] == needle
  }

  /** An occurrence with no letter right before it and none right after it. */
  predicate Delimited(s: string, needle: string, at: nat) {
    && OccursAt(s, needle, at)
    && (at > 0 ==> !IsLetter(s[at - 1]))
    && (at + |needle| < |s| ==> !IsLetter(s[at + |needle|]))
  }

  ghost predicate NamesKeyword(lower: string, k: nat)
    requires k < |KEYWORDS|
  {
    exists at: nat :: Delimited(lower, KEYWORDS[k], at) || Delimited(lower, KEYWORDS[k] + "s", at)
  }

  /** Some keyword, singular or plural, occurs in the name without letters around it. */
  ghost predicate NamesSecret(name: string) {
    exists k :: 0 <= k < |KEYWORDS| && NamesKeyword(Lower(name), k)
  }

  /** `strings.Index(lower[start:], needle)`. */
  method IndexFrom(s: string, needle: string, start: nat) returns (at: Option<nat>)
    requires start <= |s| && needle != ""
    ensures at.None? ==> forall i :: start <= i ==> !OccursAt(s, needle, i)
    ensures at.Some? ==> start <= at.value && OccursAt(s, needle, at.value)
    ensures at.Some? ==> forall i :: start <= i < at.value ==> !OccursAt(s, needle, i)
  {
    var i := start;
    while i + |needle| <= |s|
      invariant start <= i
      invariant forall j :: start <= j < i ==> !OccursAt(s, needle, j)
    {
      if s[i..i + |needle|] == needle {
        return Some(i);
      }
      i := i + 1;
    }
    return None;
  }

  method HasDelimited(lower: string, needle: string) returns (found: bool)
    requires needle != ""
    ensures found <==> exists at: nat :: Delimited(lower, needle, at)
  {
    var start := 0;
    while true
      invariant start <= |lower|
      invariant forall at: nat :: at < start ==> !Delimited(lower, needle, at)
      decreases |lower| - start
    {
      var idx := IndexFrom(lower, needle, start);
      if idx.None? {
        return false;
      }
      var abs := idx.value;
      var end := abs + |needle|;
      var before := if abs > 0 then lower[abs - 1] else '\0';
      var after := if end < |lower| then lower[end] else '\0';
      if !IsLetter(before) && !IsLetter(after) {
        assert Delimited(lower, needle, abs);
        return true;
      }
      start := abs + 1;
    }
  }

  /** `matchSensitiveName`: some delimited occurrence of some keyword is enough, whatever the
      other occurrences look like. */
  method MatchSensitiveName(name: string) returns (found: bool)
    ensures found <==> NamesSecret(name)
  {
    var lower := Lower(name);
    for k := 0 to |KEYWORDS|
      invariant forall j :: 0 <= j < k ==> !NamesKeyword(lower, j)
    {
      var base := HasDelimited(lower, KEYWORDS[k]);
      if base {
        var at: nat :| Delimited(lower, KEYWORDS[k], at);
        assert NamesKeyword(lower, k);
        return true;
      }
      var plural := HasDelimited(lower, KEYWORDS[k] + "s");
      if plural {
        var at: nat :| Delimited(lower, KEYWORDS[k] + "s", at);
        assert NamesKeyword(lower, k);
        return true;
      }
    }
    found := false;
  }

  predicate IsSecretWord(word: string) {
    word in ["credential", "credentials", "secret", "secrets", "token", "tokens"]
  }

  lemma WordsAre(word: string)
    ensures IsSecretWord(word) <==>
              exists k :: 0 <= k < |KEYWORDS| && (word == KEYWORDS[k] || word == KEYWORDS[k] + "s")
  {
    assert KEYWORDS[0] + "s" == "credentials" && KEYWORDS[1] + "s" == "secrets" && KEYWORDS[2] + "s" == "tokens";
  }

  /** The word occurs with no letter right before it and none right after it. */
  ghost predicate StandsAlone(s: string, word: string) {
    exists a, b :: s == a + (word + b) && NoLetterAtEnd(a) && NoLetterAtStart(b)
  }

  predicate NoLetterAtEnd(a: string) { a == "" || !IsLetter(a[|a| - 1]) }

  predicate NoLetterAtStart(b: string) { b == "" || !IsLetter(b[0]) }

  lemma DelimitedBetween(a: string, word: string, b: string)
    requires NoLetterAtEnd(a) && NoLetterAtStart(b)
    ensures Delimited(a + (word + b), word, |a|)
  {
    var s := a + (word + b);
    assert s[|a|..] == word + b && s[|a|..|a| + |word|] == word;
    assert s[|a| + |word|..] == b;
  }

  lemma AloneAt(s: string, word: string, at: nat)
    requires Delimited(s, word, at)
    ensures StandsAlone(s, word)
  {
    var a, b := s[..at], s[at + |word|..];
    assert s == a + (word + b);
    assert NoLetterAtEnd(a) && NoLetterAtStart(b);
  }

  /** In other words: in small letters the name contains one of six words, standing alone. */
  lemma NamesSecretIff(name: string)
    ensures NamesSecret(name) <==> exists word :: IsSecretWord(word) && StandsAlone(Lower(name), word)
  {
    var lower := Lower(name);
    hide Lower, Delimited, IsSecretWord, NoLetterAtEnd, NoLetterAtStart;
    if k :| 0 <= k < |KEYWORDS| && NamesKeyword(lower, k) {
      var at: nat :| Delimited(lower, KEYWORDS[k], at) || Delimited(lower, KEYWORDS[k] + "s", at);
      var word := if Delimited(lower, KEYWORDS[k], at) then KEYWORDS[k] else KEYWORDS[k] + "s";
      WordsAre(word);
      AloneAt(lower, word, at);
    }
    if word :| IsSecretWord(word) && StandsAlone(lower, word) {
      WordsAre(word);
      var k :| 0 <= k < |KEYWORDS| && (word == KEYWORDS[k] || word == KEYWORDS[k] + "s");
      var a, b :| lower == a + (word + b) && NoLetterAtEnd(a) && NoLetterAtStart(b);
      DelimitedBetween(a, word, b);
      assert NamesKeyword(lower, k);
    }
  }

  /** One delimited occurrence is enough, whatever follows it ... */
  lemma OneOccurrenceIsEnough(rest: string)
    ensures NamesSecret("secret-" + rest)
  {
    var name := "secret-" + rest;
    assert Lower(name)[..6] == "secret" && Lower(name)[6] == '-';
    assert KEYWORDS[1] == "secret" && Delimited(Lower(name), KEYWORDS[1], 0);
    assert NamesKeyword(Lower(name), 1);
  }

  /** ... be it an occurrence with a letter behind it, as in secret-secretary.md. */
  lemma SecretSecretary(rest: string)
    requires rest != "" && IsLetter(rest[0])
    ensures var name := "secret-" + ("secret" + rest);
            NamesSecret(name) && OccursAt(name, "secret", 7) && !Delimited(name, "secret", 7)
  {
    var tail := "secret" + rest;
    var name := "secret-" + tail;
    OneOccurrenceIsEnough(tail);
    hide NamesSecret;
    assert name[7..] == tail && tail[..6] == "secret" && tail[6] == rest[0];
    assert name[7..7 + 6] == tail[..6] && name[7 + 6] == tail[6];
  }

  // ---- The blocklist --------------------------------------------------------

  function TrimSlashes(path: string): string {
    if path != "" && path[|path| - 1] == '/' then TrimSlashes(path[..|path| - 1]) else path
  }

  function LastElement(path: string): string {
    if path == "" || path[|path| - 1] == '/' then ""
    else LastElement(path[..|path| - 1]) + [path[|path| - 1]]
  }

  /** `filepath.Base`. */
  function Base(path: string): string {
    var t := TrimSlashes(path);
    if path == "" then "." else if t == "" then "/" else LastElement(t)
  }

  ghost predicate SecretPath(path: string) {
    MatchesPattern(Posix(path)) || NamesSecret(Base(Posix(path)))
  }

  /** `IsSensitive`. */
  method IsSensitive(path: string) returns (r: bool)
    ensures r <==> SecretPath(path)
  {
    var normalized := Posix(path);
    if MatchesPattern(normalized) {
      return true;
    }
    r := MatchSensitiveName(Base(normalized));
  }

  lemma {:induction false} LastOfJoined(dir: string, name: string)
    requires '/' !in name
    ensures LastElement(dir + "/" + name) == name
    ensures LastElement(name) == name
  {
    var path := dir + "/" + name;
    if name == "" {
      assert path[|path| - 1] == '/';
    } else {
      var n := |name| - 1;
      LastOfJoined(dir, name[..n]);
      assert path[..|path| - 1] == dir + "/" + name[..n];
      assert name[n] in name && name == name[..n] + [name[n]];
    }
  }

  /** The name that is looked at is the last name of a joined path. */
  lemma BaseOfJoined(dir: string, name: string)
    requires name != "" && '/' !in name
    ensures Base(dir + "/" + name) == name && Base(name) == name
  {
    var path := dir + "/" + name;
    assert name[|name| - 1] in name && path[|path| - 1] == name[|name| - 1];
    LastOfJoined(dir, name);
    hide LastElement;
  }

  /** Separators at the end of a path make no difference, and one that has nothing else is the root. */
  lemma BaseOfDirectory(path: string)
    ensures path != "" ==> Base(path + "/") == Base(path)
    ensures Base("") == "." && Base("/") == "/"
  {
    assert (path + "/")[..|path|] == path;
    assert "/"[..0] == "";
    hide LastElement;
  }

  /** So a file whose name contains a keyword between other characters than letters is on the
      list in every directory. */
  lemma SecretNamesAreSecret(dir: string, name: string)
    requires name != "" && '/' !in Posix(name) && NamesSecret(name)
    ensures SecretPath(name) && SecretPath(dir + "/" + name)
  {
    var d, n := Posix(dir), Posix(name);
    assert Posix(dir + "/" + name) == d + "/" + n;
    BaseOfJoined(d, n);
    forall i | 0 <= i < |name| ensures n[i] == name[i] { assert n[i] in n; }
    assert n == name;
    hide NamesSecret, Base, MatchesPattern;
  }
}
