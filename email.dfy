/** The email grammar that `isEmailFormat` checks with the regular
    expression `^[a-zA-Z0-9._%+-]+@[a-zA-Z0-9.-]+\.[a-zA-Z]{2,}$`,
    written out as character classes.

    `MatchesEmailPattern` follows the expression's structure (local part,
    `@`, domain, `.`, top-level label); `IsEmailFormat` decides it by a
    scan for the first `@` and the last `.`; `EmailFormatIsPattern` proves
    the two agree on every string. */
module Email {

  predicate IsAsciiLetter(c: char) {
    'a' <= c <= 'z' || 'A' <= c <= 'Z'
  }

  predicate IsAsciiDigit(c: char) {
    '0' <= c <= '9'
  }

  /** `[a-zA-Z0-9._%+-]` */
  predicate IsLocalChar(c: char) {
    IsAsciiLetter(c) || IsAsciiDigit(c) || c == '.' || c == '_' || c == '%' || c == '+' || c == '-'
  }

  /** `[a-zA-Z0-9.-]` */
  predicate IsDomainChar(c: char) {
    IsAsciiLetter(c) || IsAsciiDigit(c) || c == '.' || c == '-'
  }

  predicate AllLocal(s: string) {
    forall i :: 0 <= i < |s| ==> IsLocalChar(s[i])
  }

  predicate AllDomain(s: string) {
    forall i :: 0 <= i < |s| ==> IsDomainChar(s[i])
  }

  predicate AllLetters(s: string) {
    forall i :: 0 <= i < |s| ==> IsAsciiLetter(s[i])
  }

  /** `s` matches the expression with the `@` at index `at` and the `.`
      before the top-level label at index `dot`. */
  ghost predicate EmailSplit(s: string, at: int, dot: int) {
    && 0 < at < dot - 1 && dot + 2 < |s|
    && AllLocal(s[..at])
    && s[at] == '@'
    && AllDomain(s[at + 1..dot])
    && s[dot] == '.'
    && AllLetters(s[dot + 1..])
  }

  /** The language of the regular expression (anchored at both ends). */
  ghost predicate MatchesEmailPattern(s: string) {
    exists at, dot :: EmailSplit(s, at, dot)
  }

  /** Index of the first `c` in `s`, or `|s|` if there is none. */
  function IndexOf(s: string, c: char): (k: nat)
    ensures k <= |s|
    ensures k < |s| ==> s[k] == c
    ensures forall j :: 0 <= j < k ==> s[j] != c
  {
    if s == [] then 0
    else if s[0] == c then 0
    else 1 + IndexOf(s[1..], c)
  }

  /** Index of the last `c` in `s`, or -1 if there is none. */
  function LastIndexOf(s: string, c: char): (k: int)
    ensures -1 <= k < |s|
    ensures 0 <= k ==> s[k] == c
    ensures forall j :: k < j < |s| ==> s[j] != c
  {
    if s == [] then -1
    else if s[|s| - 1] == c then |s| - 1
    else LastIndexOf(s[..|s| - 1], c)
  }

  /** Decides the email grammar: the text before the first `@` is a
      non-empty local part, and the text after it is made of domain
      characters, with its last `.` preceded by at least one character and
      followed by two or more ASCII letters. */
  function IsEmailFormat(s: string): bool {
    var at := IndexOf(s, '@');
    if at == |s| then false
    else
      var domain := s[at + 1..];
      var dot := LastIndexOf(domain, '.');
      && 0 < at
      && AllLocal(s[..at])
      && AllDomain(domain)
      && 0 < dot && dot + 2 < |domain|
      && AllLetters(domain[dot + 1..])
  }

  lemma EmailSplitSound(s: string)
    requires IsEmailFormat(s)
    ensures MatchesEmailPattern(s)
  {
    var at := IndexOf(s, '@');
    var domain := s[at + 1..];
    var k := LastIndexOf(domain, '.');
    var dot := at + 1 + k;
    assert s[at + 1..dot] == domain[..k];
    assert s[dot + 1..] == domain[k + 1..];
    assert EmailSplit(s, at, dot);
  }

  /** An '@' preceded only by local characters is the first '@'. */
  lemma FirstAt(s: string, at: nat)
    requires at < |s| && s[at] == '@' && AllLocal(s[..at])
    ensures IndexOf(s, '@') == at
  {
    var first := IndexOf(s, '@');
    assert first <= at;
  }

  /** A '.' followed only by letters is the last '.'. */
  lemma LastDot(d: string, k: nat)
    requires k < |d| && d[k] == '.' && AllLetters(d[k + 1..])
    ensures LastIndexOf(d, '.') == k
  {
    var last := LastIndexOf(d, '.');
    assert last >= k;
  }

  /** Domain characters, a '.', then letters: all domain characters. */
  lemma DomainOfParts(d: string, k: nat)
    requires k < |d| && AllDomain(d[..k]) && d[k] == '.' && AllLetters(d[k + 1..])
    ensures AllDomain(d)
  {
    forall j | 0 <= j < |d| ensures IsDomainChar(d[j]) {
      if j < k {
        assert d[..k][j] == d[j];
      } else if j > k {
        assert d[k + 1..][j - k - 1] == d[j];
      }
    }
  }

  lemma EmailSplitComplete(s: string, at: int, dot: int)
    requires EmailSplit(s, at, dot)
    ensures IsEmailFormat(s)
  {
    FirstAt(s, at);
    var domain := s[at + 1..];
    var k := dot - at - 1;
    assert domain[..k] == s[at + 1..dot];
    assert domain[k + 1..] == s[dot + 1..];
    DomainOfParts(domain, k);
    LastDot(domain, k);
  }

  /** The scan and the grammar agree on every string. */
  lemma EmailFormatIsPattern(s: string)
    ensures IsEmailFormat(s) <==> MatchesEmailPattern(s)
  {
    if IsEmailFormat(s) {
      EmailSplitSound(s);
    }
    if MatchesEmailPattern(s) {
      var at, dot :| EmailSplit(s, at, dot);
      EmailSplitComplete(s, at, dot);
    }
  }

  /** A string without '@' is never an email address. */
  lemma NoAtNotEmail(s: string)
    requires '@' !in s
    ensures !IsEmailFormat(s)
  {
    assert forall j :: 0 <= j < |s| ==> s[j] != '@';
  }

  /** "a@b.com" is an email address. */
  lemma EmailAccepted()
    ensures IsEmailFormat("a@b.com")
  {
    var s := "a@b.com";
    assert s[..1] == "a" && s[2..3] == "b" && s[4..] == "com";
    assert AllLocal("a") && AllDomain("b") && AllLetters("com");
    EmailSplitComplete(s, 1, 3);
  }

  /** "plainuser" is not. */
  lemma EmailRejected()
    ensures !IsEmailFormat("plainuser")
  {
    NoAtNotEmail("plainuser");
  }
}
