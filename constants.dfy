/**
 * The fixed policies of util/Constants.java: the email syntax EMAIL_REGEX, the password
 * policy PWD_REGEX and the token lifetime EXPIRATION_TIME.
 *
 * Each regular expression is written as the predicate its whole-string match decides
 * (`Matcher.matches()`), and is then related to a second, independent description:
 * a single left-to-right scan for the email syntax, and a plain statement of the
 * documented policy for the password.
 */
module Constants {

  // ---------------------------------------------------------------------------
  // Character classes (java.util.regex defaults: ASCII classes, `.` excludes line terminators)
  // ---------------------------------------------------------------------------

  predicate IsAsciiLower(c: char) { 'a' <= c <= 'z' }
  predicate IsAsciiUpper(c: char) { 'A' <= c <= 'Z' }
  predicate IsAsciiLetter(c: char) { IsAsciiLower(c) || IsAsciiUpper(c) }
  /** `\d` without UNICODE_CHARACTER_CLASS. */
  predicate IsAsciiDigit(c: char) { '0' <= c <= '9' }

  /** The characters Java treats as line terminators; `.` matches every other character. */
  predicate IsLineTerminator(c: char) {
    c == '\n' || c == '\r' || c == '\U{0085}' || c == '\U{2028}' || c == '\U{2029}'
  }

  /** `[a-zA-Z0-9._%+-]` */
  predicate IsLocalChar(c: char) {
    IsAsciiLetter(c) || IsAsciiDigit(c) || c == '.' || c == '_' || c == '%' || c == '+' || c == '-'
  }

  /** `[a-zA-Z0-9.-]` */
  predicate IsDomainChar(c: char) {
    IsAsciiLetter(c) || IsAsciiDigit(c) || c == '.' || c == '-'
  }

  predicate AllLocal(s: string) { forall i :: 0 <= i < |s| ==> IsLocalChar(s[i]) }
  predicate AllDomain(s: string) { forall i :: 0 <= i < |s| ==> IsDomainChar(s[i]) }
  predicate AllLetters(s: string) { forall i :: 0 <= i < |s| ==> IsAsciiLetter(s[i]) }
  predicate AllDot(s: string) { forall i :: 0 <= i < |s| ==> !IsLineTerminator(s[i]) }

  // ---------------------------------------------------------------------------
  // EMAIL_REGEX = ^[a-zA-Z0-9._%+-]+@[a-zA-Z0-9.-]+\.[a-zA-Z]{2,}$
  // ---------------------------------------------------------------------------

  /**
   * `at` and `dot` split `s` as `local "@" domain "." tld`: a non-empty local part over
   * `[a-zA-Z0-9._%+-]`, a non-empty domain over `[a-zA-Z0-9.-]` and a top-level domain
   * of at least two ASCII letters.
   */
  predicate IsEmailSplit(s: string, at: int, dot: int) {
    && 0 < at && at + 1 < dot && dot + 2 < |s|
    && s[at] == '@' && s[dot] == '.'
    && AllLocal(s[..at]) && AllDomain(s[at + 1..dot]) && AllLetters(s[dot + 1..])
  }

  /** EMAIL_REGEX matched against the whole of `s`: some split of `s` fits the pattern. */
  predicate EmailRegex(s: string) {
    exists at, dot | 0 <= at < |s| && 0 <= dot < |s| :: IsEmailSplit(s, at, dot)
  }

  /** Position of the first `c` in `s`, or `|s|` when there is none. */
  function IndexOf(s: string, c: char): (k: nat)
    ensures k <= |s|
    ensures k < |s| ==> s[k] == c
    ensures forall i :: 0 <= i < k ==> s[i] != c
  {
    if |s| == 0 then 0
    else if s[0] == c then 0
    else 1 + IndexOf(s[1..], c)
  }

  /** Length of the longest suffix of `s` made only of ASCII letters. */
  function TrailingLetters(s: string): (n: nat)
    ensures n <= |s|
    ensures forall i :: |s| - n <= i < |s| ==> IsAsciiLetter(s[i])
    ensures n < |s| ==> !IsAsciiLetter(s[|s| - n - 1])
  {
    if |s| == 0 || !IsAsciiLetter(s[|s| - 1]) then 0
    else 1 + TrailingLetters(s[..|s| - 1])
  }

  /**
   * EMAIL_REGEX decided by one reading of `s`: the local part holds no `@`, so the
   * `@` is the first one; the top-level domain holds no `.`, so the `.` before it is
   * the character just before the longest all-letter suffix.
   */
  function ScanEmail(s: string): bool {
    var at := IndexOf(s, '@');
    var dot := |s| - TrailingLetters(s) - 1;
    0 < at && at + 1 < dot && dot + 2 < |s| && s[dot] == '.'
    && AllLocal(s[..at]) && AllDomain(s[at + 1..dot])
  }

  /** The scan and the pattern accept the same strings. */
  lemma ScanEmailIsEmailRegex(s: string)
    ensures ScanEmail(s) <==> EmailRegex(s)
  {
    var at := IndexOf(s, '@');
    var n := TrailingLetters(s);
    var dot := |s| - n - 1;
    if ScanEmail(s) {
      var tld := s[dot + 1..];
      forall i | 0 <= i < |tld| ensures IsAsciiLetter(tld[i]) {
        assert tld[i] == s[dot + 1 + i];
      }
      assert IsEmailSplit(s, at, dot);
    }
    if EmailRegex(s) {
      var a, d :| 0 <= a < |s| && 0 <= d < |s| && IsEmailSplit(s, a, d);
      // the first `@` is the one at `a`: the local part before it has none
      forall i | 0 <= i < a ensures s[i] != '@' {
        assert IsLocalChar(s[..a][i]);
      }
      assert at == a;
      // the longest letter suffix starts right after the `.` at `d`
      forall i | d < i < |s| ensures IsAsciiLetter(s[i]) {
        assert s[d + 1..][i - (d + 1)] == s[i];
      }
      assert !IsAsciiLetter(s[d]);
      assert dot == d;
    }
  }

  /** Number of occurrences of `c` in `s`. */
  function CountChar(s: string, c: char): nat {
    if s == [] then 0 else (if s[0] == c then 1 else 0) + CountChar(s[1..], c)
  }

  lemma {:induction false} CountCharAppend(a: string, b: string, c: char)
    ensures CountChar(a + b, c) == CountChar(a, c) + CountChar(b, c)
  {
    if a != [] {
      assert (a + b)[1..] == a[1..] + b;
      CountCharAppend(a[1..], b, c);
    } else {
      assert a + b == b;
    }
  }

  lemma {:induction false} CountCharAbsent(s: string, c: char)
    requires forall i :: 0 <= i < |s| ==> s[i] != c
    ensures CountChar(s, c) == 0
  {
    if s != [] {
      CountCharAbsent(s[1..], c);
    }
  }

  /** Every string EMAIL_REGEX accepts holds exactly one `@`. */
  lemma {:induction false} EmailRegexHasOneAt(s: string)
    ensures EmailRegex(s) ==> CountChar(s, '@') == 1
  {
    if EmailRegex(s) {
      var a, d :| 0 <= a < |s| && 0 <= d < |s| && IsEmailSplit(s, a, d);
      var rest := s[a + 1..];
      forall i | 0 <= i < |rest| ensures rest[i] != '@' {
        var j := a + 1 + i;
        assert rest[i] == s[j];
        if j < d {
          assert s[a + 1..d][j - (a + 1)] == s[j];
        } else if j > d {
          assert s[d + 1..][j - (d + 1)] == s[j];
        }
      }
      forall i | 0 <= i < a ensures s[..a][i] != '@' {
        assert IsLocalChar(s[..a][i]);
      }
      CountCharAbsent(s[..a], '@');
      CountCharAbsent(rest, '@');
      assert s == s[..a] + [s[a]] + rest;
      CountCharAppend(s[..a], [s[a]], '@');
      CountCharAppend(s[..a] + [s[a]], rest, '@');
    }
  }

  /** A string without an `@`, such as `invalid`, fails EMAIL_REGEX. */
  lemma InvalidEmailRejected()
    ensures !EmailRegex("invalid")
  {
    var s := "invalid";
    forall i | 0 <= i < |s| ensures s[i] != '@' {}
    CountCharAbsent(s, '@');
    EmailRegexHasOneAt(s);
  }

  /** The documented example `aaaaaaa@dominio.cl` fits EMAIL_REGEX. */
  lemma DocumentedEmailAccepted()
    ensures EmailRegex("aaaaaaa@dominio.cl")
  {
    var s := "aaaaaaa@dominio.cl";
    assert s[..7] == "aaaaaaa";
    assert s[8..15] == "dominio";
    assert s[16..] == "cl";
    assert IsEmailSplit(s, 7, 15);
  }

  // ---------------------------------------------------------------------------
  // PWD_REGEX = ^(?=.*\d)(?=.*[a-z])(?=.*[A-Z]).{8,16}$
  // ---------------------------------------------------------------------------

  /**
   * The lookahead `(?=.*X)` at the start of `s`: some character of class X is preceded
   * only by characters that `.` matches.
   */
  predicate LookaheadFinds(s: string, charClass: char -> bool) {
    exists k | 0 <= k < |s| :: AllDot(s[..k]) && charClass(s[k])
  }

  /** PWD_REGEX matched against the whole of `s`, lookahead by lookahead. */
  predicate PwdRegex(s: string) {
    && LookaheadFinds(s, IsAsciiDigit)
    && LookaheadFinds(s, IsAsciiLower)
    && LookaheadFinds(s, IsAsciiUpper)
    && 8 <= |s| <= 16 && AllDot(s)
  }

  /** The documented policy: 8 to 16 characters, a digit, a lowercase and an uppercase letter. */
  predicate PasswordPolicy(s: string) {
    && 8 <= |s| <= 16
    && (forall i :: 0 <= i < |s| ==> !IsLineTerminator(s[i]))
    && (exists i :: 0 <= i < |s| && IsAsciiDigit(s[i]))
    && (exists i :: 0 <= i < |s| && IsAsciiLower(s[i]))
    && (exists i :: 0 <= i < |s| && IsAsciiUpper(s[i]))
  }

  lemma LookaheadFindsAny(s: string, charClass: char -> bool)
    requires AllDot(s)
    ensures LookaheadFinds(s, charClass) <==> exists i :: 0 <= i < |s| && charClass(s[i])
  {
    if i :| 0 <= i < |s| && charClass(s[i]) {
      assert AllDot(s[..i]);
    }
  }

  /** PWD_REGEX accepts exactly the passwords that follow the documented policy. */
  lemma PwdRegexIsPolicy(s: string)
    ensures PwdRegex(s) <==> PasswordPolicy(s)
  {
    if AllDot(s) {
      LookaheadFindsAny(s, IsAsciiDigit);
      LookaheadFindsAny(s, IsAsciiLower);
      LookaheadFindsAny(s, IsAsciiUpper);
    }
  }

  /** Too short or too long is rejected whatever the characters. */
  lemma PwdRegexRejectsLength(s: string)
    requires |s| < 8 || 16 < |s|
    ensures !PwdRegex(s)
  {
  }

  /** The documented example `123Acb1234*` and the example `Abc123!@` fit PWD_REGEX. */
  lemma ExamplePasswordsAccepted()
    ensures PwdRegex("123Acb1234*")
    ensures PwdRegex("Abc123!@")
  {
    var p := "123Acb1234*";
    assert AllDot(p);
    assert AllDot(p[..0]) && IsAsciiDigit(p[0]);
    assert AllDot(p[..4]) && IsAsciiLower(p[4]);
    assert AllDot(p[..3]) && IsAsciiUpper(p[3]);
    var q := "Abc123!@";
    assert AllDot(q);
    assert AllDot(q[..3]) && IsAsciiDigit(q[3]);
    assert AllDot(q[..1]) && IsAsciiLower(q[1]);
    assert AllDot(q[..0]) && IsAsciiUpper(q[0]);
  }

  // ---------------------------------------------------------------------------
  // EXPIRATION_TIME = 10 * 60 * 60 * 1000
  // ---------------------------------------------------------------------------

  /** Java `int` arithmetic: the result wrapped into the 32-bit two's-complement range. */
  function ToInt32(x: int): (r: int)
    ensures -0x8000_0000 <= r < 0x8000_0000
    ensures (r - x) % 0x1_0000_0000 == 0
    ensures -0x8000_0000 <= x < 0x8000_0000 ==> r == x
  {
    (x + 0x8000_0000) % 0x1_0000_0000 - 0x8000_0000
  }

  const MillisPerHour: int := 60 * 60 * 1000

  /**
   * EXPIRATION_TIME as the source computes it: the product is formed in `int` (each step
   * wraps) and only then widened to `long`.
   */
  const ExpirationTime: int := ToInt32(ToInt32(ToInt32(10 * 60) * 60) * 1000)

  /** No step of the `int` product wraps: the lifetime is 36,000,000 ms, ten hours. */
  lemma ExpirationTimeIsTenHours()
    ensures ExpirationTime == 36_000_000
    ensures ExpirationTime == 10 * MillisPerHour
  {
    assert ToInt32(10 * 60) == 600;
    assert ToInt32(600 * 60) == 36_000;
    assert ToInt32(36_000 * 1000) == 36_000_000;
  }
}
