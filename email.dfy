/** The email-address check of the contact form: the regular expression
    `/^[^\s@]+@[^\s@]+\.[^\s@]+$/` and the executable predicate the gate uses
    in its place, proved to accept exactly the same strings. */
module Email {

  /** The characters JavaScript's `\s` class matches: the ECMAScript
      WhiteSpace and LineTerminator code points. */
  predicate IsSpace(c: char): (b: bool)
    ensures c == ' ' || c == '\t' || c == '\n' || c == '\r' ==> b
    ensures '!' <= c <= '~' ==> !b
  {
    c == '\t' || c == '\n' || c == '\U{B}' || c == '\U{C}' || c == '\r' || c == ' ' ||
    c == '\U{A0}' || c == '\U{1680}' || ('\U{2000}' <= c <= '\U{200A}') ||
    c == '\U{2028}' || c == '\U{2029}' || c == '\U{202F}' || c == '\U{205F}' ||
    c == '\U{3000}' || c == '\U{FEFF}'
  }

  /** The character class `[^\s@]`. */
  predicate InClass(c: char): (b: bool)
    ensures b ==> c != '@' && c != ' '
    ensures 'a' <= c <= 'z' ==> b
  {
    !IsSpace(c) && c != '@'
  }

  /** Every character of `t` is in `[^\s@]`, so `t` matches `[^\s@]*`. */
  predicate AllInClass(t: string)
  {
    forall k :: 0 <= k < |t| ==> InClass(t[k])
  }

  /** The language of the anchored pattern `^[^\s@]+@[^\s@]+\.[^\s@]+$`:
      `s` splits at an `@` (index `i`) and a `.` (index `j`) into three
      non-empty runs of `[^\s@]`. */
  ghost predicate MatchesEmailRegex(s: string): (b: bool)
    ensures b ==> 5 <= |s| && InClass(s[0]) && InClass(s[|s| - 1])
  {
    exists i, j :: 0 < i && i + 1 < j && j + 1 < |s| && s[i] == '@' && s[j] == '.' &&
      AllInClass(s[..i]) && AllInClass(s[i + 1..j]) && AllInClass(s[j + 1..])
  }

  /** Number of occurrences of `c` in `s`. */
  function CountChar(s: string, c: char): nat
  {
    if s == [] then 0 else (if s[0] == c then 1 else 0) + CountChar(s[1..], c)
  }

  /** Index of the first `c` in `s`, or `|s|` when there is none. */
  function IndexOfChar(s: string, c: char): (i: nat)
    ensures i <= |s|
    ensures i < |s| ==> s[i] == c
    ensures forall k :: 0 <= k < i ==> s[k] != c
  {
    if s == [] then 0 else if s[0] == c then 0 else 1 + IndexOfChar(s[1..], c)
  }

  predicate NoSpace(s: string)
  {
    forall k :: 0 <= k < |s| ==> !IsSpace(s[k])
  }

  /** `d` holds a `.` that is neither its first nor its last character. */
  predicate HasInnerDot(d: string)
  {
    exists j :: 0 < j < |d| - 1 && d[j] == '.'
  }

  /** The check the gate runs: no whitespace, exactly one `@`, a non-empty
      part before it, and a domain after it with an inner `.`. */
  predicate IsValidEmail(s: string): (b: bool)
    ensures b ==> 5 <= |s| && s[0] != '@' && '@' in s
  {
    NoSpace(s) && CountChar(s, '@') == 1 &&
    var at := IndexOfChar(s, '@');
    0 < at && at < |s| && HasInnerDot(s[at + 1..])
  }

  lemma {:induction false} CountCharSplit(s: string, c: char, n: nat)
    requires n <= |s|
    ensures CountChar(s, c) == CountChar(s[..n], c) + CountChar(s[n..], c)
  {
    if n > 0 {
      assert s[1..][..n - 1] == s[1..n];
      assert s[1..][n - 1..] == s[n..];
      CountCharSplit(s[1..], c, n - 1);
      assert s[..n][1..] == s[1..n];
    } else {
      assert s[..0] == [];
      assert s[0..] == s;
    }
  }

  lemma {:induction false} CountCharZero(s: string, c: char)
    ensures CountChar(s, c) == 0 <==> forall k :: 0 <= k < |s| ==> s[k] != c
  {
    if s != [] {
      CountCharZero(s[1..], c);
      assert forall k :: 1 <= k < |s| ==> s[k] == s[1..][k - 1];
    }
  }

  /** Every string the executable check accepts matches the pattern. */
  lemma CheckedEmailMatchesRegex(s: string)
    requires IsValidEmail(s)
    ensures MatchesEmailRegex(s)
  {
    var i := IndexOfChar(s, '@');
    var d := s[i + 1..];
    var j' :| 0 < j' < |d| - 1 && d[j'] == '.';
    var j := i + 1 + j';
    assert s[j] == '.';
    NoAtAfterOnlyAt(s, i);
    assert AllInClass(s[..i]);
    assert AllInClass(s[i + 1..j]) by {
      assert forall k :: i + 1 <= k < j ==> s[i + 1..j][k - (i + 1)] == s[k];
    }
    assert AllInClass(s[j + 1..]) by {
      assert forall k :: j + 1 <= k < |s| ==> s[j + 1..][k - (j + 1)] == s[k];
    }
  }

  /** With exactly one `@`, found at `i`, no `@` follows it. */
  lemma NoAtAfterOnlyAt(s: string, i: nat)
    requires CountChar(s, '@') == 1 && i == IndexOfChar(s, '@') && i < |s|
    ensures forall k :: i < k < |s| ==> s[k] != '@'
  {
    CountCharSplit(s, '@', i + 1);
    assert s[..i + 1] == s[..i] + [s[i]];
    CountCharSplit(s[..i + 1], '@', i);
    assert s[..i + 1][..i] == s[..i];
    assert s[..i + 1][i..] == [s[i]];
    CountCharZero(s[..i], '@');
    CountCharZero(s[i + 1..], '@');
    assert forall k :: i < k < |s| ==> s[k] == s[i + 1..][k - (i + 1)];
  }

  /** In a match, every character other than the `@` at `i` is in
      `[^\s@]`. */
  lemma RegexRunsCover(s: string, i: nat, j: nat)
    requires 0 < i && i + 1 < j && j + 1 < |s| && s[i] == '@' && s[j] == '.'
    requires AllInClass(s[..i]) && AllInClass(s[i + 1..j]) && AllInClass(s[j + 1..])
    ensures forall k :: 0 <= k < |s| && k != i ==> InClass(s[k])
  {
  }

  /** Every string matching the pattern passes the executable check. */
  lemma RegexEmailPassesCheck(s: string)
    requires MatchesEmailRegex(s)
    ensures IsValidEmail(s)
  {
    var i, j :| 0 < i && i + 1 < j && j + 1 < |s| && s[i] == '@' && s[j] == '.' &&
      AllInClass(s[..i]) && AllInClass(s[i + 1..j]) && AllInClass(s[j + 1..]);
    RegexRunsCover(s, i, j);
    assert NoSpace(s);
    assert IndexOfChar(s, '@') == i;
    CountCharSplit(s, '@', i);
    CountCharZero(s[..i], '@');
    CountCharZero(s[i + 1..], '@');
    assert s[i..][1..] == s[i + 1..];
    assert CountChar(s[i..], '@') == 1 + CountChar(s[i + 1..], '@');
    var d := s[i + 1..];
    assert d[j - (i + 1)] == '.';
    assert HasInnerDot(d);
  }

  /** The executable check and the regular expression accept the same
      strings. */
  lemma EmailCheckIsRegex(s: string)
    ensures IsValidEmail(s) <==> MatchesEmailRegex(s)
  {
    if IsValidEmail(s) {
      CheckedEmailMatchesRegex(s);
    }
    if MatchesEmailRegex(s) {
      RegexEmailPassesCheck(s);
    }
  }

  /** `a@b.co` is accepted. */
  lemma AcceptsSimpleAddress()
    ensures MatchesEmailRegex("a@b.co")
    ensures IsValidEmail("a@b.co")
  {
    var s := "a@b.co";
    assert s[..1] == "a" && s[2..3] == "b" && s[4..] == "co";
    assert AllInClass(s[..1]) && AllInClass(s[2..3]) && AllInClass(s[4..]);
    EmailCheckIsRegex(s);
  }

  /** `a@b` (no dot in the domain), `a@@b.co` (two `@`), `a b@c.co`
      (whitespace) and the empty string are rejected. */
  lemma RejectsMalformedAddresses()
    ensures !MatchesEmailRegex("a@b")
    ensures !MatchesEmailRegex("a@@b.co")
    ensures !MatchesEmailRegex("a b@c.co")
    ensures !MatchesEmailRegex("")
  {
    EmailCheckIsRegex("a@b");
    assert !HasInnerDot("b");
    EmailCheckIsRegex("a@@b.co");
    assert CountChar("a@@b.co", '@') == 2;
    EmailCheckIsRegex("a b@c.co");
    assert IsSpace("a b@c.co"[1]);
    EmailCheckIsRegex("");
  }
}
