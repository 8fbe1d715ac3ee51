/** The three field validators of commands/import.go. The two regular
    expressions (import.go:60-61) are written out by hand: each has a
    declarative reading of its pattern and a deterministic matcher, and the
    lemmas show the two agree. */
module Validators {
  import opened Decimal

  // ---------------------------------------------------------------- gender

  /** strings.ToUpper on one character, for the ASCII letters. */
  function ToUpperChar(c: char): char
  {
    if 'a' <= c <= 'z' then (c as int - 32) as char else c
  }

  /** strings.ToUpper: every lower-case letter raised, everything else kept. */
  function ToUpper(s: string): (u: string)
    ensures |u| == |s|
    ensures forall i | 0 <= i < |u| :: !('a' <= u[i] <= 'z')
    ensures forall i | 0 <= i < |u| :: u[i] == s[i] || ('a' <= s[i] <= 'z' && u[i] as int == s[i] as int - 32)
  {
    seq(|s|, i requires 0 <= i < |s| => ToUpperChar(s[i]))
  }

  /** validateGender: only the two short forms "M" and "F". */
  function ValidateGender(gender: string): (ok: bool)
    ensures ok <==> |gender| == 1 && (gender[0] == 'M' || gender[0] == 'F')
  {
    gender == "M" || gender == "F"
  }

  /** parseRow upper-cases the gender column before validating it, so exactly
      "M", "F", "m" and "f" are accepted, and the stored form is "M" or "F". */
  lemma GenderAccepted(s: string)
    ensures ValidateGender(ToUpper(s)) <==> (s == "M" || s == "F" || s == "m" || s == "f")
    ensures ValidateGender(ToUpper(s)) ==> ToUpper(s) == (if s == "M" || s == "m" then "M" else "F")
  {
    var u := ToUpper(s);
    if |s| == 1 {
      assert u == [ToUpperChar(s[0])];
      assert s == [s[0]];
    } else {
      assert u != "M" && u != "F";
    }
  }

  // ----------------------------------------------------------------- email

  predicate IsAlnum(c: char)
  {
    'a' <= c <= 'z' || 'A' <= c <= 'Z' || '0' <= c <= '9'
  }

  /** The character class of the local part: [a-zA-Z0-9.!#$%&'*+/=?^_`{|}~-] */
  predicate IsLocalChar(c: char)
  {
    IsAlnum(c) ||
    c in {'.', '!', '#', '$', '%', '&', '\'', '*', '+', '/', '=', '?', '^', '_', '`', '{', '|', '}', '~', '-'}
  }

  /** The inner characters of a domain label: [a-zA-Z0-9-] */
  predicate IsLabelChar(c: char)
  {
    IsAlnum(c) || c == '-'
  }

  /** The local part: [a-zA-Z0-9.!#$%&'*+/=?^_`{|}~-]+ */
  predicate IsLocalPart(s: string)
  {
    |s| >= 1 && forall i | 0 <= i < |s| :: IsLocalChar(s[i])
  }

  /** One label: [a-zA-Z0-9](?:[a-zA-Z0-9-]{0,61}[a-zA-Z0-9])?, that is 1 to 63
      characters, alphanumeric at both ends, hyphens allowed inside. */
  predicate IsLabel(l: string)
  {
    1 <= |l| <= 63 && IsAlnum(l[0]) && IsAlnum(l[|l| - 1]) &&
    forall i | 0 < i < |l| - 1 :: IsLabelChar(l[i])
  }

  /** The domain as the pattern reads it: a label, then any number of
      '.'-prefixed labels. */
  ghost predicate DomainPattern(d: string)
    decreases |d|
  {
    IsLabel(d) || exists j :: DomainSplit(d, j)
  }

  /** `d` is a label, a dot at position `j`, and a domain. */
  ghost predicate DomainSplit(d: string, j: int)
    decreases |d|, 0
  {
    0 <= j < |d| && d[j] == '.' && IsLabel(d[..j]) && DomainPattern(d[j + 1..])
  }

  /** The whole address as the anchored pattern reads it: local part, '@', domain. */
  ghost predicate EmailPattern(s: string)
  {
    exists k :: EmailSplit(s, k)
  }

  /** `s` is a local part, an '@' at position `k`, and a domain. */
  ghost predicate EmailSplit(s: string, k: int)
  {
    0 <= k < |s| && s[k] == '@' && IsLocalPart(s[..k]) && DomainPattern(s[k + 1..])
  }

  /** The position of the first `c` in `s`, or |s| if there is none. */
  function IndexOf(s: string, c: char): (k: nat)
    ensures k <= |s|
    ensures k < |s| ==> s[k] == c
    ensures forall i | 0 <= i < k :: s[i] != c
  {
    if s == [] then 0 else if s[0] == c then 0 else 1 + IndexOf(s[1..], c)
  }

  /** Matcher for the domain: cut at the first dot and check label by label. */
  function MatchDomain(d: string): (ok: bool)
    ensures ok ==> |d| > 0 && IsAlnum(d[0]) && IsAlnum(d[|d| - 1])
    ensures ok ==> forall i | 0 <= i < |d| :: IsLabelChar(d[i]) || d[i] == '.'
    decreases |d|
  {
    var j := IndexOf(d, '.');
    if j == |d| then IsLabel(d) else IsLabel(d[..j]) && MatchDomain(d[j + 1..])
  }

  /** Matcher for the address: cut at the first '@'. */
  function MatchEmail(s: string): (ok: bool)
    ensures ok ==> IndexOf(s, '@') < |s|
    ensures ok ==> forall i | 0 <= i < |s| && s[i] == '@' :: i == IndexOf(s, '@')
  {
    var k := IndexOf(s, '@');
    k < |s| && IsLocalPart(s[..k]) && MatchDomain(s[k + 1..])
  }

  lemma LabelHasNoDot(l: string)
    requires IsLabel(l)
    ensures forall i | 0 <= i < |l| :: l[i] != '.'
  {
  }

  /** A label holds no dot, so the first dot of a domain ends its first label. */
  lemma FirstDotAfterLabel(d: string, j: nat)
    requires j < |d| && d[j] == '.' && IsLabel(d[..j])
    ensures IndexOf(d, '.') == j
  {
    LabelHasNoDot(d[..j]);
    assert forall i | 0 <= i < j :: d[i] == d[..j][i];
  }

  lemma {:induction false} MatchDomainSound(d: string)
    requires MatchDomain(d)
    ensures DomainPattern(d)
    decreases |d|
  {
    var j := IndexOf(d, '.');
    if j < |d| {
      MatchDomainSound(d[j + 1..]);
      assert DomainSplit(d, j);
    }
  }

  lemma {:induction false} MatchDomainComplete(d: string)
    requires DomainPattern(d)
    ensures MatchDomain(d)
    decreases |d|
  {
    if IsLabel(d) {
      LabelHasNoDot(d);
      assert IndexOf(d, '.') == |d|;
    } else {
      var j :| DomainSplit(d, j);
      FirstDotAfterLabel(d, j);
      MatchDomainComplete(d[j + 1..]);
    }
  }

  lemma LocalPartHasNoAt(l: string)
    requires IsLocalPart(l)
    ensures forall i | 0 <= i < |l| :: l[i] != '@'
  {
  }

  /** A local part holds no '@', so the first '@' of an address ends it. */
  lemma FirstAtAfterLocalPart(s: string, k: nat)
    requires k < |s| && s[k] == '@' && IsLocalPart(s[..k])
    ensures IndexOf(s, '@') == k
  {
    LocalPartHasNoAt(s[..k]);
    assert forall i | 0 <= i < k :: s[i] == s[..k][i];
  }

  lemma MatchEmailSound(s: string)
    requires MatchEmail(s)
    ensures EmailPattern(s)
  {
    var k := IndexOf(s, '@');
    MatchDomainSound(s[k + 1..]);
    assert EmailSplit(s, k);
  }

  lemma MatchEmailComplete(s: string)
    requires EmailPattern(s)
    ensures MatchEmail(s)
  {
    var k :| EmailSplit(s, k);
    FirstAtAfterLocalPart(s, k);
    MatchDomainComplete(s[k + 1..]);
  }

  lemma MatchEmailIff(s: string)
    ensures MatchEmail(s) <==> EmailPattern(s)
  {
    if MatchEmail(s) { MatchEmailSound(s); }
    if EmailPattern(s) { MatchEmailComplete(s); }
  }

  /** validateEmail. The length guard is a conjunction of `< 3` and `> 254`,
      which no length satisfies, so it never rejects; the result is the
      pattern match alone. */
  function ValidateEmail(email: string): (ok: bool)
    ensures ok <==> EmailPattern(email)
  {
    MatchEmailIff(email);
    if |email| < 3 && |email| > 254 then false else MatchEmail(email)
  }

  /** The length guard is dead: an address of any length is judged by the pattern alone. */
  lemma EmailLengthGuardIsDead(email: string)
    ensures ValidateEmail(email) == MatchEmail(email)
  {
  }

  /** An address of `n` letters 'a', then "@example.com". */
  function LongAddress(n: nat): string
  {
    seq(n, _ => 'a') + "@example.com"
  }

  /** Every such address matches, whatever its length: one longer than 254
      characters (n = 300, say) is accepted although the guard was meant to
      refuse it. */
  lemma LongAddressAccepted(n: nat)
    requires n >= 1
    ensures |LongAddress(n)| == n + 12
    ensures ValidateEmail(LongAddress(n))
  {
    var s := LongAddress(n);
    assert s[n] == '@';
    assert IsLocalPart(s[..n]) by {
      assert s[..n] == seq(n, _ => 'a');
    }
    var d := "example.com";
    assert s[n + 1..] == d;
    assert IsLabel(d[..7]) by { assert d[..7] == "example"; }
    assert IsLabel(d[8..]) by { assert d[8..] == "com"; }
    assert DomainPattern(d[8..]);
    assert DomainSplit(d, 7);
    assert EmailSplit(s, n);
  }

  // ----------------------------------------------------------------- phone

  /** The character classes that occur in the phone pattern. */
  datatype CharClass = NonZeroDigit | AnyDigit | Hyphen

  predicate InClass(cl: CharClass, c: char)
  {
    match cl
    case NonZeroDigit => '1' <= c <= '9'
    case AnyDigit => IsDigit(c)
    case Hyphen => c == '-'
  }

  /** ^[1-9]{1}\d{2}[\-]\d{3}[\-][0-9]{4}, one class per character. */
  const PhonePattern: seq<CharClass> :=
    [NonZeroDigit, AnyDigit, AnyDigit, Hyphen,
     AnyDigit, AnyDigit, AnyDigit, Hyphen,
     AnyDigit, AnyDigit, AnyDigit, AnyDigit]

  /** A pattern anchored at the start only: `s` begins with characters of
      the classes of `p`, in order; what follows is not looked at. */
  function MatchPrefix(p: seq<CharClass>, s: string): bool
  {
    if p == [] then true else |s| > 0 && InClass(p[0], s[0]) && MatchPrefix(p[1..], s[1..])
  }

  lemma {:induction false} MatchPrefixIff(p: seq<CharClass>, s: string)
    ensures MatchPrefix(p, s) <==> |s| >= |p| && forall i | 0 <= i < |p| :: InClass(p[i], s[i])
  {
    if p != [] && |s| > 0 {
      MatchPrefixIff(p[1..], s[1..]);
      if |s| >= |p| && forall i | 0 <= i < |p| :: InClass(p[i], s[i]) {
        assert forall i | 0 <= i < |p| - 1 :: InClass(p[1..][i], s[1..][i]) by {
          forall i | 0 <= i < |p| - 1 ensures InClass(p[1..][i], s[1..][i]) {
            assert InClass(p[i + 1], s[i + 1]);
          }
        }
      }
    }
  }

  /** The shape the phone pattern asks for, position by position, of the
      first twelve characters. */
  ghost predicate PhoneShape(s: string)
  {
    |s| >= 12 &&
    '1' <= s[0] <= '9' && IsDigit(s[1]) && IsDigit(s[2]) && s[3] == '-' &&
    IsDigit(s[4]) && IsDigit(s[5]) && IsDigit(s[6]) && s[7] == '-' &&
    IsDigit(s[8]) && IsDigit(s[9]) && IsDigit(s[10]) && IsDigit(s[11])
  }

  /** validatePhoneNumber: the unanchored-at-the-end match of the pattern. */
  function ValidatePhoneNumber(phone: string): (ok: bool)
    ensures ok <==> PhoneShape(phone)
  {
    MatchPrefixIff(PhonePattern, phone);
    MatchPrefix(PhonePattern, phone)
  }

  /** Because the pattern has no `$`, anything after the twelfth character is ignored. */
  lemma PhoneSuffixIgnored(phone: string, rest: string)
    requires |phone| >= 12
    ensures ValidatePhoneNumber(phone + rest) == ValidatePhoneNumber(phone)
    ensures ValidatePhoneNumber(phone) == ValidatePhoneNumber(phone[..12])
  {
    assert (phone + rest)[..12] == phone[..12];
  }

  /** A well-formed number is accepted, and so is one with a trailing suffix. */
  lemma PhoneAcceptsNumber()
    ensures ValidatePhoneNumber("415-555-1234")
  {
    var full := "415-555-1234";
    assert PhoneShape(full);
  }

  lemma PhoneAcceptsSuffix()
    ensures ValidatePhoneNumber("415-555-12345extra")
  {
    var s := "415-555-12345extra";
    assert PhoneShape(s);
  }

  /** A leading zero is refused. */
  lemma PhoneRejectsLeadingZero()
    ensures !ValidatePhoneNumber("015-555-1234")
  {
    var s := "015-555-1234";
    assert s[0] == '0';
  }

  /** A number one digit short is refused. */
  lemma PhoneRejectsShortNumber()
    ensures !ValidatePhoneNumber("415-555-123")
  {
    var s := "415-555-123";
    assert |s| == 11;
  }
}
