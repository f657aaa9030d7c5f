/**
 * The three masks of the privacy transformer (`_mask_email`, `_mask_phone`,
 * `_mask_ssn`). Each takes the whole string value and returns its masked form.
 */
module Masking {
  import opened Strings

  const PhoneMaskPrefix: string := "***-***-"
  const PhoneMaskBlank: string := "***-***-****"
  const SsnMask: string := "***-**-****"

  function Stars(n: nat): (r: string)
    ensures |r| == n
    ensures forall i :: 0 <= i < n ==> r[i] == '*'
  {
    if n == 0 then [] else Stars(n - 1) + ['*']
  }

  /** The position `s.split(c, 1)` splits at: the first occurrence of `c`. */
  function IndexOf(s: string, c: char): (r: nat)
    requires c in s
    ensures r < |s| && s[r] == c
    ensures forall i :: 0 <= i < r ==> s[i] != c
  {
    if s[0] == c then 0 else 1 + IndexOf(s[1..], c)
  }

  /** The local part of an email with all but its first and last characters starred. */
  function MaskLocal(local: string): (r: string)
    ensures |r| == |local|
  {
    if |local| > 2 then [local[0]] + Stars(|local| - 2) + [local[|local| - 1]]
    else Stars(|local|)
  }

  /**
   * `_mask_email`: split at the first `@`, keep the domain verbatim, keep the
   * first and last characters of a local part longer than two and star the
   * rest; a local part of at most two characters is starred completely.
   * A string without `@` comes back unchanged.
   */
  function MaskEmail(email: string): (r: string)
    ensures |r| == |email|
    ensures '@' !in email ==> r == email
    ensures '@' in email ==>
      var at := IndexOf(email, '@');
      && r[at..] == email[at..]
      && (at > 2 ==> r[0] == email[0] && r[at - 1] == email[at - 1])
      && (at > 2 ==> forall i :: 0 < i < at - 1 ==> r[i] == '*')
      && (at <= 2 ==> forall i :: 0 <= i < at ==> r[i] == '*')
  {
    if '@' in email then
      var at := IndexOf(email, '@');
      MaskLocal(email[..at]) + "@" + email[at + 1..]
    else email
  }

  /** Masking a masked email changes nothing more. */
  lemma MaskEmailIdempotent(email: string)
    ensures MaskEmail(MaskEmail(email)) == MaskEmail(email)
  {
    if '@' in email {
      var at := IndexOf(email, '@');
      var m := MaskEmail(email);
      assert m[at] == '@';
      assert forall i :: 0 <= i < at ==> m[i] != '@' by {
        forall i | 0 <= i < at
          ensures m[i] != '@'
        {
          if at > 2 && (i == 0 || i == at - 1) {
            assert m[i] == email[i];
          }
        }
      }
      assert IndexOf(m, '@') == at by {
        IndexOfIsFirst(m, '@', at);
      }
      var mm := MaskEmail(m);
      assert mm == m;
    }
  }

  /** The first occurrence is the only position with `c` and nothing before it. */
  lemma {:induction false} IndexOfIsFirst(s: string, c: char, k: nat)
    requires k < |s| && s[k] == c
    requires forall i :: 0 <= i < k ==> s[i] != c
    ensures IndexOf(s, c) == k
  {
    if k > 0 {
      IndexOfIsFirst(s[1..], c, k - 1);
    }
  }

  /** The last four characters of `s`. */
  function LastFour(s: string): (r: string)
    requires |s| >= 4
    ensures |r| == 4
  {
    s[|s| - 4..]
  }

  /**
   * `_mask_phone`: `***-***-` followed by the last four digits when the value
   * has at least ten digits, otherwise the blank mask. Digits are what `\d`
   * matches, so non-ASCII decimal digits count and may be shown.
   */
  function MaskPhone(nd: char -> bool, phone: string): (r: string)
    ensures |r| == 12 && r[..8] == PhoneMaskPrefix
    ensures |Digits(nd, phone)| >= 10 ==> r[8..] == LastFour(Digits(nd, phone))
    ensures |Digits(nd, phone)| < 10 ==> r == PhoneMaskBlank
  {
    var digits := Digits(nd, phone);
    if |digits| >= 10 then PhoneMaskPrefix + LastFour(digits) else PhoneMaskBlank
  }

  /** The only digits a masked phone number shows are the last four of the original. */
  lemma MaskPhoneRevealsLastFour(nd: char -> bool, phone: string)
    ensures Digits(nd, MaskPhone(nd, phone)) ==
      if |Digits(nd, phone)| >= 10 then LastFour(Digits(nd, phone)) else []
  {
    if |Digits(nd, phone)| >= 10 {
      var last := LastFour(Digits(nd, phone));
      assert MaskPhone(nd, phone) == PhoneMaskPrefix + last;
      MaskedDigits(nd, last);
    } else {
      assert MaskPhone(nd, phone) == PhoneMaskBlank;
      BlankHasNoDigits(nd);
    }
  }

  /** Behind the prefix, only the four digits shown survive. */
  lemma MaskedDigits(nd: char -> bool, last: string)
    requires forall i :: 0 <= i < |last| ==> DecimalChar(nd, last[i])
    ensures Digits(nd, PhoneMaskPrefix + last) == last
  {
    PrefixHasNoDigits(nd);
    DigitsAppend(nd, PhoneMaskPrefix, last);
    DigitsOfDigitsOnly(nd, last);
  }

  lemma PrefixHasNoDigits(nd: char -> bool)
    ensures Digits(nd, PhoneMaskPrefix) == []
  {
    AsciiDigitFree(nd, PhoneMaskPrefix);
  }

  lemma BlankHasNoDigits(nd: char -> bool)
    ensures Digits(nd, PhoneMaskBlank) == []
  {
    AsciiDigitFree(nd, PhoneMaskBlank);
  }

  /** `_mask_ssn`: a constant redaction that ignores its argument. */
  function MaskSsn(ssn: string): (r: string)
    ensures |r| == 11
    ensures forall i :: 0 <= i < |r| ==> IsAscii(r[i]) && !IsDigit(r[i])
  {
    SsnMask
  }

  /** No character of an SSN reaches its mask, and all SSNs mask alike. */
  lemma MaskSsnReveals(nd: char -> bool, a: string, b: string)
    ensures Digits(nd, MaskSsn(a)) == []
    ensures MaskSsn(a) == MaskSsn(b)
  {
    AsciiDigitFree(nd, MaskSsn(a));
  }
}
