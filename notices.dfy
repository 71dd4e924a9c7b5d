/**
 * The fixed user-facing texts the bot posts, and the choice of error notice from the
 * text of the exception raised by the generation or messaging backend
 * (appweb.py lines 84, 103-111, 134 and 151-159).
 */
module Notices {
  import opened Wrappers
  import opened Text

  /** Posted when the throttle rejects a request ("too many requests, try later"). */
  const ThrottledText: string := "很抱歉，由於請求量過大，我暫時無法處理新的請求。請稍後再試。"

  /** The constant opening of every error notice ("temporarily unable to process"). */
  const Preamble: string := "很抱歉，我目前暫時無法處理您的請求。"

  const QuotaSuffix: string := " Google API 配額已達上限，請稍後再試。"
  const UnsupportedSuffix: string := " 您的問題可能包含不支援的內容。請嘗試更改您的問題。"
  const UnexpectedSuffix: string := " 發生未預期的錯誤，請稍後再試。"

  /** What the error text says went wrong. */
  datatype ErrorKind = QuotaExceeded | UnsupportedContent | Unexpected

  /**
   * Error classification by substring: a quota hit ("429" or "RATE_LIMIT_EXCEEDED")
   * takes precedence over "InvalidArgument"; anything else is unexpected.
   */
  function ClassifyError(message: string): (k: ErrorKind)
    ensures k == QuotaExceeded <==>
              (exists i :: OccursAt(message, "429", i)) ||
              (exists i :: OccursAt(message, "RATE_LIMIT_EXCEEDED", i))
    ensures k == UnsupportedContent <==>
              k != QuotaExceeded && exists i :: OccursAt(message, "InvalidArgument", i)
  {
    if Contains(message, "429") || Contains(message, "RATE_LIMIT_EXCEEDED") then QuotaExceeded
    else if Contains(message, "InvalidArgument") then UnsupportedContent
    else Unexpected
  }

  /** The notice text appended after the preamble for each kind of error. */
  function Suffix(k: ErrorKind): (s: string)
    ensures s in {QuotaSuffix, UnsupportedSuffix, UnexpectedSuffix}
    ensures |s| > 1 && s[0] == ' ' && !IsSpace(s[|s| - 1])
  {
    match k
    case QuotaExceeded => QuotaSuffix
    case UnsupportedContent => UnsupportedSuffix
    case Unexpected => UnexpectedSuffix
  }

  /** No suffix is a tail of another, so a notice shows which one was chosen. */
  lemma SuffixesDistinguishable(k1: ErrorKind, k2: ErrorKind)
    requires k1 != k2
    ensures !EndsWith(Suffix(k1), Suffix(k2))
  {
    var s1, s2 := Suffix(k1), Suffix(k2);
    if |s2| <= |s1| {
      // the two strings differ in the last character that both have, counted from the end
      var d := if {k1, k2} == {QuotaExceeded, Unexpected} then 9 else 7;
      assert s1[|s1| - d] != s2[|s2| - d];
      assert s1[|s1| - |s2|..][|s2| - d] == s1[|s1| - d];
    }
  }

  /** A string that ends with the suffix of one kind ends with no other kind's suffix. */
  lemma OneSuffixAtATime(n: string, k1: ErrorKind, k2: ErrorKind)
    requires EndsWith(n, Suffix(k1)) && EndsWith(n, Suffix(k2))
    ensures k1 == k2
  {
    if k1 != k2 {
      var s1, s2 := Suffix(k1), Suffix(k2);
      if |s2| <= |s1| {
        assert s1[|s1| - |s2|..] == n[|n| - |s2|..];
        SuffixesDistinguishable(k1, k2);
      } else {
        assert s2[|s2| - |s1|..] == n[|n| - |s1|..];
        SuffixesDistinguishable(k2, k1);
      }
    }
  }

  /** The mention markup that addresses `user`; Python renders a missing id as "None". */
  function Mention(user: Option<string>): (m: string)
    ensures |m| >= 4 && StartsWith(m, "<@") && EndsWith(m, "> ")
    ensures user.Some? ==> m[2..|m| - 2] == user.value
    ensures user.None? ==> m == "<@None> "
  {
    "<@" + (match user case Some(id) => id case None => "None") + "> "
  }

  /**
   * The error notice: `addressee` (the mention, or empty in a direct message), the
   * preamble, then exactly the suffix the error message selects.
   */
  function ErrorNotice(addressee: string, message: string): (n: string)
    ensures StartsWith(n, addressee + Preamble) && StartsWith(n, addressee)
    ensures n == addressee + Preamble + Suffix(ClassifyError(message))
    ensures forall k :: EndsWith(n, Suffix(k)) <==> k == ClassifyError(message)
  {
    var kind := ClassifyError(message);
    var n := addressee + Preamble + Suffix(kind);
    assert n[..|addressee|] == addressee;
    forall k | EndsWith(n, Suffix(k)) ensures k == kind {
      OneSuffixAtATime(n, kind, k);
    }
    n
  }

  /** A message that mentions a quota hit gets the quota notice and no other. */
  lemma QuotaNotice(addressee: string, message: string)
    requires Contains(message, "429") || Contains(message, "RATE_LIMIT_EXCEEDED")
    ensures EndsWith(ErrorNotice(addressee, message), QuotaSuffix)
    ensures !EndsWith(ErrorNotice(addressee, message), UnsupportedSuffix)
    ensures !EndsWith(ErrorNotice(addressee, message), UnexpectedSuffix)
  {
    var n := ErrorNotice(addressee, message);
    assert ClassifyError(message) == QuotaExceeded;
    assert EndsWith(n, Suffix(QuotaExceeded));
    assert !EndsWith(n, Suffix(UnsupportedContent));
    assert !EndsWith(n, Suffix(Unexpected));
  }
}
