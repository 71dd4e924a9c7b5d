/**
 * The string operations the webhook handler relies on, as Python defines them:
 * `str.strip()`, the `in` substring test, and `str.split(">", 1)` used to cut the
 * mention markup off a channel message.
 */
module Text {
  import opened Wrappers

  /** Python's `str.isspace()` characters: what `str.strip()` with no argument removes. */
  predicate IsSpace(c: char)
  {
    || ('\U{0009}' <= c <= '\U{000D}')
    || ('\U{001C}' <= c <= '\U{0020}')
    || c == '\U{0085}' || c == '\U{00A0}' || c == '\U{1680}'
    || ('\U{2000}' <= c <= '\U{200A}')
    || c == '\U{2028}' || c == '\U{2029}' || c == '\U{202F}' || c == '\U{205F}'
    || c == '\U{3000}'
  }

  /** Removes the leading whitespace: what is left is a suffix of `s`. */
  function TrimStart(s: string): (r: string)
    ensures |r| <= |s| && r == s[|s| - |r|..]
    ensures r == [] || !IsSpace(r[0])
    ensures forall i :: 0 <= i < |s| - |r| ==> IsSpace(s[i])
  {
    if s != [] && IsSpace(s[0]) then
      var r := TrimStart(s[1..]);
      assert s[1..][|s| - 1 - |r|..] == s[|s| - |r|..];
      assert forall i :: 1 <= i < |s| - |r| ==> s[i] == s[1..][i - 1];
      r
    else s
  }

  /** Removes the trailing whitespace: what is left is a prefix of `s`. */
  function TrimEnd(s: string): (r: string)
    ensures |r| <= |s| && r == s[..|r|]
    ensures r == [] || !IsSpace(r[|r| - 1])
    ensures forall i :: |r| <= i < |s| ==> IsSpace(s[i])
  {
    if s != [] && IsSpace(s[|s| - 1]) then
      var r := TrimEnd(s[..|s| - 1]);
      assert s[..|s| - 1][..|r|] == s[..|r|];
      assert forall i :: |r| <= i < |s| - 1 ==> s[i] == s[..|s| - 1][i];
      r
    else s
  }

  /**
   * `r` is `s` with its surrounding whitespace removed: a contiguous piece of `s`
   * that neither starts nor ends with whitespace, and everything of `s` outside it
   * is whitespace.
   */
  ghost predicate IsStripOf(r: string, s: string)
  {
    && (r == [] || (!IsSpace(r[0]) && !IsSpace(r[|r| - 1])))
    && exists i :: StrippedAt(r, s, i)
  }

  /** `r` sits at position `i` of `s`, with only whitespace before and after it. */
  ghost predicate StrippedAt(r: string, s: string, i: int)
  {
    && 0 <= i && i + |r| <= |s| && s[i..i + |r|] == r
    && (forall k :: 0 <= k < i ==> IsSpace(s[k]))
    && (forall k :: i + |r| <= k < |s| ==> IsSpace(s[k]))
  }

  /** Python's `s.strip()`. */
  function Strip(s: string): (r: string)
    ensures IsStripOf(r, s)
  {
    var t := TrimStart(s);
    var r := TrimEnd(t);
    var i := |s| - |t|;
    assert StrippedAt(r, s, i) by {
      assert t == s[i..];
      assert r == t[..|r|];
    }
    r
  }

  /** A string has exactly one stripped form, so `IsStripOf` pins `Strip` down. */
  lemma {:induction false} StripOfUnique(r1: string, r2: string, s: string)
    requires IsStripOf(r1, s) && IsStripOf(r2, s)
    ensures r1 == r2
  {
    var i1 :| StrippedAt(r1, s, i1);
    var i2 :| StrippedAt(r2, s, i2);
    if r1 != [] && r2 != [] {
      assert s[i1] == r1[0] && s[i2] == r2[0];
      assert i1 == i2;
      var j1, j2 := i1 + |r1| - 1, i2 + |r2| - 1;
      assert s[j1] == r1[|r1| - 1] && s[j2] == r2[|r2| - 1];
      assert j1 == j2;
    }
  }

  /** Stripping twice changes nothing. */
  lemma StripIdempotent(s: string)
    ensures Strip(Strip(s)) == Strip(s)
  {
    var r := Strip(s);
    assert IsStripOf(r, r) by {
      assert r[0..0 + |r|] == r;
      assert StrippedAt(r, r, 0);
    }
    StripOfUnique(Strip(r), r, r);
  }

  /** `sub` occurs in `s` starting at position `i`. */
  ghost predicate OccursAt(s: string, sub: string, i: int)
  {
    0 <= i && i + |sub| <= |s| && s[i..i + |sub|] == sub
  }

  /** Python's `sub in s`. */
  function Contains(s: string, sub: string): (r: bool)
    ensures r <==> exists i :: OccursAt(s, sub, i)
  {
    if |sub| > |s| then
      assert forall i :: !OccursAt(s, sub, i);
      false
    else if s[..|sub|] == sub then
      assert OccursAt(s, sub, 0);
      true
    else
      var r := Contains(s[1..], sub);
      assert r ==> exists i :: OccursAt(s, sub, i) by {
        if r {
          var i :| OccursAt(s[1..], sub, i);
          assert s[1..][i..i + |sub|] == s[i + 1..i + 1 + |sub|];
          assert OccursAt(s, sub, i + 1);
        }
      }
      assert (exists i :: OccursAt(s, sub, i)) ==> r by {
        if exists i :: OccursAt(s, sub, i) {
          var i :| OccursAt(s, sub, i);
          assert i != 0;
          assert s[1..][i - 1..i - 1 + |sub|] == s[i..i + |sub|];
          assert OccursAt(s[1..], sub, i - 1);
        }
      }
      r
  }

  /** `s` starts with `prefix`. */
  predicate StartsWith(s: string, prefix: string)
  {
    |prefix| <= |s| && s[..|prefix|] == prefix
  }

  /** `s` ends with `suffix`. */
  predicate EndsWith(s: string, suffix: string)
  {
    |suffix| <= |s| && s[|s| - |suffix|..] == suffix
  }

  /** The index of the first `c` in `s` (what `str.find` gives), or None. */
  function FirstIndexOf(s: string, c: char): (r: Option<nat>)
    ensures r.None? <==> c !in s
    ensures r.Some? ==> r.value < |s| && s[r.value] == c
    ensures r.Some? ==> forall k :: 0 <= k < r.value ==> s[k] != c
  {
    if s == [] then None
    else if s[0] == c then Some(0)
    else
      match FirstIndexOf(s[1..], c)
      case None => None
      case Some(i) => Some(i + 1)
  }

  /** The first occurrence is the one `FirstIndexOf` finds. */
  lemma FirstIndexIsFirst(s: string, c: char, i: nat)
    requires i < |s| && s[i] == c
    requires forall k :: 0 <= k < i ==> s[k] != c
    ensures FirstIndexOf(s, c) == Some(i)
  {
    assert c in s;
  }

  /**
   * The question in a channel mention: `text.split(">", 1)` then strip the second
   * part, or the whole text when there is no `>` (appweb.py lines 76-77).
   */
  function ExtractQuestion(text: string): (q: string)
    ensures '>' !in text ==> q == Strip(text)
    ensures q == [] || (!IsSpace(q[0]) && !IsSpace(q[|q| - 1]))
  {
    match FirstIndexOf(text, '>')
    case None => Strip(text)
    case Some(j) => Strip(text[j + 1..])
  }

  /** When the first `>` of `text` is at `i`, the question is what follows it, stripped. */
  lemma QuestionFollowsFirstMarker(text: string, i: nat)
    requires i < |text| && text[i] == '>'
    requires forall k :: 0 <= k < i ==> text[k] != '>'
    ensures ExtractQuestion(text) == Strip(text[i + 1..])
  {
    FirstIndexIsFirst(text, '>', i);
    assert FirstIndexOf(text, '>') == Some(i);
  }

  /**
   * A mention markup without `>` inside, then one space and a question that neither
   * starts nor ends with whitespace: the extracted question is exactly that question.
   */
  lemma QuestionAfterMarkup(markup: string, question: string)
    requires |markup| > 0 && markup[|markup| - 1] == '>'
    requires forall k :: 0 <= k < |markup| - 1 ==> markup[k] != '>'
    requires question != [] && !IsSpace(question[0]) && !IsSpace(question[|question| - 1])
    ensures ExtractQuestion(markup + " " + question) == question
  {
    var rest := " " + question;
    var text := markup + rest;
    assert markup + " " + question == text;
    var i := |markup| - 1;
    assert forall k :: 0 <= k < i ==> text[k] == markup[k];
    QuestionFollowsFirstMarker(text, i);
    assert text[i + 1..] == rest;
    StripOneSpace(question);
  }

  /** A single space before a string with no whitespace at its ends is all that strip removes. */
  lemma StripOneSpace(question: string)
    requires question != [] && !IsSpace(question[0]) && !IsSpace(question[|question| - 1])
    ensures Strip(" " + question) == question
  {
    var rest := " " + question;
    assert rest[1..1 + |question|] == question;
    assert StrippedAt(question, rest, 1);
    StripOfUnique(Strip(rest), question, rest);
  }

  /** The example of a mention: "<@U123> what is Go?" asks "what is Go?". */
  lemma MentionExample()
    ensures ExtractQuestion("<@U123> what is Go?") == "what is Go?"
  {
    assert "<@U123> what is Go?" == "<@U123>" + " " + "what is Go?";
    QuestionAfterMarkup("<@U123>", "what is Go?");
  }

  /** The example of a mention addressed to the bot: "<@BOT> hello" asks "hello". */
  lemma HelloExample()
    ensures ExtractQuestion("<@BOT> hello") == "hello"
  {
    assert "<@BOT> hello" == "<@BOT>" + " " + "hello";
    QuestionAfterMarkup("<@BOT>", "hello");
  }
}
