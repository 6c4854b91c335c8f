/**
 * The winner extraction of the payout handler: the first match of the regular
 * expression `<@!?(\d{17,20})>` in a message's text, and its capture group.
 *
 * `MatchesAt` reads the regular expression literally (the optional `!`, a run of
 * 17 to 20 ASCII digits, the closing `>`); `ExtractMention` is the scanning
 * function, proved to return the capture of the leftmost match and nothing else.
 */
module Mention {
  import opened Results

  /** `\d` of a JavaScript regular expression without the `u` flag: ASCII digits only. */
  predicate IsDigit(c: char) {
    '0' <= c <= '9'
  }

  ghost predicate AllDigits(d: string) {
    forall k :: 0 <= k < |d| ==> IsDigit(d[k])
  }

  /** `(\d{17,20})>` read at position p of s, with capture d. */
  ghost predicate CaptureAt(s: string, p: nat, d: string) {
    && 17 <= |d| <= 20
    && AllDigits(d)
    && p + |d| < |s|
    && s[p..p + |d|] == d
    && s[p + |d|] == '>'
  }

  /** `<@!?(\d{17,20})>` matches s starting at position i, with capture d. */
  ghost predicate MatchesAt(s: string, i: nat, d: string) {
    && i + 2 <= |s|
    && s[i] == '<'
    && s[i + 1] == '@'
    && (CaptureAt(s, i + 2, d) || (i + 2 < |s| && s[i + 2] == '!' && CaptureAt(s, i + 3, d)))
  }

  ghost predicate NoMatchAt(s: string, i: nat) {
    forall d :: !MatchesAt(s, i, d)
  }

  /** The match a regular-expression search reports: the one that starts leftmost. */
  ghost predicate LeftmostMatch(s: string, i: nat, d: string) {
    MatchesAt(s, i, d) && forall j :: 0 <= j < i ==> NoMatchAt(s, j)
  }

  /** Length of the maximal run of digits of s that starts at p. */
  function DigitRun(s: string, p: nat): (n: nat)
    requires p <= |s|
    ensures p + n <= |s|
    ensures forall k :: p <= k < p + n ==> IsDigit(s[k])
    ensures p + n == |s| || !IsDigit(s[p + n])
    decreases |s| - p
  {
    if p < |s| && IsDigit(s[p]) then 1 + DigitRun(s, p + 1) else 0
  }

  lemma RunIsDigits(s: string, p: nat)
    requires p <= |s|
    ensures AllDigits(s[p..p + DigitRun(s, p)])
  {
    var n := DigitRun(s, p);
    var run := s[p..p + n];
    assert forall k :: 0 <= k < n ==> run[k] == s[p + k];
  }

  /**
   * A capture closed by `>` is exactly the maximal digit run at its start, so the
   * greedy `\d{17,20}` has no choice to make.
   */
  lemma CaptureIsRun(s: string, p: nat)
    requires p <= |s|
    ensures forall d :: CaptureAt(s, p, d) ==> d == s[p..p + DigitRun(s, p)]
  {
    var n := DigitRun(s, p);
    forall d | CaptureAt(s, p, d)
      ensures d == s[p..p + n]
    {
      assert forall k :: 0 <= k < |d| ==> s[p + k] == d[k];
    }
  }

  /** At a given position the regular expression captures at most one digit string. */
  lemma MatchDeterministic(s: string, i: nat)
    ensures forall d1, d2 :: MatchesAt(s, i, d1) && MatchesAt(s, i, d2) ==> d1 == d2
  {
    if i + 3 <= |s| {
      CaptureIsRun(s, i + 2);
      CaptureIsRun(s, i + 3);
    } else if i + 2 <= |s| {
      CaptureIsRun(s, i + 2);
    }
  }

  /** The match starting exactly at position i, if there is one. */
  function MatchAt(s: string, i: nat): (r: Option<string>)
    requires i <= |s|
    ensures r.Some? ==> MatchesAt(s, i, r.value)
    ensures r.None? ==> NoMatchAt(s, i)
  {
    if i + 2 <= |s| && s[i] == '<' && s[i + 1] == '@' then
      var p := if i + 2 < |s| && s[i + 2] == '!' then i + 3 else i + 2;
      var n := DigitRun(s, p);
      CaptureIsRun(s, p);
      CaptureIsRun(s, i + 2);
      if 17 <= n <= 20 && p + n < |s| && s[p + n] == '>' then
        RunIsDigits(s, p);
        Some(s[p..p + n])
      else
        None
    else
      None
  }

  /** Position and capture of a match. */
  datatype Found = Found(at: nat, digits: string)

  /** The first match that starts at position i or later. */
  function Scan(s: string, i: nat): (r: Option<Found>)
    requires i <= |s|
    ensures r.Some? ==> i <= r.value.at < |s| && MatchesAt(s, r.value.at, r.value.digits)
    ensures r.Some? ==> forall j :: i <= j < r.value.at ==> NoMatchAt(s, j)
    ensures r.None? ==> forall j :: i <= j <= |s| ==> NoMatchAt(s, j)
    decreases |s| - i
  {
    if i == |s| then None
    else
      match MatchAt(s, i)
      case Some(d) => Some(Found(i, d))
      case None => Scan(s, i + 1)
  }

  /**
   * `message.content.match(/<@!?(\d{17,20})>/)` followed by `match[1]`: the digits
   * of the leftmost mention, or None when the text holds no such mention.
   */
  function ExtractMention(s: string): (r: Option<string>)
    ensures r.Some? ==> 17 <= |r.value| <= 20 && AllDigits(r.value)
    ensures r.Some? ==> exists i: nat :: LeftmostMatch(s, i, r.value)
    ensures r.None? ==> forall i :: 0 <= i < |s| ==> NoMatchAt(s, i)
  {
    match Scan(s, 0)
    case None => None
    case Some(f) =>
      assert LeftmostMatch(s, f.at, f.digits);
      Some(f.digits)
  }

  /** Conversely, whatever the leftmost match captures is what ExtractMention returns. */
  lemma ExtractMentionIsLeftmost(s: string, i: nat, d: string)
    requires LeftmostMatch(s, i, d)
    ensures ExtractMention(s) == Some(d)
  {
    MatchDeterministic(s, i);
    var r := Scan(s, 0);
    assert r.Some? by {
      assert !NoMatchAt(s, i);
    }
    assert r.value.at == i by {
      assert !NoMatchAt(s, i);
      assert !NoMatchAt(s, r.value.at);
    }
  }

  /**
   * A well-formed mention, with or without the `!`, after text that holds no `<`
   * is found whatever follows it.
   */
  lemma ExtractMentionAfterText(pre: string, bang: bool, d: string, post: string)
    requires forall j :: 0 <= j < |pre| ==> pre[j] != '<'
    requires 17 <= |d| <= 20 && AllDigits(d)
    ensures ExtractMention(pre + (if bang then "<@!" else "<@") + d + ">" + post) == Some(d)
  {
    var tag := if bang then "<@!" else "<@";
    var s := pre + tag + d + ">" + post;
    var i := |pre|;
    var p := i + |tag|;
    assert s[i] == '<' && s[i + 1] == '@';
    assert bang ==> s[i + 2] == '!';
    assert s[p..p + |d|] == d;
    assert s[p + |d|] == '>';
    assert CaptureAt(s, p, d);
    assert forall j :: 0 <= j < i ==> s[j] == pre[j];
    ExtractMentionIsLeftmost(s, i, d);
  }

  /** A mention whose digit run is longer than 20 is not a match: nothing is extracted. */
  lemma ExtractMentionRejectsLongRun(d: string)
    requires |d| > 20 && AllDigits(d)
    ensures ExtractMention("<@" + d + ">") == None
  {
    var s := "<@" + d + ">";
    assert forall j :: 2 <= j < 2 + |d| ==> s[j] == d[j - 2];
    assert forall j :: 1 <= j < |s| ==> s[j] != '<';
    assert NoMatchAt(s, 0);
  }
}
