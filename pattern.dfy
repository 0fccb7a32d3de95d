/**
 * The listener's PATTERN, ([0-9.:\s]{16})(\s)([\W+]+), and Matcher.find():
 * the leftmost place in a text where the expression matches, with its three
 * groups. The character classes are java.util.regex's defaults (ASCII only).
 */
module Pattern {
  import opened Wrappers

  /** \s: space, tab, newline, vertical tab, form feed, carriage return. */
  predicate IsSpace(c: char)
  {
    c == ' ' || c == '\t' || c == '\n' || c == '\U{000B}' || c == '\U{000C}' || c == '\r'
  }

  /** \w: an ASCII letter, an ASCII digit or the underscore. */
  predicate IsWordChar(c: char)
  {
    ('a' <= c <= 'z') || ('A' <= c <= 'Z') || ('0' <= c <= '9') || c == '_'
  }

  /** [0-9.:\s], the class of group 1. */
  predicate InDateClass(c: char)
  {
    ('0' <= c <= '9') || c == '.' || c == ':' || IsSpace(c)
  }

  /**
   * [\W+], the class of group 3. The '+' listed beside \W is itself a
   * non-word character, so the class is \W.
   */
  predicate InTextClass(c: char)
  {
    !IsWordChar(c) || c == '+'
  }

  lemma TextClassIsNonWord(c: char)
    ensures InTextClass(c) <==> !IsWordChar(c)
  {
  }

  /** A successful match: where it starts and ends, and its three groups. */
  datatype Match = Match(start: nat, end: nat, group1: string, group2: string, group3: string)

  /**
   * Where the greedy run [\W+]+ that starts at k stops: the first position
   * from k on that holds a word character, or the end of the text.
   */
  function RunEnd(text: string, k: nat): (e: nat)
    requires k <= |text|
    ensures k <= e <= |text|
    ensures forall j | k <= j < e :: InTextClass(text[j])
    ensures e == |text| || !InTextClass(text[e])
    decreases |text| - k
  {
    if k == |text| || !InTextClass(text[k]) then k else RunEnd(text, k + 1)
  }

  /**
   * The match of PATTERN that starts exactly at position i, if any. Group 1
   * is fixed-width and group 2 one character, so they leave no choice to
   * backtrack over; group 3 takes the longest run of its class, and since
   * nothing follows it in the expression that run always succeeds once its
   * first character is there.
   */
  function MatchAt(text: string, i: nat): (r: Option<Match>)
    requires i <= |text|
    ensures r.Some? <==>
      && i + 18 <= |text|
      && (forall j | i <= j < i + 16 :: InDateClass(text[j]))
      && IsSpace(text[i + 16])
      && InTextClass(text[i + 17])
    ensures r.Some? ==>
      var m := r.value;
      && m.start == i && i + 18 <= m.end <= |text|
      && m.group1 == text[i..i + 16] && m.group2 == text[i + 16..i + 17] && m.group3 == text[i + 17..m.end]
      && |m.group1| == 16 && (forall c <- m.group1 :: InDateClass(c))
      && |m.group2| == 1 && IsSpace(m.group2[0])
      && |m.group3| >= 1 && (forall c <- m.group3 :: !IsWordChar(c))
      && (m.end == |text| || IsWordChar(text[m.end]))
  {
    if i + 18 <= |text|
       && (forall j | i <= j < i + 16 :: InDateClass(text[j]))
       && IsSpace(text[i + 16])
       && InTextClass(text[i + 17])
    then
      var e := RunEnd(text, i + 17);
      Some(Match(i, e, text[i..i + 16], text[i + 16..i + 17], text[i + 17..e]))
    else
      None
  }

  /** The leftmost match that starts at or after position i. */
  function FindFrom(text: string, i: nat): (r: Option<Match>)
    requires i <= |text|
    ensures r.Some? ==> i <= r.value.start <= |text| && MatchAt(text, r.value.start) == r
    ensures r.Some? ==> forall j | i <= j < r.value.start :: MatchAt(text, j).None?
    ensures r.None? ==> forall j | i <= j <= |text| :: MatchAt(text, j).None?
    decreases |text| - i
  {
    if MatchAt(text, i).Some? then MatchAt(text, i)
    else if i == |text| then None
    else FindFrom(text, i + 1)
  }

  /** matcher.find() on a fresh matcher: the leftmost match in the text. */
  function Find(text: string): (r: Option<Match>)
    ensures r.Some? ==> r.value.start <= |text| && MatchAt(text, r.value.start) == r
    ensures r.Some? ==> forall j | 0 <= j < r.value.start :: MatchAt(text, j).None?
    ensures r.None? ==> forall j | 0 <= j <= |text| :: MatchAt(text, j).None?
  {
    FindFrom(text, 0)
  }

  /**
   * A text that opens with sixteen characters of group 1's class, one
   * whitespace character, and then only non-word characters (at least one)
   * is matched whole, from its first character.
   */
  lemma WholeTextMatch(text: string)
    requires |text| >= 18
    requires forall j | 0 <= j < 16 :: InDateClass(text[j])
    requires IsSpace(text[16])
    requires forall j | 17 <= j < |text| :: !IsWordChar(text[j])
    ensures Find(text) == Some(Match(0, |text|, text[..16], text[16..17], text[17..]))
  {
    TextClassRunReachesEnd(text, 17);
    var m := MatchAt(text, 0);
    assert m.Some? && m.value.end == |text|;
    assert m.value.group1 == text[..16] && m.value.group3 == text[17..];
    assert FindFrom(text, 0) == m;
  }

  /** A run of group 3's class that lasts to the end of the text is taken whole. */
  lemma TextClassRunReachesEnd(text: string, k: nat)
    requires k <= |text|
    requires forall j | k <= j < |text| :: !IsWordChar(text[j])
    ensures RunEnd(text, k) == |text|
    decreases |text| - k
  {
    if k < |text| {
      TextClassRunReachesEnd(text, k + 1);
    }
  }

  /** A text too short to hold group 1, a separator and one character of group 3 has no match. */
  lemma ShortTextHasNoMatch(text: string)
    requires |text| < 18
    ensures Find(text).None?
  {
  }
}
