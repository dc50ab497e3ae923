/**
 * Keyword matching: which user rule, if any, claims a broadcast title.
 *
 * A rule has a list of keyword rows and a list of exclude rows. A row is a
 * comma-separated list of regular-expression terms that must all match the
 * lower-cased title. The rules are tried in their stored order and the first
 * one whose keyword rows match and whose exclude rows do not is returned
 * together with its position, which later serves as the show's priority.
 *
 * As written, a row list yields the verdict of its LAST row only: the flag is
 * reset at the start of every row and the loop over rows never stops early.
 */
module Keywords {
  import opened Wrappers
  import opened Text

  /** The two library calls a term match goes through, left abstract:
      String.ToLower and "regular expression `pattern` matches `input`". */
  datatype TextMatcher = TextMatcher(toLower: string -> string, isMatch: (string, string) -> bool)

  /** The preferences a rule carries; `None` stands for a list that the rule
      file left out (null after deserialising). */
  datatype KeywordInfo = KeywordInfo(
    keywords: Option<seq<string>>,
    exclude: Option<seq<string>>,
    preMinutes: int,
    postMinutes: int,
    starredFlag: bool,
    emailFlag: bool,
    qualityPref: string,
    categoryPref: string,
    langPref: string,
    channelPref: string)

  /** One term: the lower-cased term, read as a regular expression, matches
      the lower-cased title. */
  predicate TermMatches(m: TextMatcher, term: string, title: string)
  {
    m.isMatch(m.toLower(term), m.toLower(title))
  }

  /** A row matches when every one of its comma-separated terms does. */
  predicate RowMatches(m: TextMatcher, row: string, title: string)
  {
    var terms := Split(row, ',');
    forall i :: 0 <= i < |terms| ==> TermMatches(m, terms[i], title)
  }

  /** What the helper returns for a row list: false for a missing or empty
      list, otherwise the verdict of the last row. */
  predicate RowsVerdict(m: TextMatcher, rows: Option<seq<string>>, title: string)
  {
    rows.Some? && |rows.value| > 0 && RowMatches(m, rows.value[|rows.value| - 1], title)
  }

  /** The reading the rule file suggests: some row matches. */
  predicate AnyRowMatches(m: TextMatcher, rows: Option<seq<string>>, title: string)
  {
    rows.Some? && exists i :: 0 <= i < |rows.value| && RowMatches(m, rows.value[i], title)
  }

  /** The loop over rows and, inside it, over the terms of a row, with the
      flag reset per row and the inner `break` on the first failing term. */
  method CheckForMatchHelper(m: TextMatcher, rows: Option<seq<string>>, stringToMatch: string)
    returns (matchedFlag: bool)
    ensures matchedFlag == RowsVerdict(m, rows, stringToMatch)
    ensures rows.None? || rows.value == [] ==> !matchedFlag
  {
    matchedFlag := true;
    if rows.None? || |rows.value| < 1 {
      return false;
    }
    var rs := rows.value;
    var r := 0;
    while r < |rs|
      invariant 0 <= r <= |rs|
      invariant r > 0 ==> matchedFlag == RowMatches(m, rs[r - 1], stringToMatch)
    {
      matchedFlag := true;
      var itemArray := Split(rs[r], ',');
      var i := 0;
      while i < |itemArray|
        invariant 0 <= i <= |itemArray|
        invariant matchedFlag
        invariant forall j :: 0 <= j < i ==> TermMatches(m, itemArray[j], stringToMatch)
      {
        if !TermMatches(m, itemArray[i], stringToMatch) {
          matchedFlag := false;
          break;
        }
        i := i + 1;
      }
      r := r + 1;
    }
  }

  /** The verdict depends on the last row alone: rows before it are ignored. */
  lemma VerdictIsLastRow(m: TextMatcher, earlier: seq<string>, last: string, title: string)
    ensures RowsVerdict(m, Some(earlier + [last]), title) == RowMatches(m, last, title)
  {
    assert (earlier + [last])[|earlier|] == last;
  }

  /** A positive verdict is always justified by some matching row, but a
      matching row other than the last one is not enough: with a matcher that
      only accepts the term "news", the rows ["news", "sports"] match the
      title under the any-row reading and not as written. */
  lemma {:induction false} VerdictVersusAnyRow(m: TextMatcher, rows: Option<seq<string>>, title: string)
    ensures RowsVerdict(m, rows, title) ==> AnyRowMatches(m, rows, title)
    ensures var news := TextMatcher(s => s, (p, t) => p == "news");
            AnyRowMatches(news, Some(["news", "sports"]), "news")
            && !RowsVerdict(news, Some(["news", "sports"]), "news")
  {
    if RowsVerdict(m, rows, title) {
      assert RowMatches(m, rows.value[|rows.value| - 1], title);
    }
    var news := TextMatcher(s => s, (p, t) => p == "news");
    SplitWithoutSeparator("news", ',');
    SplitWithoutSeparator("sports", ',');
    var rows2: seq<string> := ["news", "sports"];
    assert news.toLower("sports") == "sports";
    assert |"sports"| != |"news"|;
    assert !TermMatches(news, "sports", "news");
    assert Split("sports", ',')[0] == "sports";
    assert !RowMatches(news, rows2[1], "news");
    assert RowMatches(news, rows2[0], "news");
  }

  /** A rule claims a title when its keyword rows match and its exclude rows
      do not. */
  predicate Qualifies(m: TextMatcher, rule: KeywordInfo, title: string)
  {
    RowsVerdict(m, rule.keywords, title) && !RowsVerdict(m, rule.exclude, title)
  }

  /** The first rule at or after `from` that qualifies, with its position. */
  function FirstMatchFrom(m: TextMatcher, rules: seq<KeywordInfo>, title: string, from: nat)
    : (r: Option<(KeywordInfo, int)>)
    requires from <= |rules|
    ensures r.None? <==> forall i :: from <= i < |rules| ==> !Qualifies(m, rules[i], title)
    ensures r.Some? ==>
      from <= r.value.1 < |rules| && rules[r.value.1] == r.value.0
      && Qualifies(m, r.value.0, title)
      && forall j :: from <= j < r.value.1 ==> !Qualifies(m, rules[j], title)
    decreases |rules| - from
  {
    if from == |rules| then None
    else if Qualifies(m, rules[from], title) then Some((rules[from], from))
    else FirstMatchFrom(m, rules, title, from + 1)
  }

  /** The rule a title belongs to: the qualifying rule of smallest position,
      or none when no rule qualifies. */
  function FirstMatch(m: TextMatcher, rules: seq<KeywordInfo>, title: string): (r: Option<(KeywordInfo, int)>)
    ensures r.None? <==> forall i :: 0 <= i < |rules| ==> !Qualifies(m, rules[i], title)
    ensures r.Some? ==>
      0 <= r.value.1 < |rules| && rules[r.value.1] == r.value.0
      && Qualifies(m, r.value.0, title)
      && forall j :: 0 <= j < r.value.1 ==> !Qualifies(m, rules[j], title)
  {
    FirstMatchFrom(m, rules, title, 0)
  }

  /** A rule without keyword rows never claims a title, and a rule without
      exclude rows never vetoes one. */
  lemma MissingRowsNeverMatch(m: TextMatcher, rule: KeywordInfo, title: string)
    ensures rule.keywords.None? || rule.keywords == Some([]) ==> !Qualifies(m, rule, title)
    ensures rule.exclude.None? || rule.exclude == Some([]) ==>
              (Qualifies(m, rule, title) <==> RowsVerdict(m, rule.keywords, title))
  {
  }

  /** The loop over the rules in their stored order, returning on the first
      rule that matches and is not excluded. */
  method FindMatch(m: TextMatcher, rules: seq<KeywordInfo>, showName: string)
    returns (result: Option<(KeywordInfo, int)>)
    ensures result == FirstMatch(m, rules, showName)
  {
    var kvpIdx := 0;
    while kvpIdx < |rules|
      invariant 0 <= kvpIdx <= |rules|
      invariant forall j :: 0 <= j < kvpIdx ==> !Qualifies(m, rules[j], showName)
    {
      var showMatched := CheckForMatchHelper(m, rules[kvpIdx].keywords, showName);
      if showMatched {
        var excludeMatched := CheckForMatchHelper(m, rules[kvpIdx].exclude, showName);
        if !excludeMatched {
          return Some((rules[kvpIdx], kvpIdx));
        }
      }
      kvpIdx := kvpIdx + 1;
    }
    return None;
  }
}
