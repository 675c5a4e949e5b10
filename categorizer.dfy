/**
 * `SmartCategorizer`: the keyword rule table of the income form and its first-match category
 * suggestion for a description.
 */
module Categorizer {
  import opened Wrappers

  datatype Rule = Rule(keyword: string, category: string)

  /** `RULES`, in the dict's insertion order, which is the order `items()` visits. */
  const Rules: seq<Rule> := [
    Rule("工资", "工资薪金"), Rule("薪水", "工资薪金"), Rule("奖金", "奖金补贴"), Rule("加班", "奖金补贴"),
    Rule("股票", "投资收益"), Rule("基金", "投资收益"), Rule("理财", "投资收益"), Rule("股息", "投资收益"),
    Rule("兼职", "兼职收入"), Rule("外快", "兼职收入"), Rule("副业", "兼职收入"),
    Rule("红包", "人情往来"), Rule("礼金", "人情往来"),
    Rule("退税", "其他收入"), Rule("报销", "其他收入")
  ]

  /** `str.lower()` on one character; only ASCII letters are mapped. */
  function LowerChar(c: char): (d: char)
    ensures !('A' <= d <= 'Z')
    ensures !('A' <= c <= 'Z') ==> d == c
  {
    if 'A' <= c <= 'Z' then (c as int + 32) as char else c
  }

  function Lower(s: string): (t: string)
    ensures |t| == |s|
    ensures forall i :: 0 <= i < |s| ==> t[i] == LowerChar(s[i])
  {
    if s == [] then [] else [LowerChar(s[0])] + Lower(s[1..])
  }

  /** Lower-casing twice is lower-casing once. */
  lemma LowerIdempotent(s: string)
    ensures Lower(Lower(s)) == Lower(s)
  {
  }

  /** `k` occurs in `s` starting at offset `i`. */
  predicate OccursAt(s: string, k: string, i: int) {
    0 <= i && i + |k| <= |s| && s[i..i + |k|] == k
  }

  /** `k in s` on strings: `k` occurs in `s` at some offset. */
  function Contains(s: string, k: string): (b: bool)
    ensures b <==> exists i :: OccursAt(s, k, i)
  {
    if |s| < |k| then false
    else if s[..|k|] == k then assert OccursAt(s, k, 0); true
    else
      var b := Contains(s[1..], k);
      assert forall i :: OccursAt(s, k, i) ==> i >= 1 && OccursAt(s[1..], k, i - 1);
      assert forall i :: OccursAt(s[1..], k, i) ==> OccursAt(s, k, i + 1);
      b
  }

  /** The category of the first rule, in table order, whose keyword occurs in `text`. */
  function FirstMatch(rules: seq<Rule>, text: string): (r: Option<string>)
    ensures r.None? <==> forall i :: 0 <= i < |rules| ==> !Contains(text, rules[i].keyword)
  {
    if rules == [] then None
    else if Contains(text, rules[0].keyword) then Some(rules[0].category)
    else
      assert forall i :: 1 <= i < |rules| ==> rules[i] == rules[1..][i - 1];
      FirstMatch(rules[1..], text)
  }

  /** A match is the category of a rule whose keyword occurs and before which no keyword occurs. */
  lemma {:induction false} FirstMatchIsFirst(rules: seq<Rule>, text: string)
    requires FirstMatch(rules, text).Some?
    ensures exists i :: 0 <= i < |rules| && Contains(text, rules[i].keyword) &&
                        rules[i].category == FirstMatch(rules, text).value &&
                        forall j :: 0 <= j < i ==> !Contains(text, rules[j].keyword)
  {
    if !Contains(text, rules[0].keyword) {
      var tail := rules[1..];
      FirstMatchIsFirst(tail, text);
      var i :| 0 <= i < |tail| && Contains(text, tail[i].keyword) && tail[i].category == FirstMatch(tail, text).value &&
               forall j :: 0 <= j < i ==> !Contains(text, tail[j].keyword);
      assert rules[i + 1] == tail[i];
      forall j | 0 <= j < i + 1 ensures !Contains(text, rules[j].keyword) {
        if j > 0 {
          assert rules[j] == tail[j - 1];
        }
      }
    } else {
      assert Contains(text, rules[0].keyword);
    }
  }

  /** `suggest_category(text)`: None exactly when no keyword occurs in the lower-cased text. */
  function Suggest(text: string): (r: Option<string>)
    ensures r.None? <==> forall i :: 0 <= i < |Rules| ==> !Contains(Lower(text), Rules[i].keyword)
  {
    FirstMatch(Rules, Lower(text))
  }

  /** First match wins: the suggestion comes from the earliest rule whose keyword occurs. */
  lemma SuggestIsFirstMatch(text: string)
    requires Suggest(text).Some?
    ensures exists i :: 0 <= i < |Rules| && Contains(Lower(text), Rules[i].keyword) &&
                        Rules[i].category == Suggest(text).value &&
                        forall j :: 0 <= j < i ==> !Contains(Lower(text), Rules[j].keyword)
  {
    FirstMatchIsFirst(Rules, Lower(text));
  }

  /** The categories the rule table names. */
  const RuleCategories: set<string> := {"工资薪金", "奖金补贴", "投资收益", "兼职收入", "人情往来", "其他收入"}

  /** A suggestion is always one of the categories the table names. */
  lemma SuggestionIsACategory(text: string)
    requires Suggest(text).Some?
    ensures Suggest(text).value in RuleCategories
  {
    SuggestIsFirstMatch(text);
    var i :| 0 <= i < |Rules| && Rules[i].category == Suggest(text).value;
    CategoryOfRule(i);
  }

  lemma CategoryOfRule(i: int)
    requires 0 <= i < |Rules|
    ensures Rules[i].category in RuleCategories
  {
  }

  /** The suggestion does not change when the text is lower-cased first. */
  lemma SuggestIgnoresCase(text: string)
    ensures Suggest(Lower(text)) == Suggest(text)
  {
    LowerIdempotent(text);
  }

  /** A description mentioning "工资" is a salary, whatever else it mentions ("奖金" included). */
  lemma WageWins(text: string)
    requires Contains(Lower(text), "工资")
    ensures Suggest(text) == Some("工资薪金")
  {
    assert Rules[0] == Rule("工资", "工资薪金");
  }

  /** A later rule decides only when no earlier keyword occurs: "加班" without "工资", "薪水" or "奖金" is a bonus. */
  lemma OvertimeIsBonus(text: string)
    requires Contains(Lower(text), "加班")
    requires !Contains(Lower(text), "工资") && !Contains(Lower(text), "薪水") && !Contains(Lower(text), "奖金")
    ensures Suggest(text) == Some("奖金补贴")
  {
    var t := Lower(text);
    assert FirstMatch(Rules, t) == FirstMatch(Rules[1..], t);
    assert FirstMatch(Rules[1..], t) == FirstMatch(Rules[2..], t);
    assert FirstMatch(Rules[2..], t) == FirstMatch(Rules[3..], t);
  }
}
