/** Month abbreviations: `get_month_index` and the `month_map` the ECR form
    uses to turn a month menu entry into a month number. */
module Months {
  import opened Text

  /** `months`, in calendar order. */
  const MonthNames: seq<string> :=
    ["Jan", "Feb", "Mar", "Apr", "May", "Jun", "Jul", "Aug", "Sep", "Oct", "Nov", "Dec"]

  /** `month_map`: each abbreviation to its month number (the dictionary the
      comprehension over `enumerate(months)` builds). */
  const MonthMap: map<string, int> :=
    map["Jan" := 1, "Feb" := 2, "Mar" := 3, "Apr" := 4, "May" := 5, "Jun" := 6,
        "Jul" := 7, "Aug" := 8, "Sep" := 9, "Oct" := 10, "Nov" := 11, "Dec" := 12]

  /** Python's `list.index`: the position of the first occurrence, or -1 where
      Python raises `ValueError`. */
  function IndexOf<T(==)>(xs: seq<T>, x: T): (r: int)
    ensures -1 <= r < |xs|
    ensures r == -1 <==> x !in xs
    ensures r >= 0 ==> xs[r] == x && x !in xs[..r]
  {
    if xs == [] then -1
    else if xs[0] == x then 0
    else
      var k := IndexOf(xs[1..], x);
      if k == -1 then -1
      else
        assert xs[..k + 1] == [xs[0]] + xs[1..][..k];
        k + 1
  }

  /** `get_month_index(month_str)`: the 1-based number of the month whose
      abbreviation equals `month_str.title()`, and the sentinel -1 for anything
      else (the `ValueError` of `months.index` caught). */
  function GetMonthIndex(s: string): (r: int)
    ensures r == -1 || 1 <= r <= 12
    ensures r == -1 <==> Title(s) !in MonthNames
    ensures r != -1 ==> MonthNames[r - 1] == Title(s)
  {
    var i := IndexOf(MonthNames, Title(s));
    if i < 0 then -1 else i + 1
  }

  lemma MonthNamesDistinct()
    ensures forall i, j | 0 <= i < j < |MonthNames| :: MonthNames[i] != MonthNames[j]
  {
  }

  lemma MonthNamesAreTitleWords(i: int)
    requires 0 <= i < |MonthNames|
    ensures IsTitleWord(MonthNames[i])
  {
  }

  /** Any capitalisation of an abbreviation is recognised: the result is i + 1
      exactly when the input equals the i-th abbreviation ignoring case. */
  lemma GetMonthIndexIgnoresCase(s: string, i: int)
    requires 0 <= i < |MonthNames|
    ensures GetMonthIndex(s) == i + 1 <==> EqualsIgnoringCase(s, MonthNames[i])
  {
    MonthNamesAreTitleWords(i);
    TitleMatchesIgnoringCase(s, MonthNames[i]);
    MonthNamesDistinct();
  }

  /** The sentinel is returned exactly for strings that are no abbreviation in
      any capitalisation. */
  lemma GetMonthIndexSentinel(s: string)
    ensures GetMonthIndex(s) == -1 <==>
      forall i | 0 <= i < |MonthNames| :: !EqualsIgnoringCase(s, MonthNames[i])
  {
    forall i | 0 <= i < |MonthNames| ensures GetMonthIndex(s) == i + 1 <==> EqualsIgnoringCase(s, MonthNames[i]) {
      GetMonthIndexIgnoresCase(s, i);
    }
  }

  /** `month_map` knows exactly the twelve abbreviations. */
  lemma MonthMapKeys()
    ensures MonthMap.Keys == set name | name in MonthNames
  {
    forall name | name in MonthNames ensures name in MonthMap {
      var i :| 0 <= i < |MonthNames| && MonthNames[i] == name;
      assert MonthNames[i] in MonthMap;
    }
  }

  /** `month_map` and `get_month_index` agree on every abbreviation. */
  lemma MonthMapAgrees(i: int)
    requires 0 <= i < |MonthNames|
    ensures MonthNames[i] in MonthMap && MonthMap[MonthNames[i]] == GetMonthIndex(MonthNames[i]) == i + 1
  {
    MonthMapAt(i);
    GetMonthIndexIgnoresCase(MonthNames[i], i);
  }

  lemma MonthMapAt(i: int)
    requires 0 <= i < |MonthNames|
    ensures MonthNames[i] in MonthMap && MonthMap[MonthNames[i]] == i + 1
  {
  }
}
