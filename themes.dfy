/**
 * The score themes of src/config/themes.js: a constant table ordered by threshold and a
 * lookup that returns the last entry whose threshold the score has reached.
 */
module Themes {
  import opened Wrappers

  /** A theme entry; the per-kind block colours are left out (they only affect drawing). */
  datatype Theme = Theme(threshold: int, background: string)

  const ScoreThemes: seq<Theme> := [
    Theme(0, "#f8f9fa"),
    Theme(1000, "#1a1d3f"),
    Theme(3000, "#2d1b36"),
    Theme(5000, "#2c3639"),
    Theme(10000, "#3f0d12")
  ]

  /** Thresholds strictly increase along the table. */
  predicate Ascending(themes: seq<Theme>) {
    forall i, j :: 0 <= i < j < |themes| ==> themes[i].threshold < themes[j].threshold
  }

  /**
   * `themes.slice().reverse().find(t => score >= t.threshold)`: the entry at the greatest
   * index whose threshold is at most `score`, or None when there is none.
   */
  function LastReached(themes: seq<Theme>, score: int): (r: Option<nat>)
    ensures r.Some? ==> r.value < |themes| && themes[r.value].threshold <= score
    ensures r.Some? ==> forall j :: r.value < j < |themes| ==> score < themes[j].threshold
    ensures r.None? ==> forall j :: 0 <= j < |themes| ==> score < themes[j].threshold
  {
    if themes == [] then None
    else if score >= themes[|themes| - 1].threshold then Some(|themes| - 1)
    else LastReached(themes[..|themes| - 1], score)
  }

  /** getThemeForScore: the theme for `score`, or None (`undefined`). */
  function GetThemeForScore(score: int): (r: Option<Theme>)
    ensures r.Some? ==> r.value in ScoreThemes && r.value.threshold <= score
    ensures r.None? <==> score < 0
  {
    match LastReached(ScoreThemes, score)
    case Some(i) => Some(ScoreThemes[i])
    case None => assert score < ScoreThemes[0].threshold; None
  }

  lemma ScoreThemesAscending()
    ensures Ascending(ScoreThemes)
  {
  }

  /** In an ascending table the entry found has the greatest threshold not above the score. */
  lemma {:induction false} LastReachedIsGreatest(themes: seq<Theme>, score: int, j: nat)
    requires Ascending(themes)
    requires j < |themes| && themes[j].threshold <= score
    ensures LastReached(themes, score).Some?
    ensures themes[j].threshold <= themes[LastReached(themes, score).value].threshold
  {
    var i := |themes| - 1;
    if score < themes[i].threshold {
      assert j < i;
      var init := themes[..i];
      assert init[j] == themes[j];
      LastReachedIsGreatest(init, score, j);
    }
  }

  /** getThemeForScore returns the table entry with the greatest threshold <= score. */
  lemma ThemeHasGreatestThreshold(score: int)
    requires score >= 0
    ensures GetThemeForScore(score).Some?
    ensures forall t :: t in ScoreThemes && t.threshold <= score ==>
                t.threshold <= GetThemeForScore(score).value.threshold
  {
    ScoreThemesAscending();
    forall t | t in ScoreThemes && t.threshold <= score
      ensures t.threshold <= GetThemeForScore(score).value.threshold
    {
      var j :| 0 <= j < |ScoreThemes| && ScoreThemes[j] == t;
      LastReachedIsGreatest(ScoreThemes, score, j);
    }
  }

  /** A higher score never selects a theme with a lower threshold. */
  lemma ThemeMonotone(s1: int, s2: int)
    requires 0 <= s1 <= s2
    ensures GetThemeForScore(s1).Some? && GetThemeForScore(s2).Some?
    ensures GetThemeForScore(s1).value.threshold <= GetThemeForScore(s2).value.threshold
  {
    ScoreThemesAscending();
    var t := GetThemeForScore(s1).value;
    assert t.threshold <= s1;
    var i :| 0 <= i < |ScoreThemes| && ScoreThemes[i] == t;
    LastReachedIsGreatest(ScoreThemes, s2, i);
  }
}
