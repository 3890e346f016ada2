/** The fixed `colorRecommendations` table: a title and five named colours per undertone. */
module Palette {

  import opened Classifier

  datatype Color = Color(name: string, hex: string)

  datatype Recommendation = Recommendation(title: string, colors: seq<Color>)

  /** The number of colours every palette lists. */
  const PALETTE_SIZE: nat := 5

  predicate IsHexDigit(ch: char) {
    '0' <= ch <= '9' || 'A' <= ch <= 'F' || 'a' <= ch <= 'f'
  }

  /** `#` followed by six hexadecimal digits. */
  predicate IsHexColor(s: string) {
    |s| == 7 && s[0] == '#' && forall i :: 1 <= i < 7 ==> IsHexDigit(s[i])
  }

  /** The `colorRecommendations` object, keyed by the strings `determineUndertone` returns. */
  const COLOR_RECOMMENDATIONS: map<string, Recommendation> := map[
    "warm" := Recommendation("Warm Undertone", [
      Color("Earth Brown", "#8B4513"),
      Color("Coral", "#FF7F50"),
      Color("Olive Green", "#808000"),
      Color("Golden Yellow", "#FFD700"),
      Color("Warm Red", "#FF4500")]),
    "cool" := Recommendation("Cool Undertone", [
      Color("Navy Blue", "#000080"),
      Color("Royal Purple", "#663399"),
      Color("Emerald Green", "#008000"),
      Color("Berry Red", "#8B0000"),
      Color("Ice Blue", "#ADD8E6")]),
    "neutral" := Recommendation("Neutral Undertone", [
      Color("Classic Black", "#000000"),
      Color("Pure White", "#FFFFFF"),
      Color("Gray", "#808080"),
      Color("Navy Blue", "#000080"),
      Color("Taupe", "#483C32")])]

  /** The table has exactly the three labels' keys. */
  lemma TableKeys()
    ensures COLOR_RECOMMENDATIONS.Keys == {Key(Warm), Key(Cool), Key(Neutral)}
  {
  }

  /**
   * `colorRecommendations[undertone]`: the lookup never misses, and every
   * palette lists five colours written as `#RRGGBB`.
   */
  function ColorRecommendations(u: Undertone): (rec: Recommendation)
    ensures |rec.colors| == PALETTE_SIZE
    ensures forall i :: 0 <= i < |rec.colors| ==> IsHexColor(rec.colors[i].hex)
  {
    COLOR_RECOMMENDATIONS[Key(u)]
  }

  /** The three titles differ, so the heading identifies the label. */
  lemma TitlesDistinct(u: Undertone, v: Undertone)
    ensures ColorRecommendations(u).title == ColorRecommendations(v).title ==> u == v
  {
  }

  /** First entries of the three palettes. */
  lemma FirstEntries()
    ensures ColorRecommendations(Warm).colors[0] == Color("Earth Brown", "#8B4513")
    ensures ColorRecommendations(Cool).colors[0] == Color("Navy Blue", "#000080")
    ensures ColorRecommendations(Neutral).colors[0] == Color("Classic Black", "#000000")
  {
  }
}
