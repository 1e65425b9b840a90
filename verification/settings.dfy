/**
 * The plugin's settings value (`TextColorSettings`), its hard-coded defaults
 * and the way `loadTextColorSettings` merges persisted data over them.
 */
module Settings {
  import opened Wrappers

  /** An ordered palette of color names and a color-to-emoji table. */
  datatype TextColorSettings = TextColorSettings(colors: seq<string>, colorEmojis: map<string, string>)

  const Red: string := "red"
  const Blue: string := "blue"
  const Green: string := "green"
  const Purple: string := "purple"
  const Orange: string := "orange"

  /** `DEFAULT_TEXT_COLOR_SETTINGS`: five colors, each with its colored-circle emoji. */
  const Defaults: TextColorSettings := TextColorSettings(
    [Red, Blue, Green, Purple, Orange],
    map[Red := "\U{1F534}", Blue := "\U{1F535}", Green := "\U{1F7E2}",
        Purple := "\U{1F7E3}", Orange := "\U{1F7E0}"])

  /**
   * The object `loadData()` resolves to: `None` when nothing was ever saved,
   * otherwise a record whose top-level fields may each be missing.
   */
  datatype Persisted = Persisted(colors: Option<seq<string>>, colorEmojis: Option<map<string, string>>)

  /** What `saveData` writes for `s`: both fields present. */
  function Snapshot(s: TextColorSettings): Persisted {
    Persisted(Some(s.colors), Some(s.colorEmojis))
  }

  /**
   * `Object.assign({}, DEFAULT_TEXT_COLOR_SETTINGS, data)`: a shallow,
   * top-level merge in which a present persisted field replaces the default
   * field wholesale and a missing one keeps the default.
   */
  function Load(data: Option<Persisted>): (s: TextColorSettings)
    ensures data.None? ==> s == Defaults
    ensures data.Some? && data.value.colors.Some? ==> s.colors == data.value.colors.value
    ensures data.Some? && data.value.colors.None? ==> s.colors == Defaults.colors
    ensures data.Some? && data.value.colorEmojis.Some? ==> s.colorEmojis == data.value.colorEmojis.value
    ensures data.Some? && data.value.colorEmojis.None? ==> s.colorEmojis == Defaults.colorEmojis
  {
    match data
    case None => Defaults
    case Some(p) => TextColorSettings(p.colors.GetOr(Defaults.colors), p.colorEmojis.GetOr(Defaults.colorEmojis))
  }

  /** Loading what was saved gives back the saved settings: both fields override the defaults. */
  lemma LoadSnapshot(s: TextColorSettings)
    ensures Load(Some(Snapshot(s))) == s
  {
  }

  /** No per-element merge: a persisted palette of one color drops every default color. */
  lemma LoadReplacesWholesale()
    ensures var s := Load(Some(Persisted(Some(["pink"]), None)));
      s.colors == ["pink"] && Red !in s.colors && s.colorEmojis == Defaults.colorEmojis
  {
  }

  // Invariants the settings tab's mutations are checked against.

  /** Every emoji key names a color of the palette. */
  predicate Covered(s: TextColorSettings) {
    forall c :: c in s.colorEmojis ==> c in s.colors
  }

  /** Every palette color has an emoji entry. */
  predicate Labelled(s: TextColorSettings) {
    forall i :: 0 <= i < |s.colors| ==> s.colors[i] in s.colorEmojis
  }

  /** Every stored emoji is non-empty. */
  predicate EmojisNonEmpty(s: TextColorSettings) {
    forall c :: c in s.colorEmojis ==> s.colorEmojis[c] != ""
  }

  /** No color occurs twice in the palette. */
  predicate Distinct(s: TextColorSettings) {
    forall i, j :: 0 <= i < j < |s.colors| ==> s.colors[i] != s.colors[j]
  }

  /** The defaults are a palette of five distinct colors, each with exactly one non-empty emoji. */
  lemma DefaultsWellFormed()
    ensures Covered(Defaults) && Labelled(Defaults) && EmojisNonEmpty(Defaults) && Distinct(Defaults)
    ensures |Defaults.colors| == 5
  {
  }
}
