/** The skill-tag tooltip (script.js lines 295-307): a tag's `data-level`
    becomes its `title`, through a fixed table of display texts. */
module SkillTags {
  import opened Common

  const LevelDisplay: map<string, string> := map[
    "bajo" := "Nivel Bajo",
    "medio" := "Nivel Medio",
    "medio/alto" := "Nivel Medio/Alto",
    "alto" := "Nivel Alto",
    "actualmente aprendiendo" := "Actualmente Aprendiendo"
  ]

  /** The title set on a tag, or None when the tag has no (or an empty) level
      and is left alone. */
  function Tooltip(level: Option<string>): (r: Option<string>)
    ensures r.None? <==> level.None? || level.value == ""
    ensures r.Some? && level.value in LevelDisplay ==> r.value == LevelDisplay[level.value]
    ensures r.Some? && level.value !in LevelDisplay ==> r.value == level.value
    ensures r.Some? ==> r.value != ""
  {
    if level.None? || level.value == "" then None
    else if level.value in LevelDisplay then Some(LevelDisplay[level.value])
    else Some(level.value)
  }
}
