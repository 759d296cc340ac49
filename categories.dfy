/**
 * Translation of the feed's category labels to the genre names of the
 * content descriptor of ETSI EN 300 468 (section 6.2.9).
 */
module Categories {
  import opened Wrappers

  /** The seven known labels. `Emission` maps to the empty name: no genre is added for it. */
  const EtsiProgramCategories: map<string, string> := map[
    "Cin\U{E9}ma" := "Movie / Drama",
    "Clips" := "Music / Ballet / Dance",
    "Dessin anim\U{E9}" := "Cartoons / Puppets",
    "Emission" := "",
    "Spectacle" := "Performing arts",
    "S\U{E9}rie" := "Movie / Drama",
    "T\U{E9}l\U{E9}film" := "Movie / Drama"
  ]

  /** The genre names a known category can map to. */
  predicate IsEtsiGenre(name: string) {
    name in {"Movie / Drama", "Music / Ballet / Dance", "Cartoons / Puppets", "Performing arts"}
  }

  /**
   * `_ETSI_PROGRAM_CATEGORIES.get(category)`: `None` exactly for a category outside
   * the table (the case in which the grabber logs a warning).
   */
  function EtsiCategory(category: string): (r: Option<string>)
    ensures r.None? <==> category !in EtsiProgramCategories
    ensures r.Some? ==> r.value == "" || IsEtsiGenre(r.value)
  {
    if category in EtsiProgramCategories then Some(EtsiProgramCategories[category]) else None
  }

  /** `Emission` is the only category that is known but adds no genre. */
  lemma EmptyGenreOnlyForEmission(category: string)
    ensures EtsiCategory(category) == Some("") <==> category == "Emission"
  {
  }

  /** The three fiction labels all land in the same ETSI genre. */
  lemma FictionLabels()
    ensures EtsiCategory("Cin\U{E9}ma") == Some("Movie / Drama")
    ensures EtsiCategory("S\U{E9}rie") == Some("Movie / Drama")
    ensures EtsiCategory("T\U{E9}l\U{E9}film") == Some("Movie / Drama")
  {
  }
}
