/** The records of the app (src/types/index.ts) and the small Option wrapper used for
    "not found" and "not stored". */
module Types {

  datatype Option<T> = None | Some(value: T)

  /** One catalog entry. `chapter` and `verse` locate it in the Bhagavad Gita. */
  datatype Verse = Verse(
    id: string,
    chapter: nat,
    verse: nat,
    sanskrit: string,
    english: string,
    tags: seq<string>,
    reflection: string)

  /** A bookmarked verse: all fields of the verse plus the moment it was saved,
      kept as an opaque timestamp. */
  datatype FavoriteVerse = FavoriteVerse(verse: Verse, savedAt: nat)
  {
    function Id(): string { verse.id }
  }
}
