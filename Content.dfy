/**
 * The content catalog and `getContentForDay`: one phrase and one track per
 * day index, each replaced by a fixed fallback when the catalog has no usable
 * entry at that index.
 */
module Content {
  import opened Wrappers

  /**
   * A JSON object from language code to text. Authored entries are meant to
   * carry "en", "pt" and "it" but nothing enforces it.
   */
  type LocalizedText = map<string, string>

  datatype Track = Track(url: string, title: LocalizedText)

  /**
   * The parsed `content.json`. An array position holds `None` where the JSON
   * array has `null` or another falsy value (`false`, `0`, `""`); reading
   * past the end of the array is `undefined` as well.
   */
  datatype Catalog = Catalog(phrases: seq<Option<LocalizedText>>, tracks: seq<Option<Track>>)

  datatype DayContent = DayContent(phrase: LocalizedText, track: Track)

  predicate HasAllLanguages(t: LocalizedText) {
    "en" in t && "pt" in t && "it" in t
  }

  const FallbackPhrase: LocalizedText := map[
    "en" := "Content for this day is coming soon...",
    "pt" := "O conteúdo para este dia está chegando em breve...",
    "it" := "Il contenuto per questo giorno arriverà presto..."
  ]

  const SilenceUrl: string := "silence.mp3"

  const FallbackTrack: Track := Track(SilenceUrl, map[
    "en" := "Track coming soon",
    "pt" := "Faixa em breve",
    "it" := "Traccia in arrivo"
  ])

  /**
   * `entries[i]` read as JavaScript reads an array: a negative or too large
   * index gives `undefined`, never an error.
   */
  function EntryAt<T>(entries: seq<Option<T>>, i: int): (r: Option<T>)
    ensures r.Some? <==> 0 <= i < |entries| && entries[i].Some?
    ensures r.Some? ==> r == entries[i]
  {
    if 0 <= i < |entries| then entries[i] else None
  }

  /** `entry || fallback`. */
  function OrElse<T>(entry: Option<T>, fallback: T): (r: T)
    ensures entry.Some? ==> r == entry.value
    ensures entry.None? ==> r == fallback
  {
    match entry
    case Some(v) => v
    case None => fallback
  }

  /**
   * `getContentForDay(dayIndex)`: nothing without a catalog; otherwise the
   * day's phrase and track, each falling back on its own.
   */
  function ContentForDay(catalog: Option<Catalog>, dayIndex: int): (r: Option<DayContent>)
    ensures r.None? <==> catalog.None?
    ensures r.Some? ==>
      var c := catalog.value;
      && (r.value.phrase == if 0 <= dayIndex < |c.phrases| && c.phrases[dayIndex].Some?
                            then c.phrases[dayIndex].value else FallbackPhrase)
      && (r.value.track == if 0 <= dayIndex < |c.tracks| && c.tracks[dayIndex].Some?
                           then c.tracks[dayIndex].value else FallbackTrack)
  {
    match catalog
    case None => None
    case Some(c) =>
      Some(DayContent(OrElse(EntryAt(c.phrases, dayIndex), FallbackPhrase),
                      OrElse(EntryAt(c.tracks, dayIndex), FallbackTrack)))
  }

  /** Both fallbacks are complete in all three languages, and the track is the silent file. */
  lemma FallbacksAreComplete()
    ensures HasAllLanguages(FallbackPhrase) && HasAllLanguages(FallbackTrack.title)
    ensures FallbackTrack.url == "silence.mp3"
  {
  }

  /** The phrase chosen for a day depends only on the phrases, never on the tracks. */
  lemma PhraseIgnoresTracks(phrases: seq<Option<LocalizedText>>, t1: seq<Option<Track>>, t2: seq<Option<Track>>, dayIndex: int)
    ensures ContentForDay(Some(Catalog(phrases, t1)), dayIndex).value.phrase
         == ContentForDay(Some(Catalog(phrases, t2)), dayIndex).value.phrase
  {
  }

  /** The track chosen for a day depends only on the tracks, never on the phrases. */
  lemma TrackIgnoresPhrases(p1: seq<Option<LocalizedText>>, p2: seq<Option<LocalizedText>>, tracks: seq<Option<Track>>, dayIndex: int)
    ensures ContentForDay(Some(Catalog(p1, tracks)), dayIndex).value.track
         == ContentForDay(Some(Catalog(p2, tracks)), dayIndex).value.track
  {
  }

  /** A catalog whose present entries are all complete yields complete content for every index. */
  predicate CompleteCatalog(c: Catalog) {
    && (forall i :: 0 <= i < |c.phrases| && c.phrases[i].Some? ==> HasAllLanguages(c.phrases[i].value))
    && (forall i :: 0 <= i < |c.tracks| && c.tracks[i].Some? ==> HasAllLanguages(c.tracks[i].value.title))
  }

  lemma CompleteCatalogGivesCompleteContent(c: Catalog, dayIndex: int)
    requires CompleteCatalog(c)
    ensures var r := ContentForDay(Some(c), dayIndex).value;
            HasAllLanguages(r.phrase) && HasAllLanguages(r.track.title)
  {
  }

  /** A catalog shorter than the campaign falls back on both sides past its end. */
  lemma ShortCatalogFallsBack(c: Catalog, dayIndex: int)
    requires |c.phrases| <= dayIndex && |c.tracks| <= dayIndex
    ensures ContentForDay(Some(c), dayIndex) == Some(DayContent(FallbackPhrase, FallbackTrack))
  {
  }
}
