/**
 * The page's module state (`currentDayIndex`, `currentLanguage`,
 * `contentData`, `isPlaying`) as one object, with the handlers that update
 * it: loading the catalog, start-up, next/previous day, language switching
 * and the play/pause toggle. What the handlers then render is read through
 * `CurrentContent` and `DayCounterText`.
 */
module Session {
  import opened Wrappers
  import opened Calendar
  import opened DayResolver
  import opened Content
  import opened Navigation
  import opened DayCounter
  import opened Decimal

  const LoadErrorMessage: string := "Couldn't load today's content. Please try refreshing the page."

  /**
   * What fetching `/content.json` ended in: a failure (network error, a
   * response that is not ok, a body that is not JSON), or a parsed body.
   * A body that parses to `null` gives `Parsed(None)`.
   */
  datatype LoadOutcome = Failed | Parsed(json: Option<Catalog>)

  /** What `togglePlay` asks of the audio element. */
  datatype AudioCommand = Play | Pause

  class ContentSession {
    var dayIndex: int
    var language: string
    var catalog: Option<Catalog>
    var isPlaying: bool

    /** The day index always names one of the 365 days. */
    ghost predicate Valid()
      reads this
    {
      ValidIndex(dayIndex)
    }

    /** The initial values of the module variables. */
    constructor ()
      ensures Valid()
      ensures dayIndex == 0 && language == "pt" && catalog == None && !isPlaying
    {
      dayIndex := 0;
      language := "pt";
      catalog := None;
      isPlaying := false;
    }

    /**
     * `fetchContent`: a parsed body becomes the catalog and is returned; a
     * failure leaves the catalog as it was, returns nothing and reports the
     * fixed error message for display.
     */
    method FetchContent(outcome: LoadOutcome) returns (result: Option<Catalog>, error: Option<string>)
      modifies this
      ensures outcome.Parsed? ==> catalog == outcome.json && result == outcome.json && error == None
      ensures outcome.Failed? ==> catalog == old(catalog) && result == None && error == Some(LoadErrorMessage)
      ensures dayIndex == old(dayIndex) && language == old(language) && isPlaying == old(isPlaying)
    {
      match outcome
      case Parsed(json) =>
        catalog := json;
        result, error := json, None;
      case Failed =>
        result, error := None, Some(LoadErrorMessage);
    }

    /**
     * `init` without its DOM wiring: resolve today's day index with the
     * resolver as written (the browser is `offsetMinutes` east of UTC), load
     * the catalog, then switch to Portuguese. At UTC or east of it the index
     * is the corrected one; west of UTC it is one day ahead (see README,
     * Findings).
     */
    method Init(today: CivilDate, offsetMinutes: int, outcome: LoadOutcome) returns (error: Option<string>)
      modifies this
      ensures Valid()
      ensures dayIndex == DaysSinceStartAsWritten(today, offsetMinutes) && language == "pt"
      ensures 0 <= offsetMinutes < 1440 ==> dayIndex == DaysSinceStart(today)
      ensures catalog == if outcome.Parsed? then outcome.json else old(catalog)
      ensures error.Some? <==> outcome.Failed?
      ensures isPlaying == old(isPlaying)
    {
      dayIndex := DaysSinceStartAsWritten(today, offsetMinutes);
      if 0 <= offsetMinutes < 1440 {
        AsWrittenAgreesEastOfUtc(today, offsetMinutes);
      }
      var _, e := FetchContent(outcome);
      error := e;
      SwitchLanguage("pt");
    }

    /**
     * The content `updateContent` shows: `getContentForDay(currentDayIndex)`.
     * There is content exactly when a catalog is loaded, and its phrase and
     * track are each either an entry of the catalog or the fallback.
     */
    function CurrentContent(): (r: Option<DayContent>)
      reads this
      ensures r.None? <==> catalog.None?
      ensures r.Some? ==> r.value.phrase == FallbackPhrase || Some(r.value.phrase) in catalog.value.phrases
      ensures r.Some? ==> r.value.track == FallbackTrack || Some(r.value.track) in catalog.value.tracks
    {
      ContentForDay(catalog, dayIndex)
    }

    /**
     * The text `updateDayCounter` writes into the day counter: a label exactly
     * for the three known languages, ending in the decimal text of the
     * current index.
     */
    function DayCounterText(): (r: Option<string>)
      reads this
      ensures r.Some? <==> language == "en" || language == "pt" || language == "it"
      ensures r.Some? ==> var digits := IntToDecimal(dayIndex);
                          |digits| < |r.value| && r.value[|r.value| - |digits|..] == digits
    {
      DayLabel(dayIndex, language)
    }

    /** `nextTrack`: one day forward, from day 364 back to day 0. */
    method NextTrack()
      requires Valid()
      modifies this
      ensures Valid()
      ensures dayIndex == NextIndex(old(dayIndex))
      ensures old(dayIndex) == CampaignDays - 1 ==> dayIndex == 0
      ensures language == old(language) && catalog == old(catalog) && isPlaying == old(isPlaying)
    {
      dayIndex := NextIndex(dayIndex);
    }

    /** `prevTrack`: one day back, from day 0 round to day 364. */
    method PrevTrack()
      requires Valid()
      modifies this
      ensures Valid()
      ensures dayIndex == PrevIndex(old(dayIndex))
      ensures old(dayIndex) == 0 ==> dayIndex == CampaignDays - 1
      ensures language == old(language) && catalog == old(catalog) && isPlaying == old(isPlaying)
    {
      dayIndex := PrevIndex(dayIndex);
    }

    /**
     * `switchLanguage`: takes any code as given, unchecked; the day, the
     * catalog and the playback flag stay as they were.
     */
    method SwitchLanguage(lang: string)
      modifies this
      ensures language == lang
      ensures dayIndex == old(dayIndex) && catalog == old(catalog) && isPlaying == old(isPlaying)
      ensures CurrentContent() == old(CurrentContent())
      ensures DayCounterText() == DayLabel(dayIndex, lang)
    {
      language := lang;
    }

    /**
     * `togglePlay`, given whether the audio element is paused: a paused
     * player is told to play and the flag set, a playing one is told to
     * pause and the flag cleared.
     */
    method TogglePlay(paused: bool) returns (command: AudioCommand)
      modifies this
      ensures isPlaying == paused
      ensures command == if paused then Play else Pause
      ensures dayIndex == old(dayIndex) && language == old(language) && catalog == old(catalog)
    {
      if paused {
        command := Play;
        isPlaying := true;
      } else {
        command := Pause;
        isPlaying := false;
      }
    }

    /** Pressing "next" and then "previous" leaves the session as it was. */
    method NextThenPrev()
      requires Valid()
      modifies this
      ensures Valid()
      ensures dayIndex == old(dayIndex) && language == old(language)
      ensures catalog == old(catalog) && isPlaying == old(isPlaying)
    {
      NextTrack();
      PrevTrack();
      PrevNextInverse(old(dayIndex));
    }
  }
}
