/**
 * The day label of `updateDayCounter`: the raw 0-based day index after a
 * word in the current language, looked up in a JavaScript object keyed by
 * language code.
 */
module DayCounter {
  import opened Wrappers
  import opened Decimal

  /**
   * `dayLabel[currentLanguage]`: "Day n", "Dia n" or "Giorno n", and
   * `undefined` for any other language code.
   */
  function DayLabel(dayIndex: int, language: string): (r: Option<string>)
    ensures r.Some? <==> language == "en" || language == "pt" || language == "it"
    ensures language == "en" ==> r == Some("Day " + IntToDecimal(dayIndex))
    ensures language == "pt" ==> r == Some("Dia " + IntToDecimal(dayIndex))
    ensures language == "it" ==> r == Some("Giorno " + IntToDecimal(dayIndex))
  {
    var labels := map[
      "en" := "Day " + IntToDecimal(dayIndex),
      "pt" := "Dia " + IntToDecimal(dayIndex),
      "it" := "Giorno " + IntToDecimal(dayIndex)
    ];
    if language in labels then Some(labels[language]) else None
  }

  /**
   * The number a label shows is the index itself, not the index plus one:
   * the text after the label's single space reads back as `dayIndex`.
   */
  lemma LabelShowsRawIndex(dayIndex: nat, language: string)
    requires language == "en" || language == "pt" || language == "it"
    ensures var text := DayLabel(dayIndex, language).value;
            exists k :: 0 < k < |text| && text[k - 1] == ' ' && AllDigits(text[k..])
                        && DecimalValue(text[k..]) == dayIndex
  {
    var text := DayLabel(dayIndex, language).value;
    var digits := NatToDecimal(dayIndex);
    var k := |text| - |digits|;
    assert text[k..] == digits;
    DecimalRoundTrip(dayIndex);
  }

  /** Day 7 in each language. */
  lemma DaySevenLabels()
    ensures DayLabel(7, "pt") == Some("Dia 7")
    ensures DayLabel(7, "en") == Some("Day 7")
    ensures DayLabel(7, "it") == Some("Giorno 7")
  {
    assert DigitChar(7) == '7';
    assert IntToDecimal(7) == "7";
    assert "Dia " + "7" == "Dia 7";
    assert "Day " + "7" == "Day 7";
    assert "Giorno " + "7" == "Giorno 7";
  }
}
