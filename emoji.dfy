/**
 * `get_weather_emoji`: the forecast commands pick an emoji for a period's
 * short forecast by scanning the `WEATHER_EMOJIS` table in order and taking
 * the first keyword that occurs in the lower-cased text.
 */
module Emoji {
  import opened Wrappers
  import opened Strings

  /** Keyword / emoji pairs in dict iteration order. */
  type EmojiTable = seq<(string, string)>

  /** `WEATHER_EMOJIS` as the bot declares it. */
  const WeatherEmojis: EmojiTable := [
    ("sunny", "\U{2600}\U{FE0F}"),
    ("clear", "\U{2600}\U{FE0F}"),
    ("mostly sunny", "\U{1F324}\U{FE0F}"),
    ("mostly clear", "\U{1F324}\U{FE0F}"),
    ("partly sunny", "\U{26C5}"),
    ("partly cloudy", "\U{26C5}"),
    ("mostly cloudy", "\U{1F325}\U{FE0F}"),
    ("cloudy", "\U{2601}\U{FE0F}"),
    ("overcast", "\U{2601}\U{FE0F}"),
    ("rain", "\U{1F327}\U{FE0F}"),
    ("showers", "\U{1F327}\U{FE0F}"),
    ("thunderstorm", "\U{26C8}\U{FE0F}"),
    ("snow", "\U{1F328}\U{FE0F}"),
    ("sleet", "\U{1F328}\U{FE0F}"),
    ("freezing", "\U{1F9CA}"),
    ("fog", "\U{1F32B}\U{FE0F}"),
    ("windy", "\U{1F4A8}"),
    ("hot", "\U{1F525}"),
    ("cold", "\U{1F976}")
  ]

  /** The same table with the three two-word phrases that contain "sunny" or
      "clear" moved ahead of those words, so that each can be reached. */
  const CorrectedWeatherEmojis: EmojiTable := [
    ("mostly sunny", "\U{1F324}\U{FE0F}"),
    ("mostly clear", "\U{1F324}\U{FE0F}"),
    ("partly sunny", "\U{26C5}"),
    ("sunny", "\U{2600}\U{FE0F}"),
    ("clear", "\U{2600}\U{FE0F}"),
    ("partly cloudy", "\U{26C5}"),
    ("mostly cloudy", "\U{1F325}\U{FE0F}"),
    ("cloudy", "\U{2601}\U{FE0F}"),
    ("overcast", "\U{2601}\U{FE0F}"),
    ("rain", "\U{1F327}\U{FE0F}"),
    ("showers", "\U{1F327}\U{FE0F}"),
    ("thunderstorm", "\U{26C8}\U{FE0F}"),
    ("snow", "\U{1F328}\U{FE0F}"),
    ("sleet", "\U{1F328}\U{FE0F}"),
    ("freezing", "\U{1F9CA}"),
    ("fog", "\U{1F32B}\U{FE0F}"),
    ("windy", "\U{1F4A8}"),
    ("hot", "\U{1F525}"),
    ("cold", "\U{1F976}")
  ]

  /** The emoji returned when no keyword occurs. */
  const DefaultEmoji: string := "\U{1F324}\U{FE0F}"

  /** The position of the first keyword of `table` that occurs in `text`. */
  function FirstMatch(table: EmojiTable, text: string): (r: Option<nat>)
    ensures r.Some? ==> r.value < |table| && Contains(text, table[r.value].0)
    ensures r.Some? ==> forall i :: 0 <= i < r.value ==> !Contains(text, table[i].0)
    ensures r.None? ==> forall i :: 0 <= i < |table| ==> !Contains(text, table[i].0)
    decreases |table|
  {
    if table == [] then None
    else if Contains(text, table[0].0) then Some(0)
    else
      match FirstMatch(table[1..], text)
      case None => None
      case Some(k) => Some(k + 1)
  }

  /** The first occurring keyword decides, whatever follows it. */
  lemma FirstMatchAt(table: EmojiTable, text: string, j: nat)
    requires j < |table| && Contains(text, table[j].0)
    requires forall i :: 0 <= i < j ==> !Contains(text, table[i].0)
    ensures FirstMatch(table, text) == Some(j)
  {
  }

  /** `get_weather_emoji` over a given table. */
  function WeatherEmojiIn(table: EmojiTable, forecastText: string): (emoji: string)
    ensures forall j :: 0 <= j < |table| && Contains(Lower(forecastText), table[j].0)
                        && (forall i :: 0 <= i < j ==> !Contains(Lower(forecastText), table[i].0))
                        ==> emoji == table[j].1
    ensures (forall j :: 0 <= j < |table| ==> !Contains(Lower(forecastText), table[j].0)) ==> emoji == DefaultEmoji
  {
    match FirstMatch(table, Lower(forecastText))
    case Some(k) => table[k].1
    case None => DefaultEmoji
  }

  /** An entry whose keyword contains an earlier keyword is never chosen:
      every text holding it also holds the earlier one. */
  lemma {:induction false} ShadowedNeverChosen(table: EmojiTable, i: nat, j: nat, text: string)
    requires i < j < |table| && Contains(table[j].0, table[i].0)
    ensures FirstMatch(table, text) != Some(j)
  {
    if FirstMatch(table, text) == Some(j) {
      ContainsTrans(text, table[j].0, table[i].0);
    }
  }

  /** An entry whose keyword contains no earlier keyword is chosen for the
      keyword itself. */
  lemma UnshadowedChosen(table: EmojiTable, j: nat)
    requires j < |table|
    requires forall i :: 0 <= i < j ==> !Contains(table[j].0, table[i].0)
    ensures FirstMatch(table, table[j].0) == Some(j)
  {
    ContainsBounds(table[j].0, table[j].0);
    FirstMatchAt(table, table[j].0, j);
  }

  /* As written, the "mostly sunny", "mostly clear" and "partly sunny"
     entries are dead: no forecast text ever selects them, because each
     keyword contains the earlier "sunny" or "clear". */

  lemma AsWrittenMostlySunnyUnreachable(forecastText: string)
    ensures FirstMatch(WeatherEmojis, Lower(forecastText)) != Some(2)
  {
    OccursContains("mostly sunny", "sunny", 7);
    ShadowedNeverChosen(WeatherEmojis, 0, 2, Lower(forecastText));
  }

  lemma AsWrittenMostlyClearUnreachable(forecastText: string)
    ensures FirstMatch(WeatherEmojis, Lower(forecastText)) != Some(3)
  {
    OccursContains("mostly clear", "clear", 7);
    ShadowedNeverChosen(WeatherEmojis, 1, 3, Lower(forecastText));
  }

  lemma AsWrittenPartlySunnyUnreachable(forecastText: string)
    ensures FirstMatch(WeatherEmojis, Lower(forecastText)) != Some(4)
  {
    OccursContains("partly sunny", "sunny", 7);
    ShadowedNeverChosen(WeatherEmojis, 0, 4, Lower(forecastText));
  }

  /** As written, a "Mostly Sunny" forecast gets the plain sun rather than
      the sun behind a small cloud its entry names. */
  lemma AsWrittenMostlySunny()
    ensures WeatherEmojiIn(WeatherEmojis, "Mostly Sunny") == "\U{2600}\U{FE0F}"
    ensures WeatherEmojiIn(WeatherEmojis, "Mostly Sunny") != WeatherEmojis[2].1
  {
    assert Lower("Mostly Sunny") == "mostly sunny";
    OccursContains("mostly sunny", "sunny", 7);
    FirstMatchAt(WeatherEmojis, "mostly sunny", 0);
  }

  /** `get_weather_emoji`, with the corrected table. */
  function WeatherEmoji(forecastText: string): (emoji: string)
    ensures forall j :: 0 <= j < |CorrectedWeatherEmojis| && Contains(Lower(forecastText), CorrectedWeatherEmojis[j].0)
                        && (forall i :: 0 <= i < j ==> !Contains(Lower(forecastText), CorrectedWeatherEmojis[i].0))
                        ==> emoji == CorrectedWeatherEmojis[j].1
    ensures (forall j :: 0 <= j < |CorrectedWeatherEmojis| ==> !Contains(Lower(forecastText), CorrectedWeatherEmojis[j].0))
            ==> emoji == DefaultEmoji
  {
    WeatherEmojiIn(CorrectedWeatherEmojis, forecastText)
  }

  /* With the corrected table each sky-cover phrase NWS uses, in any
     capitalisation, gets the emoji its own entry names. */

  lemma CorrectedMostlySunny(forecastText: string)
    requires Lower(forecastText) == "mostly sunny"
    ensures WeatherEmoji(forecastText) == "\U{1F324}\U{FE0F}"
  {
    UnshadowedChosen(CorrectedWeatherEmojis, 0);
  }

  lemma CorrectedMostlyClear(forecastText: string)
    requires Lower(forecastText) == "mostly clear"
    ensures WeatherEmoji(forecastText) == "\U{1F324}\U{FE0F}"
  {
    MissingCharNotContained("mostly clear", "mostly sunny", 8);
    UnshadowedChosen(CorrectedWeatherEmojis, 1);
  }

  lemma CorrectedPartlySunny(forecastText: string)
    requires Lower(forecastText) == "partly sunny"
    ensures WeatherEmoji(forecastText) == "\U{26C5}"
  {
    MissingCharNotContained("partly sunny", "mostly sunny", 0);
    MissingCharNotContained("partly sunny", "mostly clear", 0);
    UnshadowedChosen(CorrectedWeatherEmojis, 2);
  }

  lemma CorrectedSunny(forecastText: string)
    requires Lower(forecastText) == "sunny"
    ensures WeatherEmoji(forecastText) == "\U{2600}\U{FE0F}"
  {
    ContainsBounds("sunny", "mostly sunny");
    ContainsBounds("sunny", "mostly clear");
    ContainsBounds("sunny", "partly sunny");
    UnshadowedChosen(CorrectedWeatherEmojis, 3);
  }

  lemma CorrectedClear(forecastText: string)
    requires Lower(forecastText) == "clear"
    ensures WeatherEmoji(forecastText) == "\U{2600}\U{FE0F}"
  {
    ContainsBounds("clear", "mostly sunny");
    ContainsBounds("clear", "mostly clear");
    ContainsBounds("clear", "partly sunny");
    MissingCharNotContained("clear", "sunny", 0);
    UnshadowedChosen(CorrectedWeatherEmojis, 4);
  }

  /** The loop of `get_weather_emoji` over a given table: scan it in order
      and return the emoji of the first keyword found in the lower-cased
      text.  With `WeatherEmojis` it is the bot's function as written, with
      `CorrectedWeatherEmojis` the corrected one. */
  method GetWeatherEmoji(table: EmojiTable, forecastText: string) returns (emoji: string)
    ensures emoji == WeatherEmojiIn(table, forecastText)
  {
    var textLower := Lower(forecastText);
    var k := 0;
    while k < |table|
      invariant 0 <= k <= |table|
      invariant forall i :: 0 <= i < k ==> !Contains(textLower, table[i].0)
    {
      var (keyword, candidate) := table[k];
      if Contains(textLower, keyword) {
        FirstMatchAt(table, textLower, k);
        return candidate;
      }
      k := k + 1;
    }
    return DefaultEmoji;
  }
}
