/** `getWeatherCondition` and `getWeatherDescription` of src/pages/Index.tsx:
    the WMO weather interpretation code (WMO code table 4677, as the
    forecast service reports it) mapped to one of four display conditions
    and to a description. */
module WeatherCodes {
  import opened Text
  import opened Wrappers

  datatype Condition = Clear | Cloudy | Rainy | Stormy

  /** The first matching test of the if-return chain decides: 0 is clear,
      anything else up to 3 (negative codes too) is cloudy, 95 and above
      stormy, 51 to 94 rainy and the rest, 4 to 50, cloudy. */
  function WeatherCondition(code: int): (c: Condition)
    ensures c == Clear <==> code == 0
    ensures c == Stormy <==> code >= 95
    ensures c == Rainy <==> 51 <= code <= 94
    ensures c == Cloudy <==> code != 0 && code <= 50
  {
    if code == 0 then Clear
    else if code <= 3 then Cloudy
    else if code >= 95 then Stormy
    else if code >= 51 then Rainy
    else Cloudy
  }

  /** The description record: the text listed for a code, if any. */
  function Described(code: int): Option<string> {
    match code
    case 0 => Some("Clear sky")
    case 1 => Some("Mainly clear")
    case 2 => Some("Partly cloudy")
    case 3 => Some("Overcast")
    case 45 => Some("Foggy")
    case 48 => Some("Depositing rime fog")
    case 51 => Some("Light drizzle")
    case 53 => Some("Moderate drizzle")
    case 55 => Some("Dense drizzle")
    case 61 => Some("Slight rain")
    case 63 => Some("Moderate rain")
    case 65 => Some("Heavy rain")
    case 71 => Some("Slight snow")
    case 73 => Some("Moderate snow")
    case 75 => Some("Heavy snow")
    case 95 => Some("Thunderstorm")
    case 96 => Some("Thunderstorm with slight hail")
    case 99 => Some("Thunderstorm with heavy hail")
    case _ => None
  }

  /** The codes the record lists. */
  const Tabulated: set<int> := {0, 1, 2, 3, 45, 48, 51, 53, 55, 61, 63, 65, 71, 73, 75, 95, 96, 99}

  /** `descriptions[code] || "Unknown"`: a missing key, like an empty
      description, falls back to "Unknown". */
  function WeatherDescription(code: int): (d: string)
    ensures d != ""
  {
    match Described(code)
    case Some(d) => if d != "" then d else "Unknown"
    case None => "Unknown"
  }

  predicate EndsWith(s: string, t: string) {
    |t| <= |s| && s[|s| - |t|..] == t
  }

  /** A description other than "Unknown" is given exactly for the 18
      tabulated codes, and it is the tabulated text. */
  lemma DescribedExactlyWhenTabulated(code: int)
    ensures WeatherDescription(code) != "Unknown" <==> code in Tabulated
    ensures code in Tabulated ==> Described(code).Some? && WeatherDescription(code) == Described(code).value
  {
  }

  /** Among the tabulated codes, the thunderstorm descriptions are exactly
      the stormy ones. */
  lemma ThunderstormsAreStormy(code: int)
    requires code in Tabulated
    ensures IsPrefix("Thunderstorm", WeatherDescription(code)) <==> WeatherCondition(code) == Stormy
  {
    var d := WeatherDescription(code);
    if code < 95 {
      assert d[0] != 'T';
    } else {
      assert d[..12] == "Thunderstorm";
    }
  }

  lemma EndsWithLast(s: string, t: string)
    requires |t| > 0 && EndsWith(s, t)
    ensures s[|s| - 1] == t[|t| - 1]
  {
    assert s[|s| - |t|..][|t| - 1] == s[|s| - 1];
  }

  predicate Precipitation(d: string) {
    EndsWith(d, "drizzle") || EndsWith(d, "rain") || EndsWith(d, "snow")
  }

  lemma RainyIsPrecipitation(code: int)
    requires code in Tabulated && 51 <= code <= 94
    ensures Precipitation(WeatherDescription(code))
  {
    var d := WeatherDescription(code);
    if code <= 55 {
      DrizzleWords(d);
    } else if code <= 65 {
      RainWords(d);
    } else {
      SnowWords(d);
    }
  }

  lemma DrizzleWords(d: string)
    requires d == "Light drizzle" || d == "Moderate drizzle" || d == "Dense drizzle"
    ensures EndsWith(d, "drizzle")
  {
    assert d[|d| - 7..] == "drizzle";
  }

  lemma RainWords(d: string)
    requires d == "Slight rain" || d == "Moderate rain" || d == "Heavy rain"
    ensures EndsWith(d, "rain")
  {
    assert d[|d| - 4..] == "rain";
  }

  lemma SnowWords(d: string)
    requires d == "Slight snow" || d == "Moderate snow" || d == "Heavy snow"
    ensures EndsWith(d, "snow")
  {
    assert d[|d| - 4..] == "snow";
  }

  lemma OtherIsNotPrecipitation(code: int)
    requires code in Tabulated && !(51 <= code <= 94)
    ensures !Precipitation(WeatherDescription(code))
  {
    var d := WeatherDescription(code);
    var last := d[|d| - 1];
    assert last != 'e' && last != 'n' && last != 'w';
    if EndsWith(d, "drizzle") {
      EndsWithLast(d, "drizzle");
    } else if EndsWith(d, "rain") {
      EndsWithLast(d, "rain");
    } else if EndsWith(d, "snow") {
      EndsWithLast(d, "snow");
    }
  }

  /** Among the tabulated codes, the drizzle, rain and snow descriptions
      are exactly the rainy ones; snow is not a condition of its own. */
  lemma PrecipitationIsRainy(code: int)
    requires code in Tabulated
    ensures Precipitation(WeatherDescription(code)) <==> WeatherCondition(code) == Rainy
  {
    if 51 <= code <= 94 {
      RainyIsPrecipitation(code);
    } else {
      OtherIsNotPrecipitation(code);
    }
  }

  /** The two fog codes display as cloudy. */
  lemma FogIsCloudy()
    ensures WeatherCondition(45) == Cloudy && WeatherDescription(45) == "Foggy"
    ensures WeatherCondition(48) == Cloudy && WeatherDescription(48) == "Depositing rime fog"
  {
  }
}
