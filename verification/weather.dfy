/**
 * The weather page (app/code/1300/page.tsx): the mapping from WMO weather codes to a short
 * symbol and a description, the vertical label used on narrow screens, and the guard and
 * outcomes of the location search. The geocoding request itself is a parameter.
 */
module Weather {
  import opened Options
  import opened Strings

  /** `weatherCodeToSymbol`: the first upper bound the code does not exceed decides. */
  function Symbol(code: int): string
  {
    if code == 0 then "\\O/"
    else if code <= 3 then "( )"
    else if code <= 48 then "\U{2261}\U{2261}\U{2261}"
    else if code <= 67 then "\U{2506}\U{2506}\U{2506}"
    else if code <= 77 then "***"
    else if code <= 82 then "\U{2506}\U{2022}\U{2506}"
    else if code <= 86 then "*\U{2022}*"
    else if code <= 99 then "\U{26A1}\U{FE0E}"
    else "(?)"
  }

  /** `weatherCodeToDescription`, with the same bounds. */
  function Description(code: int): string
  {
    if code == 0 then "CLEAR SKY"
    else if code <= 3 then "PARTLY CLOUDY"
    else if code <= 48 then "FOG"
    else if code <= 67 then "RAIN"
    else if code <= 77 then "SNOW"
    else if code <= 82 then "RAIN SHOWERS"
    else if code <= 86 then "SNOW SHOWERS"
    else if code <= 99 then "THUNDERSTORM"
    else "UNKNOWN"
  }

  /** The weather bands, as closed ranges of codes. */
  datatype Band = ClearSky | PartlyCloudy | Fog | Rain | Snow | RainShowers | SnowShowers | Thunderstorm | Unknown

  /** The band of a code, stated by range rather than by a chain of tests. Codes below 0
      fall in the partly-cloudy band because its test only bounds the code from above. */
  function BandOf(code: int): (b: Band)
    ensures b == ClearSky <==> code == 0
    ensures b == PartlyCloudy <==> code < 0 || 1 <= code <= 3
    ensures b == Fog <==> 4 <= code <= 48
    ensures b == Rain <==> 49 <= code <= 67
    ensures b == Snow <==> 68 <= code <= 77
    ensures b == RainShowers <==> 78 <= code <= 82
    ensures b == SnowShowers <==> 83 <= code <= 86
    ensures b == Thunderstorm <==> 87 <= code <= 99
    ensures b == Unknown <==> code > 99
  {
    if code == 0 then ClearSky
    else if code < 0 || code <= 3 then PartlyCloudy
    else if code <= 48 then Fog
    else if code <= 67 then Rain
    else if code <= 77 then Snow
    else if code <= 82 then RainShowers
    else if code <= 86 then SnowShowers
    else if code <= 99 then Thunderstorm
    else Unknown
  }

  function BandSymbol(b: Band): string
  {
    match b
    case ClearSky => "\\O/"
    case PartlyCloudy => "( )"
    case Fog => "\U{2261}\U{2261}\U{2261}"
    case Rain => "\U{2506}\U{2506}\U{2506}"
    case Snow => "***"
    case RainShowers => "\U{2506}\U{2022}\U{2506}"
    case SnowShowers => "*\U{2022}*"
    case Thunderstorm => "\U{26A1}\U{FE0E}"
    case Unknown => "(?)"
  }

  function BandDescription(b: Band): string
  {
    match b
    case ClearSky => "CLEAR SKY"
    case PartlyCloudy => "PARTLY CLOUDY"
    case Fog => "FOG"
    case Rain => "RAIN"
    case Snow => "SNOW"
    case RainShowers => "RAIN SHOWERS"
    case SnowShowers => "SNOW SHOWERS"
    case Thunderstorm => "THUNDERSTORM"
    case Unknown => "UNKNOWN"
  }

  /** Both functions pick the band the ranges give. */
  lemma ChainsFollowBands(code: int)
    ensures Symbol(code) == BandSymbol(BandOf(code))
    ensures Description(code) == BandDescription(BandOf(code))
  {
  }

  /** The symbol and the description always name the same band: two codes share a symbol
      exactly when they share a description. */
  lemma SymbolAgreesWithDescription(a: int, b: int)
    ensures Symbol(a) == Symbol(b) <==> Description(a) == Description(b)
  {
    ChainsFollowBands(a);
    ChainsFollowBands(b);
    BandNamesDistinct(BandOf(a), BandOf(b));
  }

  /** Different bands have different symbols and different descriptions. */
  lemma BandNamesDistinct(x: Band, y: Band)
    ensures BandSymbol(x) == BandSymbol(y) <==> x == y
    ensures BandDescription(x) == BandDescription(y) <==> x == y
  {
    if x != y {
      assert BandSymbol(x)[..1] != BandSymbol(y)[..1] || |BandSymbol(x)| != |BandSymbol(y)|
          || BandSymbol(x)[1..] != BandSymbol(y)[1..];
      assert BandDescription(x)[0] != BandDescription(y)[0] || |BandDescription(x)| != |BandDescription(y)|;
    }
  }

  /** `VerticalText`: one character per line, spaces shown as dots. */
  function VerticalText(text: string): (r: seq<char>)
    ensures |r| == |text|
    ensures forall i :: 0 <= i < |text| ==> r[i] == (if text[i] == ' ' then '.' else text[i])
    ensures ' ' !in r
  {
    seq(|text|, i requires 0 <= i < |text| => if text[i] == ' ' then '.' else text[i])
  }

  /** A geocoding match. */
  datatype Place = Place(name: string, latitude: real, longitude: real, country: string)

  /** The geocoding service's answer: the request failed, or the list of matches, which the
      service may leave out. */
  datatype GeoAnswer = GeoFailed | GeoResults(results: Option<seq<Place>>)

  datatype SearchState = SearchState(error: Option<string>, coords: Option<(real, real)>, searched: Option<string>)

  /** `handleSearch`: a blank location is refused before any request. A failed request, or
      an answer without matches, sets an error and keeps the previous place; otherwise the
      first match becomes the place shown, named "name, country". */
  function Search(st: SearchState, location: string, geo: GeoAnswer): (r: SearchState)
    ensures IsBlank(location) ==> r == st.(error := Some("ENTER A LOCATION"))
    ensures !IsBlank(location) && geo.GeoFailed? ==> r == st.(error := Some("SEARCH FAILED"))
    ensures !IsBlank(location) && geo.GeoResults? && (geo.results.None? || geo.results.value == []) ==>
              r == st.(error := Some("LOCATION NOT FOUND"))
    ensures !IsBlank(location) && geo.GeoResults? && geo.results.Some? && geo.results.value != [] ==>
              var p := geo.results.value[0];
              r == SearchState(None, Some((p.latitude, p.longitude)), Some(p.name + ", " + p.country))
  {
    if Trim(location) == "" then st.(error := Some("ENTER A LOCATION"))
    else match geo
      case GeoFailed => st.(error := Some("SEARCH FAILED"))
      case GeoResults(rs) =>
        if rs.None? || |rs.value| == 0 then st.(error := Some("LOCATION NOT FOUND"))
        else
          var p := rs.value[0];
          SearchState(None, Some((p.latitude, p.longitude)), Some(p.name + ", " + p.country))
  }

  /** A location of spaces only never reaches the geocoder. */
  lemma SpacesAreBlank(n: nat, st: SearchState, geo: GeoAnswer)
    ensures Search(st, seq(n, i => ' '), geo).error == Some("ENTER A LOCATION")
  {
    BlankIffAllSpace(seq(n, i => ' '));
  }
}
