/** The page checks of js/ui.js that decide whether a scrape may start on the active tab's URL. */
module PageValidation {
  import opened Text

  datatype Validation = Valid | Invalid(error: string)

  const SwitchTabError := "Switch to the Google Maps tab first."
  const NotMapsError := "Not a Google Maps search page."
  const NotSearchError := "Open a restaurants search page first - search for restaurants in Google Maps."
  const NotPlaceError := "Open a restaurant page first."

  predicate IsWebUrl(url: string) {
    StartsWith(url, "http://") || StartsWith(url, "https://")
  }

  predicate IsMapsUrl(url: string) {
    Contains(url, "google.com/maps") || Contains(url, "google.co.jp/maps")
  }

  predicate IsPlaceUrl(url: string) { Contains(url, "/maps/place/") }

  predicate LooksLikeSearch(url: string) {
    Contains(url, "/search/") || Contains(url, "search?") || Contains(url, "data=")
  }

  /** `validateGoogleMapsPage`: a web URL on one of the two Google Maps hosts; the scheme is checked first. */
  function ValidateGoogleMapsPage(url: string): (r: Validation)
    ensures r.Valid? <==> IsWebUrl(url) && IsMapsUrl(url)
    ensures !IsWebUrl(url) ==> r == Invalid(SwitchTabError)
    ensures IsWebUrl(url) && !IsMapsUrl(url) ==> r == Invalid(NotMapsError)
  {
    if !IsWebUrl(url) then Invalid(SwitchTabError)
    else if !IsMapsUrl(url) then Invalid(NotMapsError)
    else Valid
  }

  /** `validateRestaurantSearchPage`: a Google Maps page that is not a place page and looks like a search. */
  function ValidateRestaurantSearchPage(url: string): (r: Validation)
    ensures r.Valid? <==> IsWebUrl(url) && IsMapsUrl(url) && !IsPlaceUrl(url) && LooksLikeSearch(url)
    ensures ValidateGoogleMapsPage(url).Invalid? ==> r == ValidateGoogleMapsPage(url)
    ensures ValidateGoogleMapsPage(url).Valid? && r.Invalid? ==> r.error == NotSearchError
  {
    var basic := ValidateGoogleMapsPage(url);
    if basic.Invalid? then basic
    else if IsPlaceUrl(url) || !LooksLikeSearch(url) then Invalid(NotSearchError)
    else Valid
  }

  /** `validateRestaurantPage`: a Google Maps place page. */
  function ValidateRestaurantPage(url: string): (r: Validation)
    ensures r.Valid? <==> IsWebUrl(url) && IsMapsUrl(url) && IsPlaceUrl(url)
    ensures ValidateGoogleMapsPage(url).Invalid? ==> r == ValidateGoogleMapsPage(url)
    ensures ValidateGoogleMapsPage(url).Valid? && r.Invalid? ==> r.error == NotPlaceError
  {
    var basic := ValidateGoogleMapsPage(url);
    if basic.Invalid? then basic
    else if !IsPlaceUrl(url) then Invalid(NotPlaceError)
    else Valid
  }

  /** No URL passes both the search-page and the place-page check. */
  lemma SearchAndPlaceExclusive(url: string)
    ensures !(ValidateRestaurantSearchPage(url).Valid? && ValidateRestaurantPage(url).Valid?)
  {
  }

  /** Every failing check names one of the four messages, and the scheme message only for a non-web URL. */
  lemma ValidationErrors(url: string)
    ensures ValidateRestaurantSearchPage(url).Invalid? ==>
      ValidateRestaurantSearchPage(url).error in {SwitchTabError, NotMapsError, NotSearchError}
    ensures ValidateRestaurantPage(url).Invalid? ==>
      ValidateRestaurantPage(url).error in {SwitchTabError, NotMapsError, NotPlaceError}
    ensures ValidateRestaurantPage(url) == Invalid(SwitchTabError) <==> !IsWebUrl(url)
  {
    assert SwitchTabError != NotMapsError && SwitchTabError != NotPlaceError;
  }
}
