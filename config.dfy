/**
 * The settings store of js/config.js: a keyed record created with fixed defaults, read as a copy,
 * updated one existing key at a time, reset, and refreshed from the popup form. The popup's own
 * global settings object (popup.js) is modelled in the same terms.
 */
module Settings {

  /** A setting's value: a number, the NaN `parseInt` gives for non-numeric input, or a string. */
  datatype Setting = Num(n: real) | NaN | Text(s: string)

  const MaxReviews := "MAX_REVIEWS"
  const ScrollTimeout := "SCROLL_TIMEOUT"
  const NoChangeLimit := "NO_CHANGE_LIMIT"
  const BatchSize := "BATCH_SIZE"
  const IntersectionThreshold := "INTERSECTION_THRESHOLD"
  const ReviewSort := "REVIEW_SORT"
  const MaxRestaurants := "MAX_RESTAURANTS"
  const RestaurantScrollTimeout := "RESTAURANT_SCROLL_TIMEOUT"
  const MaxScrollAttempts := "MAX_SCROLL_ATTEMPTS"
  const RestaurantScrollDelay := "RESTAURANT_SCROLL_DELAY"
  const MaxNoChange := "MAX_NO_CHANGE"

  /** The values the constructor and `reset` install. */
  function Defaults(): map<string, Setting> {
    map[
      MaxReviews := Num(2000.0),
      ScrollTimeout := Num(800.0),
      NoChangeLimit := Num(15.0),
      BatchSize := Num(50.0),
      IntersectionThreshold := Num(0.1),
      ReviewSort := Text("most-relevant"),
      MaxRestaurants := Num(2000.0),
      RestaurantScrollTimeout := Num(800.0),
      MaxScrollAttempts := Num(50.0),
      RestaurantScrollDelay := Num(600.0),
      MaxNoChange := Num(3.0)
    ]
  }

  /** The `speeds` table with its `|| 800` fallback: the scroll delay in milliseconds for a speed name. */
  function SpeedDelay(speed: string): (ms: int)
    ensures ms in {600, 800, 1200}
    ensures ms == 600 <==> speed == "fast"
    ensures ms == 1200 <==> speed == "slow"
  {
    if speed == "fast" then 600
    else if speed == "normal" then 800
    else if speed == "slow" then 1200
    else 800
  }

  /** The raw values of the popup form controls; an absent control reads as "". */
  datatype UiForm = UiForm(
    maxReviews: string,
    scrollSpeed: string,
    reviewSort: string,
    maxRestaurants: string,
    restaurantScrollSpeed: string)

  /** The settings after `syncFromUI`; `parseInt` is the host's integer parser. */
  function Synced(s: map<string, Setting>, ui: UiForm, parseInt: string -> Setting): map<string, Setting> {
    var s1 := if ui.maxReviews != "" then s[MaxReviews := parseInt(ui.maxReviews)] else s;
    var s2 := if ui.scrollSpeed != "" then s1[ScrollTimeout := Num(SpeedDelay(ui.scrollSpeed) as real)] else s1;
    var s3 := if ui.reviewSort != "" then s2[ReviewSort := Text(ui.reviewSort)] else s2;
    var s4 := if ui.maxRestaurants != "" then s3[MaxRestaurants := parseInt(ui.maxRestaurants)] else s3;
    if ui.restaurantScrollSpeed != "" then
      var ms := Num(SpeedDelay(ui.restaurantScrollSpeed) as real);
      s4[RestaurantScrollTimeout := ms][RestaurantScrollDelay := ms]
    else s4
  }

  /**
   * What `syncFromUI` does to each key: an empty control leaves its setting as it was, a filled one
   * writes it, the restaurant speed writes both restaurant timings with the same value, and every
   * other key and the key set are untouched.
   */
  lemma SyncedEffects(s: map<string, Setting>, ui: UiForm, parseInt: string -> Setting)
    requires s.Keys == Defaults().Keys
    ensures var r := Synced(s, ui, parseInt);
      && r.Keys == s.Keys
      && r[MaxReviews] == (if ui.maxReviews == "" then s[MaxReviews] else parseInt(ui.maxReviews))
      && r[ScrollTimeout] == (if ui.scrollSpeed == "" then s[ScrollTimeout] else Num(SpeedDelay(ui.scrollSpeed) as real))
      && r[ReviewSort] == (if ui.reviewSort == "" then s[ReviewSort] else Text(ui.reviewSort))
      && r[MaxRestaurants] == (if ui.maxRestaurants == "" then s[MaxRestaurants] else parseInt(ui.maxRestaurants))
      && r[RestaurantScrollTimeout] == (if ui.restaurantScrollSpeed == "" then s[RestaurantScrollTimeout] else Num(SpeedDelay(ui.restaurantScrollSpeed) as real))
      && r[RestaurantScrollDelay] == (if ui.restaurantScrollSpeed == "" then s[RestaurantScrollDelay] else Num(SpeedDelay(ui.restaurantScrollSpeed) as real))
      && forall k | k in s && k !in {MaxReviews, ScrollTimeout, ReviewSort, MaxRestaurants, RestaurantScrollTimeout, RestaurantScrollDelay} :: r[k] == s[k]
  {
    assert MaxReviews != ScrollTimeout && MaxReviews != ReviewSort && MaxReviews != MaxRestaurants;
    assert ScrollTimeout != ReviewSort && ScrollTimeout != MaxRestaurants;
    assert ReviewSort != MaxRestaurants;
    assert RestaurantScrollTimeout !in {MaxReviews, ScrollTimeout, ReviewSort, MaxRestaurants};
    assert RestaurantScrollDelay !in {MaxReviews, ScrollTimeout, ReviewSort, MaxRestaurants, RestaurantScrollTimeout};
  }

  /** `Config`: the settings record of js/config.js. */
  class Config {
    var settings: map<string, Setting>

    /** The key set is fixed at construction: `set` never adds, `reset` and `syncFromUI` write known keys. */
    predicate Valid()
      reads this
    {
      settings.Keys == Defaults().Keys
    }

    constructor ()
      ensures Valid() && settings == Defaults()
    {
      settings := Defaults();
    }

    /** `get`: a copy of the settings. */
    method Get() returns (copy: map<string, Setting>)
      ensures copy == settings
    {
      copy := settings;
    }

    /** `set`: writes `value` under `key` when the key already exists, and otherwise does nothing. */
    method Set(key: string, value: Setting)
      requires Valid()
      modifies this
      ensures Valid()
      ensures key in old(settings) ==> settings == old(settings)[key := value]
      ensures key !in old(settings) ==> settings == old(settings)
      ensures forall k | k in settings && k != key :: settings[k] == old(settings)[k]
    {
      if key in settings {
        settings := settings[key := value];
      }
    }

    /** `reset`: back to exactly the constructor's defaults. */
    method Reset()
      modifies this
      ensures Valid() && settings == Defaults()
    {
      settings := Defaults();
    }

    /** `syncFromUI`, given the form's raw values and the host's `parseInt`. */
    method SyncFromUI(ui: UiForm, parseInt: string -> Setting)
      requires Valid()
      modifies this
      ensures Valid()
      ensures settings == Synced(old(settings), ui, parseInt)
    {
      SyncedEffects(settings, ui, parseInt);
      settings := Synced(settings, ui, parseInt);
    }
  }

  /** A copy taken by `get` keeps the values it had when `set` later changes the store. */
  method SnapshotUnaffectedBySet(config: Config, key: string, value: Setting) returns (snapshot: map<string, Setting>)
    requires config.Valid()
    modifies config
    ensures snapshot == old(config.settings)
    ensures config.Valid()
  {
    snapshot := config.Get();
    config.Set(key, value);
  }

  /** The popup's global settings (popup.js): the same keys minus `REVIEW_SORT`. */
  function PopupDefaults(): map<string, Setting> {
    Defaults() - {ReviewSort}
  }

  /** `syncConfig`: the same updates as `syncFromUI`, without the review-sort control. */
  function PopupSynced(s: map<string, Setting>, ui: UiForm, parseInt: string -> Setting): map<string, Setting> {
    Synced(s, ui.(reviewSort := ""), parseInt)
  }

  /** `syncConfig` never introduces `REVIEW_SORT` and keeps the popup's key set. */
  lemma PopupSyncedKeys(s: map<string, Setting>, ui: UiForm, parseInt: string -> Setting)
    requires s.Keys == PopupDefaults().Keys
    ensures PopupSynced(s, ui, parseInt).Keys == s.Keys
    ensures ReviewSort !in PopupSynced(s, ui, parseInt)
  {
    assert ReviewSort !in s;
    assert MaxReviews in s && ScrollTimeout in s && MaxRestaurants in s;
    assert RestaurantScrollTimeout in s && RestaurantScrollDelay in s;
  }

  /** `CONFIG` of popup.js, updated in place by `syncConfig`. */
  class PopupConfig {
    var settings: map<string, Setting>

    predicate Valid()
      reads this
    {
      settings.Keys == PopupDefaults().Keys
    }

    constructor ()
      ensures Valid() && settings == PopupDefaults()
    {
      settings := PopupDefaults();
    }

    method SyncConfig(ui: UiForm, parseInt: string -> Setting)
      requires Valid()
      modifies this
      ensures Valid()
      ensures settings == PopupSynced(old(settings), ui, parseInt)
    {
      PopupSyncedKeys(settings, ui, parseInt);
      settings := PopupSynced(settings, ui, parseInt);
    }
  }
}
