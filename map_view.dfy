/** The part of the map view's construction that does not call into the map
    SDK: reading the MapTiler key and building the style URL from it. The key
    lookup in the app's Info.plist is an input here. */
module MapViewSetup {
  import opened Wrappers

  /** The MapTiler "outdoor" style endpoint; the key is appended after `key=`. */
  const StyleUrlPrefix: string := "https://api.maptiler.com/maps/outdoor/style.json?key="

  /** Why no map view can be built. */
  datatype SetupError = MissingMapTilerKey

  /** The style URL string the map view is created with, or the fatal
      precondition failure when the key is absent. The key is interpolated
      verbatim: no escaping, no trimming, an empty key allowed. */
  function StyleUrl(mapTilerKey: Option<string>): (r: Result<string, SetupError>)
    ensures r.Failure? <==> mapTilerKey.None?
    ensures r.Failure? ==> r.error == MissingMapTilerKey
    ensures r.Success? ==>
      |r.value| == |StyleUrlPrefix| + |mapTilerKey.value| &&
      r.value[..|StyleUrlPrefix|] == StyleUrlPrefix &&
      r.value[|StyleUrlPrefix|..] == mapTilerKey.value
  {
    match mapTilerKey
    case None => Failure(MissingMapTilerKey)
    case Some(key) => Success(StyleUrlPrefix + key)
  }

  /** The key a style URL carries, if the URL has the MapTiler style shape. */
  function KeyOfStyleUrl(url: string): (k: Option<string>)
    ensures k.Some? <==> StyleUrlPrefix <= url
    ensures k.Some? ==> url == StyleUrlPrefix + k.value
  {
    if StyleUrlPrefix <= url then Some(url[|StyleUrlPrefix|..]) else None
  }

  /** Reading the key back out of a built URL gives the key that went in. */
  lemma KeyRoundTrip(key: string)
    ensures StyleUrl(Some(key)).Success?
    ensures KeyOfStyleUrl(StyleUrl(Some(key)).value) == Some(key)
  {
    var url := StyleUrlPrefix + key;
    assert url[..|StyleUrlPrefix|] == StyleUrlPrefix;
    assert url[|StyleUrlPrefix|..] == key;
  }

  /** Distinct keys give distinct style URLs. */
  lemma StyleUrlInjective(k1: string, k2: string)
    requires StyleUrl(Some(k1)) == StyleUrl(Some(k2))
    ensures k1 == k2
  {
    KeyRoundTrip(k1);
    KeyRoundTrip(k2);
  }

  /** Every URL the map view can be built with has the MapTiler style shape. */
  lemma EveryStyleUrlHasPrefix(mapTilerKey: Option<string>)
    requires StyleUrl(mapTilerKey).Success?
    ensures StyleUrlPrefix <= StyleUrl(mapTilerKey).value
    ensures KeyOfStyleUrl(StyleUrl(mapTilerKey).value) == mapTilerKey
  {
    KeyRoundTrip(mapTilerKey.value);
  }
}
