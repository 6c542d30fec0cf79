/** The request URLs `get_asset` builds (src/main.rs:25-37): the latest version of an
    asset, or one numbered version of it. The HTTP request itself is not modelled. */
module AssetUrl {
  import opened Wrappers
  import opened Decimal

  const Endpoint: string := "https://assetdelivery.roblox.com/v2/asset?id="
  const VersionParam: string := "&version="

  /** Asking for a specific version without a number: the `version.unwrap()` panic. */
  datatype UrlError = MissingVersion

  /** `get_asset`'s URL: the `latest` flag decides, and a version number given together
      with `latest` is ignored. */
  function GetAssetUrl(assetId: nat, version: Option<nat>, latest: bool): Result<string, UrlError> {
    if latest then Ok(Endpoint + ToDecimal(assetId))
    else
      match version
      case None => Err(MissingVersion)
      case Some(v) => Ok(Endpoint + ToDecimal(assetId) + VersionParam + ToDecimal(v))
  }

  /** The version a call of `get_asset` asks for: `None` for the latest one. */
  function Requested(version: Option<nat>, latest: bool): Option<nat> {
    if latest then None else version
  }

  /** The three cases of the URL builder, with the address written out. */
  lemma UrlCases(assetId: nat, version: Option<nat>, latest: bool)
    ensures latest ==>
      GetAssetUrl(assetId, version, latest)
      == Ok("https://assetdelivery.roblox.com/v2/asset?id=" + ToDecimal(assetId))
    ensures !latest && version.Some? ==>
      GetAssetUrl(assetId, version, latest)
      == Ok("https://assetdelivery.roblox.com/v2/asset?id=" + ToDecimal(assetId)
            + "&version=" + ToDecimal(version.value))
    ensures GetAssetUrl(assetId, version, latest).Err? <==> !latest && version.None?
  {
  }

  /** A specific version's URL is the latest-version URL with the version parameter
      appended. */
  lemma VersionUrlExtendsLatest(assetId: nat, v: nat)
    ensures GetAssetUrl(assetId, Some(v), false).Ok?
    ensures GetAssetUrl(assetId, Some(v), false).value
         == GetAssetUrl(assetId, None, true).value + "&version=" + ToDecimal(v)
  {
  }

  /** Reads an asset URL back into the asset id and the requested version. */
  function ParseAssetUrl(url: string): Option<(nat, Option<nat>)> {
    var n := |Endpoint|;
    if |url| < n || url[..n] != Endpoint then None
    else
      var rest := url[n..];
      var d := LeadingDigits(rest);
      var after := rest[d..];
      var m := |VersionParam|;
      if d == 0 then None
      else if after == [] then Some((ValueOf(rest[..d]), None))
      else if |after| <= m || after[..m] != VersionParam || !AllDigits(after[m..]) then None
      else Some((ValueOf(rest[..d]), Some(ValueOf(after[m..]))))
  }

  /** Every URL the builder produces names its asset and requested version
      unambiguously. */
  lemma UrlRoundTrip(assetId: nat, version: Option<nat>, latest: bool)
    requires GetAssetUrl(assetId, version, latest).Ok?
    ensures ParseAssetUrl(GetAssetUrl(assetId, version, latest).value)
         == Some((assetId, Requested(version, latest)))
  {
    var url := GetAssetUrl(assetId, version, latest).value;
    var digits := ToDecimal(assetId);
    var n := |Endpoint|;
    var tail := if latest then [] else VersionParam + ToDecimal(version.value);
    assert url == Endpoint + (digits + tail);
    assert url[..n] == Endpoint;
    var rest := url[n..];
    assert rest == digits + tail;
    LeadingDigitsOfDecimal(digits, tail);
    assert rest[..|digits|] == digits;
    assert rest[|digits|..] == tail;
    ValueOfToDecimal(assetId);
    if !latest {
      assert tail[..|VersionParam|] == VersionParam;
      assert tail[|VersionParam|..] == ToDecimal(version.value);
      ValueOfToDecimal(version.value);
    }
  }

  /** Two requests that ask for different assets or different versions never share a
      URL. */
  lemma UrlInjective(a: nat, v: Option<nat>, l: bool, b: nat, w: Option<nat>, m: bool)
    requires GetAssetUrl(a, v, l).Ok? && GetAssetUrl(b, w, m).Ok?
    requires GetAssetUrl(a, v, l).value == GetAssetUrl(b, w, m).value
    ensures a == b && Requested(v, l) == Requested(w, m)
  {
    UrlRoundTrip(a, v, l);
    UrlRoundTrip(b, w, m);
  }
}
