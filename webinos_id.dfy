/** fetchWebinosName: the name a personal zone entity gives itself. The
    machine's host name is a parameter; the branch that asks an Android
    device for its identity is not modelled. */
module WebinosId {
  import opened Wrappers
  import opened JsonValue

  /** `s.search(pat) !== -1` for a pattern without special characters. */
  predicate ContainsText(s: string, pat: string) {
    exists i :: 0 <= i <= |s| && MatchesAt(s, pat, i)
  }

  /** pat occurs in s at position i. */
  predicate MatchesAt(s: string, pat: string, i: nat) {
    i + |pat| <= |s| && s[i..i + |pat|] == pat
  }

  /** `s.substring(0, n)`: the first n characters, or all of a shorter s. */
  function FirstChars(s: string, n: nat): (r: string)
    ensures |r| <= n && r <= s
    ensures |s| <= n ==> r == s
  {
    if |s| <= n then s else s[..n]
  }

  /** The name handed to the callback, None when the callback is not called,
      or Throws when a forced device name that is not a string is cut. */
  function FetchWebinosName(ty: string, config: Json, hostname: string): (r: Result<Option<Json>>)
    ensures r == Ok(None) <==>
              Forced(config).None? && !ContainsText(ty, "Pzp") && !ContainsText(ty, "PzhP") && !ContainsText(ty, "Pzh")
  {
    var forced := Forced(config);
    if forced.Some? then
      (if forced.value.JStr? then Ok(Some(JStr(FirstChars(forced.value.s, 34)))) else Throws("TypeError"))
    else if ContainsText(ty, "Pzp") then Ok(Some(JStr(FirstChars(hostname, 34))))
    else if ContainsText(ty, "PzhP") then Ok(Some(JStr(FirstChars(hostname, 33))))
    else if ContainsText(ty, "Pzh") then
      Ok(Some(if Truthy(config) && TruthyOpt(Field(config, "friendlyName")) then config.fields["friendlyName"]
              else JStr("defaultPzh")))
    else Ok(None)
  }

  /** `config.forcedDeviceName` when config and it are truthy. */
  function Forced(config: Json): (f: Option<Json>)
    ensures f.Some? ==> Truthy(f.value)
  {
    var v := Field(config, "forcedDeviceName");
    if Truthy(config) && TruthyOpt(v) then v else None
  }

  /** A truthy forced device name wins over the type and the host name: its
      first 34 characters, or a TypeError when it is not a string. */
  lemma ForcedNameWins(ty: string, config: Json, hostname: string)
    requires Forced(config).Some?
    ensures Forced(config).value.JStr? ==>
              var name := Forced(config).value.s;
              && FetchWebinosName(ty, config, hostname).Ok?
              && var got := FetchWebinosName(ty, config, hostname).value;
              && got.Some? && got.value.JStr? && got.value.s <= name && |got.value.s| == Min(|name|, 34)
    ensures !Forced(config).value.JStr? ==> FetchWebinosName(ty, config, hostname).Throws?
  {
  }

  function Min(a: nat, b: nat): nat {
    if a <= b then a else b
  }

  /** Without a forced name, a hub's or a device's name is a prefix of the
      host name: 34 characters for a type containing "Pzp", otherwise 33 for
      one containing "PzhP". */
  lemma HostNamePrefix(ty: string, config: Json, hostname: string)
    requires Forced(config).None? && (ContainsText(ty, "Pzp") || ContainsText(ty, "PzhP"))
    ensures var got := FetchWebinosName(ty, config, hostname);
            && got.Ok? && got.value.Some? && got.value.value.JStr?
            && got.value.value.s <= hostname
            && |got.value.value.s| == Min(|hostname|, if ContainsText(ty, "Pzp") then 34 else 33)
  {
  }

  /** A hub type gets its configured friendly name, untruncated, or
      "defaultPzh" when there is none. */
  lemma HubFriendlyName(ty: string, config: Json, hostname: string)
    requires Forced(config).None? && ContainsText(ty, "Pzh")
    requires !ContainsText(ty, "Pzp") && !ContainsText(ty, "PzhP")
    ensures config.JObj? && "friendlyName" in config.fields && Truthy(config.fields["friendlyName"]) ==>
              FetchWebinosName(ty, config, hostname) == Ok(Some(config.fields["friendlyName"]))
    ensures !(config.JObj? && "friendlyName" in config.fields && Truthy(config.fields["friendlyName"])) ==>
              FetchWebinosName(ty, config, hostname) == Ok(Some(JStr("defaultPzh")))
  {
  }

  /** "PzhP" contains "Pzh", so a type naming a hub's web server is caught by
      the "PzhP" branch before the hub's own. */
  lemma HubWebServerIsNotHub(ty: string, config: Json, hostname: string)
    requires Forced(config).None? && !ContainsText(ty, "Pzp") && ContainsText(ty, "PzhP")
    ensures ContainsText(ty, "Pzh")
    ensures FetchWebinosName(ty, config, hostname) == Ok(Some(JStr(FirstChars(hostname, 33))))
  {
    var i :| 0 <= i <= |ty| && MatchesAt(ty, "PzhP", i);
    assert ty[i..i + 3] == ty[i..i + 4][..3] == "Pzh";
    assert MatchesAt(ty, "Pzh", i);
  }
}
