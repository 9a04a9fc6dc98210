/** Request construction: which AjaxPro endpoint a crawler posts to, and the
    JSON body that asks for one draw. */
module RequestBuilder {
  import opened Draws

  /** A JSON value, as `json.dumps` writes it and `response.json()` reads it.
      An object keeps its members in order. */
  datatype Json =
    | JNull
    | JBool(b: bool)
    | JNumber(n: int)
    | JString(s: string)
    | JArray(items: seq<Json>)
    | JObject(members: seq<(string, Json)>)

  /** `obj.get(key)`: the value of the last member named `key` (a decoded
      object keeps the last of repeated names). */
  function Get(members: seq<(string, Json)>, key: string): (r: Option<Json>)
    ensures r.Some? <==> exists k :: 0 <= k < |members| && members[k].0 == key
    ensures r.Some? ==>
      exists k :: (0 <= k < |members| && members[k] == (key, r.value) &&
        forall j :: k < j < |members| ==> members[j].0 != key)
  {
    if members == [] then None
    else if members[|members| - 1].0 == key then Some(members[|members| - 1].1)
    else Get(members[..|members| - 1], key)
  }

  // ---- endpoint selection ----

  const AjaxBase := "https://vietlott.vn/ajaxpro/Vietlott.PlugIn.WebParts."
  const DetailMarker := "ResultDetail"
  const WebPartSuffix := "WebPart,Vietlott.PlugIn.WebParts.ashx"

  /** The result-detail web part of one game. */
  function DetailUrl(game: string): string {
    AjaxBase + game + DetailMarker + WebPartSuffix
  }

  /** `ENDPOINTS.get(code)`: the built-in endpoint of a product short code. */
  function BuiltinEndpoint(smsCode: string): Option<string> {
    if smsCode == "645" then Some(DetailUrl("Game645"))
    else if smsCode == "655" then Some(DetailUrl("Game655"))
    else if smsCode == "3D" then Some(DetailUrl("GameMax3D"))
    else if smsCode == "3DPRO" then Some(DetailUrl("GameMax3DPro"))
    else if smsCode == "535" then Some(DetailUrl("Game535"))
    else if smsCode == "KENO" then Some(DetailUrl("GameKeno"))
    else None
  }

  /** The key every product sends. */
  const SharedKey := "23bbd667"

  predicate StartsWith(s: string, prefix: string) {
    |prefix| <= |s| && s[..|prefix|] == prefix
  }

  /** Python's `sub in s` on strings. */
  predicate Contains(s: string, sub: string)
    decreases |s|
  {
    StartsWith(s, sub) || (s != [] && Contains(s[1..], sub))
  }

  /** An occurrence at a known position makes `sub in s` true. */
  lemma {:induction false} ContainsAt(s: string, sub: string, i: nat)
    requires i + |sub| <= |s| && s[i..i + |sub|] == sub
    ensures Contains(s, sub)
    decreases i
  {
    if i > 0 {
      assert s[1..][i - 1..i - 1 + |sub|] == sub;
      ContainsAt(s[1..], sub, i - 1);
    }
  }

  lemma DetailUrlIsDetail(game: string)
    ensures Contains(DetailUrl(game), DetailMarker)
  {
    var u := DetailUrl(game);
    var i := |AjaxBase| + |game|;
    assert u[i..i + |DetailMarker|] == DetailMarker;
    ContainsAt(u, DetailMarker, i);
  }

  /** The endpoint a crawler posts to: the product's own url when it names a
      result-detail web part, otherwise the built-in endpoint of its short
      code, and the 6/45 endpoint for an unknown code. Whatever the
      settings, the endpoint is a result-detail web part. */
  function SelectEndpoint(url: string, smsCode: string): (e: string)
    ensures Contains(e, DetailMarker)
    ensures e == url <==> Contains(url, DetailMarker)
    ensures !Contains(url, DetailMarker) && BuiltinEndpoint(smsCode).Some? ==> e == BuiltinEndpoint(smsCode).value
    ensures !Contains(url, DetailMarker) && BuiltinEndpoint(smsCode).None? ==> e == DetailUrl("Game645")
  {
    if Contains(url, DetailMarker) then url
    else
      var e := match BuiltinEndpoint(smsCode)
        case Some(builtin) => builtin
        case None => DetailUrl("Game645");
      assert exists g :: e == DetailUrl(g);
      var g :| e == DetailUrl(g);
      DetailUrlIsDetail(g);
      e
  }

  // ---- request body ----

  /** The fixed `ORenderInfo` site identity sent with every request. */
  const RenderInfo: Json := JObject([
    ("SiteId", JString("main.frontend.vi")),
    ("SiteAlias", JString("main.vi")),
    ("UserSessionId", JString("")),
    ("SiteLang", JString("vi")),
    ("IsPageDesign", JBool(false)),
    ("ExtraParam1", JString("")),
    ("ExtraParam2", JString("")),
    ("ExtraParam3", JString("")),
    ("SiteURL", JString("")),
    ("WebPage", JNull),
    ("SiteName", JString("Vietlott")),
    ("OrgPageAlias", JNull),
    ("PageAlias", JNull),
    ("RefKey", JNull),
    ("FullPageAlias", JNull)
  ])

  /** The body that asks for draw `drawId` ("" for the latest draw). Reading
      it back gives the site identity, the key and the cursor it was built
      from, and it has no other members. */
  function BuildRequestBody(key: string, drawId: string): (body: Json)
    ensures body.JObject? && |body.members| == 3
    ensures Get(body.members, "ORenderInfo") == Some(RenderInfo)
    ensures Get(body.members, "Key") == Some(JString(key))
    ensures Get(body.members, "DrawId") == Some(JString(drawId))
  {
    var members := [("ORenderInfo", RenderInfo), ("Key", JString(key)), ("DrawId", JString(drawId))];
    assert |"DrawId"| != |"ORenderInfo"| && |"Key"| != |"ORenderInfo"| && |"Key"| != |"DrawId"|;
    assert members[..2][..1] == members[..1];
    assert Get(members[..1], "ORenderInfo") == Some(RenderInfo);
    assert Get(members[..2], "ORenderInfo") == Some(RenderInfo);
    JObject(members)
  }

  /** Two bodies built with one key are equal exactly when they ask for the
      same cursor. */
  lemma RequestBodyDeterminesCursor(key: string, a: string, b: string)
    ensures BuildRequestBody(key, a) == BuildRequestBody(key, b) <==> a == b
  {
    if BuildRequestBody(key, a) == BuildRequestBody(key, b) {
      assert Get(BuildRequestBody(key, a).members, "DrawId") == Some(JString(a));
    }
  }

  /** The state a crawler fixes when it is created. */
  datatype Crawler = Crawler(config: LotteryConfig, endpoint: string, key: string)

  function NewCrawler(config: LotteryConfig): (c: Crawler)
    ensures c.config == config && c.key == SharedKey
    ensures c.endpoint == SelectEndpoint(config.url, config.smsCode)
    ensures Contains(c.endpoint, DetailMarker)
  {
    Crawler(config, SelectEndpoint(config.url, config.smsCode), SharedKey)
  }
}
