/** The Steam OpenID return handler of app/api/auth/steam/callback/route.ts.
    `GET` reads `openid.claimed_id` and `callbackUrl` from the query, takes
    the Steam id from the claimed id, fetches the player's profile, and,
    for a signed-in user, stores the Steam data in the user's metadata. It
    always answers with a redirect.

    The handler trusts `openid.claimed_id` as it arrives: no assertion is
    verified with Steam, and the model does not pretend otherwise. The
    outcomes of the Steam Web API call, the session lookup and the metadata
    update are parameters. */
module SteamCallback {
  import opened Wrappers
  import Strings
  import UriEncoding

  const AccountPage: string := "/account"

  /** The fields of the first player the handler reads. */
  datatype Profile = Profile(personaname: Option<string>, avatarfull: Option<string>)

  /** What fetching the player summaries produced: the fetch threw, the
      response was not OK, its JSON could not be read, or the players list
      (empty when `response` or `players` is missing). */
  datatype ApiOutcome = FetchThrew | NotOk(status: int) | BadJson | Players(players: seq<Profile>)

  /** What `supabase.auth.getSession()` produced. */
  datatype SessionOutcome = SessionError | SessionThrew | NoSession | SignedIn(userId: string)

  /** What `supabase.auth.updateUser(...)` produced. */
  datatype UpdateOutcome = UpdateOk | UpdateError | UpdateThrew

  /** The metadata written by `updateUser`. */
  datatype SteamMetadata = SteamMetadata(
    steamId: string, steamUsername: Option<string>, steamAvatar: Option<string>, updatedAt: string)

  /** Where the handler sends the browser, before it is written as a URL. */
  datatype Target =
    | ErrorPage(code: string)
    | PendingLink(steamId: string, username: string)
    | Linked
    | Callback(url: string)

  /** The handler's decision and the metadata update it asked for, if any. */
  datatype Decision = Decision(target: Target, update: Option<SteamMetadata>)

  /** `callbackUrl`, or `/account` when it is absent or empty. */
  function CallbackUrl(param: Option<string>): (url: string)
    ensures param.Some? && param.value != "" ==> url == param.value
    ensures param.None? || param.value == "" ==> url == AccountPage
  {
    if param.Some? && param.value != "" then param.value else AccountPage
  }

  /** `claimedId.split('/').pop()`. */
  function SteamId(claimedId: string): (id: string)
    ensures Strings.IsTailAfterLast(claimedId, '/', id)
  {
    Strings.LastSegmentIsTail(claimedId, '/');
    Strings.LastSegment(claimedId, '/')
  }

  /** The claimed id yields a Steam id and the API key is set: the checks
      made before the profile is fetched all passed. */
  predicate ClaimChecked(claimedId: Option<string>, apiKey: Option<string>)
  {
    Present(claimedId) && SteamId(claimedId.value) != "" && Present(apiKey)
  }

  /** The handler's chain of checks, from the query parameters, the API key
      and the outcomes of the external calls to where it redirects.
      `callbackResolves` says whether `new URL(callbackUrl, request.url)`
      accepts the callback URL; when it does not, the constructor throws
      inside the handler's inner `try`, after the update was made. */
  function Decide(
    claimedId: Option<string>, callbackParam: Option<string>, apiKey: Option<string>,
    api: ApiOutcome, session: SessionOutcome, update: UpdateOutcome, callbackResolves: bool,
    now: string): (d: Decision)
    ensures !Present(claimedId) ==> d == Decision(ErrorPage("steam_auth_failed"), None)
    ensures Present(claimedId) && SteamId(claimedId.value) == "" ==>
              d == Decision(ErrorPage("invalid_steam_id"), None)
    ensures Present(claimedId) && SteamId(claimedId.value) != "" && !Present(apiKey) ==>
              d == Decision(ErrorPage("steam_api_configuration"), None)
    // Once the profile is fetched, each outcome of each call has its code.
    ensures ClaimChecked(claimedId, apiKey) && !api.Players? ==>
              d == Decision(ErrorPage("steam_api_error"), None)
    ensures ClaimChecked(claimedId, apiKey) && api.Players? && |api.players| == 0 ==>
              d == Decision(ErrorPage("steam_profile_not_found"), None)
    ensures ClaimChecked(claimedId, apiKey) && api.Players? && |api.players| > 0 ==>
              && (session.SessionError? ==> d == Decision(ErrorPage("auth_session_error"), None))
              && (session.SessionThrew? ==> d == Decision(ErrorPage("steam_api_error"), None))
              && (session.NoSession? ==>
                    d == Decision(PendingLink(SteamId(claimedId.value), api.players[0].personaname.GetOr("")), None))
    ensures ClaimChecked(claimedId, apiKey) && api.Players? && |api.players| > 0 && session.SignedIn? ==>
              && d.update == Some(SteamMetadata(SteamId(claimedId.value), api.players[0].personaname,
                                                api.players[0].avatarfull, now))
              && (update.UpdateError? ==> d.target == ErrorPage("steam_link_failed"))
              && (update.UpdateThrew? ==> d.target == ErrorPage("steam_api_error"))
              && (update.UpdateOk? && CallbackUrl(callbackParam) != AccountPage && !callbackResolves ==>
                    d.target == ErrorPage("steam_api_error"))
    ensures api.NotOk? || api.FetchThrew? || api.BadJson? ==>
              d.update.None? && (d.target.ErrorPage? && d.target.code in
                {"steam_auth_failed", "invalid_steam_id", "steam_api_configuration", "steam_api_error"})
    ensures d.update.Some? ==>
              && Present(claimedId) && d.update.value.steamId == SteamId(claimedId.value)
              && d.update.value.steamId != "" && '/' !in d.update.value.steamId
              && session.SignedIn?
    ensures d.target.Linked? || d.target.Callback? ==> d.update.Some? && update.UpdateOk?
    ensures d.target.Callback? ==> d.target.url == CallbackUrl(callbackParam) && d.target.url != AccountPage && callbackResolves
    ensures d.target.PendingLink? ==> d.update.None? && session.NoSession?
  {
    var callbackUrl := CallbackUrl(callbackParam);
    if !Present(claimedId) then Decision(ErrorPage("steam_auth_failed"), None)
    else
      var steamId := SteamId(claimedId.value);
      if steamId == "" then Decision(ErrorPage("invalid_steam_id"), None)
      else if !Present(apiKey) then Decision(ErrorPage("steam_api_configuration"), None)
      else
        match api
        case FetchThrew => Decision(ErrorPage("steam_api_error"), None)
        case NotOk(_) => Decision(ErrorPage("steam_api_error"), None)
        case BadJson => Decision(ErrorPage("steam_api_error"), None)
        case Players(players) =>
          if |players| == 0 then Decision(ErrorPage("steam_profile_not_found"), None)
          else
            var profile := players[0];
            match session
            case SessionError => Decision(ErrorPage("auth_session_error"), None)
            case SessionThrew => Decision(ErrorPage("steam_api_error"), None)
            case NoSession => Decision(PendingLink(steamId, profile.personaname.GetOr("")), None)
            case SignedIn(_) =>
              var metadata := SteamMetadata(steamId, profile.personaname, profile.avatarfull, now);
              match update
              case UpdateError => Decision(ErrorPage("steam_link_failed"), Some(metadata))
              case UpdateThrew => Decision(ErrorPage("steam_api_error"), Some(metadata))
              case UpdateOk =>
                if callbackUrl == AccountPage then Decision(Linked, Some(metadata))
                else if callbackResolves then Decision(Callback(callbackUrl), Some(metadata))
                else Decision(ErrorPage("steam_api_error"), Some(metadata))
  }

  function EncodeComponent(s: string): string
  {
    UriEncoding.Encode(UriEncoding.Component, s)
  }

  /** The relative URL the handler passes to `new URL(..., request.url)`.
      The Steam id of a pending link is written unencoded, as the handler
      writes it. */
  function Render(t: Target, callbackUrl: string): (url: string)
    ensures t.Callback? ==> url == t.url
    ensures t.ErrorPage? ==> Strings.StartsWith(url, "/account?error=" + t.code + "&callbackUrl=")
    ensures t.PendingLink? ==> Strings.StartsWith(url, "/account?steamPending=" + t.steamId + "&steamUsername=")
  {
    match t
    case ErrorPage(code) =>
      var head := "/account?error=" + code + "&callbackUrl=";
      Strings.StartsWithAppend(head, EncodeComponent(callbackUrl));
      head + EncodeComponent(callbackUrl)
    case PendingLink(steamId, username) =>
      var head := "/account?steamPending=" + steamId + "&steamUsername=";
      Strings.StartsWithAppend(head, EncodeComponent(username));
      Strings.StartsWithExtend(head + EncodeComponent(username), head, "&callbackUrl=");
      Strings.StartsWithExtend(head + EncodeComponent(username) + "&callbackUrl=", head, EncodeComponent(callbackUrl));
      head + EncodeComponent(username) + "&callbackUrl=" + EncodeComponent(callbackUrl)
    case Linked => "/account?steam=linked"
    case Callback(url) => url
  }

  /** `GET /api/auth/steam/callback`: the redirect target and the metadata
      update made on the way. */
  function Get(
    claimedId: Option<string>, callbackParam: Option<string>, apiKey: Option<string>,
    api: ApiOutcome, session: SessionOutcome, update: UpdateOutcome, callbackResolves: bool,
    now: string): (r: (string, Option<SteamMetadata>))
    ensures Strings.StartsWith(r.0, "/account?") || (r.0 == CallbackUrl(callbackParam) && r.1.Some?)
    ensures r.1.Some? ==> session.SignedIn? && Present(claimedId) && r.1.value.steamId == SteamId(claimedId.value)
    ensures !Present(claimedId) ==>
              r == ("/account?error=steam_auth_failed&callbackUrl=" + EncodeComponent(CallbackUrl(callbackParam)), None)
  {
    var d := Decide(claimedId, callbackParam, apiKey, api, session, update, callbackResolves, now);
    RenderedOnAccountPage(d.target, CallbackUrl(callbackParam));
    AuthFailedUrl(CallbackUrl(callbackParam));
    (Render(d.target, CallbackUrl(callbackParam)), d.update)
  }

  /** Every target but the caller's own callback URL is on the account page. */
  lemma RenderedOnAccountPage(t: Target, callbackUrl: string)
    ensures !t.Callback? ==> Strings.StartsWith(Render(t, callbackUrl), "/account?")
  {
    match t
    case ErrorPage(code) => ErrorPageOnAccount(code, callbackUrl);
    case PendingLink(steamId, username) => PendingLinkOnAccount(steamId, username, callbackUrl);
    case Linked =>
      assert Strings.StartsWith("/account?steam=linked", "/account?");
    case Callback(_) =>
  }

  /** The redirect for a missing claimed id, as the handler spells it. */
  lemma AuthFailedUrl(callbackUrl: string)
    ensures Render(ErrorPage("steam_auth_failed"), callbackUrl) ==
              "/account?error=steam_auth_failed&callbackUrl=" + EncodeComponent(callbackUrl)
  {
    assert "/account?error=" + "steam_auth_failed" == "/account?error=steam_auth_failed";
    assert "/account?error=steam_auth_failed" + "&callbackUrl=" == "/account?error=steam_auth_failed&callbackUrl=";
  }

  lemma ErrorPageOnAccount(code: string, callbackUrl: string)
    ensures Strings.StartsWith(Render(ErrorPage(code), callbackUrl), "/account?")
  {
    var head := "/account?error=";
    assert Strings.StartsWith(head, "/account?");
    Strings.StartsWithAppend(head, code);
    Strings.StartsWithExtend(head + code, head, "&callbackUrl=");
    Strings.StartsWithExtend(head + code + "&callbackUrl=", head, EncodeComponent(callbackUrl));
    Strings.StartsWithTrans(Render(ErrorPage(code), callbackUrl), head, "/account?");
  }

  lemma PendingLinkOnAccount(steamId: string, username: string, callbackUrl: string)
    ensures Strings.StartsWith(Render(PendingLink(steamId, username), callbackUrl), "/account?")
  {
    var head := "/account?steamPending=";
    assert Strings.StartsWith(head, "/account?");
    var s1 := head + steamId + "&steamUsername=";
    var s2 := s1 + EncodeComponent(username) + "&callbackUrl=";
    Strings.StartsWithAppend(head, steamId);
    Strings.StartsWithExtend(head + steamId, head, "&steamUsername=");
    Strings.StartsWithExtend(s1, head, EncodeComponent(username));
    Strings.StartsWithExtend(s1 + EncodeComponent(username), head, "&callbackUrl=");
    Strings.StartsWithExtend(s2, head, EncodeComponent(callbackUrl));
    Strings.StartsWithTrans(Render(PendingLink(steamId, username), callbackUrl), head, "/account?");
  }

  // ---------------------------------------------------------------------
  // Properties

  /** The metadata update is made exactly when every check before it passed
      and a user is signed in. */
  lemma UpdateExactlyWhenSignedIn(
    claimedId: Option<string>, callbackParam: Option<string>, apiKey: Option<string>,
    api: ApiOutcome, session: SessionOutcome, update: UpdateOutcome, callbackResolves: bool, now: string)
    ensures Decide(claimedId, callbackParam, apiKey, api, session, update, callbackResolves, now).update.Some? <==>
              && Present(claimedId) && SteamId(claimedId.value) != "" && Present(apiKey)
              && api.Players? && |api.players| > 0 && session.SignedIn?
  {
  }

  /** Without a session the handler asks the account page to finish the
      link later: it passes the Steam id and the (encoded) persona name,
      and updates nothing. */
  lemma PendingWithoutSession(
    claimedId: string, callbackParam: Option<string>, apiKey: string,
    players: seq<Profile>, update: UpdateOutcome, callbackResolves: bool, now: string)
    requires claimedId != "" && SteamId(claimedId) != "" && apiKey != "" && |players| > 0
    ensures Get(Some(claimedId), callbackParam, Some(apiKey), Players(players), NoSession, update, callbackResolves, now) ==
              ("/account?steamPending=" + SteamId(claimedId)
               + "&steamUsername=" + EncodeComponent(players[0].personaname.GetOr(""))
               + "&callbackUrl=" + EncodeComponent(CallbackUrl(callbackParam)), None)
  {
  }

  /** After a successful link the browser goes to `callbackUrl` when it is
      not the account page, and to `/account?steam=linked` otherwise. A
      callback URL the URL parser rejects ends on the `steam_api_error`
      page instead, although the metadata was already written. */
  lemma LinkedRedirect(
    claimedId: string, callbackParam: Option<string>, apiKey: string,
    players: seq<Profile>, userId: string, callbackResolves: bool, now: string)
    requires claimedId != "" && SteamId(claimedId) != "" && apiKey != "" && |players| > 0
    ensures var cb := CallbackUrl(callbackParam);
            var r := Get(Some(claimedId), callbackParam, Some(apiKey), Players(players), SignedIn(userId), UpdateOk,
                         callbackResolves, now);
            && r.1.Some?
            && r.0 == if cb == AccountPage then "/account?steam=linked"
                      else if callbackResolves then cb
                      else Render(ErrorPage("steam_api_error"), cb)
  {
    var cb := CallbackUrl(callbackParam);
    var d := Decide(Some(claimedId), callbackParam, Some(apiKey), Players(players), SignedIn(userId), UpdateOk,
                    callbackResolves, now);
    assert d.target == if cb == AccountPage then Linked
                       else if callbackResolves then Callback(cb)
                       else ErrorPage("steam_api_error");
  }

  /** Every error redirect names its error code and carries `callbackUrl`
      in a form that decodes back to it. */
  lemma ErrorRedirectCarriesCallback(code: string, callbackUrl: string)
    ensures var url := Render(ErrorPage(code), callbackUrl);
            var prefix := "/account?error=" + code + "&callbackUrl=";
            && Strings.StartsWith(url, prefix)
            && UriEncoding.Decode(UriEncoding.Component, url[|prefix|..]) == Some(callbackUrl)
  {
    var url := Render(ErrorPage(code), callbackUrl);
    var prefix := "/account?error=" + code + "&callbackUrl=";
    assert url == prefix + EncodeComponent(callbackUrl);
    assert url[..|prefix|] == prefix;
    assert url[|prefix|..] == EncodeComponent(callbackUrl);
    UriEncoding.RoundTrip(UriEncoding.Component, callbackUrl);
  }

  /** A claimed id ending in `/` (or empty) yields no Steam id, whatever
      precedes the slash. */
  lemma EmptySteamIdExactly(claimedId: string)
    ensures SteamId(claimedId) == "" <==> (claimedId == "" || claimedId[|claimedId| - 1] == '/')
  {
    Strings.LastSegmentEmpty(claimedId, '/');
  }
}
