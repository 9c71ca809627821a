/** The Steam link handler of app/api/steam/route.ts: `GET` takes the
    Steam id from `openid.claimed_id`, fetches the player's profile, finds
    the signed-in user (from the session, or by looking the session's email
    up in the user table) and writes the Steam id into that user's row.

    The outcomes of the session lookup, the Steam Web API call, the email
    lookup and the row update are parameters. The handler's effects are
    recorded as the list of requests it makes, so that the model can state
    which lookups and writes happen and with what arguments. */
module SteamLink {
  import opened Wrappers
  import opened JsValues
  import SteamCallback

  /** What `getServerSession(authOptions)` produced: it threw, there is no
      session, or a session whose user has this `id` and `email` (absent
      when the session has no user). */
  datatype SessionOutcome = SessionThrew | NoSession | Session(id: Option<string>, email: Option<string>)

  /** What fetching the player summaries produced: the fetch, the JSON
      parse or the walk to `data.response.players` threw, or the players. */
  datatype ApiOutcome = ApiThrew | Players(players: seq<JsValue>)

  /** What `prisma.user.findUnique({ where: { email } })` produced. */
  datatype LookupOutcome = Found(id: string) | NotFound | LookupThrew

  /** A request the handler makes to a service. */
  datatype Call =
    | GetSession
    | FetchProfile(steamId: string)
    | LookupByEmail(email: string)
    | SetSteamId(userId: string, steamId: string)

  /** The redirect target and the requests made, in order. */
  datatype Outcome = Outcome(redirect: string, calls: seq<Call>)

  const AuthFailed: string := "/account?error=steam_auth_failed"
  const InvalidSteamId: string := "/account?error=invalid_steam_id"
  const ProfileFetchFailed: string := "/account?error=steam_profile_fetch_failed"
  const SignInPending: string := "/auth/signin?callbackUrl=/account&steam_pending=true"
  const LinkFailed: string := "/account?error=steam_link_failed"
  const Linked: string := "/account?steam=linked"

  /** `data.response.players[0]` is truthy. */
  predicate HasProfile(players: seq<JsValue>)
  {
    |players| > 0 && JsValues.Truthy(players[0])
  }

  /** The user id the handler settles on, with the email lookup it made to
      find it, if any: the session's id when truthy, otherwise the id the
      email lookup found (a lookup that throws finds nothing). */
  function ResolveUser(id: Option<string>, email: Option<string>, lookup: LookupOutcome): (r: (Option<string>, seq<Call>))
    ensures Present(id) ==> r == (id, [])
    ensures !Present(id) && !Present(email) ==> r == (None, [])
    ensures !Present(id) && Present(email) ==> r.1 == [LookupByEmail(email.value)]
    ensures !Present(id) && Present(email) ==> r.0 == (if lookup.Found? then Some(lookup.id) else None)
    ensures r.0.Some? ==> r.0 == id || (lookup.Found? && r.0.value == lookup.id)
  {
    if Present(id) then (id, [])
    else if Present(email) then
      match lookup
      case Found(userId) => (Some(userId), [LookupByEmail(email.value)])
      case NotFound => (None, [LookupByEmail(email.value)])
      case LookupThrew => (None, [LookupByEmail(email.value)])
    else (None, [])
  }

  /** The user id found for a session that did not throw, with the lookup
      made on the way. */
  function SessionUser(session: SessionOutcome, lookup: LookupOutcome): (r: (Option<string>, seq<Call>))
    requires !session.SessionThrew?
    ensures session.NoSession? ==> r == (None, [])
    ensures session.Session? ==> r == ResolveUser(session.id, session.email, lookup)
    ensures forall k :: 0 <= k < |r.1| ==> r.1[k].LookupByEmail?
  {
    match session
    case NoSession => (None, [])
    case Session(id, email) => ResolveUser(id, email, lookup)
  }

  /** `GET /api/steam`: the checks in the order the handler makes them. The
      session is read before the claimed id is looked at, so a session that
      throws fails the request whatever the query says. The API key does not
      take part: the handler interpolates it into the URL unchecked. */
  function Get(
    claimedId: Option<string>, session: SessionOutcome, api: ApiOutcome,
    lookup: LookupOutcome, updateThrows: bool): (out: Outcome)
    ensures |out.calls| > 0 && out.calls[0] == GetSession
    ensures session.SessionThrew? ==> out == Outcome(LinkFailed, [GetSession])
    ensures !session.SessionThrew? && !Present(claimedId) ==> out == Outcome(AuthFailed, [GetSession])
    ensures !session.SessionThrew? && Present(claimedId) && SteamCallback.SteamId(claimedId.value) == "" ==>
              out == Outcome(InvalidSteamId, [GetSession])
    // Past the Steam id check the profile is fetched: a throw fails the
    // link, a missing first player is a failed fetch.
    ensures !session.SessionThrew? && Present(claimedId) && SteamCallback.SteamId(claimedId.value) != "" ==>
              && |out.calls| >= 2 && out.calls[1] == FetchProfile(SteamCallback.SteamId(claimedId.value))
              && (api.ApiThrew? ==> out.redirect == LinkFailed)
              && (api.Players? && !HasProfile(api.players) ==> out.redirect == ProfileFetchFailed)
    ensures out.redirect in {AuthFailed, InvalidSteamId, ProfileFetchFailed, SignInPending, LinkFailed, Linked}
    // The only write: the claimed id's Steam id, into a row with a non-empty id.
    ensures forall k :: 0 <= k < |out.calls| && out.calls[k].SetSteamId? ==>
              && k == |out.calls| - 1
              && Present(claimedId)
              && out.calls[k].steamId == SteamCallback.SteamId(claimedId.value) != ""
              && out.calls[k].userId != ""
    ensures out.redirect == Linked ==> !updateThrows && out.calls[|out.calls| - 1].SetSteamId?
    ensures out.calls[|out.calls| - 1].SetSteamId? ==> out.redirect == if updateThrows then LinkFailed else Linked
    // The row written is the session's id when truthy, otherwise the one
    // the email lookup found.
    ensures out.calls[|out.calls| - 1].SetSteamId? ==>
              && session.Session?
              && (Present(session.id) ==> out.calls[|out.calls| - 1].userId == session.id.value)
              && (!Present(session.id) ==> lookup.Found? && out.calls[|out.calls| - 1].userId == lookup.id)
  {
    if session.SessionThrew? then Outcome(LinkFailed, [GetSession])
    else
      if !Present(claimedId) then Outcome(AuthFailed, [GetSession])
      else
        var steamId := SteamCallback.SteamId(claimedId.value);
        if steamId == "" then Outcome(InvalidSteamId, [GetSession])
        else
          var fetched := [GetSession, FetchProfile(steamId)];
          match api
          case ApiThrew => Outcome(LinkFailed, fetched)
          case Players(players) =>
            if !HasProfile(players) then Outcome(ProfileFetchFailed, fetched)
            else
              var (userId, lookups) := SessionUser(session, lookup);
              var calls := fetched + lookups;
              if !Present(userId) then Outcome(SignInPending, calls)
              else
                var written := calls + [SetSteamId(userId.value, steamId)];
                if updateThrows then Outcome(LinkFailed, written) else Outcome(Linked, written)
  }

  // ---------------------------------------------------------------------
  // Properties

  /** The Steam id is written exactly when every check passed and a user id
      was found; the user is told it is linked exactly when the write
      succeeded. */
  lemma WrittenExactly(
    claimedId: Option<string>, session: SessionOutcome, api: ApiOutcome,
    lookup: LookupOutcome, updateThrows: bool)
    ensures var out := Get(claimedId, session, api, lookup, updateThrows);
            (exists k :: 0 <= k < |out.calls| && out.calls[k].SetSteamId?) <==>
              && session.Session?
              && Present(claimedId) && SteamCallback.SteamId(claimedId.value) != ""
              && api.Players? && HasProfile(api.players)
              && Present(ResolveUser(session.id, session.email, lookup).0)
    ensures var out := Get(claimedId, session, api, lookup, updateThrows);
            out.redirect == Linked <==>
              (exists k :: 0 <= k < |out.calls| && out.calls[k].SetSteamId?) && !updateThrows
  {
    var out := Get(claimedId, session, api, lookup, updateThrows);
    if && !session.SessionThrew?
       && Present(claimedId) && SteamCallback.SteamId(claimedId.value) != ""
       && api.Players? && HasProfile(api.players)
    {
      var steamId := SteamCallback.SteamId(claimedId.value);
      var (userId, lookups) := SessionUser(session, lookup);
      var calls := [GetSession, FetchProfile(steamId)] + lookups;
      assert forall k :: 0 <= k < |calls| ==> !calls[k].SetSteamId?;
      if Present(userId) {
        assert out.calls == calls + [SetSteamId(userId.value, steamId)];
        assert out.calls[|calls|].SetSteamId?;
      } else {
        assert out.calls == calls;
      }
    }
  }

  /** The email lookup is made only when the session carries no usable id
      but a usable email, and then with that email. */
  lemma LookupOnlyWithoutSessionId(
    claimedId: Option<string>, session: SessionOutcome, api: ApiOutcome,
    lookup: LookupOutcome, updateThrows: bool, k: int)
    requires var out := Get(claimedId, session, api, lookup, updateThrows);
             0 <= k < |out.calls| && out.calls[k].LookupByEmail?
    ensures session.Session? && !Present(session.id) && Present(session.email)
    ensures Get(claimedId, session, api, lookup, updateThrows).calls[k].email == session.email.value
  {
  }

  /** A truthy session id is the user the Steam id is written to, whatever
      the email lookup would say. */
  lemma SessionIdWins(
    claimedId: Option<string>, id: string, email: Option<string>, api: ApiOutcome,
    lookup1: LookupOutcome, lookup2: LookupOutcome, updateThrows: bool)
    requires id != ""
    ensures Get(claimedId, Session(Some(id), email), api, lookup1, updateThrows) ==
            Get(claimedId, Session(Some(id), email), api, lookup2, updateThrows)
    ensures var out := Get(claimedId, Session(Some(id), email), api, lookup1, updateThrows);
            forall k :: 0 <= k < |out.calls| && out.calls[k].SetSteamId? ==> out.calls[k].userId == id
  {
    var session := Session(Some(id), email);
    assert SessionUser(session, lookup1) == (Some(id), []) == SessionUser(session, lookup2);
  }

  /** Without a session, or with one that names no user the lookup can
      find, the browser is sent to sign in and nothing is written. */
  lemma NoUserNoWrite(claimedId: Option<string>, session: SessionOutcome, players: seq<JsValue>, updateThrows: bool)
    requires Present(claimedId) && SteamCallback.SteamId(claimedId.value) != ""
    requires HasProfile(players)
    requires session.NoSession? || (session.Session? && !Present(session.id))
    ensures var out := Get(claimedId, session, Players(players), NotFound, updateThrows);
            out.redirect == SignInPending
            && forall k :: 0 <= k < |out.calls| ==> !out.calls[k].SetSteamId?
  {
    var steamId := SteamCallback.SteamId(claimedId.value);
    var (userId, lookups) := SessionUser(session, NotFound);
    assert !Present(userId);
    var calls := [GetSession, FetchProfile(steamId)] + lookups;
    assert Get(claimedId, session, Players(players), NotFound, updateThrows) == Outcome(SignInPending, calls);
  }
}
