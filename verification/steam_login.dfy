/** The Steam sign-in entry point of app/api/auth/steam/route.ts: `GET`
    builds an OpenID Authentication 2.0 `checkid_setup` request
    (section 9.1 of OpenID Authentication 2.0) from the request's Host
    header and redirects the browser to Steam's OpenID endpoint with the
    request's parameters in the query string. */
module SteamLogin {
  import opened Wrappers
  import Strings
  import UriEncoding

  const SteamOpenIdUrl: string := "https://steamcommunity.com/openid/login"
  const DefaultHost: string := "localhost:3000"
  const CallbackPath: string := "/api/auth/steam/callback"
  const OpenIdNamespace: string := "http://specs.openid.net/auth/2.0"
  const IdentifierSelect: string := "http://specs.openid.net/auth/2.0/identifier_select"
  const CheckidSetup: string := "checkid_setup"

  /** The host: the Host header, or `localhost:3000` when it is absent or empty. */
  function Host(header: Option<string>): (host: string)
    ensures header.Some? && header.value != "" ==> host == header.value
    ensures header.None? || header.value == "" ==> host == DefaultHost
    ensures host != ""
  {
    if header.Some? && header.value != "" then header.value else DefaultHost
  }

  /** `http` for a host containing `localhost`, `https` otherwise. */
  function Protocol(host: string): string
  {
    if Strings.Contains(host, "localhost") then "http" else "https"
  }

  /** `<protocol>://<host>`, the request's realm. */
  function Realm(host: string): string
  {
    Protocol(host) + "://" + host
  }

  /** `<protocol>://<host>/api/auth/steam/callback`. */
  function ReturnTo(host: string): (r: string)
    ensures Strings.StartsWith(r, Realm(host))
    ensures r[|Realm(host)|..] == "/api/auth/steam/callback"
  {
    var r := Realm(host) + CallbackPath;
    assert r[..|Realm(host)|] == Realm(host);
    r
  }

  /** The value of the first parameter named `name`. */
  function Lookup(ps: seq<(string, string)>, name: string): Option<string>
  {
    if |ps| == 0 then None
    else if ps[0].0 == name then Some(ps[0].1)
    else Lookup(ps[1..], name)
  }

  /** The `checkid_setup` request's parameters, in the order the handler lists them. */
  function Params(host: string): (ps: seq<(string, string)>)
    ensures |ps| == 6
    ensures Lookup(ps, "openid.ns") == Some(OpenIdNamespace)
    ensures Lookup(ps, "openid.mode") == Some(CheckidSetup)
    ensures Lookup(ps, "openid.return_to") == Some(ReturnTo(host))
    ensures Lookup(ps, "openid.realm") == Some(Realm(host))
    ensures Lookup(ps, "openid.identity") == Some(IdentifierSelect)
    ensures Lookup(ps, "openid.claimed_id") == Some(IdentifierSelect)
  {
    var ps :=
      [ ("openid.ns", OpenIdNamespace),
        ("openid.mode", CheckidSetup),
        ("openid.return_to", ReturnTo(host)),
        ("openid.realm", Realm(host)),
        ("openid.identity", IdentifierSelect),
        ("openid.claimed_id", IdentifierSelect) ];
    // The six names have six different lengths, so each occurs once.
    assert forall i, j :: 0 <= i < j < 6 ==> |ps[i].0| != |ps[j].0|;
    LookupAt(ps, "openid.ns", 0);
    LookupAt(ps, "openid.mode", 1);
    LookupAt(ps, "openid.return_to", 2);
    LookupAt(ps, "openid.realm", 3);
    LookupAt(ps, "openid.identity", 4);
    LookupAt(ps, "openid.claimed_id", 5);
    ps
  }

  /** The first parameter with a name is the one `Lookup` finds. */
  lemma {:induction false} LookupAt(ps: seq<(string, string)>, name: string, i: int)
    requires 0 <= i < |ps| && ps[i].0 == name
    requires forall j :: 0 <= j < i ==> ps[j].0 != name
    ensures Lookup(ps, name) == Some(ps[i].1)
    decreases i
  {
    if i > 0 {
      LookupAt(ps[1..], name, i - 1);
    }
  }

  /** `GET /api/auth/steam`: the URL the browser is redirected to. Its query
      string decodes back to exactly the request's parameters. */
  function LoginRedirect(hostHeader: Option<string>): (url: string)
    ensures Strings.StartsWith(url, SteamOpenIdUrl + "?")
    ensures UriEncoding.ParseQuery(url[|SteamOpenIdUrl| + 1..]) == Some(Params(Host(hostHeader)))
  {
    var ps := Params(Host(hostHeader));
    var url := SteamOpenIdUrl + "?" + UriEncoding.SerializeQuery(ps);
    assert url[..|SteamOpenIdUrl| + 1] == SteamOpenIdUrl + "?";
    assert url[|SteamOpenIdUrl| + 1..] == UriEncoding.SerializeQuery(ps);
    UriEncoding.QueryRoundTrip(ps);
    url
  }

  // ---------------------------------------------------------------------
  // Properties

  /** The protocol is `http` exactly when the host mentions `localhost`;
      without a Host header it is therefore `http`. */
  lemma ProtocolChoice(hostHeader: Option<string>)
    ensures Protocol(Host(hostHeader)) == "http" <==> Strings.Contains(Host(hostHeader), "localhost")
    ensures Protocol(Host(hostHeader)) == "https" <==> !Strings.Contains(Host(hostHeader), "localhost")
    ensures hostHeader.None? ==> Protocol(Host(hostHeader)) == "http"
  {
    if hostHeader.None? {
      assert Strings.OccursAt(DefaultHost, "localhost", 0);
    }
  }

  /** The realm the request declares is a prefix of its return_to URL, as
      section 9.2 of OpenID Authentication 2.0 requires of a realm. */
  lemma RealmCoversReturnTo(hostHeader: Option<string>)
    ensures var ps := Params(Host(hostHeader));
            Strings.StartsWith(Lookup(ps, "openid.return_to").value, Lookup(ps, "openid.realm").value)
  {
  }
}
