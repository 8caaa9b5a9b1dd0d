/**
 * application/hti/services.py: the relying-party side of an HTI module launch. A launch token
 * (a JSON Web Token, RFC 7519) is accepted only when its issuer is on the allow-list, a key
 * with the token's key id is published in the issuer's JWK Set (RFC 7517 section 5) at
 * `<issuer>/.well-known/jwks.json`, the token verifies under that key with the required
 * claims, and its `jti` has not been seen before.
 *
 * The token arrives already split into its header and its claims; the HTTP fetch of the
 * JWK Set and the signature/expiry check are parameters.
 */
module Hti {
  import opened Wrappers
  import opened JsonValues
  import opened Text
  import Config

  /** A JSON Web Key, one entry of a JWK Set's `keys` array. */
  type Jwk = map<string, Json>

  /** A launch token, read without verifying its signature: its JOSE header and its claims. */
  datatype Token = Token(header: map<string, Json>, claims: map<string, Json>)

  /** The fetch of a JWK Set URL: the document's `keys`, or `None` where `urlopen`, `json.loads` or `data['keys']` raises. */
  type Fetch = string -> Option<seq<Jwk>>

  /**
   * Every check of `jwt.decode` that `Decode` does not state: the signature under the key,
   * the algorithm, the freshness of `exp` (and `nbf`/`iat`) against the clock, and the
   * library's other default refusals, such as a `sub` that is not text, an `at_hash` without
   * an access token, or an `iat` or `nbf` that is not an integer.
   */
  type Authentic = (Token, Jwk) -> bool

  /** The algorithm a discovered key gets when its entry names none (RFC 7518 section 3.3). */
  const RS512: string := "RS512"

  /** The well-known path of an issuer's JWK Set. */
  const WellKnownJwks: string := ".well-known/jwks.json"

  /** The claims `jwt.decode` is told to require (`JWT_VALIDATION_OPTIONS`). */
  const RequiredClaims: set<string> := {"aud", "exp", "iss", "jti"}

  /** The exceptions a launch can end in. */
  datatype Error =
    | IssuerNotAllowed(issuer: Option<Json>) // JWTClaimsError: the issuer is not allow-listed
    | JwksNotDiscovered(url: string)         // JWTError: no key found at the JWK Set URL
    | FetchFailed(url: string)               // the fetch or parse of the JWK Set raised
    | EntryWithoutKid                        // KeyError: a JWK Set entry before the match has no `kid`
    | VerificationFailed                     // `jwt.decode` raised
    | Replay(jti: string)                    // JWTClaimsError: the `jti` was seen before
    | MissingTask                            // KeyError: the verified claims hold no `task`

  /** `get_issuer`: the `iss` claim, read without verification. */
  function GetIssuer(t: Token): Option<Json> {
    Get(t.claims, "iss")
  }

  /** `get_kid`: the header's `kid`, read without verification. */
  function GetKid(t: Token): Option<Json> {
    Get(t.header, "kid")
  }

  /** The set `{f(p) for p in parts}`. */
  function MapToSet(parts: seq<string>, f: string -> string): set<string> {
    set p | p in parts :: f(p)
  }

  /** The issuers the allow-list names: its comma-separated entries, each stripped of whitespace. */
  function AllowedPortals(allowedPortals: string): set<string> {
    MapToSet(Split(allowedPortals, ','), Strip)
  }

  /** `is_allowed_issuer`: a missing or non-text issuer is never allowed. */
  function IsAllowedIssuer(allowedPortals: string, issuer: Option<Json>): (r: bool)
    ensures r ==> issuer.Some? && issuer.value.JStr?
  {
    issuer.Some? && issuer.value.JStr? && issuer.value.s in AllowedPortals(allowedPortals)
  }

  /**
   * An issuer is allowed exactly when it equals, after stripping, some comma-delimited field
   * of the allow-list setting; the issuer itself is compared as it is, unstripped.
   */
  lemma IsAllowedIssuerMeaning(allowedPortals: string, issuer: string)
    ensures IsAllowedIssuer(allowedPortals, Some(JStr(issuer))) <==>
      exists i, j :: IsField(allowedPortals, ',', i, j) && Strip(allowedPortals[i..j]) == issuer
  {
    MapToSetOfSplit(allowedPortals, ',', Strip, issuer);
  }

  /** An element of the image of a split is the image of one of its fields. */
  lemma MapToSetOfSplit(s: string, sep: char, f: string -> string, x: string)
    ensures x in MapToSet(Split(s, sep), f) <==> exists i, j :: IsField(s, sep, i, j) && f(s[i..j]) == x
  {
    if x in MapToSet(Split(s, sep), f) {
      var p :| p in Split(s, sep) && f(p) == x;
      PartIsField(s, sep, p);
    }
    if exists i, j :: IsField(s, sep, i, j) && f(s[i..j]) == x {
      var i, j :| IsField(s, sep, i, j) && f(s[i..j]) == x;
      FieldIsPart(s, sep, i, j);
    }
  }

  /**
   * The built-in allow-list admits exactly its three host names, written without a scheme;
   * so an issuer `https://localhost:8080` is not on it.
   */
  lemma DefaultAllowList()
    ensures AllowedPortals(Config.DefaultAllowedPortals)
            == {"localhost:8080", "gids-hti-ri-portal-java.edia-tst.eu", "gids-hti-portal.edia-tst.eu"}
  {
    AllowListOfThree("localhost:8080", "gids-hti-ri-portal-java.edia-tst.eu", "gids-hti-portal.edia-tst.eu");
  }

  /** An entry is a non-empty word without commas or surrounding whitespace. */
  predicate IsPlainEntry(w: string) {
    |w| > 0 && ',' !in w && !IsSpace(w[0]) && !IsSpace(w[|w| - 1])
  }

  /** Three plain entries written with `", "` between them allow exactly those entries. */
  lemma AllowListOfThree(a: string, b: string, c: string)
    requires IsPlainEntry(a) && IsPlainEntry(b) && IsPlainEntry(c)
    ensures AllowedPortals(a + ", " + b + ", " + c) == {a, b, c}
  {
    var parts := [a, " " + b, " " + c];
    assert ", " == [','] + " ";
    assert Join(parts[1..], ',') == " " + b + [','] + " " + c by {
      assert parts[1..][1..] == parts[2..];
    }
    assert Join(parts, ',') == a + ", " + b + ", " + c;
    assert forall i :: 0 <= i < |parts| ==> ',' !in parts[i];
    SplitJoin(parts, ',');
    MapToSetOfThree(parts, Strip);
    StripUnchanged(a);
    StripAfterSpace(' ', b);
    StripAfterSpace(' ', c);
  }

  /** A set built from three entries holds exactly their three images. */
  lemma MapToSetOfThree(parts: seq<string>, f: string -> string)
    requires |parts| == 3
    ensures MapToSet(parts, f) == {f(parts[0]), f(parts[1]), f(parts[2])}
  {
    forall x | x in MapToSet(parts, f) ensures x in {f(parts[0]), f(parts[1]), f(parts[2])} {
      var p :| p in parts && f(p) == x;
      assert p == parts[0] || p == parts[1] || p == parts[2];
    }
    assert parts[0] in parts && parts[1] in parts && parts[2] in parts;
  }

  /** The issuer with `https://` prefixed unless it starts with the letters `http`. */
  function WithScheme(issuer: string): (domain: string)
    ensures StartsWith(domain, "http")
    ensures StartsWith(issuer, "http") ==> domain == issuer
    ensures !StartsWith(issuer, "http") ==> domain == "https://" + issuer
  {
    if StartsWith(issuer, "http") then issuer
    else
      assert ("https://" + issuer)[..4] == "http";
      "https://" + issuer
  }

  /** The domain with `/` appended unless it already ends in one. */
  function WithSlash(domain: string): (slashed: string)
    ensures EndsWith(slashed, "/") && StartsWith(slashed, domain)
    ensures EndsWith(domain, "/") ==> slashed == domain
    ensures !EndsWith(domain, "/") ==> slashed == domain + "/"
  {
    if EndsWith(domain, "/") then domain
    else
      assert (domain + "/")[..|domain|] == domain;
      domain + "/"
  }

  /**
   * The JWK Set URL of an issuer: `https://` is prefixed unless the issuer starts with the
   * letters `http`, a `/` is appended unless it ends in one, then the well-known path follows.
   */
  function JwksUrl(issuer: string): (url: string)
    ensures StartsWith(url, "http") && EndsWith(url, "/" + WellKnownJwks)
    ensures StartsWith(issuer, "http") ==> StartsWith(url, issuer)
    ensures !StartsWith(issuer, "http") ==> StartsWith(url, "https://" + issuer)
    ensures StartsWith(issuer, "http") && EndsWith(issuer, "/") ==> url == issuer + WellKnownJwks
  {
    UrlShape(issuer, WellKnownJwks);
    WithSlash(WithScheme(issuer)) + WellKnownJwks
  }

  /** The shape of `JwksUrl`, for any path in place of the well-known one. */
  lemma UrlShape(issuer: string, path: string)
    ensures var url := WithSlash(WithScheme(issuer)) + path;
      StartsWith(url, "http") && EndsWith(url, "/" + path)
      && (StartsWith(issuer, "http") ==> StartsWith(url, issuer))
      && (!StartsWith(issuer, "http") ==> StartsWith(url, "https://" + issuer))
  {
    var domain := WithScheme(issuer);
    var slashed := WithSlash(domain);
    AppendKeepsPrefix(slashed, path, domain);
    PrefixOfPrefix(slashed + path, domain, "http");
    if StartsWith(issuer, "http") {
      PrefixOfPrefix(slashed + path, domain, issuer);
    }
    AppendAfterSlash(slashed, path);
  }

  /** A host without a scheme, such as `localhost:8080`, gets `https://`, a `/` and the path. */
  lemma JwksUrlOfHost(host: string)
    requires |host| > 0 && !StartsWith(host, "http") && !EndsWith(host, "/")
    ensures JwksUrl(host) == "https://" + host + "/" + WellKnownJwks
  {
    assert host[|host| - 1..] == [host[|host| - 1]];
    assert !EndsWith("https://" + host, "/") by {
      assert ("https://" + host)[|"https://" + host| - 1..] == host[|host| - 1..];
    }
  }

  /**
   * An issuer with a scheme, such as `https://localhost:8080`, gets the same URL with or
   * without a final `/`.
   */
  lemma JwksUrlOfOrigin(origin: string)
    requires StartsWith(origin, "http") && !EndsWith(origin, "/")
    ensures JwksUrl(origin) == origin + "/" + WellKnownJwks
    ensures JwksUrl(origin + "/") == origin + "/" + WellKnownJwks
  {
    assert StartsWith(origin + "/", "http") by {
      assert (origin + "/")[..4] == origin[..4];
    }
    assert EndsWith(origin + "/", "/");
  }

  /**
   * An issuer that merely starts with the letters `http`, such as `httpbin.org` or
   * `httpsproxy.org`, gets no scheme at all.
   */
  lemma JwksUrlOfHttpLookalike(issuer: string)
    requires StartsWith(issuer, "http") && !StartsWith(issuer, "http://") && !StartsWith(issuer, "https://")
    requires !EndsWith(issuer, "/")
    ensures JwksUrl(issuer) == issuer + "/" + WellKnownJwks
    ensures !StartsWith(JwksUrl(issuer), "http://") && !StartsWith(JwksUrl(issuer), "https://")
  {
    NoPrefixAfterSlashPath(issuer, WellKnownJwks, "http://");
    NoPrefixAfterSlashPath(issuer, WellKnownJwks, "https://");
  }

  /** The issuer claim is absent, `null` or text; only then can `get_jwks_url` run without raising. */
  predicate IssuerIsText(t: Token) {
    GetIssuer(t).Some? ==> GetIssuer(t).value.JStr?
  }

  /** `get_jwks_url`: `None` exactly when the token has no issuer. */
  function GetJwksUrl(t: Token): (url: Option<string>)
    requires IssuerIsText(t)
    ensures url.None? <==> GetIssuer(t).None?
    ensures url.Some? ==> url.value == JwksUrl(GetIssuer(t).value.s)
  {
    match GetIssuer(t)
    case None => None
    case Some(iss) => Some(JwksUrl(iss.s))
  }

  /**
   * A discovered key: its own `alg` is kept, a missing one becomes RS512, and every other
   * member is unchanged.
   */
  function WithDefaultAlg(key: Jwk): (r: Jwk)
    ensures r.Keys == key.Keys + {"alg"}
    ensures forall m :: m in key ==> r[m] == key[m]
    ensures "alg" !in key ==> r["alg"] == JStr(RS512)
  {
    if "alg" in key then key else key["alg" := JStr(RS512)]
  }

  /** The outcome of scanning a JWK Set for a key id. */
  datatype KeyLookup = Found(key: Jwk) | NotFound | KidMissing

  /**
   * The scan of `get_jwks_by_kid`: the first entry, in `keys` order, whose `kid` equals the
   * requested one, with its algorithm defaulted; an entry without `kid` reached before any
   * match raises `KeyError`.
   */
  function FindKey(keys: seq<Jwk>, kid: Json): KeyLookup
    decreases |keys|
  {
    if |keys| == 0 then NotFound
    else if "kid" !in keys[0] then KidMissing
    else if keys[0]["kid"] == kid then Found(WithDefaultAlg(keys[0]))
    else FindKey(keys[1..], kid)
  }

  /** Every entry before index `i` has a `kid`, and it is not the requested one. */
  predicate PassedOver(keys: seq<Jwk>, kid: Json, i: nat)
    requires i <= |keys|
  {
    forall j :: 0 <= j < i ==> "kid" in keys[j] && keys[j]["kid"] != kid
  }

  /**
   * `FindKey` finds the first entry whose `kid` matches, reports no key when every entry has
   * a different `kid`, and fails on the first entry without a `kid` before any match.
   */
  lemma {:induction false} FindKeyMeaning(keys: seq<Jwk>, kid: Json, i: nat)
    requires i <= |keys| && PassedOver(keys, kid, i)
    ensures i == |keys| ==> FindKey(keys, kid) == NotFound
    ensures i < |keys| && "kid" !in keys[i] ==> FindKey(keys, kid) == KidMissing
    ensures i < |keys| && "kid" in keys[i] && keys[i]["kid"] == kid
            ==> FindKey(keys, kid) == Found(WithDefaultAlg(keys[i]))
    decreases i
  {
    if i > 0 {
      assert "kid" in keys[0] && keys[0]["kid"] != kid;
      assert PassedOver(keys[1..], kid, i - 1) by {
        forall j | 0 <= j < i - 1 ensures "kid" in keys[1..][j] && keys[1..][j]["kid"] != kid {
          assert keys[1..][j] == keys[j + 1];
        }
      }
      FindKeyMeaning(keys[1..], kid, i - 1);
      if i < |keys| {
        assert keys[1..][i - 1] == keys[i];
      }
    }
  }

  /** A key that `FindKey` returns is a matching entry of the set, with `alg` present. */
  lemma {:induction false} FoundKeyIsEntry(keys: seq<Jwk>, kid: Json)
    requires FindKey(keys, kid).Found?
    ensures exists i :: 0 <= i < |keys| && PassedOver(keys, kid, i) && "kid" in keys[i] && keys[i]["kid"] == kid
                        && FindKey(keys, kid).key == WithDefaultAlg(keys[i])
    ensures "alg" in FindKey(keys, kid).key && "kid" in FindKey(keys, kid).key
            && FindKey(keys, kid).key["kid"] == kid
    decreases |keys|
  {
    if "kid" in keys[0] && keys[0]["kid"] == kid {
      assert PassedOver(keys, kid, 0);
    } else {
      FoundKeyIsEntry(keys[1..], kid);
      var i :| 0 <= i < |keys[1..]| && PassedOver(keys[1..], kid, i) && "kid" in keys[1..][i]
               && keys[1..][i]["kid"] == kid && FindKey(keys[1..], kid).key == WithDefaultAlg(keys[1..][i]);
      assert keys[i + 1] == keys[1..][i];
      assert PassedOver(keys, kid, i + 1) by {
        forall j | 0 <= j < i + 1 ensures "kid" in keys[j] && keys[j]["kid"] != kid {
          if j > 0 {
            assert keys[j] == keys[1..][j - 1];
          }
        }
      }
    }
  }

  /**
   * `get_jwks_by_kid` after the fetch: walks the `keys` array in order and returns the first
   * entry with the requested `kid`, its `alg` defaulted in place.
   */
  method GetJwksByKid(keys: seq<Jwk>, kid: Json) returns (r: KeyLookup)
    ensures r == FindKey(keys, kid)
  {
    var i := 0;
    while i < |keys|
      invariant 0 <= i <= |keys|
      invariant FindKey(keys[i..], kid) == FindKey(keys, kid)
    {
      var key := keys[i];
      if "kid" !in key {
        return KidMissing;
      }
      if key["kid"] == kid {
        if "alg" !in key {
          key := key["alg" := JStr(RS512)];
        }
        return Found(key);
      }
      assert keys[i..][1..] == keys[i + 1..];
      i := i + 1;
    }
    r := NotFound;
  }

  /**
   * `discover_public_key_with_jwks`: without a key id or an issuer there is no key and
   * nothing is fetched; otherwise the issuer's JWK Set is fetched and scanned for the key id.
   */
  function DiscoverPublicKey(t: Token, fetch: Fetch): (r: Result<Option<Jwk>, Error>)
    requires IssuerIsText(t)
    ensures GetKid(t).None? || GetIssuer(t).None? ==> r == Ok(None)
    ensures r.Ok? && r.value.Some? ==>
      GetKid(t).Some? && GetIssuer(t).Some?
      && fetch(JwksUrl(GetIssuer(t).value.s)).Some?
      && FindKey(fetch(JwksUrl(GetIssuer(t).value.s)).value, GetKid(t).value) == Found(r.value.value)
      && "alg" in r.value.value && "kid" in r.value.value && r.value.value["kid"] == GetKid(t).value
    ensures GetKid(t).Some? && GetIssuer(t).Some? ==>
      var url, kid := JwksUrl(GetIssuer(t).value.s), GetKid(t).value;
      && (fetch(url).None? ==> r == Err(FetchFailed(url)))
      && (fetch(url).Some? && FindKey(fetch(url).value, kid).Found? ==> r == Ok(Some(FindKey(fetch(url).value, kid).key)))
      && (fetch(url).Some? && FindKey(fetch(url).value, kid).NotFound? ==> r == Ok(None))
      && (fetch(url).Some? && FindKey(fetch(url).value, kid).KidMissing? ==> r == Err(EntryWithoutKid))
  {
    var url := GetJwksUrl(t);
    var kid := GetKid(t);
    if kid.Some? && url.Some? then
      match fetch(url.value)
      case None => Err(FetchFailed(url.value))
      case Some(keys) =>
        match FindKey(keys, kid.value)
        case Found(key) =>
          FoundKeyIsEntry(keys, kid.value);
          Ok(Some(key))
        case NotFound => Ok(None)
        case KidMissing => Err(EntryWithoutKid)
    else Ok(None)
  }

  /**
   * `get_portal`: an issuer off the allow-list is refused before any discovery (the result is
   * the same whatever the network answers); an allowed issuer without a discoverable key is
   * refused naming the JWK Set URL; otherwise the issuer and its key.
   */
  function GetPortal(t: Token, allowedPortals: string, fetch: Fetch): (r: Result<(string, Jwk), Error>)
    ensures !IsAllowedIssuer(allowedPortals, GetIssuer(t)) ==> r == Err(IssuerNotAllowed(GetIssuer(t)))
    ensures IsAllowedIssuer(allowedPortals, GetIssuer(t)) && DiscoverPublicKey(t, fetch) == Ok(None)
            ==> r == Err(JwksNotDiscovered(JwksUrl(GetIssuer(t).value.s)))
    ensures IsAllowedIssuer(allowedPortals, GetIssuer(t)) && DiscoverPublicKey(t, fetch).Ok?
            && DiscoverPublicKey(t, fetch).value.Some?
            ==> r == Ok((GetIssuer(t).value.s, DiscoverPublicKey(t, fetch).value.value))
    ensures IsAllowedIssuer(allowedPortals, GetIssuer(t)) && DiscoverPublicKey(t, fetch).Err?
            ==> r == Err(DiscoverPublicKey(t, fetch).error)
    ensures r.Ok? ==> IsAllowedIssuer(allowedPortals, GetIssuer(t)) && GetIssuer(t) == Some(JStr(r.value.0))
                      && DiscoverPublicKey(t, fetch) == Ok(Some(r.value.1))
  {
    var issuer := GetIssuer(t);
    if IsAllowedIssuer(allowedPortals, issuer) then
      match DiscoverPublicKey(t, fetch)
      case Err(e) => Err(e)
      case Ok(None) => Err(JwksNotDiscovered(GetJwksUrl(t).value))
      case Ok(Some(key)) => Ok((issuer.value.s, key))
    else
      Err(IssuerNotAllowed(issuer))
  }

  /**
   * The audience check of `jwt.decode(..., audience=host)`: `aud` is the host, or a list of
   * texts that contains it (RFC 7519 section 4.1.3).
   */
  predicate AudienceMatches(aud: Json, audience: string) {
    match aud
    case JStr(s) => s == audience
    case JList(items) => (forall k :: 0 <= k < |items| ==> items[k].JStr?) && JStr(audience) in items
    case _ => false
  }

  /**
   * The claim checks `jwt.decode` is asked for: `aud`, `exp`, `iss` and `jti` present, the
   * audience is the host, the issuer is exactly the allow-listed one, and the `jti` is text.
   */
  predicate ClaimsAccepted(claims: map<string, Json>, audience: string, issuer: string) {
    && RequiredClaims <= claims.Keys
    && AudienceMatches(claims["aud"], audience)
    && claims["iss"] == JStr(issuer)
    && claims["jti"].JStr?
  }

  /**
   * `jwt.decode(token, key, options=JWT_VALIDATION_OPTIONS, audience=host, issuer=issuer)`:
   * the verified claims, or `None` where it raises. A token lacking a required claim never
   * decodes, however well it is signed.
   */
  function Decode(t: Token, key: Jwk, audience: string, issuer: string, authentic: Authentic)
    : (r: Option<map<string, Json>>)
    ensures r.Some? ==> r.value == t.claims && authentic(t, key)
    ensures r.Some? ==> RequiredClaims <= r.value.Keys && r.value["iss"] == JStr(issuer)
                        && r.value["jti"].JStr? && AudienceMatches(r.value["aud"], audience)
    ensures !(RequiredClaims <= t.claims.Keys) ==> r.None?
  {
    if authentic(t, key) && ClaimsAccepted(t.claims, audience, issuer) then Some(t.claims) else None
  }

  /** The `JwtId` table: every `jti` recorded so far. */
  class JwtModelService {
    var seen: set<string>

    constructor()
      ensures seen == {}
    {
      seen := {};
    }

    /** `exists_jti`. */
    method ExistsJti(jti: string) returns (b: bool)
      ensures b <==> jti in seen
    {
      b := jti in seen;
    }

    /**
     * `store_jti`: the `jti` is in the table afterwards; `stored` is false where the primary
     * key already held it and the insert was refused.
     */
    method StoreJti(jti: string) returns (stored: bool)
      modifies this
      ensures stored <==> jti !in old(seen)
      ensures seen == old(seen) + {jti}
    {
      stored := jti !in seen;
      seen := seen + {jti};
    }
  }

  /**
   * `replay_detection`: a `jti` seen before is refused and the table is left alone; a new one
   * is recorded and nothing else changes.
   */
  method ReplayDetection(store: JwtModelService, decoded: map<string, Json>) returns (r: Result<(), Error>)
    requires "jti" in decoded && decoded["jti"].JStr?
    modifies store
    ensures decoded["jti"].s in old(store.seen) ==> r == Err(Replay(decoded["jti"].s)) && store.seen == old(store.seen)
    ensures decoded["jti"].s !in old(store.seen) ==> r == Ok(()) && store.seen == old(store.seen) + {decoded["jti"].s}
  {
    var jti := decoded["jti"].s;
    var seenBefore := store.ExistsJti(jti);
    if seenBefore {
      return Err(Replay(jti));
    }
    var _ := store.StoreJti(jti);
    r := Ok(());
  }

  /** The answer of a launch and the `jti` table after it. */
  datatype LaunchStep = LaunchStep(result: Result<Json, Error>, seen: set<string>)

  /**
   * A launch from the table `seen`: the key comes only from `GetPortal`; the token is decoded
   * with it for the host and the allow-listed issuer; only then is the `jti` checked and
   * recorded; the answer is the verified `task` claim.
   */
  function LaunchOutcome(seen: set<string>, t: Token, host: string, allowedPortals: string,
                         fetch: Fetch, authentic: Authentic): LaunchStep
  {
    match GetPortal(t, allowedPortals, fetch)
    case Err(e) => LaunchStep(Err(e), seen)
    case Ok((issuer, key)) =>
      match Decode(t, key, host, issuer, authentic)
      case None => LaunchStep(Err(VerificationFailed), seen)
      case Some(claims) =>
        var jti := claims["jti"].s;
        if jti in seen then LaunchStep(Err(Replay(jti)), seen)
        else if "task" in claims then LaunchStep(Ok(claims["task"]), seen + {jti})
        else LaunchStep(Err(MissingTask), seen + {jti})
  }

  /** The token passes every check up to the replay guard. */
  predicate Verifies(t: Token, host: string, allowedPortals: string, fetch: Fetch, authentic: Authentic) {
    var portal := GetPortal(t, allowedPortals, fetch);
    portal.Ok? && Decode(t, portal.value.1, host, portal.value.0, authentic).Some?
  }

  /**
   * A launch succeeds exactly when the token verifies under the discovered key, its `jti` is
   * new and it carries a `task`; it then answers that `task` unchanged and records the `jti`.
   */
  lemma LaunchAccepts(seen: set<string>, t: Token, host: string, allowedPortals: string,
                      fetch: Fetch, authentic: Authentic)
    ensures var o := LaunchOutcome(seen, t, host, allowedPortals, fetch, authentic);
      o.result.Ok? <==> (Verifies(t, host, allowedPortals, fetch, authentic)
                         && t.claims["jti"].s !in seen && "task" in t.claims)
    ensures var o := LaunchOutcome(seen, t, host, allowedPortals, fetch, authentic);
      o.result.Ok? ==> (o.result.value == t.claims["task"] && o.seen == seen + {t.claims["jti"].s}
                        && IsAllowedIssuer(allowedPortals, GetIssuer(t))
                        && ClaimsAccepted(t.claims, host, GetIssuer(t).value.s))
  {
  }

  /**
   * The table changes only after a token has verified, and then only by that token's new
   * `jti`: a refused issuer, a missing key or a failed verification leaves it as it was.
   */
  lemma LaunchRecordsOnlyVerified(seen: set<string>, t: Token, host: string, allowedPortals: string,
                                  fetch: Fetch, authentic: Authentic)
    ensures var o := LaunchOutcome(seen, t, host, allowedPortals, fetch, authentic);
      o.seen == seen || (Verifies(t, host, allowedPortals, fetch, authentic)
                         && t.claims["jti"].s !in seen && o.seen == seen + {t.claims["jti"].s})
    ensures !Verifies(t, host, allowedPortals, fetch, authentic) ==>
      LaunchOutcome(seen, t, host, allowedPortals, fetch, authentic).seen == seen
      && LaunchOutcome(seen, t, host, allowedPortals, fetch, authentic).result.Err?
  {
  }

  /**
   * An issuer off the allow-list is refused with `IssuerNotAllowed`, whatever the network,
   * the clock and the host, and the table is left alone.
   */
  lemma LaunchRefusesUnlistedIssuer(seen: set<string>, t: Token, host: string, allowedPortals: string,
                                    fetch: Fetch, authentic: Authentic)
    requires !IsAllowedIssuer(allowedPortals, GetIssuer(t))
    ensures LaunchOutcome(seen, t, host, allowedPortals, fetch, authentic)
            == LaunchStep(Err(IssuerNotAllowed(GetIssuer(t))), seen)
  {
  }

  /**
   * Once a launch of a token has got past verification, no later launch of the same token is
   * ever accepted, whatever the network, the clock, the host or the allow-list then; a
   * launch that verifies again is refused as a replay.
   */
  lemma LaunchNeverAcceptsTwice(seen: set<string>, t: Token, host: string, allowedPortals: string,
                                fetch: Fetch, authentic: Authentic,
                                host': string, allowedPortals': string, fetch': Fetch, authentic': Authentic)
    requires LaunchOutcome(seen, t, host, allowedPortals, fetch, authentic).seen != seen
    ensures var seen1 := LaunchOutcome(seen, t, host, allowedPortals, fetch, authentic).seen;
      var o := LaunchOutcome(seen1, t, host', allowedPortals', fetch', authentic');
      o.result.Err? && o.seen == seen1
      && (Verifies(t, host', allowedPortals', fetch', authentic') ==> o.result == Err(Replay(t.claims["jti"].s)))
  {
    LaunchRecordsOnlyVerified(seen, t, host, allowedPortals, fetch, authentic);
  }

  /**
   * `launch`: gets the issuer and key from `get_portal`, decodes the token with them, runs the
   * replay guard and answers the `task` claim.
   */
  method Launch(store: JwtModelService, t: Token, host: string, allowedPortals: string,
                fetch: Fetch, authentic: Authentic) returns (r: Result<Json, Error>)
    modifies store
    ensures LaunchStep(r, store.seen) == LaunchOutcome(old(store.seen), t, host, allowedPortals, fetch, authentic)
  {
    var portal := GetPortal(t, allowedPortals, fetch);
    if portal.Err? {
      return Err(portal.error);
    }
    var (issuer, key) := portal.value;
    var decoded := Decode(t, key, host, issuer, authentic);
    if decoded.None? {
      return Err(VerificationFailed);
    }
    var replay := ReplayDetection(store, decoded.value);
    if replay.Err? {
      return Err(replay.error);
    }
    if "task" !in decoded.value {
      return Err(MissingTask);
    }
    r := Ok(decoded.value["task"]);
  }

  /**
   * The same valid token posted twice: the first launch answers its task, the second is
   * refused as a replay.
   */
  method LaunchTwice(store: JwtModelService, t: Token, host: string, allowedPortals: string,
                     fetch: Fetch, authentic: Authentic) returns (first: Result<Json, Error>, second: Result<Json, Error>)
    requires Verifies(t, host, allowedPortals, fetch, authentic) && "task" in t.claims
    requires t.claims["jti"].s !in store.seen
    modifies store
    ensures first == Ok(t.claims["task"])
    ensures second == Err(Replay(t.claims["jti"].s))
    ensures store.seen == old(store.seen) + {t.claims["jti"].s}
  {
    LaunchAccepts(store.seen, t, host, allowedPortals, fetch, authentic);
    first := Launch(store, t, host, allowedPortals, fetch, authentic);
    LaunchNeverAcceptsTwice(old(store.seen), t, host, allowedPortals, fetch, authentic,
                            host, allowedPortals, fetch, authentic);
    second := Launch(store, t, host, allowedPortals, fetch, authentic);
  }

  /** A JWK Set holding just the key with the token's `kid` yields that key. */
  lemma DiscoverSoleKey(t: Token, fetch: Fetch, key: Jwk)
    requires GetIssuer(t).Some? && GetIssuer(t).value.JStr? && GetKid(t).Some?
    requires fetch(JwksUrl(GetIssuer(t).value.s)) == Some([key])
    requires "kid" in key && key["kid"] == GetKid(t).value && "alg" in key
    ensures DiscoverPublicKey(t, fetch) == Ok(Some(key))
  {
    assert FindKey([key], GetKid(t).value) == Found(key);
  }

  /**
   * The launch of the test suite, for any issuer allow-listed as written (there
   * `https://localhost:8080`), a token for the host carrying a task, and its key published
   * alone under the token's `kid`: the first launch answers the `task` claim and records the `jti`;
   * the same token again is refused as a replay.
   */
  lemma LaunchScenario(seen: set<string>, t: Token, host: string, issuer: string, key: Jwk,
                       fetch: Fetch, authentic: Authentic)
    requires IsPlainEntry(issuer)
    requires GetIssuer(t) == Some(JStr(issuer)) && GetKid(t).Some?
    requires fetch(JwksUrl(issuer)) == Some([key])
    requires "kid" in key && key["kid"] == GetKid(t).value && "alg" in key
    requires authentic(t, key) && ClaimsAccepted(t.claims, host, issuer) && "task" in t.claims
    requires t.claims["jti"].s !in seen
    ensures var first := LaunchOutcome(seen, t, host, issuer, fetch, authentic);
      first == LaunchStep(Ok(t.claims["task"]), seen + {t.claims["jti"].s})
      && LaunchOutcome(first.seen, t, host, issuer, fetch, authentic)
         == LaunchStep(Err(Replay(t.claims["jti"].s)), first.seen)
  {
    SplitWithoutSeparator(issuer, ',');
    StripUnchanged(issuer);
    assert IsAllowedIssuer(issuer, GetIssuer(t));
    DiscoverSoleKey(t, fetch, key);
    assert GetPortal(t, issuer, fetch) == Ok((issuer, key));
    assert Verifies(t, host, issuer, fetch, authentic);
    LaunchAccepts(seen, t, host, issuer, fetch, authentic);
    LaunchNeverAcceptsTwice(seen, t, host, issuer, fetch, authentic, host, issuer, fetch, authentic);
  }
}
