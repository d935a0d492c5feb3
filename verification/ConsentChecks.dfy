/**
 The checks that stand before every grant: Authorize in oauth/as.go, DecideDeviceAuthorization in
 oauth/device.go and Registry.Resolve in oauth/scope.go. They let through exactly the consents that
 Engine.dfy calls proper, and an authorization only with a registered redirect URI and an S256 challenge.
 */
module ConsentChecks {
  import opened Options
  import opened TokenStore
  import opened Engine

  datatype Verdict = Granted(consent: Consent) | InvalidClient | InvalidRequest | InvalidScope | AccessDenied

  predicate Available(reg: Registry, client: string, sc: string) {
    sc in reg.scopes && (reg.scopes[sc].allowedClients == {} || client in reg.scopes[sc].allowedClients)
  }

  /** The distinct scopes asked for, in order, when every one is known and open to the client. */
  method Resolve(reg: Registry, scopes: seq<string>, client: string) returns (found: Option<seq<string>>)
    ensures found.Some? <==> forall sc | sc in scopes :: Available(reg, client, sc)
    ensures found.Some? ==> (forall sc :: sc in found.value <==> sc in scopes)
    ensures found.Some? ==> forall i, j | 0 <= i < j < |found.value| :: found.value[i] != found.value[j]
  {
    var out := [];
    for i := 0 to |scopes|
      invariant forall sc | sc in scopes[..i] :: Available(reg, client, sc)
      invariant forall sc :: sc in out <==> sc in scopes[..i]
      invariant forall a, b | 0 <= a < b < |out| :: out[a] != out[b]
    {
      assert scopes[..i + 1] == scopes[..i] + [scopes[i]];
      if scopes[i] in out {
        continue;
      }
      if !Available(reg, client, scopes[i]) {
        return None;
      }
      out := out + [scopes[i]];
    }
    assert scopes[..|scopes|] == scopes;
    return Some(out);
  }

  method AllowsAll(reg: Registry, client: string, scopes: seq<string>) returns (ok: bool)
    requires client in reg.allowed
    ensures ok <==> forall sc | sc in scopes :: sc in reg.allowed[client]
  {
    for i := 0 to |scopes|
      invariant forall j | 0 <= j < i :: scopes[j] in reg.allowed[client]
    {
      if scopes[i] !in reg.allowed[client] {
        return false;
      }
    }
    return true;
  }

  /** Every scope that needs it was ticked by itself. */
  method CheckExplicit(reg: Registry, scopes: seq<string>, explicit: seq<string>) returns (ok: bool)
    requires forall sc | sc in scopes :: sc in reg.scopes
    ensures ok <==> forall sc | sc in scopes :: reg.scopes[sc].explicitConsent ==> sc in explicit
  {
    for i := 0 to |scopes|
      invariant forall j | 0 <= j < i :: reg.scopes[scopes[j]].explicitConsent ==> scopes[j] in explicit
    {
      if reg.scopes[scopes[i]].explicitConsent && scopes[i] !in explicit {
        return false;
      }
    }
    return true;
  }

  predicate Base64Url(c: char) {
    'A' <= c <= 'Z' || 'a' <= c <= 'z' || '0' <= c <= '9' || c == '-' || c == '_'
  }

  /** The shape of an S256 challenge (section 4.2 of RFC 7636). */
  predicate IsChallenge(challenge: string) {
    |challenge| == 43 && forall c | c in challenge :: Base64Url(c)
  }

  method ValidChallenge(challenge: string) returns (ok: bool)
    ensures ok == IsChallenge(challenge)
  {
    if |challenge| != 43 {
      return false;
    }
    for i := 0 to |challenge|
      invariant forall j | 0 <= j < i :: Base64Url(challenge[j])
    {
      if !Base64Url(challenge[i]) {
        return false;
      }
    }
    return true;
  }

  /** Some scope is unknown, closed to the client or not registered for it. */
  predicate ScopeRefused(reg: Registry, client: string, scopes: seq<string>)
    requires client in reg.allowed
  {
    exists sc :: sc in scopes && !(Available(reg, client, sc) && sc in reg.allowed[client])
  }

  /** The checks that an authorization and a device decision share. */
  method CheckConsent(reg: Registry, client: string, subject: string, scopes: seq<string>, explicit: seq<string>)
    returns (v: Verdict)
    ensures v.Granted? <==> Proper(Consent(client, subject, scopes, explicit, None, reg))
    ensures v.Granted? ==> v.consent == Consent(client, subject, scopes, explicit, None, reg)
    ensures v.InvalidClient? <==> client !in reg.allowed
    ensures v.InvalidScope? <==> client in reg.allowed && ScopeRefused(reg, client, scopes)
    ensures !v.InvalidRequest?
  {
    if client !in reg.allowed {
      return InvalidClient;
    }
    var found := Resolve(reg, scopes, client);
    if found.None? {
      return InvalidScope;
    }
    var allowed := AllowsAll(reg, client, scopes);
    if !allowed {
      return InvalidScope;
    }
    if subject == "" {
      return AccessDenied;
    }
    var ticked := CheckExplicit(reg, found.value, explicit);
    return if ticked then Granted(Consent(client, subject, scopes, explicit, None, reg)) else AccessDenied;
  }

  /** What an authorization request asks beside its scopes. */
  datatype Request = Request(client: string, redirect: string, challenge: string, transform: string)

  /** The redirect URI is one the client may be sent to, and the challenge is an S256 one. */
  predicate WellFormed(redirects: set<string>, req: Request) {
    req.redirect in redirects && IsChallenge(req.challenge) && req.transform == "S256"
  }

  /**
   A code is issued for exactly the well-formed requests with a proper consent. `redirects` are the
   client's usable URIs.
   */
  method Authorize(reg: Registry, redirects: set<string>, req: Request, subject: string, scopes: seq<string>,
                   explicit: seq<string>)
    returns (v: Verdict)
    ensures v.Granted? <==>
              WellFormed(redirects, req) && Proper(Consent(req.client, subject, scopes, explicit, None, reg))
    ensures v.Granted? ==> v.consent == Consent(req.client, subject, scopes, explicit, None, reg)
    ensures v.InvalidClient? <==> req.client !in reg.allowed
    ensures v.InvalidRequest? <==> req.client in reg.allowed && !WellFormed(redirects, req)
    ensures v.InvalidScope? <==>
              req.client in reg.allowed && WellFormed(redirects, req) && ScopeRefused(reg, req.client, scopes)
  {
    if req.client !in reg.allowed {
      return InvalidClient;
    }
    if req.redirect !in redirects {
      return InvalidRequest;
    }
    var shaped := ValidChallenge(req.challenge);
    if !shaped || req.transform != "S256" {
      return InvalidRequest;
    }
    v := CheckConsent(reg, req.client, subject, scopes, explicit);
  }

  /** What a decision grants: the requested scopes, or those of them that were chosen. */
  function Chosen(requested: seq<string>, chosen: Option<seq<string>>): seq<string> {
    if chosen.Some? then chosen.value else requested
  }

  /** A device request is approved for exactly the proper consents within it; an empty choice grants nothing. */
  method Decide(reg: Registry, client: string, requested: seq<string>, subject: string, chosen: Option<seq<string>>,
                explicit: seq<string>)
    returns (v: Verdict)
    ensures v.Granted? <==>
              chosen != Some([])
              && Proper(Consent(client, subject, Chosen(requested, chosen), explicit, Some(requested), reg))
    ensures v.Granted? ==>
              v.consent == Consent(client, subject, Chosen(requested, chosen), explicit, Some(requested), reg)
  {
    if subject == "" {
      return AccessDenied;
    }
    if chosen.Some? {
      if chosen.value == [] {
        return InvalidRequest;
      }
      for i := 0 to |chosen.value|
        invariant forall j | 0 <= j < i :: chosen.value[j] in requested
      {
        if chosen.value[i] !in requested {
          return InvalidScope;
        }
      }
    }
    v := CheckConsent(reg, client, subject, Chosen(requested, chosen), explicit);
    if v.Granted? {
      v := Granted(v.consent.(requested := Some(requested)));
    }
  }
}
