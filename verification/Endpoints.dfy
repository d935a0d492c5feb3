/**
 What the token endpoints answer when they are called one at a time (oauth/as.go, oauth/grants.go), in
 terms of the stored records, and what one call means for the next: a pair introspects until it is
 revoked or expires, a code and a refresh value are good once, and presenting a spent value ends its
 family.
 */
module Endpoints {
  import opened Options
  import opened TokenStore
  import opened Sweep

  ghost function After(cfg: Config, s: Store, now: int, call: Call): Store {
    Respond(cfg, s, now, call).0
  }

  ghost function Answer(cfg: Config, s: Store, now: int, call: Call): Sweep.Answer {
    Respond(cfg, s, now, call).1
  }

  // ---------------------------------------------------------------- each call

  /** Introspection tells of a live access record of a registered client what is stored, and of nothing else. */
  lemma IntrospectIsExact(cfg: Config, s: Store, now: int, v: string)
    ensures After(cfg, s, now, Introspect(v)) == s
    ensures var a := Answer(cfg, s, now, Introspect(v));
            if v in s.access && now < s.access[v].expires && s.access[v].client in cfg.clients then
              && a.Info? && a.subject == s.access[v].subject && a.client == s.access[v].client
              && a.scopes == s.access[v].scopes && a.expires == s.access[v].expires
            else a == Inactive
  {
  }

  /** An authorization stores the code as it is given, and nothing else. */
  lemma AuthorizeIsExact(cfg: Config, s: Store, now: int, v: string, code: Code)
    ensures var n := After(cfg, s, now, Authorize(v, code));
            v in n.codes && n.codes[v] == code && SameBut(s, n, {v}) && n == s.(codes := n.codes)
    ensures Answer(cfg, s, now, Authorize(v, code)) == Done
  {
  }

  /** The pair is stored for this client and subject, with these scopes, from now for its two lifetimes. */
  ghost predicate PairStored(cfg: Config, n: Store, now: int, client: string, subject: string, scopes: seq<string>,
                             family: string, at: string, rt: string) {
    && at in n.access && n.access[at] == Token(client, subject, scopes, family, now, now + cfg.accessTTL)
    && rt in n.refresh && n.refresh[rt] == Token(client, subject, scopes, family, now, now + cfg.refreshTTL)
  }

  /** Of every other value the two stores know the same. */
  ghost predicate SameBut(s: Store, n: Store, vs: set<string>) {
    forall v | v !in vs ::
      && (v in n.codes <==> v in s.codes) && (v in s.codes ==> n.codes[v] == s.codes[v])
      && (v in n.access <==> v in s.access) && (v in s.access ==> n.access[v] == s.access[v])
      && (v in n.refresh <==> v in s.refresh) && (v in s.refresh ==> n.refresh[v] == s.refresh[v])
      && (v in n.tombs <==> v in s.tombs) && (v in s.tombs ==> n.tombs[v] == s.tombs[v])
  }

  /** An exchange issues exactly for a fitting code, which is then gone; otherwise it changes nothing. */
  lemma ExchangeIsExact(cfg: Config, s: Store, now: int, call: Call)
    requires call.Exchange?
    ensures var v, n, a := call.value, After(cfg, s, now, call), Answer(cfg, s, now, call);
            if call.client !in cfg.clients then n == s && a == InvalidClient
            else if && v in s.codes && now < s.codes[v].expires && s.codes[v].client == call.client
                    && s.codes[v].redirect == call.redirect && call.verifier != ""
                    && s.codes[v].challenge == S256(call.verifier)
            then
              && a == Pair(call.at, call.rt, s.codes[v].scopes) && n.codes == s.codes - {v} && n.tombs == s.tombs
              && SameBut(s, n, {v, call.at, call.rt})
              && PairStored(cfg, n, now, call.client, s.codes[v].subject, s.codes[v].scopes, call.family, call.at,
                            call.rt)
            else n == s && a == InvalidGrant
  {
  }

  /** What a refresh may rotate. */
  predicate Rotatable(s: Store, now: int, call: Call)
    requires call.Rotate?
  {
    call.value in s.refresh && now < s.refresh[call.value].expires && s.refresh[call.value].client == call.client
  }

  /** The value is live for another client. */
  predicate Foreign(s: Store, client: string, v: string) {
    (v in s.access && s.access[v].client != client)
      || (v !in s.access && v in s.refresh && s.refresh[v].client != client)
  }

  /** A refresh that is refused for its client or its caller changes nothing. */
  lemma ForeignRotateIsRefused(cfg: Config, s: Store, now: int, call: Call)
    requires call.Rotate? && (call.client !in cfg.clients || Foreign(s, call.client, call.value))
    ensures After(cfg, s, now, call) == s
    ensures Answer(cfg, s, now, call) == if call.client !in cfg.clients then InvalidClient else InvalidGrant
  {
  }

  /**
   A refresh rotates a live value: what it asks for if that is granted, and all that is granted if
   it asks nothing.
   */
  lemma RotateIsExact(cfg: Config, s: Store, now: int, call: Call)
    requires call.Rotate? && call.client in cfg.clients && !Foreign(s, call.client, call.value)
    requires call.value in s.refresh
    requires call.at != call.value && call.rt != call.value
    ensures var v, n, a := call.value, After(cfg, s, now, call), Answer(cfg, s, now, call);
            var t := s.refresh[v];
            && v !in n.refresh && v in n.tombs && n.tombs[v] == Tomb(t.family, t.client, t.subject, t.expires)
            && n.codes == s.codes && SameBut(s, n, {v, call.at, call.rt})
            && (if !Rotatable(s, now, call) then a == InvalidGrant && n.access == s.access
                else if exists sc :: sc in call.asked && sc !in t.scopes then a == InvalidScope && n.access == s.access
                else
                  var scopes := if call.asked == [] then t.scopes else call.asked;
                  && a == Pair(call.at, call.rt, scopes)
                  && PairStored(cfg, n, now, t.client, t.subject, scopes, t.family, call.at, call.rt))
  {
    hide SameBut, PairStored, Issued, Distinct;
    var spent := s.ConsumeRefresh(call.value);
    SpendsOnly(s, call.value);
    var t := s.refresh[call.value];
    var scopes := if call.asked == [] then t.scopes else call.asked;
    StoresOnly(cfg, spent, now, t.client, t.subject, scopes, t.family, call.at, call.rt);
    var n := Issued(cfg, spent, now, t.client, t.subject, scopes, t.family, call.at, call.rt);
    SameButBoth(s, spent, n, call.value, call.at, call.rt);
    SameButMore(s, spent, {call.value}, {call.value, call.at, call.rt});
  }

  lemma SpendsOnly(s: Store, v: string)
    requires v in s.refresh
    ensures var n, t := s.ConsumeRefresh(v), s.refresh[v];
            && SameBut(s, n, {v}) && n.access == s.access && n.codes == s.codes
            && v !in n.refresh && v in n.tombs && n.tombs[v] == Tomb(t.family, t.client, t.subject, t.expires)
  {
  }

  lemma StoresOnly(cfg: Config, s: Store, now: int, client: string, subject: string, scopes: seq<string>,
                   family: string, at: string, rt: string)
    ensures var n := Issued(cfg, s, now, client, subject, scopes, family, at, rt);
            && SameBut(s, n, {at, rt}) && PairStored(cfg, n, now, client, subject, scopes, family, at, rt)
            && n.codes == s.codes && n.tombs == s.tombs
  {
  }

  lemma SameButBoth(s: Store, m: Store, n: Store, v: string, at: string, rt: string)
    requires SameBut(s, m, {v}) && SameBut(m, n, {at, rt})
    ensures SameBut(s, n, {v, at, rt})
    ensures v != at && v != rt && v !in m.refresh ==> v !in n.refresh
  {
  }

  lemma SameButMore(s: Store, n: Store, vs: set<string>, ws: set<string>)
    requires SameBut(s, n, vs) && vs <= ws
    ensures SameBut(s, n, ws)
  {
  }

  /** Presenting a spent value ends its family while its tombstone lasts; anything else unknown changes nothing. */
  lemma SpentRotateIsExact(cfg: Config, s: Store, now: int, call: Call)
    requires call.Rotate? && call.client in cfg.clients && !Foreign(s, call.client, call.value)
    requires call.value !in s.refresh
    ensures Answer(cfg, s, now, call) == InvalidGrant
    ensures var v, n := call.value, After(cfg, s, now, call);
            if v in s.tombs && now < s.tombs[v].expires && s.tombs[v].family != "" then
              && n.codes == s.codes
              && (forall w :: w in n.access <==> w in s.access && s.access[w].family != s.tombs[v].family)
              && (forall w :: w in n.refresh <==> w in s.refresh && s.refresh[w].family != s.tombs[v].family)
              && (forall w :: w in n.tombs <==> w in s.tombs && s.tombs[w].family != s.tombs[v].family)
            else n == s
  {
  }

  /**
   Revocation of a value of one's own removes it, live or spent; of anything else it is told the
   same and removes nothing.
   */
  lemma RevokeIsExact(cfg: Config, s: Store, now: int, client: string, v: string)
    requires Distinct(s)
    ensures var n := After(cfg, s, now, Revoke(client, v));
            && Answer(cfg, s, now, Revoke(client, v)) == (if client in cfg.clients then Done else InvalidClient)
            && (if client in cfg.clients
                   && (|| (v in s.access && s.access[v].client == client)
                       || (v in s.refresh && s.refresh[v].client == client)
                       || (v in s.tombs && now < s.tombs[v].expires && s.tombs[v].client == client))
                then v !in n.access && v !in n.refresh && v !in n.tombs && n.codes == s.codes && SameBut(s, n, {v})
                else n == s)
  {
  }

  /** The subject has an unexpired record of the client in the map. */
  predicate HasLive(m: map<string, Token>, subject: string, client: string, now: int) {
    exists v :: v in m && m[v].subject == subject && m[v].client == client && now < m[v].expires
  }

  /** The grants listed are those of the subject's live rows, one for each client that has any. */
  lemma GrantsAreExact(cfg: Config, s: Store, now: int, subject: string)
    ensures After(cfg, s, now, Grants(subject)) == s
    ensures var a := Answer(cfg, s, now, Grants(subject));
            && a.GrantList? && AreGrants(Sweep.Live(s, subject, now), a.grants)
            && (forall c :: c in a.grants <==>
                HasLive(s.access, subject, c, now) || HasLive(s.refresh, subject, c, now))
  {
    forall c
      ensures c in Clients(Sweep.Live(s, subject, now)) <==>
              HasLive(s.access, subject, c, now) || HasLive(s.refresh, subject, c, now)
    {
      ClientsAreLive(s, subject, c, now);
    }
  }

  lemma ClientsAreLive(s: Store, subject: string, c: string, now: int)
    ensures c in Clients(Sweep.Live(s, subject, now)) <==>
            HasLive(s.access, subject, c, now) || HasLive(s.refresh, subject, c, now)
  {
    var rows := Sweep.Live(s, subject, now);
    if HasLive(s.access, subject, c, now) {
      var v :| v in s.access && s.access[v].subject == subject && s.access[v].client == c && now < s.access[v].expires;
      assert RowOf(AccessRecord, s.access[v]) in rows;
    }
    if HasLive(s.refresh, subject, c, now) {
      var v :| v in s.refresh && s.refresh[v].subject == subject && s.refresh[v].client == c
        && now < s.refresh[v].expires;
      assert RowOf(RefreshRecord, s.refresh[v]) in rows;
    }
  }

  // ---------------------------------------------------------------- one call after another

  /** A code that fits is good for exactly one pair, and the pair introspects as what was granted until it expires. */
  lemma ExchangeOnce(cfg: Config, s: Store, now: int, call: Call, again: Call, later: int)
    requires call.Exchange? && Draws(s, call) && Answer(cfg, s, now, call).Pair?
    requires again.Exchange? && again.value == call.value && again.client in cfg.clients
    ensures var n := After(cfg, s, now, call);
            && Answer(cfg, n, later, again) == InvalidGrant
            && Answer(cfg, n, later, Introspect(call.at)) ==
               if later < now + cfg.accessTTL
               then Info(s.codes[call.value].subject, call.client, s.codes[call.value].scopes, now + cfg.accessTTL)
               else Inactive
  {
    ExchangeIsExact(cfg, s, now, call);
  }

  /**
   After a rotation the spent value presented again, by anybody it could belong to and before it would
   have expired, is refused and takes the new pair with it.
   */
  lemma ReuseEndsTheFamily(cfg: Config, s: Store, now: int, call: Call, later: int, again: Call, after: int)
    requires call.Rotate? && Draws(s, call) && Distinct(s) && Answer(cfg, s, now, call).Pair?
    requires s.refresh[call.value].family != "" && later < s.refresh[call.value].expires
    requires again.Rotate? && again.value == call.value && again.client in cfg.clients
    ensures var n := After(cfg, s, now, call);
            && Answer(cfg, n, later, again) == InvalidGrant
            && Answer(cfg, After(cfg, n, later, again), after, Introspect(call.at)) == Inactive
            && call.rt !in After(cfg, n, later, again).refresh
  {
    var n := After(cfg, s, now, call);
    assert !Foreign(s, call.client, call.value);
    RotateIsExact(cfg, s, now, call);
    hide Respond;
    assert call.value !in n.access;
    assert !Foreign(n, again.client, again.value);
    SpentRotateIsExact(cfg, n, later, again);
    IntrospectIsExact(cfg, After(cfg, n, later, again), after, call.at);
  }

  /** A token its client has revoked, or whose grant has been, does not introspect. */
  lemma RevokedIsInactive(cfg: Config, s: Store, now: int, later: int, v: string, client: string)
    requires Distinct(s) && client in cfg.clients && v in s.access && s.access[v].client == client
    ensures Answer(cfg, After(cfg, s, now, Revoke(client, v)), later, Introspect(v)) == Inactive
    ensures Answer(cfg, After(cfg, s, now, RevokeGrant(s.access[v].subject, client)), later, Introspect(v)) == Inactive
  {
    GrantDeleteIsExact(s, s.access[v].subject, client, v);
  }
}
