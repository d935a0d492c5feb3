/**
 The token endpoint called one request at a time (oauth/as.go, oauth/grants.go), and the claim that
 sweeping expired records (oauth/tokens.go) cannot be observed through it. A store error, the
 description of a protocol error and the audit trail are not part of an answer here.
 */
module Sweep {
  import opened Options
  import opened TokenStore

  datatype Kind = AccessRecord | RefreshRecord

  /** A stored token row without its value. */
  datatype Row = Row(kind: Kind, client: string, scopes: seq<string>, issued: int, expires: int)

  /** What one client can currently do as one subject. */
  datatype Grant = Grant(scopes: set<string>, hasRefresh: bool, issued: int, expires: int)

  datatype Call =
    | Authorize(value: string, code: Code)
    | Exchange(client: string, value: string, redirect: string, verifier: string, at: string, rt: string,
               family: string)
    | Rotate(client: string, value: string, asked: seq<string>, at: string, rt: string)
    | Revoke(client: string, value: string)
    | Introspect(value: string)
    | Grants(subject: string)
    | RevokeGrant(subject: string, client: string)

  datatype Answer =
    | Done
    | Pair(at: string, rt: string, scopes: seq<string>)
    | Info(subject: string, client: string, scopes: seq<string>, expires: int)
    | Inactive
    | GrantList(grants: map<string, Grant>)
    | InvalidClient
    | InvalidGrant
    | InvalidScope

  /** The registered clients and the two lifetimes. */
  datatype Config = Config(clients: set<string>, accessTTL: nat, refreshTTL: nat)

  // ---------------------------------------------------------------- grants

  /** The subject's rows that are still live. */
  function Live(s: Store, subject: string, now: int): set<Row> {
    (set v | v in s.access && s.access[v].subject == subject && now < s.access[v].expires ::
       RowOf(AccessRecord, s.access[v]))
    + (set v | v in s.refresh && s.refresh[v].subject == subject && now < s.refresh[v].expires ::
         RowOf(RefreshRecord, s.refresh[v]))
  }

  function RowOf(kind: Kind, t: Token): Row {
    Row(kind, t.client, t.scopes, t.issued, t.expires)
  }

  function Clients(rows: set<Row>): set<string> {
    set r | r in rows :: r.client
  }

  /** All scopes of the client's rows, the earliest issue, the latest expiry, and whether it can renew. */
  ghost predicate IsGrant(rows: set<Row>, client: string, g: Grant) {
    && (forall sc :: sc in g.scopes <==> exists r :: r in rows && r.client == client && sc in r.scopes)
    && (g.hasRefresh <==> exists r :: r in rows && r.client == client && r.kind == RefreshRecord)
    && (exists r :: r in rows && r.client == client && r.issued == g.issued)
    && (exists r :: r in rows && r.client == client && r.expires == g.expires)
    && (forall r | r in rows && r.client == client :: g.issued <= r.issued && r.expires <= g.expires)
  }

  lemma GrantIsUnique(rows: set<Row>, client: string, g: Grant, h: Grant)
    requires IsGrant(rows, client, g) && IsGrant(rows, client, h)
    ensures g == h
  {
    assert forall sc :: sc in g.scopes <==> sc in h.scopes;
  }

  ghost predicate AreGrants(rows: set<Row>, grants: map<string, Grant>) {
    grants.Keys == Clients(rows) && forall c | c in grants :: IsGrant(rows, c, grants[c])
  }

  function Scopes(s: seq<string>): set<string> {
    set sc | sc in s
  }

  function Unexpired(rows: seq<Row>, now: int): set<Row> {
    set r | r in rows && now < r.expires
  }

  /** One row folded into its client's grant. */
  function Folded(grants: map<string, Grant>, r: Row): Grant {
    var g := if r.client in grants then grants[r.client] else Grant({}, false, r.issued, r.expires);
    Grant(g.scopes + Scopes(r.scopes), g.hasRefresh || r.kind == RefreshRecord,
          if r.issued < g.issued then r.issued else g.issued, if r.expires > g.expires then r.expires else g.expires)
  }

  /** The fold over the listed rows gives each client its grant, in whatever order the store lists them. */
  method CollectGrants(rows: seq<Row>, now: int) returns (grants: map<string, Grant>)
    ensures AreGrants(Unexpired(rows, now), grants)
  {
    hide AreGrants;
    NoGrants();
    grants := map[];
    assert Unexpired(rows[..0], now) == {};
    for i := 0 to |rows|
      invariant AreGrants(Unexpired(rows[..i], now), grants)
    {
      assert rows[..i + 1] == rows[..i] + [rows[i]];
      if rows[i].expires <= now {
        assert Unexpired(rows[..i + 1], now) == Unexpired(rows[..i], now);
        continue;
      }
      assert Unexpired(rows[..i + 1], now) == Unexpired(rows[..i], now) + {rows[i]};
      GrantNext(Unexpired(rows[..i], now), grants, rows[i]);
      grants := grants[rows[i].client := Folded(grants, rows[i])];
    }
    assert rows[..|rows|] == rows;
  }

  lemma NoGrants()
    ensures AreGrants({}, map[])
  {
  }

  lemma GrantNext(rows: set<Row>, grants: map<string, Grant>, r: Row)
    requires AreGrants(rows, grants)
    ensures AreGrants(rows + {r}, grants[r.client := Folded(grants, r)])
  {
    assert Clients(rows + {r}) == Clients(rows) + {r.client};
    forall c | c in grants && c != r.client
      ensures IsGrant(rows + {r}, c, grants[c])
    {
      OtherGrant(rows, r, c, grants[c]);
    }
    if r.client in grants {
      OldClient(rows, grants, r);
    } else {
      NewClient(rows, grants, r);
    }
  }

  lemma OtherGrant(rows: set<Row>, r: Row, c: string, g: Grant)
    requires IsGrant(rows, c, g) && c != r.client
    ensures IsGrant(rows + {r}, c, g)
  {
  }

  lemma OldClient(rows: set<Row>, grants: map<string, Grant>, r: Row)
    requires r.client in grants && IsGrant(rows, r.client, grants[r.client])
    ensures IsGrant(rows + {r}, r.client, Folded(grants, r))
  {
    var g, h := grants[r.client], Folded(grants, r);
    var a :| a in rows && a.client == r.client && a.issued == g.issued;
    var b :| b in rows && b.client == r.client && b.expires == g.expires;
    assert (if r.issued < g.issued then r else a) in rows + {r}
        && (if r.expires > g.expires then r else b) in rows + {r};
    forall sc
      ensures sc in h.scopes <==> exists x :: x in rows + {r} && x.client == r.client && sc in x.scopes
    {
      if sc in r.scopes {
        assert r in rows + {r};
      } else if sc in g.scopes {
        var x :| x in rows && x.client == r.client && sc in x.scopes;
        assert x in rows + {r};
      }
    }
    if r.kind == RefreshRecord {
      assert r in rows + {r};
    } else if g.hasRefresh {
      var x :| x in rows && x.client == r.client && x.kind == RefreshRecord;
      assert x in rows + {r};
    }
  }

  lemma NewClient(rows: set<Row>, grants: map<string, Grant>, r: Row)
    requires r.client !in grants && r.client !in Clients(rows)
    ensures IsGrant(rows + {r}, r.client, Folded(grants, r))
  {
    assert r in rows + {r};
    assert forall x | x in rows :: x.client != r.client;
    forall sc
      ensures sc in Scopes(r.scopes) <==> exists x :: x in rows + {r} && x.client == r.client && sc in x.scopes
    {
    }
  }

  lemma {:induction false} GrantsExist(rows: set<Row>)
    ensures exists grants :: AreGrants(rows, grants)
    decreases |rows|
  {
    if rows == {} {
      NoGrants();
    } else {
      var r :| r in rows;
      GrantsExist(rows - {r});
      var grants :| AreGrants(rows - {r}, grants);
      GrantNext(rows - {r}, grants, r);
      assert rows - {r} + {r} == rows;
    }
  }

  ghost function GrantsOf(rows: set<Row>): (grants: map<string, Grant>)
    ensures AreGrants(rows, grants)
  {
    GrantsExist(rows);
    var grants :| AreGrants(rows, grants);
    grants
  }

  /** There is only one such list, so the order of the rows does not show. */
  lemma GrantsAreUnique(rows: set<Row>, g: map<string, Grant>, h: map<string, Grant>)
    requires AreGrants(rows, g) && AreGrants(rows, h)
    ensures g == h
  {
    forall c | c in g
      ensures g[c] == h[c]
    {
      GrantIsUnique(rows, c, g[c], h[c]);
    }
  }

  /** The rows of one map that belong to the subject. */
  method RowsOfSubject(kind: Kind, m: map<string, Token>, subject: string) returns (rows: seq<Row>)
    ensures forall r :: r in rows <==> exists v :: v in m && m[v].subject == subject && r == RowOf(kind, m[v])
  {
    rows := [];
    var todo := m.Keys;
    while todo != {}
      invariant todo <= m.Keys
      invariant forall r :: r in rows <==>
                exists v :: v in m && v !in todo && m[v].subject == subject && r == RowOf(kind, m[v])
      decreases todo
    {
      var v :| v in todo;
      ghost var before, left := rows, todo;
      if m[v].subject == subject {
        rows := rows + [RowOf(kind, m[v])];
      }
      todo := todo - {v};
      forall r
        ensures r in rows <==> exists w :: w in m && w !in todo && m[w].subject == subject && r == RowOf(kind, m[w])
      {
        if r in before {
          var w :| w in m && w !in left && m[w].subject == subject && r == RowOf(kind, m[w]);
          assert w !in todo;
        }
      }
    }
  }

  method ListGrants(s: Store, subject: string, now: int) returns (grants: map<string, Grant>)
    ensures grants == GrantsOf(Live(s, subject, now))
  {
    var access := RowsOfSubject(AccessRecord, s.access, subject);
    var refresh := RowsOfSubject(RefreshRecord, s.refresh, subject);
    grants := CollectGrants(access + refresh, now);
    forall r
      ensures r in Unexpired(access + refresh, now) <==> r in Live(s, subject, now)
    {
      if r in access && now < r.expires {
        var v :| v in s.access && s.access[v].subject == subject && r == RowOf(AccessRecord, s.access[v]);
        assert r in Live(s, subject, now);
      }
      if r in refresh && now < r.expires {
        var v :| v in s.refresh && s.refresh[v].subject == subject && r == RowOf(RefreshRecord, s.refresh[v]);
        assert r in Live(s, subject, now);
      }
    }
    assert Unexpired(access + refresh, now) == Live(s, subject, now);
    GrantsAreUnique(Live(s, subject, now), grants, GrantsOf(Live(s, subject, now)));
  }

  // ---------------------------------------------------------------- the calls

  function Issued(cfg: Config, s: Store, now: int, client: string, subject: string, scopes: seq<string>,
                  family: string, at: string, rt: string): Store
  {
    s.(access := s.access[at := Token(client, subject, scopes, family, now, now + cfg.accessTTL)],
       refresh := s.refresh[rt := Token(client, subject, scopes, family, now, now + cfg.refreshTTL)])
  }

  predicate CodeHolds(c: Code, client: string, redirect: string, verifier: string, now: int) {
    now < c.expires && c.client == client && c.redirect == redirect && verifier != "" && c.challenge == S256(verifier)
  }

  predicate Widens(asked: seq<string>, granted: seq<string>) {
    exists sc :: sc in asked && sc !in granted
  }

  /** The claim of a refresh value that is not somebody else's. */
  function Claimed(cfg: Config, s: Store, now: int, call: Call): (Store, Answer)
    requires call.Rotate?
  {
    var v := call.value;
    var spent := s.ConsumeRefresh(v);
    match s.RefreshClaim(v, now)
    case Unknown => (s, InvalidGrant)
    case Reused(family) => (s.RevokeFamily(family), InvalidGrant)
    case Live(rt) =>
      if now >= rt.expires || rt.client != call.client then (spent, InvalidGrant)
      else if Widens(call.asked, rt.scopes) then (spent, InvalidScope)
      else
        var scopes := if call.asked == [] then rt.scopes else call.asked;
        (Issued(cfg, spent, now, call.client, rt.subject, scopes, rt.family, call.at, call.rt),
         Pair(call.at, call.rt, scopes))
  }

  ghost function Respond(cfg: Config, s: Store, now: int, call: Call): (Store, Answer) {
    match call
    case Authorize(v, code) => (s.(codes := s.codes[v := code]), Done)
    case Exchange(client, v, redirect, verifier, at, rt, family) =>
      if client !in cfg.clients then (s, InvalidClient)
      else if v !in s.codes || !CodeHolds(s.codes[v], client, redirect, verifier, now) then (s, InvalidGrant)
      else
        var c := s.codes[v];
        (Issued(cfg, s.(codes := s.codes - {v}), now, client, c.subject, c.scopes, family, at, rt),
         Pair(at, rt, c.scopes))
    case Rotate(client, v, _, _, _) =>
      if client !in cfg.clients then (s, InvalidClient)
      else
        var owner := s.TokenOwner(v);
        if owner.Some? && owner.value != client then (s, InvalidGrant) else Claimed(cfg, s, now, call)
    case Revoke(client, v) =>
      if client !in cfg.clients then (s, InvalidClient)
      else
        var owner := if s.TokenOwner(v).Some? then s.TokenOwner(v) else s.SpentRefreshOwner(v, now);
        (if owner == Some(client) then Forgotten(s, v) else s, Done)
    case Introspect(v) =>
      (s, if v !in s.access || now >= s.access[v].expires || s.access[v].client !in cfg.clients then Inactive
          else Info(s.access[v].subject, s.access[v].client, s.access[v].scopes, s.access[v].expires))
    case Grants(subject) => (s, GrantList(GrantsOf(Live(s, subject, now))))
    case RevokeGrant(subject, client) => (s.DeleteBySubjectClient(subject, client), Done)
  }

  /** A call and the time it is made at. */
  datatype Timed = Timed(now: int, call: Call)

  ghost function Answers(cfg: Config, s: Store, calls: seq<Timed>): seq<Answer>
    decreases |calls|
  {
    if calls == [] then [] else
      var r := Respond(cfg, s, calls[0].now, calls[0].call);
      [r.1] + Answers(cfg, r.0, calls[1..])
  }

  // ---------------------------------------------------------------- drawn values

  predicate Unused(s: Store, v: string) {
    v !in s.codes && v !in s.access && v !in s.refresh && v !in s.tombs
  }

  /** Values are drawn fresh for the store the call runs on. */
  predicate Draws(s: Store, call: Call) {
    match call
    case Authorize(v, _) => Unused(s, v)
    case Exchange(_, _, _, _, at, rt, _) => Unused(s, at) && Unused(s, rt) && at != rt
    case Rotate(_, v, _, at, rt) => Unused(s, at) && Unused(s, rt) && at != rt && at != v && rt != v
    case _ => true
  }

  ghost predicate AllDraw(cfg: Config, s: Store, calls: seq<Timed>)
    decreases |calls|
  {
    calls != [] ==> Draws(s, calls[0].call) && AllDraw(cfg, Respond(cfg, s, calls[0].now, calls[0].call).0, calls[1..])
  }

  /** No value names two things. */
  ghost predicate Distinct(s: Store) {
    forall v :: !(v in s.access && v in s.refresh) && !(v in s.access && v in s.tombs)
      && !(v in s.refresh && v in s.tombs)
  }

  // ---------------------------------------------------------------- swept against unswept

  /** w has the same records as u except some that had expired by t. */
  ghost predicate Lost<T(!new)>(u: map<string, T>, w: map<string, T>, expires: T -> int, t: int) {
    && (forall v | v in w :: v in u && w[v] == u[v])
    && (forall v | v in u && v !in w :: expires(u[v]) <= t)
  }

  function CodeExpiry(c: Code): int {
    c.expires
  }

  function TokenExpiry(t: Token): int {
    t.expires
  }

  function TombExpiry(t: Tomb): int {
    t.expires
  }

  ghost predicate Swept(u: Store, w: Store, t: int) {
    && Lost(u.codes, w.codes, CodeExpiry, t) && Lost(u.access, w.access, TokenExpiry, t)
    && Lost(u.refresh, w.refresh, TokenExpiry, t) && Lost(u.tombs, w.tombs, TombExpiry, t)
  }

  lemma SweepIsSwept(u: Store, t: int)
    ensures Swept(u, u.SweepExpired(t), t)
  {
  }

  lemma LiveAgrees(u: Store, w: Store, t: int, subject: string, now: int)
    requires Swept(u, w, t) && t <= now
    ensures Live(u, subject, now) == Live(w, subject, now)
  {
    forall v | v in u.access && now < u.access[v].expires
      ensures v in w.access
    {
    }
    forall v | v in u.refresh && now < u.refresh[v].expires
      ensures v in w.refresh
    {
    }
  }

  lemma IssuedAgrees(cfg: Config, u: Store, w: Store, t: int, now: int, client: string, subject: string,
                     scopes: seq<string>,
                     family: string, at: string, rt: string)
    requires Swept(u, w, t) && Distinct(u) && at != rt
    requires at !in u.refresh && at !in u.tombs && rt !in u.access && rt !in u.tombs
    ensures Swept(Issued(cfg, u, now, client, subject, scopes, family, at, rt),
                  Issued(cfg, w, now, client, subject, scopes, family, at, rt), t)
    ensures Distinct(Issued(cfg, u, now, client, subject, scopes, family, at, rt))
  {
  }

  lemma SpendingAgrees(u: Store, w: Store, t: int, v: string)
    requires Swept(u, w, t) && Distinct(u)
    ensures Swept(u.ConsumeRefresh(v), w.ConsumeRefresh(v), t) && Distinct(u.ConsumeRefresh(v))
  {
    SweptFacts(u, w, t, v);
    assert v in u.refresh ==> v !in u.access && v !in u.tombs;
    hide Lost;
    DropAgrees(u.refresh, w.refresh, TokenExpiry, t, v);
    if v in u.refresh {
      PutAgrees(u.tombs, w.tombs, TombExpiry, t, v, TombOf(u.refresh[v]));
    }
  }

  lemma PutAgrees<T(!new)>(u: map<string, T>, w: map<string, T>, expires: T -> int, t: int, v: string, x: T)
    requires Lost(u, w, expires, t)
    ensures Lost(u[v := x], w[v := x], expires, t)
    ensures expires(x) <= t && v !in w ==> Lost(u[v := x], w, expires, t)
  {
  }

  lemma KeepAgrees<T(!new)>(u: map<string, T>, w: map<string, T>, expires: T -> int, t: int, drop: T -> bool)
    requires Lost(u, w, expires, t)
    ensures Lost(Keep(u, drop), Keep(w, drop), expires, t) && Keep(u, drop).Keys <= u.Keys
  {
  }

  lemma FewerIsDistinct(s: Store, r: Store)
    requires Distinct(s) && r.access.Keys <= s.access.Keys && r.refresh.Keys <= s.refresh.Keys
    requires r.tombs.Keys <= s.tombs.Keys
    ensures Distinct(r)
  {
  }

  lemma FamilyAgrees(u: Store, w: Store, t: int, family: string)
    requires Swept(u, w, t) && Distinct(u)
    ensures Swept(u.RevokeFamily(family), w.RevokeFamily(family), t) && Distinct(u.RevokeFamily(family))
  {
    hide Lost, Distinct, Keep;
    KeepAgrees(u.access, w.access, TokenExpiry, t, (x: Token) => x.family == family);
    KeepAgrees(u.refresh, w.refresh, TokenExpiry, t, (x: Token) => x.family == family);
    KeepAgrees(u.tombs, w.tombs, TombExpiry, t, (x: Tomb) => x.family == family);
    FewerIsDistinct(u, u.RevokeFamily(family));
  }

  lemma RevokedAgrees(u: Store, w: Store, t: int, subject: string, client: string)
    requires Swept(u, w, t) && Distinct(u)
    ensures Swept(u.DeleteBySubjectClient(subject, client), w.DeleteBySubjectClient(subject, client), t)
    ensures Distinct(u.DeleteBySubjectClient(subject, client))
  {
    hide Lost, Distinct, Keep;
    KeepAgrees(u.codes, w.codes, CodeExpiry, t, (c: Code) => c.subject == subject && c.client == client);
    KeepAgrees(u.access, w.access, TokenExpiry, t, (x: Token) => x.subject == subject && x.client == client);
    KeepAgrees(u.refresh, w.refresh, TokenExpiry, t, (x: Token) => x.subject == subject && x.client == client);
    KeepAgrees(u.tombs, w.tombs, TombExpiry, t, (x: Tomb) => x.subject == subject && x.client == client);
    FewerIsDistinct(u, u.DeleteBySubjectClient(subject, client));
  }

  /** Both stores answer the call alike and stay alike. */
  ghost predicate Alike(cfg: Config, u: Store, w: Store, t: int, now: int, call: Call) {
    var a, b := Respond(cfg, u, now, call), Respond(cfg, w, now, call);
    a.1 == b.1 && Swept(a.0, b.0, t) && Distinct(a.0)
  }

  /** Claiming a value that the unswept store does not know as somebody else's. */
  lemma ClaimAlike(cfg: Config, u: Store, w: Store, t: int, now: int, call: Call)
    requires call.Rotate? && Swept(u, w, t) && t <= now && Distinct(u) && Draws(u, call)
    requires u.TokenOwner(call.value) == None || u.TokenOwner(call.value) == Some(call.client)
    ensures var a, b := Claimed(cfg, u, now, call), Claimed(cfg, w, now, call);
            a.1 == b.1 && Swept(a.0, b.0, t) && Distinct(a.0)
  {
    hide Swept, Issued;
    var v := call.value;
    SweptFacts(u, w, t, v);
    SpendingAgrees(u, w, t, v);
    if v in u.refresh && now < u.refresh[v].expires && !Widens(call.asked, u.refresh[v].scopes) {
      var rt := u.refresh[v];
      var scopes := if call.asked == [] then rt.scopes else call.asked;
      IssuedAgrees(cfg, u.ConsumeRefresh(v), w.ConsumeRefresh(v), t, now, call.client, rt.subject, scopes, rt.family,
                   call.at, call.rt);
    } else if v in u.tombs {
      FamilyAgrees(u, w, t, u.tombs[v].family);
    }
    SpentIsAlike(u, w, t, v);
    hide Distinct;
  }

  /** Spending in the unswept store what the swept one has lost. */
  lemma SpentIsAlike(u: Store, w: Store, t: int, v: string)
    requires Swept(u, w, t) && Distinct(u)
    ensures v !in w.refresh ==> Swept(u.ConsumeRefresh(v), w, t)
  {
    SpendingAgrees(u, w, t, v);
    hide Swept;
  }

  lemma RotateAlike(cfg: Config, u: Store, w: Store, t: int, now: int, call: Call)
    requires call.Rotate? && Swept(u, w, t) && t <= now && Distinct(u) && Draws(u, call)
    ensures Alike(cfg, u, w, t, now, call)
  {
    var v := call.value;
    SweptFacts(u, w, t, v);
    assert v in u.access || v in u.refresh ==> v !in u.tombs;
    assert v in u.access ==> v !in u.refresh;
    hide Swept, Distinct;
    if u.TokenOwner(v) == None || u.TokenOwner(v) == Some(call.client) {
      ClaimAlike(cfg, u, w, t, now, call);
      hide Claimed;
    }
  }

  /** What Swept says about one value. */
  ghost predicate Facts(u: Store, w: Store, t: int, v: string) {
    && (v in w.access ==> v in u.access && w.access[v] == u.access[v])
        && (v in u.access && v !in w.access ==> u.access[v].expires <= t)
    && (v in w.refresh ==> v in u.refresh && w.refresh[v] == u.refresh[v])
        && (v in u.refresh && v !in w.refresh ==> u.refresh[v].expires <= t)
    && (v in w.tombs ==> v in u.tombs && w.tombs[v] == u.tombs[v])
        && (v in u.tombs && v !in w.tombs ==> u.tombs[v].expires <= t)
    && (v in w.codes ==> v in u.codes && w.codes[v] == u.codes[v])
        && (v in u.codes && v !in w.codes ==> u.codes[v].expires <= t)
  }

  lemma SweptFacts(u: Store, w: Store, t: int, v: string)
    requires Swept(u, w, t)
    ensures Facts(u, w, t, v)
  {
  }

  lemma ExchangeAlike(cfg: Config, u: Store, w: Store, t: int, now: int, call: Call)
    requires call.Exchange? && Swept(u, w, t) && t <= now && Distinct(u) && Draws(u, call)
    ensures Alike(cfg, u, w, t, now, call)
  {
    var v := call.value;
    SweptFacts(u, w, t, v);
    var a, b := u.(codes := u.codes - {v}), w.(codes := w.codes - {v});
    assert Swept(a, b, t) && Distinct(a);
    if v in u.codes {
      IssuedAgrees(cfg, a, b, t, now, call.client, u.codes[v].subject, u.codes[v].scopes, call.family, call.at,
                   call.rt);
    }
    hide Swept, Distinct, Issued;
  }

  lemma RevokeAlike(cfg: Config, u: Store, w: Store, t: int, now: int, call: Call)
    requires call.Revoke? && Swept(u, w, t) && t <= now && Distinct(u)
    ensures Alike(cfg, u, w, t, now, call)
  {
    var v := call.value;
    SweptFacts(u, w, t, v);
    DeletedAgrees(u, w, t, v);
    assert v in u.access || v in u.refresh ==> v !in u.tombs;
    assert v in u.access ==> v !in u.refresh;
    hide Swept, Distinct, Forgotten;
  }

  lemma DropAgrees<T(!new)>(u: map<string, T>, w: map<string, T>, expires: T -> int, t: int, v: string)
    requires Lost(u, w, expires, t)
    ensures Lost(u - {v}, w - {v}, expires, t) && (v !in w ==> w - {v} == w)
  {
  }

  function Forgotten(s: Store, v: string): Store {
    s.(access := s.access - {v}).DeleteRefresh(v)
  }

  lemma DeletedAgrees(u: Store, w: Store, t: int, v: string)
    requires Swept(u, w, t) && Distinct(u)
    ensures Swept(Forgotten(u, v), Forgotten(w, v), t) && Distinct(Forgotten(u, v))
    ensures v !in w.access && v !in w.refresh && v !in w.tombs ==> Forgotten(w, v) == w
  {
    hide Lost, Distinct;
    DropAgrees(u.access, w.access, TokenExpiry, t, v);
    DropAgrees(u.refresh, w.refresh, TokenExpiry, t, v);
    DropAgrees(u.tombs, w.tombs, TombExpiry, t, v);
    FewerIsDistinct(u, Forgotten(u, v));
  }

  lemma RespondAlike(cfg: Config, u: Store, w: Store, t: int, now: int, call: Call)
    requires Swept(u, w, t) && t <= now && Distinct(u) && Draws(u, call)
    ensures Alike(cfg, u, w, t, now, call)
  {
    match call
    case Authorize(_, _) =>
    case Exchange(_, _, _, _, _, _, _) => ExchangeAlike(cfg, u, w, t, now, call);
    case Rotate(_, _, _, _, _) => RotateAlike(cfg, u, w, t, now, call);
    case Revoke(_, _) => RevokeAlike(cfg, u, w, t, now, call);
    case Introspect(v) => SweptFacts(u, w, t, v);
    case Grants(subject) => LiveAgrees(u, w, t, subject, now);
    case RevokeGrant(subject, client) => RevokedAgrees(u, w, t, subject, client);
  }

  lemma {:induction false} SweptAnswersAlike(cfg: Config, u: Store, w: Store, t: int, calls: seq<Timed>)
    requires Swept(u, w, t) && Distinct(u) && AllDraw(cfg, u, calls) && forall c | c in calls :: t <= c.now
    ensures Answers(cfg, u, calls) == Answers(cfg, w, calls)
    decreases |calls|
  {
    hide Swept, Distinct, Respond;
    if calls != [] {
      RespondAlike(cfg, u, w, t, calls[0].now, calls[0].call);
      SweptAnswersAlike(cfg, Respond(cfg, u, calls[0].now, calls[0].call).0,
                        Respond(cfg, w, calls[0].now, calls[0].call).0, t, calls[1..]);
    }
  }

  /** Whatever is called after a sweep, at whatever later times, is answered as if it had not happened. */
  lemma SweepIsUnobservable(cfg: Config, u: Store, t: int, calls: seq<Timed>)
    requires Distinct(u) && AllDraw(cfg, u, calls) && forall c | c in calls :: t <= c.now
    ensures Answers(cfg, u, calls) == Answers(cfg, u.SweepExpired(t), calls)
  {
    SweepIsSwept(u, t);
    SweptAnswersAlike(cfg, u, u.SweepExpired(t), t, calls);
  }
}
