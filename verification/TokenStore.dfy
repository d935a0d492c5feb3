/**
 The in-memory token store of oauth/tokens.go and oauth/grants.go.

 `Store` is the value of its four maps and the functions on it are the atomic steps the interleaving
 model is built from; `MemoryStore` is the object that performs them in place, loops included.
 Records are keyed by the opaque value itself: TokenHash is taken to be injective.
 */
module TokenStore {
  import opened Options

  /** A PKCE challenge: the S256 digest of a verifier, or anything else a request may carry. */
  datatype Digest = S256(verifier: string) | Opaque(text: string)

  datatype Code = Code(client: string, subject: string, scopes: seq<string>, redirect: string, challenge: Digest,
                       expires: int)

  /** An access or refresh record; the two have the same fields in the source. */
  datatype Token = Token(client: string, subject: string, scopes: seq<string>, family: string, issued: int,
                         expires: int)

  /** What a spent refresh value leaves behind. */
  datatype Tomb = Tomb(family: string, client: string, subject: string, expires: int)

  datatype Claim = Live(token: Token) | Reused(family: string) | Unknown

  function TombOf(t: Token): Tomb {
    Tomb(t.family, t.client, t.subject, t.expires)
  }

  function Keep<T>(m: map<string, T>, drop: T -> bool): map<string, T> {
    map v | v in m && !drop(m[v]) :: m[v]
  }

  datatype Store = Store(
    codes: map<string, Code>,
    access: map<string, Token>,
    refresh: map<string, Token>,
    tombs: map<string, Tomb>)
  {
    /** ConsumeRefresh's answer: expiry of the record itself is the caller's to judge. */
    function RefreshClaim(v: string, now: int): Claim {
      if v in refresh then Live(refresh[v])
      else if v in tombs && now < tombs[v].expires then Reused(tombs[v].family)
      else Unknown
    }

    function ConsumeRefresh(v: string): Store {
      if v in refresh then this.(refresh := refresh - {v}, tombs := tombs[v := TombOf(refresh[v])]) else this
    }

    function DeleteRefresh(v: string): Store {
      this.(refresh := refresh - {v}, tombs := tombs - {v})
    }

    function RevokeFamily(f: string): Store {
      if f == "" then this
      else this.(refresh := Keep(refresh, (t: Token) => t.family == f),
                 access := Keep(access, (t: Token) => t.family == f),
                 tombs := Keep(tombs, (t: Tomb) => t.family == f))
    }

    function DeleteBySubjectClient(subject: string, client: string): Store {
      Store(Keep(codes, (c: Code) => c.subject == subject && c.client == client),
            Keep(access, (t: Token) => t.subject == subject && t.client == client),
            Keep(refresh, (t: Token) => t.subject == subject && t.client == client),
            Keep(tombs, (t: Tomb) => t.subject == subject && t.client == client))
    }

    /** An empty filter field matches everything. */
    function RevokeTokens(client: string, subject: string): Store {
      Store(Keep(codes, (c: Code) => Matches(client, subject, c.client, c.subject)),
            Keep(access, (t: Token) => Matches(client, subject, t.client, t.subject)),
            Keep(refresh, (t: Token) => Matches(client, subject, t.client, t.subject)),
            Keep(tombs, (t: Tomb) => Matches(client, subject, t.client, t.subject)))
    }

    function SweepExpired(now: int): Store {
      Store(Keep(codes, (c: Code) => now >= c.expires),
            Keep(access, (t: Token) => now >= t.expires),
            Keep(refresh, (t: Token) => now >= t.expires),
            Keep(tombs, (t: Tomb) => now >= t.expires))
    }

    /** The owner of a live value, access before refresh. */
    function TokenOwner(v: string): Option<string> {
      if v in access then Some(access[v].client)
      else if v in refresh then Some(refresh[v].client)
      else None
    }

    function SpentRefreshOwner(v: string, now: int): Option<string> {
      if v in tombs && now < tombs[v].expires then Some(tombs[v].client) else None
    }

    /** The family a value belongs to, live or spent, without claiming it. */
    function RefreshFamily(v: string, now: int): Option<string> {
      if v in refresh then Some(refresh[v].family)
      else if v in tombs && now < tombs[v].expires then Some(tombs[v].family)
      else None
    }
  }

  predicate Matches(client: string, subject: string, c: string, s: string) {
    (client == "" || client == c) && (subject == "" || subject == s)
  }

  /** Per record: it goes exactly when each filter that is not empty is its own client or subject. */
  lemma RevokeTokensIsExact(s: Store, client: string, subject: string, v: string)
    ensures var n := s.RevokeTokens(client, subject);
            && (v in n.codes <==> v in s.codes && ((client != "" && s.codes[v].client != client)
                                                   || (subject != "" && s.codes[v].subject != subject)))
            && (v in n.access <==> v in s.access && ((client != "" && s.access[v].client != client)
                                                     || (subject != "" && s.access[v].subject != subject)))
            && (v in n.refresh <==> v in s.refresh && ((client != "" && s.refresh[v].client != client)
                                                       || (subject != "" && s.refresh[v].subject != subject)))
            && (v in n.tombs <==> v in s.tombs && ((client != "" && s.tombs[v].client != client)
                                                   || (subject != "" && s.tombs[v].subject != subject)))
            && SameWhereLeft(s, n, v)
  {
  }

  /** What is left of a value is what was there. */
  predicate SameWhereLeft(s: Store, n: Store, v: string) {
    && (v in n.codes ==> v in s.codes && n.codes[v] == s.codes[v])
    && (v in n.access ==> v in s.access && n.access[v] == s.access[v])
    && (v in n.refresh ==> v in s.refresh && n.refresh[v] == s.refresh[v])
    && (v in n.tombs ==> v in s.tombs && n.tombs[v] == s.tombs[v])
  }

  /** Per record: it goes exactly when it is of that subject and that client. */
  lemma GrantDeleteIsExact(s: Store, subject: string, client: string, v: string)
    ensures var n := s.DeleteBySubjectClient(subject, client);
            && (v in n.codes <==> v in s.codes && (s.codes[v].subject != subject || s.codes[v].client != client))
            && (v in n.access <==> v in s.access && (s.access[v].subject != subject || s.access[v].client != client))
            && (v in n.refresh <==>
                  v in s.refresh && (s.refresh[v].subject != subject || s.refresh[v].client != client))
            && (v in n.tombs <==> v in s.tombs && (s.tombs[v].subject != subject || s.tombs[v].client != client))
            && SameWhereLeft(s, n, v)
  {
  }

  /** Per record: it goes exactly when its deadline has come. */
  lemma SweepIsExact(s: Store, now: int, v: string)
    ensures var n := s.SweepExpired(now);
            && (v in n.codes <==> v in s.codes && now < s.codes[v].expires)
            && (v in n.access <==> v in s.access && now < s.access[v].expires)
            && (v in n.refresh <==> v in s.refresh && now < s.refresh[v].expires)
            && (v in n.tombs <==> v in s.tombs && now < s.tombs[v].expires)
            && SameWhereLeft(s, n, v)
  {
  }

  /** Per record: it goes exactly when it is of that family, and the empty family is nobody's. */
  lemma FamilyRevocationIsExact(s: Store, family: string, v: string)
    ensures var n := s.RevokeFamily(family);
            && (v in n.access <==> v in s.access && (family == "" || s.access[v].family != family))
            && (v in n.refresh <==> v in s.refresh && (family == "" || s.refresh[v].family != family))
            && (v in n.tombs <==> v in s.tombs && (family == "" || s.tombs[v].family != family))
            && n.codes == s.codes && SameWhereLeft(s, n, v)
  {
  }

  /**
   A live value can be claimed once. From then until its deadline presenting it again is a reuse of its
   family by its owner, and afterwards nothing is known of it; no other value notices.
   */
  lemma ClaimedOnce(s: Store, v: string, w: string, now: int, later: int)
    requires v in s.refresh
    ensures var n, t := s.ConsumeRefresh(v), s.refresh[v];
            && s.RefreshClaim(v, now) == Live(t)
            && n.RefreshClaim(v, later) == (if later < t.expires then Reused(t.family) else Unknown)
            && n.RefreshFamily(v, later) == (if later < t.expires then Some(t.family) else None)
            && n.SpentRefreshOwner(v, later) == (if later < t.expires then Some(t.client) else None)
            && s.RefreshFamily(v, now) == Some(t.family) && (v !in s.access ==> n.TokenOwner(v) == None)
            && (w != v ==> n.RefreshClaim(w, later) == s.RefreshClaim(w, later) && n.TokenOwner(w) == s.TokenOwner(w)
                           && n.RefreshFamily(w, later) == s.RefreshFamily(w, later)
                           && n.SpentRefreshOwner(w, later) == s.SpentRefreshOwner(w, later))
  {
  }

  /** A deleted refresh value is not known any more, not even as spent. */
  lemma DeletedIsForgotten(s: Store, v: string, w: string, now: int)
    ensures var n := s.DeleteRefresh(v);
            && n.RefreshClaim(v, now) == Unknown && n.SpentRefreshOwner(v, now) == None
               && n.RefreshFamily(v, now) == None
            && n.access == s.access && n.codes == s.codes
               && (w != v ==> n.RefreshClaim(w, now) == s.RefreshClaim(w, now))
  {
  }

  /** One deletion loop over a map: drop the matching entries and count them. */
  method Prune<T>(m: map<string, T>, drop: T -> bool) returns (kept: map<string, T>, removed: nat)
    ensures kept == Keep(m, drop)
    ensures removed + |kept| == |m|
  {
    var todo := m.Keys;
    kept, removed := m, 0;
    while todo != {}
      invariant todo <= m.Keys
      invariant kept == map v | v in m && (v in todo || !drop(m[v])) :: m[v]
      invariant removed + |kept| == |m|
      decreases todo
    {
      var v :| v in todo;
      if drop(m[v]) {
        ghost var before := kept;
        kept := kept - {v};
        assert before == kept[v := m[v]];
        removed := removed + 1;
      }
      todo := todo - {v};
    }
  }

  class MemoryStore {
    var codes: map<string, Code>
    var access: map<string, Token>
    var refresh: map<string, Token>
    var tombs: map<string, Tomb>

    ghost function View(): Store
      reads this
    {
      Store(codes, access, refresh, tombs)
    }

    method ConsumeCode(v: string) returns (c: Option<Code>)
      modifies this
      ensures c == if v in old(codes) then Some(old(codes)[v]) else None
      ensures View() == old(View()).(codes := old(codes) - {v})
    {
      if v !in codes {
        return None;
      }
      c := Some(codes[v]);
      codes := codes - {v};
    }

    method ConsumeRefresh(v: string, now: int) returns (claim: Claim)
      modifies this
      ensures claim == old(View()).RefreshClaim(v, now)
      ensures View() == old(View()).ConsumeRefresh(v)
    {
      if v !in refresh {
        if v in tombs {
          if now >= tombs[v].expires {
            return Unknown;
          }
          return Reused(tombs[v].family);
        }
        return Unknown;
      }
      var t := refresh[v];
      refresh := refresh - {v};
      tombs := tombs[v := TombOf(t)];
      return Live(t);
    }

    method DeleteRefresh(v: string)
      modifies this
      ensures View() == old(View()).DeleteRefresh(v)
    {
      refresh := refresh - {v};
      tombs := tombs - {v};
    }

    method RevokeRefreshFamily(family: string) returns (removed: nat)
      modifies this
      ensures View() == old(View()).RevokeFamily(family)
      ensures removed == old(|refresh| + |access|) - |refresh| - |access|
    {
      if family == "" {
        return 0;
      }
      var n, ignored;
      refresh, removed := Prune(refresh, (t: Token) => t.family == family);
      access, n := Prune(access, (t: Token) => t.family == family);
      tombs, ignored := Prune(tombs, (t: Tomb) => t.family == family);
      removed := removed + n;
    }

    method DeleteBySubjectClient(subject: string, client: string)
      modifies this
      ensures View() == old(View()).DeleteBySubjectClient(subject, client)
    {
      var ignored;
      access, ignored := Prune(access, (t: Token) => t.subject == subject && t.client == client);
      refresh, ignored := Prune(refresh, (t: Token) => t.subject == subject && t.client == client);
      codes, ignored := Prune(codes, (c: Code) => c.subject == subject && c.client == client);
      tombs, ignored := Prune(tombs, (t: Tomb) => t.subject == subject && t.client == client);
    }

    method RevokeTokens(client: string, subject: string) returns (removed: nat)
      modifies this
      ensures View() == old(View()).RevokeTokens(client, subject)
      ensures removed == old(|refresh| + |access|) - |refresh| - |access|
    {
      var n, ignored;
      access, removed := Prune(access, (t: Token) => Matches(client, subject, t.client, t.subject));
      refresh, n := Prune(refresh, (t: Token) => Matches(client, subject, t.client, t.subject));
      codes, ignored := Prune(codes, (c: Code) => Matches(client, subject, c.client, c.subject));
      tombs, ignored := Prune(tombs, (t: Tomb) => Matches(client, subject, t.client, t.subject));
      removed := removed + n;
    }

    method SweepExpired(now: int) returns (removed: nat)
      modifies this
      ensures View() == old(View()).SweepExpired(now)
      ensures removed == old(|codes| + |access| + |refresh| + |tombs|) - |codes| - |access| - |refresh| - |tombs|
    {
      var a, b, c, d;
      codes, a := Prune(codes, (c: Code) => now >= c.expires);
      access, b := Prune(access, (t: Token) => now >= t.expires);
      refresh, c := Prune(refresh, (t: Token) => now >= t.expires);
      tombs, d := Prune(tombs, (t: Tomb) => now >= t.expires);
      removed := a + b + c + d;
    }
  }
}
