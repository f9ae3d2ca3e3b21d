/** Who is calling: the gate in front of the CRM routes, and the domain normaliser it uses. */
module Identity {
  import opened Text
  import opened Cookies

  /** strings.TrimRight(s, "/"). */
  function TrimRightSlashes(s: string): string {
    s[..AfterLastNonSlash(s, |s|)]
  }

  function AfterLastNonSlash(s: string, to: nat): (i: nat)
    requires to <= |s|
    ensures i <= to && (i > 0 ==> s[i - 1] != '/')
    ensures forall k :: i <= k < to ==> s[k] == '/'
  {
    if to > 0 && s[to - 1] == '/' then AfterLastNonSlash(s, to - 1) else to
  }

  function NormalizeDomain(d: string): string {
    ToLower(TrimRightSlashes(TrimPrefix(TrimPrefix(d, "https://"), "http://")))
  }

  /** What the account queries compare a stored domain by: lower case, without its scheme and the "www."
      after one. */
  function StoredForm(d: string): string {
    ToLower(if HasPrefix(d, "https://www.") then d[12..]
            else if HasPrefix(d, "https://") then d[8..]
            else if HasPrefix(d, "http://www.") then d[11..]
            else if HasPrefix(d, "http://") then d[7..]
            else d)
  }

  /** A domain in the form the program signs is in the form the queries compare by. */
  lemma SignedIsStored(d: string)
    requires NormalizeDomain(d) == d
    ensures StoredForm(d) == d
  {
    var https := TrimPrefix(d, "https://");
    var bare := TrimPrefix(https, "http://");
    assert |TrimRightSlashes(bare)| <= |bare| <= |https| <= |d|;
    assert |ToLower(TrimRightSlashes(bare))| == |d|;
    assert https == d && bare == d && TrimRightSlashes(d) == d;
  }

  datatype Caller =
    | Preview(domain: string)
    | Operator(domain: string, userId: string, name: Bytes)

  datatype Gate =
    | Proceed(caller: Caller, query: map<string, string>)
    | Refused(status: int)

  const UNAUTHORIZED := 401
  const FORBIDDEN := 403

  function Param(query: map<string, string>, key: string): string {
    if key in query then query[key] else ""
  }

  function SetIfPresent(query: map<string, string>, key: string, value: string): map<string, string> {
    if key in query then query[key := value] else query
  }

  /** The query the handlers will read. */
  function ScopeQuery(query: map<string, string>, domain: string, userId: string): map<string, string> {
    SetIfPresent(SetIfPresent(query["domain" := domain], "user_id", userId), "caller_user_id", userId)
  }

  /** The gate: cookies in, caller and rewritten query out. `blocked` is the portal block list. */
  function RequireIdentity(mac: Mac, now: int, adminRaw: string, tenantRaw: string, userRaw: string,
                           query: map<string, string>, blocked: set<string>): Gate
  {
    var q := NormalizeDomain(Param(query, "domain"));
    if VerifyAdmin(mac, now, adminRaw).Some? && q != "" then Proceed(Preview(q), query)
    else
      match VerifyTenant(mac, now, tenantRaw)
      case None => Refused(UNAUTHORIZED)
      case Some(domain) =>
        match VerifyUser(mac, now, userRaw)
        case None => Refused(UNAUTHORIZED)
        case Some((userDomain, userId, name)) =>
          if userDomain != domain then Refused(UNAUTHORIZED)
          else if domain in blocked then Refused(FORBIDDEN)
          else if q != "" && q != domain then Refused(FORBIDDEN)
          else Proceed(Operator(domain, userId, name), ScopeQuery(query, domain, userId))
  }

  ghost predicate GenuineTenant(mac: Mac, issued: set<Cookie>, now: int, raw: string, domain: string) {
    exists exp :: Tenant(exp, domain) in issued && raw == SignTenant(mac, domain, exp) && now <= exp
  }

  ghost predicate GenuineUser(mac: Mac, issued: set<Cookie>, now: int, raw: string, domain: string,
                              userId: string, name: Bytes) {
    exists exp :: User(exp, domain, userId, name) in issued && raw == SignUser(mac, domain, userId, name, exp)
               && domain != "" && userId != "" && PipeFree(domain) && PipeFree(userId) && now <= exp
  }

  ghost predicate GenuineAdmin(mac: Mac, issued: set<Cookie>, now: int, raw: string) {
    exists exp, email, role :: Admin(exp, email, role) in issued && raw == SignAdmin(mac, email, role, exp)
                               && PipeFree(email) && PipeFree(role) && now <= exp
  }

  lemma AdminIsGenuine(mac: Mac, issued: set<Cookie>, now: int, raw: string)
    requires HexTags(mac) && ValidExpiries(issued) && Unforgeable(mac, issued, raw)
    ensures VerifyAdmin(mac, now, raw).Some? <==> GenuineAdmin(mac, issued, now, raw)
  {
    hide VerifyAdmin;
    if VerifyAdmin(mac, now, raw).Some? {
      var (email, role) := VerifyAdmin(mac, now, raw).value;
      AdminAuthentic(mac, issued, now, raw, email, role);
    }
    if exp, email, role :| Admin(exp, email, role) in issued && raw == SignAdmin(mac, email, role, exp)
                           && PipeFree(email) && PipeFree(role) && now <= exp {
      AdminAuthentic(mac, issued, now, raw, email, role);
    }
  }

  lemma TenantIsGenuine(mac: Mac, issued: set<Cookie>, now: int, raw: string)
    requires HexTags(mac) && ValidExpiries(issued) && Unforgeable(mac, issued, raw)
    ensures forall domain ::
              GenuineTenant(mac, issued, now, raw, domain) <==> VerifyTenant(mac, now, raw) == Some(domain)
  {
    hide VerifyTenant;
    forall domain
      ensures GenuineTenant(mac, issued, now, raw, domain) <==> VerifyTenant(mac, now, raw) == Some(domain)
    {
      TenantAuthentic(mac, issued, now, raw, domain);
    }
  }

  lemma UserIsGenuine(mac: Mac, issued: set<Cookie>, now: int, raw: string)
    requires HexTags(mac) && ValidExpiries(issued) && Unforgeable(mac, issued, raw)
    ensures forall domain, userId, name ::
              GenuineUser(mac, issued, now, raw, domain, userId, name)
              <==> VerifyUser(mac, now, raw) == Some((domain, userId, name))
  {
    hide VerifyUser;
    forall domain, userId, name
      ensures GenuineUser(mac, issued, now, raw, domain, userId, name)
              <==> VerifyUser(mac, now, raw) == Some((domain, userId, name))
    {
      UserAuthentic(mac, issued, now, raw, domain, userId, name);
    }
  }

  /** Both cookies were issued, are unexpired, and name this one domain. */
  ghost predicate Identified(mac: Mac, issued: set<Cookie>, now: int, tenantRaw: string, userRaw: string,
                             domain: string) {
    GenuineTenant(mac, issued, now, tenantRaw, domain)
    && exists userId, name :: GenuineUser(mac, issued, now, userRaw, domain, userId, name)
  }

  /** What the gate does with every request, by the cookies that were issued:
      - an administrator who names a portal gets its preview, with the query as sent, and nobody else;
      - an operator with both cookies for one domain gets through unless the portal is blocked or another
        one is named, with the domain and the user ids of the query confirmed and the rest as sent;
      - 401 answers exactly those whose cookies do not give one domain, 403 exactly a blocked or a
        foreign portal. */
  lemma GateExactly(mac: Mac, issued: set<Cookie>, now: int, adminRaw: string, tenantRaw: string, userRaw: string,
                    query: map<string, string>, blocked: set<string>)
    requires HexTags(mac) && ValidExpiries(issued) && Unforgeable(mac, issued, adminRaw)
    requires Unforgeable(mac, issued, tenantRaw) && Unforgeable(mac, issued, userRaw)
    ensures var gate := RequireIdentity(mac, now, adminRaw, tenantRaw, userRaw, query, blocked);
            var q := NormalizeDomain(if "domain" in query then query["domain"] else "");
            var preview := GenuineAdmin(mac, issued, now, adminRaw) && q != "";
            && (preview <==> gate == Proceed(Preview(q), query))
            && (preview <==> gate.Proceed? && gate.caller.Preview?)
            && (forall domain, userId, name ::
                  gate.Proceed? && gate.caller == Operator(domain, userId, name) <==>
                  !preview && GenuineTenant(mac, issued, now, tenantRaw, domain)
                  && GenuineUser(mac, issued, now, userRaw, domain, userId, name)
                  && domain !in blocked && (q == "" || q == domain))
            && (gate.Proceed? && gate.caller.Operator? ==>
                  Confirmed(gate.query, query, gate.caller.domain, gate.caller.userId))
            && (gate == Refused(401) <==>
                  !preview && !exists domain :: Identified(mac, issued, now, tenantRaw, userRaw, domain))
            && (gate == Refused(403) <==>
                  !preview && exists domain :: Identified(mac, issued, now, tenantRaw, userRaw, domain)
                                               && (domain in blocked || (q != "" && q != domain)))
            && (gate.Refused? ==> gate.status in {401, 403})
  {
    hide VerifyAdmin, VerifyTenant, VerifyUser, NormalizeDomain, ScopeQuery, Unforgeable, GenuineAdmin, GenuineTenant,
         GenuineUser, Confirmed;
    AdminIsGenuine(mac, issued, now, adminRaw);
    TenantIsGenuine(mac, issued, now, tenantRaw);
    UserIsGenuine(mac, issued, now, userRaw);
    match (VerifyTenant(mac, now, tenantRaw), VerifyUser(mac, now, userRaw)) {
      case (Some(domain), Some((userDomain, userId, name))) =>
        assert GenuineUser(mac, issued, now, userRaw, userDomain, userId, name);
        assert domain == userDomain ==> Identified(mac, issued, now, tenantRaw, userRaw, domain);
      case _ =>
    }
    var gate := RequireIdentity(mac, now, adminRaw, tenantRaw, userRaw, query, blocked);
    if gate.Proceed? && gate.caller.Operator? {
      QueryIsConfirmed(query, gate.caller.domain, gate.caller.userId);
    }
  }

  /** Confirmed values in the place of what the caller sent, and no other argument changed. */
  ghost predicate Confirmed(scoped: map<string, string>, query: map<string, string>, domain: string, userId: string) {
    && scoped.Keys == query.Keys + {"domain"}
    && scoped["domain"] == domain
    && ("user_id" in scoped ==> scoped["user_id"] == userId)
    && ("caller_user_id" in scoped ==> scoped["caller_user_id"] == userId)
    && (forall key :: key in query && key !in {"domain", "user_id", "caller_user_id"} ==>
          scoped[key] == query[key])
  }

  lemma QueryIsConfirmed(query: map<string, string>, domain: string, userId: string)
    ensures Confirmed(ScopeQuery(query, domain, userId), query, domain, userId)
  {
    assert |"user_id"| == 7 && |"domain"| == 6 && |"caller_user_id"| == 14;
  }

  // ----- domains -------------------------------------------------------------------------------

  predicate HostName(d: string) {
    ':' !in d && '/' !in d
  }

  predicate Slashes(s: string) {
    forall k :: 0 <= k < |s| ==> s[k] == '/'
  }

  lemma NoScheme(d: string, rest: string)
    requires HostName(d) && (d != "" || rest == "") && Slashes(rest)
    ensures TrimPrefix(d + rest, "https://") == TrimPrefix(d + rest, "http://") == d + rest
    ensures !HasPrefix(d + rest, "https://www.") && !HasPrefix(d + rest, "http://www.")
    ensures TrimRightSlashes(d + rest) == d
  {
    var s := d + rest;
    forall k | 0 <= k < |s| ensures s[k] != ':' {
      assert k < |d| ==> d[k] in d;
    }
    assert "https://"[5] == "http://"[4] == ':' && "https://www."[5] == "http://www."[4] == ':';
    assert d != "" ==> d[|d| - 1] in d;
    assert s[..|d|] == d;
  }

  lemma Scheme(scheme: string, rest: string)
    requires scheme in {"https://", "http://"}
    ensures TrimPrefix(scheme + rest, scheme) == rest
    ensures scheme == "http://" ==> TrimPrefix(scheme + rest, "https://") == scheme + rest
  {
    assert scheme == "http://" ==> (scheme + rest)[4] == ':' && "https://"[4] == 's';
    assert (scheme + rest)[|scheme|..] == rest;
  }

  /** One domain, however a portal or a caller writes it: in any case, with a scheme or without, with
      slashes behind it or without. */
  lemma DomainForms(d: string, slashes: string)
    requires HostName(d) && d != "" && Slashes(slashes)
    ensures NormalizeDomain(d + slashes) == ToLower(d)
    ensures NormalizeDomain("https://" + (d + slashes)) == NormalizeDomain("http://" + (d + slashes)) == ToLower(d)
  {
    hide TrimPrefix, TrimRightSlashes;
    NoScheme(d, slashes);
    Scheme("https://", d + slashes);
    Scheme("http://", d + slashes);
  }

  /** ... and as a table holds it: in any case, with a scheme or without, and after one with "www." or
      without. */
  lemma StoredForms(d: string, scheme: string)
    requires HostName(d) && !HasPrefix(d, "www.") && scheme in {"https://", "http://"}
    ensures StoredForm(d) == StoredForm(scheme + d) == StoredForm(scheme + ("www." + d)) == ToLower(d)
  {
    hide StoredForm;
    StoredBare(d);
    StoredAfter(scheme, d);
    StoredAfterWww(scheme, d);
  }

  lemma StoredBare(d: string)
    requires HostName(d)
    ensures StoredForm(d) == ToLower(d)
  {
    NoScheme(d, "");
    assert d + "" == d;
  }

  lemma StoredAfter(scheme: string, d: string)
    requires !HasPrefix(d, "www.") && scheme in {"https://", "http://"}
    ensures StoredForm(scheme + d) == ToLower(d)
  {
    Scheme(scheme, d);
    WwwAfter(scheme, d);
    assert "https://" + "www." == "https://www." && "http://" + "www." == "http://www.";
    assert scheme == "http://" ==> (scheme + d)[4] == ':' && "https://www."[4] == 's';
  }

  lemma StoredAfterWww(scheme: string, d: string)
    requires scheme in {"https://", "http://"}
    ensures StoredForm(scheme + ("www." + d)) == ToLower(d)
  {
    var s := scheme + ("www." + d);
    Scheme(scheme, "www." + d);
    assert s == (scheme + "www.") + d;
    assert s[|scheme + "www."|..] == d;
    assert "https://" + "www." == "https://www." && "http://" + "www." == "http://www.";
    assert scheme == "http://" ==> s[4] == ':' && "https://www."[4] == 's';
  }

  lemma WwwAfter(scheme: string, d: string)
    ensures HasPrefix(scheme + d, scheme + "www.") ==> HasPrefix(d, "www.")
  {
    var s := scheme + d;
    if scheme + "www." <= s {
      forall k | 0 <= k < 4 ensures k < |d| && d[k] == "www."[k] {
        assert s[|scheme| + k] == (scheme + "www.")[|scheme| + k];
      }
    }
  }
}
