/** Tenant isolation: who may touch which number, as a state machine over the account rows and the
    pairings in progress. Its steps are the requests of one portal after another, each through the
    scoping middleware into its handler. The two read the body of a request each in its own way. */
module Tenants {
  import opened Text
  import opened Bodies
  import opened Jid
  import Identity

  datatype Row = Row(domain: string, connector: string, line: int)

  /** The portal a row belongs to, as the queries compare. */
  function Owner(row: Row): string {
    Identity.StoredForm(row.domain)
  }

  /** bitrix_accounts by session_jid, and the pairings in memory and in the database. */
  datatype State = State(rows: map<string, Row>, memory: map<string, string>, saved: map<string, string>)

  /** What the outside answers while one request runs; `owner` is DonoDoNumero's answer. */
  datatype Env = Env(accountsReadable: bool, pairingsReadable: bool, owner: Option<string>, portalKnown: bool,
                     cloudPhoneId: Option<string>, accountsWritable: bool, pairingsWritable: bool, sessionAdded: bool)

  datatype Request =
    | Link(query: map<string, string>, body: Body)
    | Unlink(query: map<string, string>, body: Body)
    | Create(query: map<string, string>, body: Body)
    | Delete(query: map<string, string>, body: Body)
    | StartSession(phone: string)
    | Disconnect(jid: string)

  function Get(m: map<string, string>, key: string): string {
    if key in m then m[key] else ""
  }

  function NormalizePortalParam(p: string): string {
    ToLower(TrimSpace(Identity.TrimRightSlashes(TrimPrefix(TrimPrefix(p, "https://"), "http://"))))
  }

  /** The domain of a tenant cookie, as the program signs it. */
  predicate CookieDomain(d: string) {
    d != "" && Identity.NormalizeDomain(d) == d && NormalizePortalParam(d) == d
  }

  lemma CookieDomainNonEmpty(d: string)
    requires CookieDomain(d)
    ensures d != ""
  {
  }

  // ----- owning a number ---------------------------------------------------------------------

  function AccountNumbers(st: State, d: string): set<string> {
    set jid | jid in st.rows && Owner(st.rows[jid]) == d && NumeroBase(jid) != "" :: NumeroBase(jid)
  }

  function PairedNumbers(pairings: map<string, string>, d: string): set<string> {
    set n | n in pairings && pairings[n] == d
  }

  function NumerosDoTenant(st: State, d: string, env: Env): set<string> {
    AccountNumbers(st, d) + PairedNumbers(st.memory, d)
    + if env.pairingsReadable then PairedNumbers(st.saved, d) else {}
  }

  predicate PodeOperar(st: State, d: string, env: Env, jid: string) {
    env.accountsReadable && NumeroBase(jid) != "" && NumeroBase(jid) in NumerosDoTenant(st, d, env)
  }

  predicate OtherPortal(d: string, v: string) {
    var n := Identity.NormalizeDomain(v);
    n != "" && n != d
  }

  /** The sessions the middleware reads from a request. */
  function Named(query: map<string, string>, body: Body): seq<string> {
    [Get(query, "session_jid"), Get(query, "jid"), Seen(body, "session_jid"), Seen(body, "jid")]
  }

  predicate NamesOther(d: string, query: map<string, string>, body: Body) {
    OtherPortal(d, Get(query, "domain")) || OtherPortal(d, Get(query, "portal"))
    || OtherPortal(d, Seen(body, "domain")) || OtherPortal(d, Seen(body, "portal"))
  }

  predicate Unreadable(body: Body) {
    Scanned(body) && body.json.None?
  }

  predicate AllMine(st: State, d: string, env: Env, named: seq<string>) {
    forall k :: 0 <= k < |named| && named[k] != "" ==> PodeOperar(st, d, env, named[k])
  }

  /** The scoping middleware: None is a refusal, otherwise the rewritten query and body. */
  function Scope(st: State, d: string, env: Env, query: map<string, string>, body: Body)
    : Option<(map<string, string>, Body)>
  {
    if NamesOther(d, query, body) || Unreadable(body) || !AllMine(st, d, env, Named(query, body)) then None
    else Some((query["domain" := d]["portal" := d], Handed(body, d)))
  }

  /** A number is the portal's when some account row of it has the number, or a pairing of it in memory,
      or a saved one if those can be read. */
  ghost predicate HasNumber(st: State, d: string, env: Env, n: string) {
    || (exists row :: row in st.rows && Identity.StoredForm(st.rows[row].domain) == d && NumeroBase(row) == n)
    || (n in st.memory && st.memory[n] == d)
    || (env.pairingsReadable && n in st.saved && st.saved[n] == d)
  }

  lemma OperatesIff(st: State, d: string, env: Env, jid: string)
    ensures PodeOperar(st, d, env, jid) <==>
            env.accountsReadable && NumeroBase(jid) != "" && HasNumber(st, d, env, NumeroBase(jid))
  {
    hide NumeroBase, Identity.StoredForm;
    var n := NumeroBase(jid);
    if row :| row in st.rows && Identity.StoredForm(st.rows[row].domain) == d && NumeroBase(row) == n {
      assert n != "" ==> n in AccountNumbers(st, d);
    }
  }

  /** The request names no other portal, its body can be read where it is looked at, and every session it
      names is of a number of the portal. */
  ghost predicate Passes(st: State, d: string, env: Env, query: map<string, string>, body: Body) {
    && Identity.NormalizeDomain(Get(query, "domain")) in {"", d}
    && Identity.NormalizeDomain(Get(query, "portal")) in {"", d}
    && Identity.NormalizeDomain(Seen(body, "domain")) in {"", d}
    && Identity.NormalizeDomain(Seen(body, "portal")) in {"", d}
    && !(Contains(body.contentType, "application/json") && !body.empty && body.json.None?)
    && MineOrNone(st, d, env, Get(query, "session_jid")) && MineOrNone(st, d, env, Get(query, "jid"))
    && MineOrNone(st, d, env, Seen(body, "session_jid")) && MineOrNone(st, d, env, Seen(body, "jid"))
  }

  ghost predicate MineOrNone(st: State, d: string, env: Env, jid: string) {
    jid == "" || (env.accountsReadable && NumeroBase(jid) != "" && HasNumber(st, d, env, NumeroBase(jid)))
  }

  lemma AllMineIff(st: State, d: string, env: Env, named: seq<string>)
    ensures AllMine(st, d, env, named) <==> forall k :: 0 <= k < |named| ==> MineOrNone(st, d, env, named[k])
  {
    hide NumeroBase, PodeOperar, HasNumber;
    forall k | 0 <= k < |named|
      ensures named[k] == "" || PodeOperar(st, d, env, named[k]) <==> MineOrNone(st, d, env, named[k])
    {
      OperatesIff(st, d, env, named[k]);
    }
  }

  /** The middleware lets through exactly what passes, and whatever it lets through it hands on with the
      cookie's domain in the query. */
  lemma PassesIff(st: State, d: string, env: Env, query: map<string, string>, body: Body)
    ensures Scope(st, d, env, query, body).Some? <==> Passes(st, d, env, query, body)
    ensures Scope(st, d, env, query, body).Some? ==>
              Scope(st, d, env, query, body).value == (query["domain" := d]["portal" := d], Handed(body, d))
  {
    hide NumeroBase, Seen, Handed, AllMine, MineOrNone, Contains, Identity.NormalizeDomain;
    var named := Named(query, body);
    AllMineIff(st, d, env, named);
    assert named[0] == Get(query, "session_jid") && named[1] == Get(query, "jid")
        && named[2] == Seen(body, "session_jid") && named[3] == Seen(body, "jid");
  }

  // ----- the handlers --------------------------------------------------------------------------

  /** DELETE FROM bitrix_accounts: a Cloud session by its exact id, a QR session by its number. */
  predicate DeletesRow(jid: string, row: string) {
    if HasPrefix(jid, "cloud:") then row == jid
    else !HasPrefix(row, "cloud:") && SqlNumber(row) == SqlNumber(jid)
  }

  function WithoutRows(rows: map<string, Row>, jid: string): map<string, Row> {
    map row | row in rows && !DeletesRow(jid, row) :: rows[row]
  }

  /** What a handler decides to do to the stores. */
  datatype Effect =
    | Nothing
    | Store(jid: string, row: Row)
    | Drop(jid: string)
    | Release(jid: string)
    | PairUp(domain: string, phone: string)

  function LinkQueue(env: Env, body: Body): Effect {
    match Decode(body, LINK_NAMES)
    case None => Nothing
    case Some(f) =>
      if f.domain == "" || f.sessionJid == "" || f.line <= 0 || !env.portalKnown then Nothing
      else
        match ConnectorDaSessao(f.sessionJid, env.cloudPhoneId)
        case None => Nothing
        case Some(connector) => Store(f.sessionJid, Row(LinkedDomain(f.domain), connector, f.line))
  }

  function LinkedDomain(domain: string): string {
    Identity.NormalizeDomain(NormalizePortalParam(domain))
  }

  function CreateAccount(body: Body): Effect {
    match Decode(body, CREATE_NAMES)
    case None => Nothing
    case Some(f) =>
      if f.sessionJid == "" || f.domain == "" || f.clientId == "" || f.clientSecret == "" then Nothing
      else
        Store(f.sessionJid, Row(f.domain, if f.connectorId == "" then "whatsapp_uc" else f.connectorId,
                                if f.line == 0 then 1 else f.line))
  }

  function DeleteAccount(jid: string): Effect {
    if jid == "" then Nothing else Drop(jid)
  }

  function Forget(st: State, env: Env, n: string): State {
    st.(memory := st.memory - {n}, saved := if env.pairingsWritable then st.saved - {n} else st.saved)
  }

  function SqlNumeroBase(jid: string): string {
    var user := SplitPart1(jid, '@');
    if HasPrefix(user, "cloud:") then user else TrimPluses(SplitPart1(user, ':'))
  }

  /** LTRIM(s, '+'). */
  function TrimPluses(s: string): string {
    s[FirstNonPlus(s, 0)..]
  }

  function FirstNonPlus(s: string, from: nat): (i: nat)
    requires from <= |s|
    ensures from <= i <= |s| && (i < |s| ==> s[i] != '+')
    ensures forall k :: from <= k < i ==> s[k] == '+'
    decreases |s| - from
  {
    if from < |s| && s[from] == '+' then FirstNonPlus(s, from + 1) else from
  }

  /** A row that the owner query finds for a number. */
  ghost predicate RowOf(st: State, n: string, jid: string) {
    jid in st.rows && SqlNumeroBase(jid) == n && st.rows[jid].domain != ""
  }

  /** What DonoDoNumero may answer: some account of the number before any saved pairing. */
  ghost predicate OwnerAnswer(st: State, n: string, owner: string) {
    if exists jid :: RowOf(st, n, jid) then exists jid :: RowOf(st, n, jid) && Owner(st.rows[jid]) == owner
    else owner == Get(st.saved, n)
  }

  function RegisterPairing(st: State, env: Env, d: string, phone: string): State {
    if d == "" || phone == "" then st
    else
      var n := NumeroBase(phone);
      st.(memory := st.memory[n := d], saved := if env.pairingsWritable then st.saved[n := d] else st.saved)
  }

  function Pair(env: Env, d: string, phone: string): Effect {
    if phone == "" || env.owner.None? || (env.owner.value != "" && env.owner.value != d) then Nothing
    else PairUp(d, phone)
  }

  /** The decision on one request of portal `d`. */
  function Decide(st: State, d: string, r: Request, env: Env): Effect {
    match r
    case Link(query, body) =>
      (match Scope(st, d, env, query, body) case None => Nothing case Some((_, b)) => LinkQueue(env, b))
    case Create(query, body) =>
      (match Scope(st, d, env, query, body) case None => Nothing case Some((_, b)) => CreateAccount(b))
    case Unlink(query, body) =>
      (match Scope(st, d, env, query, body) case None => Nothing case Some((q, _)) => DeleteAccount(Get(q, "jid")))
    case Delete(query, body) =>
      (match Scope(st, d, env, query, body) case None => Nothing case Some((q, _)) => DeleteAccount(Get(q, "jid")))
    case StartSession(phone) => Pair(env, d, phone)
    case Disconnect(jid) => if jid == "" || !PodeOperar(st, d, env, jid) then Nothing else Release(jid)
  }

  function WriteRows(st: State, env: Env, rows: map<string, Row>): State {
    if env.accountsWritable then st.(rows := rows) else st
  }

  function Perform(st: State, env: Env, e: Effect): State {
    match e
    case Nothing => st
    case Store(jid, row) => WriteRows(st, env, st.rows[jid := row])
    case Drop(jid) => WriteRows(st, env, WithoutRows(st.rows, jid))
    case Release(jid) => WriteRows(Forget(st, env, NumeroBase(jid)), env, WithoutRows(st.rows, jid))
    case PairUp(d, phone) =>
      var registered := RegisterPairing(st, env, d, phone);
      if env.sessionAdded then registered else Forget(registered, env, NumeroBase(phone))
  }

  /** One request of portal `d`. */
  function Serve(st: State, d: string, r: Request, env: Env): State {
    Perform(st, env, Decide(st, d, r, env))
  }

  class TenantStore {
    var rows: map<string, Row>
    var memory: map<string, string>
    var saved: map<string, string>

    function View(): State
      reads this
    {
      State(rows, memory, saved)
    }

    method EscoparAoTenant(d: string, env: Env, query: map<string, string>, body: Body)
      returns (scoped: Option<(map<string, string>, Body)>)
      ensures scoped == Scope(View(), d, env, query, body)
      ensures scoped.Some? <==> Passes(View(), d, env, query, body)
      ensures scoped.Some? ==> scoped.value == (query["domain" := d]["portal" := d], Handed(body, d))
    {
      hide NumeroBase, PodeOperar, Seen, Handed, Scanned, AllMine, OtherPortal, Named, Passes;
      PassesIff(View(), d, env, query, body);
      NotScannedNotSeen(body, d);
      if OtherPortal(d, Get(query, "domain")) || OtherPortal(d, Get(query, "portal")) {
        return None;
      }
      var numbers := [Get(query, "session_jid"), Get(query, "jid")];
      var out := body;
      if Scanned(body) {
        if body.json.None? {
          return None;
        }
        if OtherPortal(d, Seen(body, "domain")) || OtherPortal(d, Seen(body, "portal")) {
          return None;
        }
        out := Handed(body, d);
        numbers := numbers + [Seen(body, "session_jid"), Seen(body, "jid")];
      }
      NamedNumbers(View(), d, env, query, body);
      var mine := OperaTodos(d, env, numbers);
      if !mine {
        return None;
      }
      return Some((query["domain" := d]["portal" := d], out));
    }

    method OperaTodos(d: string, env: Env, numbers: seq<string>) returns (mine: bool)
      ensures mine == AllMine(View(), d, env, numbers)
    {
      hide NumeroBase, PodeOperar;
      for k := 0 to |numbers|
        invariant forall j :: 0 <= j < k && numbers[j] != "" ==> PodeOperar(View(), d, env, numbers[j])
      {
        if numbers[k] != "" && !PodeOperar(View(), d, env, numbers[k]) {
          return false;
        }
      }
      return true;
    }

    method DeleteBitrixAccount(env: Env, jid: string)
      modifies this`rows
      ensures View() == WriteRows(old(View()), env, WithoutRows(old(rows), jid))
    {
      if env.accountsWritable {
        rows := map row | row in rows && !DeletesRow(jid, row) :: rows[row];
      }
    }

    method UiLinkQueue(env: Env, body: Body)
      modifies this`rows
      ensures View() == Perform(old(View()), env, LinkQueue(env, body))
    {
      hide Decode;
      var fields := Decode(body, LINK_NAMES);
      if fields.None? || fields.value.domain == "" || fields.value.sessionJid == "" || fields.value.line <= 0 {
        return;
      }
      var f := fields.value;
      var domain := NormalizePortalParam(f.domain);
      if !env.portalKnown {
        return;
      }
      var connector := ConnectorDaSessao(f.sessionJid, env.cloudPhoneId);
      if connector.None? || !env.accountsWritable {
        return;
      }
      rows := rows[f.sessionJid := Row(Identity.NormalizeDomain(domain), connector.value, f.line)];
    }

    method UiCreateBitrixAccount(env: Env, body: Body)
      modifies this`rows
      ensures View() == Perform(old(View()), env, CreateAccount(body))
    {
      hide Decode;
      var fields := Decode(body, CREATE_NAMES);
      if fields.None? {
        return;
      }
      var f := fields.value;
      if f.sessionJid == "" || f.domain == "" || f.clientId == "" || f.clientSecret == "" {
        return;
      }
      var openLine := f.line;
      if openLine == 0 {
        openLine := 1;
      }
      var connector := f.connectorId;
      if connector == "" {
        connector := "whatsapp_uc";
      }
      if env.accountsWritable {
        rows := rows[f.sessionJid := Row(f.domain, connector, openLine)];
      }
    }

    method RegistrarPareamento(env: Env, d: string, phone: string)
      modifies this`memory, this`saved
      ensures View() == RegisterPairing(old(View()), env, d, phone)
    {
      if d == "" || phone == "" {
        return;
      }
      memory := memory[NumeroBase(phone) := d];
      if env.pairingsWritable {
        saved := saved[NumeroBase(phone) := d];
      }
    }

    method EsquecerPareamento(env: Env, phone: string)
      modifies this`memory, this`saved
      ensures View() == Forget(old(View()), env, NumeroBase(phone))
    {
      memory := memory - {NumeroBase(phone)};
      if env.pairingsWritable {
        saved := saved - {NumeroBase(phone)};
      }
    }

    method UiStartSession(env: Env, d: string, phone: string)
      modifies this`memory, this`saved
      ensures View() == Perform(old(View()), env, Pair(env, d, phone))
    {
      hide NumeroBase;
      if phone == "" || env.owner.None? {
        return;
      }
      if env.owner.value != "" && env.owner.value != d {
        return;
      }
      RegistrarPareamento(env, d, phone);
      if !env.sessionAdded {
        EsquecerPareamento(env, phone);
      }
    }

    method UiDisconnectSession(env: Env, d: string, jid: string)
      modifies this
      ensures View() == Serve(old(View()), d, Request.Disconnect(jid), env)
    {
      hide NumeroBase;
      if jid == "" || !PodeOperar(View(), d, env, jid) {
        return;
      }
      EsquecerPareamento(env, jid);
      DeleteBitrixAccount(env, jid);
    }

    /** Any request of portal `d`. */
    method Handle(d: string, r: Request, env: Env)
      modifies this
      ensures View() == Serve(old(View()), d, r, env)
    {
      hide NumeroBase, Scope, LinkQueue, CreateAccount, RegisterPairing, Forget, WithoutRows, PodeOperar, Passes,
           Handed;
      match r {
        case Link(query, body) =>
          var scoped := EscoparAoTenant(d, env, query, body);
          if scoped.Some? {
            UiLinkQueue(env, scoped.value.1);
          }
        case Create(query, body) =>
          var scoped := EscoparAoTenant(d, env, query, body);
          if scoped.Some? {
            UiCreateBitrixAccount(env, scoped.value.1);
          }
        case Unlink(query, body) =>
          var scoped := EscoparAoTenant(d, env, query, body);
          if scoped.Some? && Get(scoped.value.0, "jid") != "" {
            DeleteBitrixAccount(env, Get(scoped.value.0, "jid"));
          }
        case Delete(query, body) =>
          var scoped := EscoparAoTenant(d, env, query, body);
          if scoped.Some? && Get(scoped.value.0, "jid") != "" {
            DeleteBitrixAccount(env, Get(scoped.value.0, "jid"));
          }
        case StartSession(phone) => UiStartSession(env, d, phone);
        case Disconnect(jid) => UiDisconnectSession(env, d, jid);
      }
    }
  }

  // ----- one request -----------------------------------------------------------------------------

  function RowAt(st: State, jid: string): Option<Row> {
    if jid in st.rows then Some(st.rows[jid]) else None
  }

  /** A JID whose deletion cannot reach another number's row: the only ones that can are those whose
      number is empty, ends in white space, or is a badly written "cloud". */
  predicate OneNumber(jid: string) {
    HasPrefix(jid, "cloud:") ||
    (var p := SqlNumber(jid);
     p != "" && !IsSpace(p[|p| - 1]) && (IsSpace(p[0]) ==> TrimSpace(p) != "cloud"))
  }

  lemma KeysDiffer()
    ensures "domain" != "jid" && "portal" != "jid" && "domain" != "session_jid" && "portal" != "session_jid"
  {
    assert |"domain"| == 6 && |"portal"| == 6 && |"session_jid"| == 11 && |"jid"| == 3;
  }

  lemma NotScannedNotSeen(body: Body, d: string)
    ensures !Scanned(body) ==> Handed(body, d) == body && Seen(body, "domain") == Seen(body, "portal") == ""
    ensures !Scanned(body) ==> Seen(body, "session_jid") == Seen(body, "jid") == ""
    ensures OtherPortal(d, "") == false
  {
    hide Scanned;
    assert Identity.NormalizeDomain("") == "";
  }

  /** The numbers collected are those of the query, and of the body when it is scanned. */
  lemma NamedNumbers(st: State, d: string, env: Env, query: map<string, string>, body: Body)
    ensures var fromQuery, fromBody := [Get(query, "session_jid"), Get(query, "jid")],
                                       [Seen(body, "session_jid"), Seen(body, "jid")];
            AllMine(st, d, env, Named(query, body))
            <==> AllMine(st, d, env, if Scanned(body) then fromQuery + fromBody else fromQuery)
  {
    hide PodeOperar, Scanned;
    NotScannedNotSeen(body, d);
    var named, fromQuery := Named(query, body), [Get(query, "session_jid"), Get(query, "jid")];
    assert named == fromQuery + [Seen(body, "session_jid"), Seen(body, "jid")];
    assert forall k :: 0 <= k < 2 ==> named[k] == fromQuery[k];
    if !Scanned(body) {
      assert named[2] == "" && named[3] == "";
    }
  }

  /** What the middleware guarantees to the handlers: every session it read is the portal's, and the
      domain of the query is the cookie's. */
  lemma ScopeSound(st: State, d: string, env: Env, query: map<string, string>, body: Body, jid: string)
    requires Scope(st, d, env, query, body).Some?
    ensures var (q, b) := Scope(st, d, env, query, body).value;
            && Get(q, "domain") == d && Get(q, "portal") == d && Get(q, "jid") == Get(query, "jid")
            && b == Handed(body, d)
    ensures Covered(query, body, jid) ==> PodeOperar(st, d, env, jid)
  {
    hide NumeroBase, Seen, Handed, NumerosDoTenant;
    KeysDiffer();
    if Covered(query, body, jid) {
      var k :| Covers(Named(query, body), k, jid);
      assert PodeOperar(st, d, env, Named(query, body)[k]);
    }
  }

  // ----- deleting by number ----------------------------------------------------------------------

  lemma SqlShape(r: string) returns (tail: string)
    ensures r == SqlNumber(r) + tail && '@' !in SqlNumber(r) && ':' !in SqlNumber(r)
    ensures tail == "" || tail[0] == '@' || tail[0] == ':'
  {
    var p := SqlNumber(r);
    tail := r[|p|..];
    assert p == r[..|p|];
  }

  /** Text before any '@' and ':' keeps its key, whatever follows. */
  lemma KeyBefore(q: string, t: string)
    requires q != "" && Trimmed(q + t) && '@' !in q && ':' !in q
    requires t == "" || t[0] == '@' || t[0] == ':'
    requires q != "cloud" || t == "" || t[0] != ':'
    ensures NumeroBase(q + t) == TrimPrefix(q, "+")
  {
    var user := Before(q + t, '@');
    CutUser(q, t);
    assert !HasPrefix(user, "cloud:") by {
      NotCloud(q, user);
    }
    TrimSpaceTrims(q + t);
  }

  lemma NotCloud(q: string, user: string)
    requires ':' !in q && q <= user && (|user| > |q| ==> user[|q|] == ':')
    requires q != "cloud" || user == q
    ensures !HasPrefix(user, "cloud:")
  {
    assert "cloud:"[5] == ':' && "cloud:"[..5] == "cloud";
  }

  lemma CutUser(q: string, t: string)
    requires q != "" && '@' !in q && ':' !in q
    requires t == "" || t[0] == '@' || t[0] == ':'
    ensures var user := Before(q + t, '@');
            && q <= user && (|user| > |q| ==> user[|q|] == ':' && t != "" && t[0] == ':')
            && Before(user, ':') == q
  {
    var s := q + t;
    var user := Before(s, '@');
    assert forall k :: 0 <= k < |q| ==> s[k] == q[k];
    assert t != "" ==> s[|q|] == t[0];
    assert user == s[..|user|];
    assert |user| >= |q|;
    assert q == user[..|q|];
  }

  lemma LeftPart(p: string) returns (before: string)
    requires p != "" && !IsSpace(p[|p| - 1])
    ensures p == before + TrimLeft(p) && AllSpace(before)
    ensures TrimLeft(p) != "" && Trimmed(TrimLeft(p))
  {
    var q := TrimLeft(p);
    before := p[..|p| - |q|];
    assert AllSpace(before);
  }

  lemma RightPart(tail: string) returns (after: string)
    requires tail == "" || !IsSpace(tail[0])
    ensures tail == TrimRight(tail) + after && AllSpace(after)
    ensures tail != "" ==> TrimRight(tail) != "" && TrimRight(tail)[0] == tail[0]
  {
    after := tail[|TrimRight(tail)|..];
  }

  /** Trimming text that ends in a non-space, followed by text that starts with one. */
  lemma TrimFront(p: string, tail: string)
    requires p != "" && !IsSpace(p[|p| - 1]) && (tail == "" || !IsSpace(tail[0]))
    ensures TrimSpace(p + tail) == TrimLeft(p) + TrimRight(tail)
    ensures Trimmed(TrimLeft(p) + TrimRight(tail)) && TrimLeft(p) != ""
  {
    var before := LeftPart(p);
    var after := RightPart(tail);
    var q, t := TrimLeft(p), TrimRight(tail);
    assert p + tail == before + (q + t) + after;
    assert (q + t)[0] == q[0] && (q + t)[|q + t| - 1] == if t == "" then q[|q| - 1] else t[|t| - 1];
    TrimSpaceOf(before, q + t, after);
  }

  lemma TrimFrontAlone(p: string)
    requires p != "" && !IsSpace(p[|p| - 1])
    ensures TrimSpace(p) == TrimLeft(p)
  {
    TrimFront(p, "");
    assert p + "" == p && TrimLeft(p) + TrimRight("") == TrimLeft(p);
  }

  lemma KeyOfNumber(r: string)
    requires OneNumber(r) && !HasPrefix(r, "cloud:")
    ensures NumeroBase(r) == TrimPrefix(TrimSpace(SqlNumber(r)), "+")
  {
    hide NumeroBase, SqlNumber;
    var p := SqlNumber(r);
    var tail := SqlShape(r);
    assert !IsSpace('@') && !IsSpace(':');
    TrimFront(p, tail);
    TrimFrontAlone(p);
    var before := LeftPart(p);
    var after := RightPart(tail);
    var q, t := TrimLeft(p), TrimRight(tail);
    if q == "cloud" && t != "" {
      assert p[0] == (before + q)[0];
      if before == "" {
        PlainCloudTail(r, tail);
      }
    }
    NumeroBaseOfTrimmed(r, q + t);
    KeyBefore(q, t);
  }

  lemma PlainCloudTail(r: string, tail: string)
    requires r == "cloud" + tail && tail != "" && !HasPrefix(r, "cloud:")
    ensures tail[0] != ':'
  {
    assert tail[0] == ':' ==> "cloud:" <= r;
  }

  lemma NumeroBaseOfTrimmed(r: string, s: string)
    requires TrimSpace(r) == s && Trimmed(s)
    ensures NumeroBase(r) == NumeroBase(s)
  {
    TrimSpaceTrims(s);
  }

  /** Deleting by this JID reaches only rows of its own number exactly when the JID is `OneNumber`. */
  lemma DeleteStaysInNumberIff(jid: string)
    ensures (forall row :: DeletesRow(jid, row) ==> NumeroBase(row) == NumeroBase(jid)) <==> OneNumber(jid)
  {
    if OneNumber(jid) {
      forall row | DeletesRow(jid, row) ensures NumeroBase(row) == NumeroBase(jid) {
        if !HasPrefix(jid, "cloud:") {
          KeyOfNumber(row);
          KeyOfNumber(jid);
        }
      }
    } else {
      var a, b := TwoNumbers(jid);
      assert DeletesRow(jid, a) && DeletesRow(jid, b);
    }
  }

  lemma SqlNumberOf(p: string, tail: string)
    requires '@' !in p && ':' !in p && (tail == "" || tail[0] == '@' || tail[0] == ':')
    ensures SqlNumber(p + tail) == p
  {
    var s := p + tail;
    assert forall k :: 0 <= k < |p| ==> s[k] == p[k];
    assert tail != "" ==> s[|p|] == tail[0];
    var front := SplitPart1(s, '@');
    assert front == s[..|front|] && |front| >= |p|;
    assert SplitPart1(front, ':') == front[..|p|] == p;
  }

  lemma NoColonNoCloud(p: string, tail: string)
    requires ':' !in p && (tail == "" || tail[0] == '@' || (tail[0] == ':' && p != "cloud"))
    ensures !HasPrefix(p + tail, "cloud:")
  {
    var s := p + tail;
    assert forall k :: 0 <= k < |p| ==> s[k] == p[k] && p[k] in p;
    assert tail != "" ==> s[|p|] == tail[0];
    assert "cloud:"[5] == ':' && "cloud:"[..5] == "cloud";
  }

  /** For any other JID, two rows it deletes that belong to different numbers. */
  lemma TwoNumbers(jid: string) returns (a: string, b: string)
    requires !OneNumber(jid)
    ensures DeletesRow(jid, a) && DeletesRow(jid, b) && NumeroBase(a) != NumeroBase(b)
  {
    var p := SqlNumber(jid);
    var tail := SqlShape(jid);
    assert p + "" == p;
    SqlNumberOf(p, "");
    NoColonNoCloud(p, "");
    a := p;
    var more := if p == "" || IsSpace(p[|p| - 1]) then "@a" else ":1";
    b := p + more;
    SqlNumberOf(p, more);
    if p == "" || IsSpace(p[|p| - 1]) {
      TrailingSpace(p);
    } else {
      assert p != "cloud" by {
        assert !IsSpace('c') && "cloud"[0] == 'c';
      }
      BadCloud(p);
    }
    NoColonNoCloud(p, more);
  }

  lemma TrailingSpace(p: string)
    requires '@' !in p && ':' !in p && (p == "" || IsSpace(p[|p| - 1]))
    ensures NumeroBase(p) != NumeroBase(p + "@a")
  {
    var q := TrimLeft(p);
    SpacedKey(p, q);
    if q == "" {
      assert AllSpace(p);
      TrimSpaceBlank(p);
      BlankKeys(p);
      assert q + "@a" == "@a";
    } else {
      KeyBefore(q, "@a");
      ShorterKey(p, q, |p| - |q|);
    }
  }

  lemma SpacedKey(p: string, q: string)
    requires q == TrimLeft(p)
    ensures Trimmed(q + "@a") && NumeroBase(p + "@a") == NumeroBase(q + "@a")
  {
    var before, tail := p[..|p| - |q|], "@a";
    assert !IsSpace(tail[0]) && !IsSpace(tail[1]) && AllSpace(before);
    assert p == before + q;
    assert p + tail == before + (q + tail) + "";
    TrimSpaceOf(before, q + tail, "");
    NumeroBaseOfTrimmed(p + tail, q + tail);
  }

  lemma ShorterKey(p: string, q: string, n: nat)
    requires '@' !in p && ':' !in p && p != "" && IsSpace(p[|p| - 1])
    requires q == TrimLeft(p) && q != "" && n < |p| && q == p[n..]
    ensures NumeroBase(p) != TrimPrefix(q, "+")
  {
    var r := TrimSpace(p);
    TrimSpaceBlank(p);
    assert q[0] == p[n];
    TrimSpaceTrims(p);
    assert r == TrimRight(q) && |r| < |q|;
    assert r + "" == r && r[0] == q[0];
    NumeroBaseOfTrimmed(p, r);
    KeyBefore(r, "");
    PrefixLengths(r, q);
  }

  lemma BlankKeys(p: string)
    requires TrimSpace(p) == ""
    ensures NumeroBase(p) == "" && NumeroBase("@a") == "@a"
  {
    TrimSpaceTrims("@a");
    assert !("cloud:" <= "@a") && !("+" <= "@a");
  }

  lemma PrefixLengths(r: string, q: string)
    requires r != "" && q != "" && r[0] == q[0] && |r| < |q|
    ensures TrimPrefix(r, "+") != TrimPrefix(q, "+")
  {
    assert "+" <= r <==> r[0] == '+';
    assert "+" <= q <==> q[0] == '+';
  }

  lemma BadCloud(p: string)
    requires '@' !in p && ':' !in p && p != "" && !IsSpace(p[|p| - 1]) && TrimSpace(p) == "cloud"
    ensures NumeroBase(p) != NumeroBase(p + ":1")
  {
    assert !IsSpace(':') && !IsSpace('1');
    TrimFront(p, ":1");
    TrimFrontAlone(p);
    var after := RightPart(":1");
    TrimSpaceTrims(":1");
    OneTail();
    NumeroBaseOfTrimmed(p + ":1", "cloud:1");
    NumeroBaseOfTrimmed(p, "cloud");
    CloudBare("1");
    CloudWord("cloud");
  }

  lemma OneTail()
    ensures TrimRight(":1") == ":1" && "cloud" + ":1" == "cloud:" + "1" == "cloud:1"
    ensures IsNumber("1") && Trimmed("cloud:1") && Trimmed("cloud")
  {
    assert !IsSpace(":1"[1]) && !IsSpace('c') && !IsSpace('d');
    assert AfterLastNonSpace(":1", 2) == 2;
    assert "cloud:1"[0] == 'c' && "cloud:1"[6] == '1' && "cloud"[0] == 'c' && "cloud"[4] == 'd';
  }

  lemma CloudBare(id: string)
    requires IsNumber(id)
    ensures NumeroBase("cloud:" + id) == "cloud:" + id
  {
    hide KeyOfUser, TrimSpace;
    var s := "cloud:" + id;
    NumberFree(id);
    assert '@' !in s && s[0] == 'c' && s[|s| - 1] == id[|id| - 1];
    TrimSpaceTrims(s);
    CloudUser(s, id);
  }

  lemma CloudUser(user: string, id: string)
    requires user == "cloud:" + id && Trimmed(id)
    ensures KeyOfUser(user) == user
  {
    assert user[..6] == "cloud:" && user[6..] == id;
    TrimSpaceTrims(id);
  }

  lemma CloudWord(word: string)
    requires word == "cloud"
    ensures NumeroBase(word) == word
  {
    assert word[0] == 'c' && word[4] == 'd' && word + "" == word;
    KeyBefore(word, "");
  }

  // ----- isolation -------------------------------------------------------------------------------

  /** Every account row that differs belongs to a number of the portal, and if it is still there it
      now names the portal. */
  ghost predicate TouchesOnly(st: State, st': State, numbers: set<string>, d: string) {
    forall jid :: RowAt(st', jid) != RowAt(st, jid) ==>
      NumeroBase(jid) in numbers && (jid in st'.rows ==> Owner(st'.rows[jid]) == d)
  }

  /** What every decision for portal `d` respects. */
  ghost predicate Sound(st: State, d: string, env: Env, e: Effect) {
    match e
    case Nothing => true
    case Store(jid, row) => PodeOperar(st, d, env, jid) && Owner(row) == d
    case Drop(jid) => PodeOperar(st, d, env, jid)
    case Release(jid) => PodeOperar(st, d, env, jid)
    case PairUp(domain, phone) => domain == d && phone != "" && env.owner.Some? && env.owner.value in {"", d}
  }

  /** Among the sessions the middleware reads is one of the same number. */
  ghost predicate Covers(named: seq<string>, k: int, jid: string) {
    0 <= k < |named| && named[k] != "" && NumeroBase(named[k]) == NumeroBase(jid)
  }

  ghost predicate Covered(query: map<string, string>, body: Body, jid: string) {
    exists k :: Covers(Named(query, body), k, jid)
  }

  /** The session a request would store and the portal it would give it to, as its handler reads the body. */
  function Target(d: string, r: Request): Option<(string, string)> {
    match r
    case Link(_, body) =>
      (match Decode(Handed(body, d), LINK_NAMES)
       case Some(f) =>
         if f.domain == "" || f.sessionJid == "" || f.line <= 0 then None
         else Some((f.sessionJid, Identity.StoredForm(LinkedDomain(f.domain))))
       case None => None)
    case Create(_, body) =>
      (match Decode(Handed(body, d), CREATE_NAMES)
       case Some(f) =>
         if f.sessionJid == "" || f.domain == "" || f.clientId == "" || f.clientSecret == "" then None
         else Some((f.sessionJid, Identity.StoredForm(f.domain)))
       case None => None)
    case _ => None
  }

  /** Some state lets the request through the middleware. */
  ghost predicate Passable(d: string, r: Request)
    requires r.Link? || r.Create?
  {
    !NamesOther(d, r.query, r.body) && !Unreadable(r.body)
    && forall k :: 0 <= k < 4 && Named(r.query, r.body)[k] != "" ==> NumeroBase(Named(r.query, r.body)[k]) != ""
  }

  /** Middleware and handler read the request alike where it matters: what the handler would store is
      a session of a number the middleware checked, under the domain of the cookie. */
  ghost predicate Aligned(d: string, r: Request) {
    r.Link? || r.Create? ==>
      !Passable(d, r) || Target(d, r).None?
      || (Covered(r.query, r.body, Target(d, r).value.0) && Target(d, r).value.1 == d)
  }

  /** A JID no delete by which reaches another number: the middleware refuses one without a number. */
  predicate Confined(jid: string) {
    OneNumber(jid) || NumeroBase(jid) == ""
  }

  ghost predicate CleanRequest(d: string, r: Request) {
    match r
    case Unlink(query, _) => Confined(Get(query, "jid"))
    case Delete(query, _) => Confined(Get(query, "jid"))
    case Disconnect(jid) => Confined(jid)
    case _ => Aligned(d, r)
  }

  /** The handlers store what the target says, or nothing. */
  lemma StoresTarget(st: State, d: string, r: Request, env: Env)
    requires r.Link? || r.Create?
    ensures var e := Decide(st, d, r, env);
            e.Nothing? || (e.Store? && Target(d, r) == Some((e.jid, Owner(e.row))) && Passable(d, r)
                           && Scope(st, d, env, r.query, r.body).Some?)
  {
    hide NumeroBase, Decode, Handed, Seen, NumerosDoTenant, LinkedDomain, ConnectorDaSessao, OtherPortal, Scanned;
    if Scope(st, d, env, r.query, r.body).Some? {
      forall k | 0 <= k < 4 && Named(r.query, r.body)[k] != "" ensures NumeroBase(Named(r.query, r.body)[k]) != "" {
        assert PodeOperar(st, d, env, Named(r.query, r.body)[k]);
      }
    }
  }

  /** Through middleware and handler, a decision on an aligned request touches only a number the
      portal may operate and writes only its domain. */
  lemma DecideSound(st: State, d: string, r: Request, env: Env)
    requires d != "" && Aligned(d, r)
    ensures Sound(st, d, env, Decide(st, d, r, env))
  {
    hide NumeroBase, Scope, PodeOperar, Aligned, LinkQueue, CreateAccount, Get;
    if r.Link? || r.Create? {
      AlignedStore(st, d, r, env);
    } else if r.Unlink? || r.Delete? {
      DropsMine(st, d, r, env);
    }
  }

  lemma AlignedStore(st: State, d: string, r: Request, env: Env)
    requires (r.Link? || r.Create?) && Aligned(d, r)
    ensures Sound(st, d, env, Decide(st, d, r, env))
  {
    hide NumeroBase, Scope, PodeOperar, Passable, Covered, Target, Decide;
    StoresTarget(st, d, r, env);
    if Decide(st, d, r, env).Store? {
      ScopeSound(st, d, env, r.query, r.body, Decide(st, d, r, env).jid);
    }
  }

  lemma DropsMine(st: State, d: string, r: Request, env: Env)
    requires r.Unlink? || r.Delete?
    ensures var e := Decide(st, d, r, env);
            e.Nothing? || (e == Drop(Get(r.query, "jid")) && PodeOperar(st, d, env, e.jid))
  {
    hide NumeroBase, Seen, Handed, NumerosDoTenant, NamesOther, Unreadable;
    KeysDiffer();
    if Scope(st, d, env, r.query, r.body).Some? && Get(r.query, "jid") != "" {
      assert Named(r.query, r.body)[1] == Get(r.query, "jid");
    }
  }

  lemma PerformTouches(st: State, d: string, env: Env, e: Effect)
    requires Sound(st, d, env, e) && (e.Drop? || e.Release? ==> OneNumber(e.jid))
    ensures TouchesOnly(st, Perform(st, env, e), NumerosDoTenant(st, d, env), d)
  {
    hide NumeroBase;
    if e.Drop? || e.Release? {
      DeleteStaysInNumberIff(e.jid);
    }
  }

  /** The JID a request deletes by. */
  lemma DeletesNamed(st: State, d: string, r: Request, env: Env)
    ensures var e := Decide(st, d, r, env);
            e.Drop? || e.Release? ==>
              (r.Disconnect? && e.jid == r.jid) || ((r.Unlink? || r.Delete?) && e.jid == Get(r.query, "jid"))
  {
    hide NumeroBase, PodeOperar, Decode, Handed, Seen, NamesOther, AllMine, Unreadable, ConnectorDaSessao;
    KeysDiffer();
  }

  lemma CleanIsAligned(d: string, r: Request)
    requires CleanRequest(d, r)
    ensures Aligned(d, r)
  {
    hide Passable, Target, Covered;
  }

  /** A request of a portal changes only rows of the portal's own numbers, and writes only the
      cookie's domain. */
  lemma NonInterference(st: State, d: string, r: Request, env: Env)
    requires CookieDomain(d) && CleanRequest(d, r)
    ensures TouchesOnly(st, Serve(st, d, r, env), NumerosDoTenant(st, d, env), d)
  {
    hide NumeroBase, SqlNumeroBase, Perform, Decide, OneNumber, CookieDomain, Aligned, TouchesOnly, NumerosDoTenant;
    CookieDomainNonEmpty(d);
    CleanIsAligned(d, r);
    DecideSound(st, d, r, env);
    DeletesNamed(st, d, r, env);
    PerformTouches(st, d, env, Decide(st, d, r, env));
  }

  // ----- exactly which requests keep to their portal -----------------------------------------------

  const WILLING := Env(true, true, Some(""), true, Some("1"), true, true, true)

  /** A portal other than `d`. */
  function Stranger(d: string): string {
    if d == "x" then "y" else "x"
  }

  lemma StrangersRow(d: string)
    ensures Owner(Row(Stranger(d), "", 0)) != d
  {
    assert ToLower(Stranger(d)) == Stranger(d);
  }

  /** Portal `d` is pairing the given numbers. */
  function Pairing(d: string, named: seq<string>): map<string, string> {
    map k | 0 <= k < |named| && named[k] != "" :: NumeroBase(named[k]) := d
  }

  /** Where a portal is pairing all the numbers named, a request that is not refused in every state
      reaches its handler. */
  lemma PassesWhenPairing(d: string, r: Request, st: State)
    requires (r.Link? || r.Create?) && Passable(d, r)
    requires forall k :: 0 <= k < 4 && Named(r.query, r.body)[k] != "" ==>
               NumeroBase(Named(r.query, r.body)[k]) in st.memory
               && st.memory[NumeroBase(Named(r.query, r.body)[k])] == d
    ensures Scope(st, d, WILLING, r.query, r.body).Some?
  {
    hide NumeroBase, Seen, Handed, NamesOther, Unreadable;
    forall k | 0 <= k < 4 && Named(r.query, r.body)[k] != ""
      ensures PodeOperar(st, d, WILLING, Named(r.query, r.body)[k])
    {
      assert NumeroBase(Named(r.query, r.body)[k]) in PairedNumbers(st.memory, d);
    }
  }

  /** A non-empty session always gets a connector from a willing environment. */
  lemma SomeConnector(jid: string)
    requires jid != ""
    ensures ConnectorDaSessao(jid, Some("1")).Some?
  {
  }

  lemma StoresWhenWilling(st: State, d: string, r: Request)
    requires (r.Link? || r.Create?) && Target(d, r).Some? && Scope(st, d, WILLING, r.query, r.body).Some?
    ensures var (jid, domain) := Target(d, r).value;
            && jid in Serve(st, d, r, WILLING).rows && Owner(Serve(st, d, r, WILLING).rows[jid]) == domain
            && Serve(st, d, r, WILLING).rows[jid].connector != ""
            && Serve(st, d, r, WILLING).memory == st.memory && Serve(st, d, r, WILLING).saved == st.saved
  {
    hide NumeroBase, Decode, Handed, Seen, NumerosDoTenant, LinkedDomain, NamesOther, Unreadable, AllMine;
    SomeConnector(Target(d, r).value.0);
    ConnectorNotEmpty(Target(d, r).value.0);
  }

  lemma ConnectorNotEmpty(jid: string)
    ensures var c := ConnectorDaSessao(jid, Some("1")); c.Some? ==> c.value != ""
  {
  }

  /** A request that stores keeps to its portal in every state exactly when it is aligned. */
  lemma StoreIsolatedIff(d: string, r: Request)
    requires CookieDomain(d) && (r.Link? || r.Create?)
    ensures (forall st, env :: TouchesOnly(st, Serve(st, d, r, env), NumerosDoTenant(st, d, env), d)) <==> Aligned(d, r)
  {
    hide NumeroBase, CookieDomain, Serve, Aligned, TouchesOnly, NumerosDoTenant;
    if Aligned(d, r) {
      forall st, env ensures TouchesOnly(st, Serve(st, d, r, env), NumerosDoTenant(st, d, env), d) {
        NonInterference(st, d, r, env);
      }
    } else {
      var st := Astray(d, r);
    }
  }

  /** For a request that is not aligned, a state in which it rewrites another portal's row. */
  lemma Astray(d: string, r: Request) returns (st: State)
    requires (r.Link? || r.Create?) && !Aligned(d, r)
    ensures Target(d, r).Some? && Target(d, r).value.0 in st.rows
    ensures Owner(st.rows[Target(d, r).value.0]) != d
    ensures RowAt(Serve(st, d, r, WILLING), Target(d, r).value.0) != RowAt(st, Target(d, r).value.0)
    ensures !TouchesOnly(st, Serve(st, d, r, WILLING), NumerosDoTenant(st, d, WILLING), d)
  {
    hide NumeroBase, Serve, Scope, Target, Passable, Named;
    var (jid, domain) := Target(d, r).value;
    var named := Named(r.query, r.body);
    st := State(map[jid := Row(Stranger(d), "", 0)], Pairing(d, named), map[]);
    StrangersRow(d);
    assert |named| == 4 by { FourNamed(r.query, r.body); }
    PassesWhenPairing(d, r, st);
    StoresWhenWilling(st, d, r);
    OnlyPaired(st, d, named);
    if NumeroBase(jid) in NumerosDoTenant(st, d, WILLING) {
      var k :| 0 <= k < 4 && named[k] != "" && NumeroBase(named[k]) == NumeroBase(jid);
      assert Covers(named, k, jid);
    }
  }

  lemma FourNamed(query: map<string, string>, body: Body)
    ensures |Named(query, body)| == 4
  {
  }

  lemma OnlyPaired(st: State, d: string, named: seq<string>)
    requires st.memory == Pairing(d, named) && st.saved == map[]
             && forall jid :: jid in st.rows ==> Owner(st.rows[jid]) != d
    ensures forall n :: n in NumerosDoTenant(st, d, WILLING) ==>
              exists k :: 0 <= k < |named| && named[k] != "" && NumeroBase(named[k]) == n
  {
    hide NumeroBase;
  }

  /** Requests that name a JID to delete by keep to their portal in every state exactly when the JID is
      confined. */
  lemma DeleteIsolatedIff(d: string, jid: string)
    requires CookieDomain(d)
    ensures (forall query, body, st, env :: Get(query, "jid") == jid ==>
               TouchesOnly(st, Serve(st, d, Delete(query, body), env), NumerosDoTenant(st, d, env), d))
            <==> Confined(jid)
    ensures (forall query, body, st, env :: Get(query, "jid") == jid ==>
               TouchesOnly(st, Serve(st, d, Unlink(query, body), env), NumerosDoTenant(st, d, env), d))
            <==> Confined(jid)
    ensures (forall st, env :: TouchesOnly(st, Serve(st, d, Disconnect(jid), env), NumerosDoTenant(st, d, env), d))
            <==> Confined(jid)
  {
    hide NumeroBase, CookieDomain, Serve, TouchesOnly, NumerosDoTenant, Confined;
    if Confined(jid) {
      ConfinedStays(d, jid);
    } else {
      var st := Straying(d, jid);
      var query := map["jid" := jid];
      assert Get(query, "jid") == jid;
    }
  }

  lemma ConfinedStays(d: string, jid: string)
    requires CookieDomain(d) && Confined(jid)
    ensures forall query, body, st, env :: Get(query, "jid") == jid ==>
              TouchesOnly(st, Serve(st, d, Delete(query, body), env), NumerosDoTenant(st, d, env), d)
              && TouchesOnly(st, Serve(st, d, Unlink(query, body), env), NumerosDoTenant(st, d, env), d)
    ensures forall st, env :: TouchesOnly(st, Serve(st, d, Disconnect(jid), env), NumerosDoTenant(st, d, env), d)
  {
    hide NumeroBase, CookieDomain, Serve, TouchesOnly, NumerosDoTenant, Confined, Aligned;
    forall query, body, st, env | Get(query, "jid") == jid
      ensures TouchesOnly(st, Serve(st, d, Delete(query, body), env), NumerosDoTenant(st, d, env), d)
              && TouchesOnly(st, Serve(st, d, Unlink(query, body), env), NumerosDoTenant(st, d, env), d)
    {
      NonInterference(st, d, Delete(query, body), env);
      NonInterference(st, d, Unlink(query, body), env);
    }
    forall st, env ensures TouchesOnly(st, Serve(st, d, Disconnect(jid), env), NumerosDoTenant(st, d, env), d) {
      NonInterference(st, d, Disconnect(jid), env);
    }
  }

  /** For a JID that is not confined, a state in which deleting by it removes a row of a number that is
      not the portal's. */
  lemma Straying(d: string, jid: string) returns (st: State)
    requires CookieDomain(d) && !Confined(jid)
    ensures var query := map["jid" := jid];
            && !TouchesOnly(st, Serve(st, d, Delete(query, NO_BODY), WILLING), NumerosDoTenant(st, d, WILLING), d)
            && !TouchesOnly(st, Serve(st, d, Unlink(query, NO_BODY), WILLING), NumerosDoTenant(st, d, WILLING), d)
            && !TouchesOnly(st, Serve(st, d, Disconnect(jid), WILLING), NumerosDoTenant(st, d, WILLING), d)
  {
    hide NumeroBase, CookieDomain, Scope, OneNumber, DeletesRow;
    var a, b := TwoNumbers(jid);
    var lost := if NumeroBase(a) != NumeroBase(jid) then a else b;
    st := State(map[lost := Row(Stranger(d), "", 0)], map[NumeroBase(jid) := d], map[]);
    StrangersRow(d);
    var query := map["jid" := jid];
    NoNumberNoJid(jid);
    assert NumeroBase(jid) in PairedNumbers(st.memory, d);
    assert PodeOperar(st, d, WILLING, jid);
    BareQueryPasses(st, d, jid);
    var gone := WithoutRows(st.rows, jid);
    assert lost !in gone;
    assert Serve(st, d, Delete(query, NO_BODY), WILLING).rows == gone;
    assert Serve(st, d, Unlink(query, NO_BODY), WILLING).rows == gone;
    assert Serve(st, d, Disconnect(jid), WILLING).rows == gone;
    assert NumeroBase(lost) !in NumerosDoTenant(st, d, WILLING);
    assert RowAt(st, lost).Some?;
  }

  lemma NoNumberNoJid(jid: string)
    ensures jid == "" ==> NumeroBase(jid) == ""
  {
    TrimSpaceBlank("");
  }

  lemma BareQueryPasses(st: State, d: string, jid: string)
    requires PodeOperar(st, d, WILLING, jid)
    ensures var scoped := Scope(st, d, WILLING, map["jid" := jid], NO_BODY);
            scoped.Some? && Get(scoped.value.0, "jid") == jid
  {
    hide NumeroBase, PodeOperar, Contains;
    KeysDiffer();
    NotScannedNotSeen(NO_BODY, d);
    var named := Named(map["jid" := jid], NO_BODY);
    assert named[0] == "" && named[1] == jid && named[2] == "" && named[3] == "";
  }

  // ----- bodies --------------------------------------------------------------------------------------

  /** A body both read as JSON, with the names spelled exactly, makes any request aligned. */
  lemma AlikeIsAligned(d: string, r: Request)
    requires CookieDomain(d) && (r.Link? || r.Create?) && ReadAlike(r.body)
    ensures Aligned(d, r)
  {
    hide NumeroBase, Passable, ReadAlike, Decode, Handed, Seen, CookieDomain, LinkedDomain, Covers;
    CookieDomainFixed(d);
    var names := if r.Link? then LINK_NAMES else CREATE_NAMES;
    if Decode(Handed(r.body, d), names).Some? {
      AlikeMeansSeen(r.body, d, names);
      if Target(d, r).Some? {
        SeenCovers(r.query, r.body, Target(d, r).value.0);
      }
    }
  }

  lemma SeenCovers(query: map<string, string>, body: Body, jid: string)
    requires jid != "" && jid == Seen(body, "session_jid")
    ensures Covered(query, body, jid)
  {
    hide NumeroBase, Seen;
    assert Covers(Named(query, body), 2, jid);
  }

  /** A signed domain stays as it is in every form the program brings domains to. */
  lemma CookieDomainFixed(d: string)
    requires CookieDomain(d)
    ensures d != "" && LinkedDomain(d) == d && Identity.StoredForm(d) == d
  {
    Identity.SignedIsStored(d);
  }

  /** What the middleware reads nothing of is not aligned: whatever its handler decodes, it stores. */
  lemma UnreadIsNotAligned(d: string, r: Request)
    requires (r.Link? || r.Create?) && Target(d, r).Some? && Passable(d, r)
    requires forall k :: 0 <= k < 4 ==> Named(r.query, r.body)[k] == ""
    ensures !Aligned(d, r)
  {
    hide NumeroBase, Target, Passable, Named;
    FourNamed(r.query, r.body);
  }

  /** A form: the middleware looks at JSON only, BodyParser decodes the form. */
  lemma FormIsNotAligned(d: string, f: Fields)
    requires f.domain != "" && f.sessionJid != "" && f.clientId != "" && f.clientSecret != ""
    ensures !Aligned(d, Create(map[], Body(FORM_TYPE, false, None, Some(f))))
  {
    hide NumeroBase, Contains, DecoderOf;
    var body := Body(FORM_TYPE, false, None, Some(f));
    var r := Create(map[], body);
    KnownTypes();
    NotScannedNotSeen(body, d);
    assert Target(d, r) == Some((f.sessionJid, Identity.StoredForm(f.domain)));
    UnreadIsNotAligned(d, r);
  }

  /** A JSON body that creates an account, the session under the given name. */
  function AccountBody(key: string, d: string, jid: string): Body {
    Body(JSON_TYPE, false, Some([Member(key, Str(jid)), Member("domain", Str(d)),
                                 Member("client_id", Str("c")), Member("client_secret", Str("s"))]), None)
  }

  const EXACT := "session_jid"
  const CAPITAL := "Session_jid"

  /** A name in another case: the middleware misses it, encoding/json takes it. */
  lemma CapitalIsNotAligned(d: string, jid: string)
    requires CookieDomain(d) && jid != ""
    ensures !Aligned(d, Create(map[], AccountBody(CAPITAL, d, jid)))
  {
    hide NumeroBase, CookieDomain, Target, Passable, Named;
    var r := Create(map[], AccountBody(CAPITAL, d, jid));
    CookieDomainFixed(d);
    AccountDecodes(CAPITAL, d, jid);
    CapitalUnseen(d, jid);
    UnreadIsNotAligned(d, r);
  }

  /** The same body with the name as it should be is aligned. */
  lemma ExactIsAligned(d: string, jid: string)
    requires CookieDomain(d)
    ensures Aligned(d, Create(map[], AccountBody(EXACT, d, jid)))
  {
    hide NumeroBase, CookieDomain, Aligned, Contains, DecoderOf, SameName, SpelledAs;
    KnownTypes();
    AccountNames();
    AccountSpelled(EXACT, d, jid);
    AlikeIsAligned(d, Create(map[], AccountBody(EXACT, d, jid)));
  }

  lemma AccountNames()
    ensures CAPITAL != "jid" && CAPITAL != "portal" && CAPITAL != "domain" && CAPITAL != "client_id"
    ensures CAPITAL != "client_secret" && CAPITAL != EXACT && EXACT != "jid" && EXACT != "portal" && EXACT != "domain"
    ensures EXACT != "client_id" && EXACT != "client_secret" && "domain" != "jid" && "domain" != "portal"
    ensures "domain" != "client_id" && "domain" != "client_secret" && "client_id" != "client_secret"
    ensures "client_id" != "jid" && "client_id" != "portal" && "client_secret" != "jid" && "client_secret" != "portal"
  {
    assert |CAPITAL| == 11 && |EXACT| == 11 && |"domain"| == 6 && |"jid"| == 3 && |"portal"| == 6;
    assert |"client_id"| == 9 && |"client_secret"| == 13 && CAPITAL[0] == 'S' && EXACT[0] == 's';
    assert "domain"[0] == 'd' && "portal"[0] == 'p';
  }

  lemma LookupFour(a: Member, b: Member, c: Member, e: Member, key: string)
    ensures Lookup([a, b, c, e], key)
         == if e.key == key then Some(e.value) else if c.key == key then Some(c.value)
            else if b.key == key then Some(b.value) else if a.key == key then Some(a.value) else None
  {
    assert [a, b, c, e][..3] == [a, b, c] && [a, b, c][..2] == [a, b] && [a, b][..1] == [a] && [a][..0] == [];
    assert Lookup([a], key) == if a.key == key then Some(a.value) else None;
    assert Lookup([a, b], key) == if b.key == key then Some(b.value) else Lookup([a], key);
    assert Lookup([a, b, c], key) == if c.key == key then Some(c.value) else Lookup([a, b], key);
  }

  lemma AccountLookup(key: string, d: string, jid: string)
    requires key in {EXACT, CAPITAL}
    ensures var ms := AccountBody(key, d, jid).json.value;
            && Lookup(ms, key) == Some(Str(jid)) && Lookup(ms, "domain") == Some(Str(d)) && HasKey(ms, "domain")
            && Lookup(ms, "client_id") == Some(Str("c")) && Lookup(ms, "client_secret") == Some(Str("s"))
            && Lookup(ms, "jid") == Lookup(ms, "portal") == None && (key == CAPITAL ==> Lookup(ms, EXACT) == None)
  {
    hide Lookup;
    var ms := AccountBody(key, d, jid).json.value;
    AccountNames();
    LookupFour(ms[0], ms[1], ms[2], ms[3], key);
    LookupFour(ms[0], ms[1], ms[2], ms[3], "domain");
    LookupFour(ms[0], ms[1], ms[2], ms[3], "client_id");
    LookupFour(ms[0], ms[1], ms[2], ms[3], "client_secret");
    LookupFour(ms[0], ms[1], ms[2], ms[3], "jid");
    LookupFour(ms[0], ms[1], ms[2], ms[3], "portal");
    LookupFour(ms[0], ms[1], ms[2], ms[3], EXACT);
    assert ms[1].key == "domain";
  }

  lemma CapitalUnseen(d: string, jid: string)
    requires CookieDomain(d)
    ensures var r := Create(map[], AccountBody(CAPITAL, d, jid));
            Passable(d, r) && forall k :: 0 <= k < 4 ==> Named(r.query, r.body)[k] == ""
  {
    hide NumeroBase, Seen, Scanned, OtherPortal, CookieDomain;
    CapitalSeen(d, jid);
    NotOther(d);
  }

  lemma CapitalSeen(d: string, jid: string)
    ensures var body := AccountBody(CAPITAL, d, jid);
            && Scanned(body) && body.json.Some? && Seen(body, "domain") == d
            && Seen(body, "portal") == Seen(body, "session_jid") == Seen(body, "jid") == ""
  {
    hide Lookup, Contains;
    AccountLookup(CAPITAL, d, jid);
    KnownTypes();
  }

  lemma NotOther(d: string)
    requires CookieDomain(d)
    ensures !OtherPortal(d, d) && !OtherPortal(d, "")
  {
    NotScannedNotSeen(NO_BODY, d);
  }

  lemma AccountSpelled(key: string, d: string, jid: string)
    requires key in {EXACT, CAPITAL}
    ensures var ms := AccountBody(key, d, jid).json.value;
            && SpelledAs(ms, EXACT, key) && SpelledAs(ms, "domain", "domain")
            && SpelledAs(ms, "client_id", "client_id") && SpelledAs(ms, "client_secret", "client_secret")
    ensures SameName(key, EXACT) && SameName("client_id", "client_id") && SameName("client_secret", "client_secret")
    ensures !SameName("domain", "client_id") && !SameName("domain", "client_secret")
    ensures !SameName("portal", "client_id") && !SameName("portal", "client_secret")
  {
    assert |CAPITAL| == 11 && |EXACT| == 11 && |"domain"| == 6 && |"portal"| == 6;
    assert |"client_id"| == 9 && |"client_secret"| == 13;
    if key == CAPITAL {
      assert CAPITAL[0] == 'S' && EXACT[0] == 's' && FoldChar('s') == 'S';
      assert CAPITAL[1..] == EXACT[1..];
      assert forall k :: 1 <= k < 11 ==> CAPITAL[k] == CAPITAL[1..][k - 1] == EXACT[k];
    }
  }

  lemma AccountTyped(key: string, d: string, jid: string)
    requires key in {EXACT, CAPITAL}
    ensures var out := Handed(AccountBody(key, d, jid), d).json.value;
            forall k :: 0 <= k < |out| ==> WellTyped(out[k], CREATE_NAMES)
  {
    hide Lookup, Contains, Canonical, Replaced, DecoderOf;
    var ms := AccountBody(key, d, jid).json.value;
    KnownTypes();
    RewrittenLookup(ms, d, key);
    assert |CAPITAL| == 11 && |EXACT| == 11 && |"domain"| == 6 && |"portal"| == 6;
    assert |"client_id"| == 9 && |"client_secret"| == 13 && |"open_line_id"| == 12;
    var out := Handed(AccountBody(key, d, jid), d).json.value;
    forall k | 0 <= k < |out| ensures WellTyped(out[k], CREATE_NAMES) {
      assert out[k] in out;
    }
  }

  lemma NoField(ms: seq<Member>, name: string)
    requires forall m :: m in ms ==> !SameName(m.key, name)
    ensures FieldText(ms, name) == "" && FieldInt(ms, name) == 0
  {
    hide SameName;
    if ms != [] {
      assert ms[|ms| - 1] in ms;
      NoField(ms[..|ms| - 1], name);
    }
  }

  lemma AccountRest(key: string, d: string, jid: string)
    requires key in {EXACT, CAPITAL}
    ensures var out := Handed(AccountBody(key, d, jid), d).json.value;
            FieldText(out, "connector_id") == "" && FieldInt(out, "open_line_id") == 0
  {
    hide Lookup, Contains, Canonical, Replaced, DecoderOf, FieldText, FieldInt;
    var ms := AccountBody(key, d, jid).json.value;
    KnownTypes();
    RewrittenLookup(ms, d, key);
    assert |CAPITAL| == 11 && |EXACT| == 11 && |"domain"| == 6 && |"portal"| == 6;
    assert |"client_id"| == 9 && |"client_secret"| == 13 && |"open_line_id"| == 12 && |"connector_id"| == 12;
    var out := Handed(AccountBody(key, d, jid), d).json.value;
    NoField(out, "connector_id");
    NoField(out, "open_line_id");
  }

  lemma AccountDecodes(key: string, d: string, jid: string)
    requires key in {EXACT, CAPITAL} && d != "" && Identity.StoredForm(d) == d && jid != ""
    ensures Target(d, Create(map[], AccountBody(key, d, jid))) == Some((jid, d))
  {
    hide Decode, Handed;
    AccountFields(key, d, jid);
  }

  /** What BodyParser fills in. */
  lemma AccountFields(key: string, d: string, jid: string)
    requires key in {EXACT, CAPITAL}
    ensures Decode(Handed(AccountBody(key, d, jid), d), CREATE_NAMES) == Some(Fields(d, jid, "c", "s", "", 0))
  {
    hide Lookup, Contains, Canonical, Replaced, FieldText, FieldInt, DecoderOf, SpelledAs, SameName, WellTyped, HasKey;
    var body := AccountBody(key, d, jid);
    var ms := body.json.value;
    KnownTypes();
    DifferentNames();
    AccountNames();
    AccountLookup(key, d, jid);
    AccountSpelled(key, d, jid);
    RewrittenField(ms, d, EXACT, key);
    RewrittenField(ms, d, "domain", "domain");
    RewrittenField(ms, d, "client_id", "client_id");
    RewrittenField(ms, d, "client_secret", "client_secret");
    AccountTyped(key, d, jid);
    AccountRest(key, d, jid);
  }

  /** All claims on one number - account rows and pairings - name the same portal. */
  ghost predicate OneOwner(st: State) {
    && (forall a, b :: a in st.rows && b in st.rows && NumeroBase(a) == NumeroBase(b) ==>
                  Owner(st.rows[a]) == Owner(st.rows[b]))
    && (forall a :: a in st.rows && NumeroBase(a) in st.memory ==> st.memory[NumeroBase(a)] == Owner(st.rows[a]))
    && (forall a :: a in st.rows && NumeroBase(a) in st.saved ==> st.saved[NumeroBase(a)] == Owner(st.rows[a]))
    && (forall n :: n in st.memory && n in st.saved ==> st.memory[n] == st.saved[n])
  }

  /** Portal `d` is the only one with a claim on number `n`, memory aside. */
  ghost predicate Sole(st: State, d: string, n: string) {
    && (forall a :: a in st.rows && NumeroBase(a) == n ==> Owner(st.rows[a]) == d)
    && (n in st.saved ==> st.saved[n] == d)
  }

  /** The two ways the program computes the number of a row agree, and every claim names a portal. */
  ghost predicate CleanState(st: State) {
    && (forall jid :: jid in st.rows ==> SqlNumeroBase(jid) == NumeroBase(jid) && Owner(st.rows[jid]) != "")
    && (forall n :: n in st.saved ==> st.saved[n] != "")
  }

  /** The JID a request stores, if it stores one, has the same number in Go and in SQL. */
  predicate StoresCleanJid(d: string, r: Request) {
    Target(d, r).Some? ==> SqlNumeroBase(Target(d, r).value.0) == NumeroBase(Target(d, r).value.0)
  }

  ghost predicate Faithful(st: State, r: Request, env: Env) {
    r.StartSession? && env.owner.Some? ==> OwnerAnswer(st, NumeroBase(r.phone), env.owner.value)
  }

  /** A number the portal may operate has no claim by another one. */
  lemma OwnNumber(st: State, d: string, env: Env, jid: string)
    requires OneOwner(st) && PodeOperar(st, d, env, jid)
    ensures Sole(st, d, NumeroBase(jid))
    ensures NumeroBase(jid) in st.memory ==> st.memory[NumeroBase(jid)] == d
  {
    hide NumeroBase;
    var n := NumeroBase(jid);
    if n in AccountNumbers(st, d) {
      var a :| a in st.rows && Owner(st.rows[a]) == d && NumeroBase(a) == n;
    }
  }

  /** When DonoDoNumero lets a portal pair a number, no other portal has an account of it or a saved
      pairing for it. */
  lemma FreeToPair(st: State, d: string, n: string, owner: string)
    requires OneOwner(st) && CleanState(st) && OwnerAnswer(st, n, owner) && owner in {"", d}
    ensures Sole(st, d, n)
  {
    hide NumeroBase;
    forall a | a in st.rows && NumeroBase(a) == n ensures Owner(st.rows[a]) == d {
      assert RowOf(st, n, a);
      var b :| RowOf(st, n, b) && Owner(st.rows[b]) == owner;
    }
    if a :| RowOf(st, n, a) {
      assert NumeroBase(a) == n;
    }
  }

  lemma StoreKeepsOneOwner(st: State, d: string, jid: string, row: Row)
    requires OneOwner(st) && Sole(st, d, NumeroBase(jid)) && Owner(row) == d
    requires NumeroBase(jid) in st.memory ==> st.memory[NumeroBase(jid)] == d
    ensures OneOwner(st.(rows := st.rows[jid := row]))
  {
    hide NumeroBase;
  }

  lemma ClaimKeepsOneOwner(st: State, st': State, d: string, n: string)
    requires OneOwner(st) && Sole(st, d, n)
    requires st'.rows == st.rows && st'.memory == st.memory[n := d]
             && (st'.saved == st.saved || st'.saved == st.saved[n := d])
    ensures OneOwner(st')
  {
    hide NumeroBase;
    assert forall a :: a in st'.rows ==> st'.rows[a] == st.rows[a];
    assert forall m :: m in st'.memory && m != n ==> m in st.memory && st.memory[m] == st'.memory[m];
    assert forall m :: m in st'.saved && m != n ==> m in st.saved && st.saved[m] == st'.saved[m];
  }

  /** Dropping claims never gives a number a second owner. */
  lemma FewerKeepsOneOwner(st: State, st': State)
    requires OneOwner(st)
    requires st'.rows.Keys <= st.rows.Keys && forall a :: a in st'.rows ==> st'.rows[a] == st.rows[a]
    requires st'.memory.Keys <= st.memory.Keys && forall n :: n in st'.memory ==> st'.memory[n] == st.memory[n]
    requires st'.saved.Keys <= st.saved.Keys && forall n :: n in st'.saved ==> st'.saved[n] == st.saved[n]
    ensures OneOwner(st')
  {
    hide NumeroBase;
    assert forall a :: a in st'.rows ==> a in st'.rows.Keys && a in st.rows;
    assert forall n :: n in st'.memory ==> n in st'.memory.Keys && n in st.memory;
    assert forall n :: n in st'.saved ==> n in st'.saved.Keys && n in st.saved;
  }

  lemma PerformKeepsOneOwner(st: State, d: string, env: Env, e: Effect)
    requires OneOwner(st) && CleanState(st) && d != "" && Sound(st, d, env, e)
    requires e.PairUp? ==> OwnerAnswer(st, NumeroBase(e.phone), env.owner.value)
    ensures OneOwner(Perform(st, env, e))
  {
    hide NumeroBase;
    var st' := Perform(st, env, e);
    match e
    case Nothing =>
    case Store(jid, row) =>
      OwnNumber(st, d, env, jid);
      StoreKeepsOneOwner(st, d, jid, row);
    case Drop(_) => FewerKeepsOneOwner(st, st');
    case Release(_) => FewerKeepsOneOwner(st, st');
    case PairUp(_, phone) =>
      var n := NumeroBase(phone);
      FreeToPair(st, d, n, env.owner.value);
      var registered := RegisterPairing(st, env, d, phone);
      ClaimKeepsOneOwner(st, registered, d, n);
      if !env.sessionAdded {
        FewerKeepsOneOwner(registered, st');
      }
  }

  /** "Each number has one owner" survives every request of every portal. */
  lemma ServeKeepsOneOwner(st: State, d: string, r: Request, env: Env)
    requires OneOwner(st) && CleanState(st) && CookieDomain(d) && Aligned(d, r) && Faithful(st, r, env)
    ensures OneOwner(Serve(st, d, r, env))
  {
    hide NumeroBase, SqlNumeroBase, Perform, Decide, PodeOperar, OneNumber, CookieDomain, Aligned;
    CookieDomainNonEmpty(d);
    DecideSound(st, d, r, env);
    PairsWhoAsks(st, d, r, env);
    PerformKeepsOneOwner(st, d, env, Decide(st, d, r, env));
  }

  lemma PairsWhoAsks(st: State, d: string, r: Request, env: Env)
    ensures Decide(st, d, r, env).PairUp? ==>
              r.StartSession? && Decide(st, d, r, env) == PairUp(d, r.phone) && env.owner.Some?
  {
    hide NumeroBase, PodeOperar, Scope, Decode;
  }

  lemma PerformKeepsClean(st: State, d: string, env: Env, e: Effect)
    requires CleanState(st) && d != "" && Sound(st, d, env, e)
    requires e.Store? ==> SqlNumeroBase(e.jid) == NumeroBase(e.jid)
    ensures CleanState(Perform(st, env, e))
  {
    hide NumeroBase, SqlNumeroBase;
  }

  lemma ServeKeepsClean(st: State, d: string, r: Request, env: Env)
    requires CleanState(st) && CookieDomain(d) && Aligned(d, r) && StoresCleanJid(d, r)
    ensures CleanState(Serve(st, d, r, env))
  {
    hide NumeroBase, SqlNumeroBase, Perform, Decide, PodeOperar, OneNumber, CookieDomain, Aligned, Target, Passable;
    CookieDomainNonEmpty(d);
    DecideSound(st, d, r, env);
    StoresOnlyTarget(st, d, r, env);
    PerformKeepsClean(st, d, env, Decide(st, d, r, env));
  }

  lemma StoresOnlyTarget(st: State, d: string, r: Request, env: Env)
    ensures Decide(st, d, r, env).Store? ==>
              (r.Link? || r.Create?)
              && Target(d, r) == Some((Decide(st, d, r, env).jid, Owner(Decide(st, d, r, env).row)))
  {
    if r.Link? || r.Create? {
      hide NumeroBase, Scope, PodeOperar, Decode, Target, Passable, Decide;
      StoresTarget(st, d, r, env);
    }
  }

  /** A request that stores keeps "one owner" in every state exactly when it is aligned. */
  lemma OneOwnerIff(d: string, r: Request)
    requires CookieDomain(d) && (r.Link? || r.Create?)
    ensures (forall st, env :: OneOwner(st) && CleanState(st) && Faithful(st, r, env) ==>
              OneOwner(Serve(st, d, r, env)))
            <==> Aligned(d, r)
  {
    hide NumeroBase, SqlNumeroBase, CookieDomain, Serve, Aligned, OneOwner, CleanState, Faithful;
    if Aligned(d, r) {
      forall st, env | OneOwner(st) && CleanState(st) && Faithful(st, r, env) ensures OneOwner(Serve(st, d, r, env)) {
        ServeKeepsOneOwner(st, d, r, env);
      }
    } else {
      var st := TwoOwners(d, r);
    }
  }

  /** For a request that is not aligned, a state in which it gives a number a second owner: the number
      is being paired by another portal. */
  lemma TwoOwners(d: string, r: Request) returns (st: State)
    requires (r.Link? || r.Create?) && !Aligned(d, r)
    ensures OneOwner(st) && CleanState(st) && Faithful(st, r, WILLING) && !OneOwner(Serve(st, d, r, WILLING))
  {
    hide NumeroBase, SqlNumeroBase, Serve, Scope, Target, Passable, Named;
    var (jid, domain) := Target(d, r).value;
    var named := Named(r.query, r.body);
    FourNamed(r.query, r.body);
    var mine := Pairing(d, named);
    st := State(map[], if NumeroBase(jid) in mine then mine else mine[NumeroBase(jid) := Stranger(domain)], map[]);
    forall k | 0 <= k < 4 && named[k] != ""
      ensures NumeroBase(named[k]) in st.memory && st.memory[NumeroBase(named[k])] == d {
      assert NumeroBase(named[k]) in mine;
    }
    PassesWhenPairing(d, r, st);
    StoresWhenWilling(st, d, r);
    if NumeroBase(jid) in mine {
      var k :| 0 <= k < 4 && named[k] != "" && NumeroBase(named[k]) == NumeroBase(jid);
      assert Covers(named, k, jid);
    }
    assert st.memory[NumeroBase(jid)] != domain;
    assert jid in Serve(st, d, r, WILLING).rows;
  }

  /** On every session in circulation the two forms of a number agree. */
  lemma FormsAgree(s: Jid.Session)
    requires s.Valid()
    ensures SqlNumeroBase(s.Print()) == NumeroBase(s.Print())
  {
    hide NumeroBase;
    if s.Qr? {
      QrAgree(s);
      QrShape(s);
      NumberFree(s.user);
      assert s.user[0] in s.user;
    } else {
      CloudAgree(s);
      CloudShape(s);
      CutBefore("cloud:" + s.id, '@', s.server) by { NumberFree(s.id); }
    }
  }

  /** A host name stays one however the portal writes it. */
  lemma PortalParamForms(d: string, slashes: string)
    requires Identity.HostName(d) && d != "" && Identity.Slashes(slashes) && Trimmed(d)
    ensures NormalizePortalParam("https://" + (d + slashes)) == NormalizePortalParam("http://" + (d + slashes))
         == NormalizePortalParam(d + slashes) == ToLower(d)
  {
    hide TrimPrefix, Identity.TrimRightSlashes;
    Identity.NoScheme(d, slashes);
    Identity.Scheme("https://", d + slashes);
    Identity.Scheme("http://", d + slashes);
    TrimSpaceTrims(d);
  }

  /** Such a JID: a number typed with two plus signs. */
  lemma TwoPluses(digits: string)
    requires IsNumber(digits)
    ensures NumeroBase("++" + digits) == "+" + digits && SqlNumeroBase("++" + digits) == digits
  {
    var jid := "++" + digits;
    NumberFree(digits);
    assert '@' !in jid && ':' !in jid && jid[|jid| - 1] == digits[|digits| - 1];
    TwoPlusesInGo(jid, digits);
    TwoPlusesInSql(jid, digits);
  }

  lemma TwoPlusesInGo(jid: string, digits: string)
    requires jid == "++" + digits && '@' !in jid && ':' !in jid && Trimmed(jid)
    ensures NumeroBase(jid) == "+" + digits
  {
    TrimSpaceTrims(jid);
    assert jid[1..] == "+" + digits;
  }

  lemma TwoPlusesInSql(jid: string, digits: string)
    requires jid == "++" + digits && '@' !in jid && ':' !in jid && IsNumber(digits)
    ensures SqlNumeroBase(jid) == digits
  {
    assert jid[2] == digits[0];
    assert FirstNonPlus(jid, 2) == 2 && FirstNonPlus(jid, 1) == 2;
    assert jid[2..] == digits;
  }
}
