/** The operator's answers: the connector event of Bitrix, from the checks on its origin to the
    outbound queue. */
module ConnectorEvents {
  import opened Text
  import opened Dedup
  import opened Remote
  import Jid
  import BBCode
  import Identity

  const ID_TTL := 300 * 1_000_000_000
  const TEXT_TTL := 30 * 1_000_000_000
  const TOKEN_TTL := 1800 * 1_000_000_000

  /** A row of bitrix_accounts. */
  datatype Account = Account(sessionJid: string, domain: string, connector: string, line: int)

  datatype File = File(url: string, name: string, mime: string, size: int)

  datatype Job = Job(sessionJid: string, toJid: string, text: string, connector: string, line: int,
                     imChatId: string, imMsgId: string, chatExtId: string, file: File)

  /** An event as parsed, with the clock and the answers the outside gives while it is handled:
      `firstTouch` and `identity` are what the portal says about the access token, `line` is 0 when
      the line does not parse, `strict` is the mode that requires a proved origin. */
  datatype Event = Event(connector: string, line: int, chatIdRaw: string, imChatId: string, imMsgId: string,
                         text: string, userId: string, file: File,
                         authDomain: string, accessToken: string, applicationToken: string,
                         strict: bool, now: int, idReply: Reply, textReply: Reply, accountsReadable: bool,
                         firstTouch: bool, tokenSaved: bool, identity: Option<string>, queueAccepts: bool)

  function Domain(e: Event): string {
    Identity.NormalizeDomain(e.authDomain)
  }

  function Token(e: Event): string {
    TrimSpace(e.accessToken)
  }

  function IdKey(e: Event): string {
    "connevt:id:" + e.imMsgId
  }

  function TextKey(e: Event): string {
    "connevt:txt:" + Jid.SanitizeJid(e.chatIdRaw) + ":" + BBCode.Clean(e.text)
  }

  /** The messages of people, with something to send and somewhere to send it. */
  predicate Relevant(e: Event) {
    e.userId != "0" && e.userId != "" && (e.text != "" || e.file.url != "") && Jid.SanitizeJid(e.chatIdRaw) != ""
  }

  predicate Owns(accounts: seq<Account>, domain: string, jid: string) {
    exists k :: 0 <= k < |accounts| && OwnedBy(accounts[k], domain, jid)
  }

  predicate OwnedBy(a: Account, domain: string, jid: string) {
    Identity.StoredForm(a.domain) == domain && Jid.NumeroBase(a.sessionJid) == Jid.NumeroBase(jid)
  }

  /** The application token on file is the one presented, or the first one ever is backed by the portal. */
  predicate TokenMatches(portals: map<string, string>, e: Event) {
    Domain(e) in portals && e.applicationToken != ""
    && (if portals[Domain(e)] == "" then e.firstTouch else portals[Domain(e)] == e.applicationToken)
  }

  predicate Remembered(cache: map<(string, string), int>, e: Event) {
    (Domain(e), Token(e)) in cache && e.now < cache[(Domain(e), Token(e))]
  }

  /** Proof that the event comes from the portal it names. */
  predicate Proved(portals: map<string, string>, cache: map<(string, string), int>, e: Event) {
    TokenMatches(portals, e) || (Token(e) != "" && (Remembered(cache, e) || e.identity == Some(Domain(e))))
  }

  /** The first application token a portal backs is kept, if the write reaches the database. */
  function PortalsAfter(portals: map<string, string>, e: Event): map<string, string> {
    if TokenMatches(portals, e) && portals[Domain(e)] == "" && e.tokenSaved
    then portals[Domain(e) := e.applicationToken] else portals
  }

  /** The cache changes only when it is asked and does not know: a lapsed token leaves it, one that the
      portal confirms enters it. */
  function CacheAfter(portals: map<string, string>, cache: map<(string, string), int>,
                      e: Event): map<(string, string), int> {
    var key := (Domain(e), Token(e));
    if TokenMatches(portals, e) || Token(e) == "" || Remembered(cache, e) then cache
    else if e.identity == Some(Domain(e)) then cache[key := e.now + TOKEN_TTL]
    else cache - {key}
  }

  /** The event gets as far as having its origin checked. */
  predicate Asks(t: Tables, e: Event, jid: string) {
    Domain(e) != "" && e.accountsReadable && Owns(t.accounts, Domain(e), jid)
  }

  /** The marks of the event's two keys after its deduplication; other keys keep theirs. */
  predicate Marked(before: map<string, int>, after: map<string, int>, e: Event) {
    var byId, byText := MarkOf(before, IdKey(e)), MarkOf(before, TextKey(e));
    var stopped := e.imMsgId != "" && Judge(byId, e.now, e.idReply).Duplicate?;
    && MarkOf(after, IdKey(e)) == (if e.imMsgId == "" then byId else AfterReply(byId, e.now, ID_TTL, e.idReply))
    && MarkOf(after, TextKey(e)) ==
       if BBCode.Clean(e.text) == "" || stopped then byText else AfterReply(byText, e.now, TEXT_TTL, e.textReply)
  }

  ghost predicate OthersUnmarked(before: map<string, int>, after: map<string, int>, e: Event) {
    forall key :: key != IdKey(e) && key != TextKey(e) ==> MarkOf(after, key) == MarkOf(before, key)
  }

  /** What the routing tables hold: accounts by last update, contacts by chat with the session they
      were seen on, sessions by id, and the sessions this process holds. */
  datatype Tables = Tables(accounts: seq<Account>, contacts: map<string, Option<string>>,
                           sessions: map<string, string>, live: seq<string>)

  function ByConnector(accounts: seq<Account>, connector: string): Option<Account> {
    if accounts == [] then None
    else if accounts[0].connector == connector then Some(accounts[0])
    else ByConnector(accounts[1..], connector)
  }

  function OnlyLive(t: Tables): Option<string> {
    if |t.live| == 1 then Some(t.live[0]) else None
  }

  function SessionOf(t: Tables, contact: Option<string>): string {
    if contact.Some? && contact.value in t.sessions then t.sessions[contact.value] else ""
  }

  /** The session and line an event goes out by: the Cloud connector's account, the contact's
      session, or the only session there is. */
  function Route(t: Tables, e: Event): Option<(string, int)> {
    if HasPrefix(e.connector, "wa_cloud_") then
      match ByConnector(t.accounts, e.connector)
      case None => None
      case Some(a) => Some((a.sessionJid, if e.line == 0 then a.line else e.line))
    else
      var chat := Jid.SanitizeJid(e.chatIdRaw);
      var jid := if chat in t.contacts then SessionOf(t, t.contacts[chat]) else "";
      if jid != "" then Some((jid, e.line))
      else
        match OnlyLive(t)
        case None => None
        case Some(only) => Some((only, e.line))
  }

  function JobFor(e: Event, jid: string, line: int): Job {
    Job(jid, Jid.SanitizeJid(e.chatIdRaw), BBCode.Clean(e.text), e.connector, line, e.imChatId,
        e.imMsgId, e.chatIdRaw, e.file)
  }

  ghost predicate IsFirstOf(accounts: seq<Account>, connector: string, k: int) {
    0 <= k < |accounts| && accounts[k].connector == connector
    && forall j :: 0 <= j < k ==> accounts[j].connector != connector
  }

  /** The job goes out by a number of the portal the event names, to the chat of the event without its
      device, with the event's text as WhatsApp writes it and everything else as the event has it. Its
      line is the event's, or that of the Cloud connector's account where the event has none. */
  ghost predicate Legitimate(accounts: seq<Account>, e: Event, job: Job) {
    && Identity.NormalizeDomain(e.authDomain) != ""
    && (exists k :: 0 <= k < |accounts|
                    && Identity.StoredForm(accounts[k].domain) == Identity.NormalizeDomain(e.authDomain)
                    && Jid.NumeroBase(accounts[k].sessionJid) == Jid.NumeroBase(job.sessionJid))
    && job.toJid == Jid.SanitizeJid(e.chatIdRaw)
    && job.text == BBCode.Clean(e.text)
    && job.connector == e.connector
    && job.imChatId == e.imChatId
    && job.imMsgId == e.imMsgId
    && job.chatExtId == e.chatIdRaw
    && job.file == e.file
    && (if HasPrefix(e.connector, "wa_cloud_") && e.line == 0
        then exists k :: IsFirstOf(accounts, e.connector, k) && job.line == accounts[k].line
        else job.line == e.line)
  }

  /** Neither deduplication stops the event: by message id, then by chat and text. */
  predicate Fresh(marks: map<string, int>, e: Event) {
    (e.imMsgId == "" || !Judge(MarkOf(marks, IdKey(e)), e.now, e.idReply).Duplicate?)
    && (BBCode.Clean(e.text) == "" || !Judge(MarkOf(marks, TextKey(e)), e.now, e.textReply).Duplicate?)
  }

  /** The event reaches the check of its origin. */
  predicate Reached(t: Tables, marks: map<string, int>, e: Event) {
    Relevant(e) && Fresh(marks, e) && Route(t, e).Some? && Asks(t, e, Route(t, e).value.0)
  }

  /** The event is answered with a job. */
  predicate Sends(t: Tables, portals: map<string, string>, cache: map<(string, string), int>,
                  marks: map<string, int>, e: Event) {
    Reached(t, marks, e) && (Proved(portals, cache, e) || !e.strict) && e.queueAccepts
  }

  function JobOf(t: Tables, e: Event): Job {
    match Route(t, e)
    case Some((jid, line)) => JobFor(e, jid, line)
    case None => JobFor(e, "", 0)
  }

  class Connector {
    const store: Marks
    const tables: Tables
    var portals: map<string, string>
    var cache: map<(string, string), int>
    var queue: seq<Job>

    constructor (store: Marks, tables: Tables, portals: map<string, string>)
      ensures this.store == store && this.tables == tables && this.portals == portals && cache == map[] && queue == []
    {
      this.store := store;
      this.tables := tables;
      this.portals := portals;
      cache, queue := map[], [];
    }

    method ValidateAppToken(e: Event) returns (ok: bool)
      modifies this`portals
      ensures ok == (Domain(e) != "" && TokenMatches(old(portals), e))
      ensures Domain(e) != "" ==> portals == PortalsAfter(old(portals), e)
      ensures Domain(e) == "" ==> portals == old(portals)
    {
      var domain := Domain(e);
      if domain == "" || e.applicationToken == "" || domain !in portals {
        return false;
      }
      if portals[domain] == "" {
        if !e.firstTouch {
          return false;
        }
        if e.tokenSaved {
          portals := portals[domain := e.applicationToken];
        }
        return true;
      }
      return portals[domain] == e.applicationToken;
    }

    method EventoTemProva(e: Event) returns (ok: bool)
      requires Domain(e) != ""
      modifies this`portals, this`cache
      ensures ok == Proved(old(portals), old(cache), e)
      ensures portals == PortalsAfter(old(portals), e) && cache == CacheAfter(old(portals), old(cache), e)
    {
      hide Domain, Token;
      var matches := ValidateAppToken(e);
      if matches {
        return true;
      }
      var key := (Domain(e), Token(e));
      if key.1 == "" {
        return false;
      }
      if key in cache {
        if e.now < cache[key] {
          return true;
        }
        cache := cache - {key};
      }
      if e.identity != Some(Domain(e)) {
        return false;
      }
      cache := cache[key := e.now + TOKEN_TTL];
      return true;
    }

    method EventoPodeUsarSessao(e: Event, jid: string) returns (ok: bool)
      modifies this`portals, this`cache
      ensures ok <==> Asks(tables, e, jid) && (Proved(old(portals), old(cache), e) || !e.strict)
      ensures portals == if Asks(tables, e, jid) then PortalsAfter(old(portals), e) else old(portals)
      ensures cache == if Asks(tables, e, jid) then CacheAfter(old(portals), old(cache), e) else old(cache)
    {
      hide Domain, OwnedBy, Proved, PortalsAfter, CacheAfter;
      var domain := Domain(e);
      if domain == "" || !e.accountsReadable {
        return false;
      }
      var owner := false;
      for k := 0 to |tables.accounts|
        invariant owner <==> exists j :: 0 <= j < k && OwnedBy(tables.accounts[j], domain, jid)
      {
        if OwnedBy(tables.accounts[k], domain, jid) {
          owner := true;
          break;
        }
      }
      if !owner {
        return false;
      }
      var proved := EventoTemProva(e);
      return proved || !e.strict;
    }

    method FreshEvent(e: Event) returns (isNew: bool)
      modifies store
      ensures isNew ==> Fresh(old(store.marks), e)
      ensures !isNew ==> !Fresh(old(store.marks), e)
      ensures Marked(old(store.marks), store.marks, e)
      ensures forall key :: (key != IdKey(e) || e.imMsgId == "") &&
                                  (key != TextKey(e) || BBCode.Clean(e.text) == "") ==>
                MarkOf(store.marks, key) == MarkOf(old(store.marks), key)
    {
      KeysApart(e, e);
      if e.imMsgId != "" {
        var byId := store.MarkProcessed(IdKey(e), e.now, ID_TTL, e.idReply);
        if byId.Duplicate? {
          return false;
        }
      }
      if BBCode.Clean(e.text) != "" {
        var byText := store.MarkProcessed(TextKey(e), e.now, TEXT_TTL, e.textReply);
        if byText.Duplicate? {
          return false;
        }
      }
      return true;
    }

    method FindSession(e: Event) returns (route: Option<(string, int)>)
      ensures route == Route(tables, e)
    {
      if HasPrefix(e.connector, "wa_cloud_") {
        var account := ByConnector(tables.accounts, e.connector);
        if account.None? {
          return None;
        }
        return Some((account.value.sessionJid, if e.line == 0 then account.value.line else e.line));
      }
      var chat := Jid.SanitizeJid(e.chatIdRaw);
      var jid := "";
      if chat in tables.contacts {
        jid := SessionOf(tables, tables.contacts[chat]);
      }
      if jid == "" {
        if |tables.live| != 1 {
          return None;
        }
        jid := tables.live[0];
      }
      return Some((jid, e.line));
    }

    /** The checks before any session is looked for. */
    method Admit(e: Event) returns (ok: bool)
      modifies store
      ensures ok <==> Relevant(e) && Fresh(old(store.marks), e)
      ensures if Relevant(e) then Marked(old(store.marks), store.marks, e) else store.marks == old(store.marks)
      ensures OthersUnmarked(old(store.marks), store.marks, e)
    {
      hide Fresh, Marked;
      if e.userId == "0" || e.userId == "" {
        return false;
      }
      if e.text == "" && e.file.url == "" {
        return false;
      }
      var chat := Jid.SanitizeJid(e.chatIdRaw);
      if chat == "" {
        return false;
      }
      ok := FreshEvent(e);
    }

    /** The whole event. It queues one job exactly when the message is relevant and fresh, has a
        session to go out by, and that session's number belongs to the portal the event proved to
        come from. */
    method Handle(e: Event)
      modifies this`portals, this`cache, this`queue, store
      ensures if Sends(tables, old(portals), old(cache), old(store.marks), e)
              then queue == old(queue) + [JobOf(tables, e)] && Legitimate(tables.accounts, e, JobOf(tables, e))
              else queue == old(queue)
      ensures if Reached(tables, old(store.marks), e)
              then portals == PortalsAfter(old(portals), e) && cache == CacheAfter(old(portals), old(cache), e)
              else portals == old(portals) && cache == old(cache)
      ensures if Relevant(e) then Marked(old(store.marks), store.marks, e) else store.marks == old(store.marks)
      ensures OthersUnmarked(old(store.marks), store.marks, e)
    {
      hide Asks, Proved, Route, Fresh, JobFor, PortalsAfter, CacheAfter, Marked, Relevant, Domain, Legitimate;
      SendsLegitimately(tables, portals, cache, store.marks, e);
      var admitted := Admit(e);
      if !admitted {
        return;
      }
      var route := FindSession(e);
      if route.None? {
        return;
      }
      var (jid, line) := route.value;
      var allowed := EventoPodeUsarSessao(e, jid);
      if !allowed || !e.queueAccepts {
        return;
      }
      queue := queue + [JobFor(e, jid, line)];
    }

    /** Over any run of events every job queued is legitimate for the event it answers, an event is
        answered by at most one job, in order, and where a proof of origin is required somebody vouched:
        the token on file at the start, or the portal itself at some event of the run. */
    method HandleAll(events: seq<Event>) returns (ghost origins: seq<nat>)
      modifies this`portals, this`cache, this`queue, store
      ensures |queue| == |old(queue)| + |origins| && old(queue) <= queue
      ensures forall n :: 0 <= n < |origins| ==> origins[n] < |events|
      ensures forall n, m :: 0 <= n < m < |origins| ==> origins[n] < origins[m]
      ensures forall n :: 0 <= n < |origins| ==>
                Legitimate(tables.accounts, events[origins[n]], queue[|old(queue)| + n])
      ensures forall n :: 0 <= n < |origins| && events[origins[n]].strict ==>
                Vouched(old(portals), old(cache), events, origins[n])
    {
      hide Legitimate, Sends, Reached, Relevant, Marked, Proved, JobOf, PortalsAfter, CacheAfter, OthersUnmarked,
           Vouched, PortalsBacked, CacheBacked;
      origins := [];
      NothingYet(portals, cache, events);
      for k := 0 to |events|
        invariant |queue| == |old(queue)| + |origins| && old(queue) <= queue
        invariant forall n :: 0 <= n < |origins| ==> origins[n] < k
        invariant forall n, m :: 0 <= n < m < |origins| ==> origins[n] < origins[m]
        invariant forall n :: 0 <= n < |origins| ==>
                  Legitimate(tables.accounts, events[origins[n]], queue[|old(queue)| + n])
        invariant PortalsBacked(old(portals), portals, events, k) && CacheBacked(old(cache), cache, events, k)
        invariant forall n :: 0 <= n < |origins| && events[origins[n]].strict ==>
                  Vouched(old(portals), old(cache), events, origins[n])
      {
        ghost var before := |queue|;
        SendsLegitimately(tables, portals, cache, store.marks, events[k]);
        ProofIsVouched(old(portals), old(cache), portals, cache, events, k);
        StaysBacked(old(portals), old(cache), portals, cache, events, k);
        Handle(events[k]);
        if |queue| > before {
          origins := origins + [k];
        }
      }
    }
  }

  // ----- who vouched for the origin ------------------------------------------------------------

  /** At event m the portal that e names backed e's application token. */
  predicate Backs(m: Event, e: Event) {
    m.firstTouch && Domain(m) == Domain(e) && m.applicationToken == e.applicationToken
  }

  /** At event m, less than half an hour before e, the portal that e names confirmed e's access token. */
  predicate Confirms(m: Event, e: Event) {
    m.identity == Some(Domain(e)) && Domain(m) == Domain(e) && Token(m) == Token(e) && e.now < m.now + TOKEN_TTL
  }

  ghost predicate Vouched(portals: map<string, string>, cache: map<(string, string), int>, events: seq<Event>, k: int)
    requires 0 <= k < |events|
  {
    var e := events[k];
    || (e.applicationToken != "" && Domain(e) in portals && portals[Domain(e)] == e.applicationToken)
    || (e.applicationToken != "" && exists m :: 0 <= m <= k && Backs(events[m], e))
    || (Token(e) != "" && (Remembered(cache, e) || exists m :: 0 <= m <= k && Confirms(events[m], e)))
  }

  predicate GaveToken(m: Event, domain: string, token: string) {
    m.firstTouch && Domain(m) == domain && m.applicationToken == token
  }

  /** Every token on file was there at the start or came from an event whose portal backed it. */
  ghost predicate PortalsBacked(first: map<string, string>, portals: map<string, string>, events: seq<Event>, k: int) {
    forall d :: d in portals && portals[d] != "" ==>
      (d in first && first[d] == portals[d])
      || exists m :: 0 <= m < k <= |events| && GaveToken(events[m], d, portals[d])
  }

  predicate GaveEntry(m: Event, key: (string, string), until: int) {
    m.identity == Some(key.0) && (Domain(m), Token(m)) == key && until == m.now + TOKEN_TTL
  }

  /** Every remembered token was so at the start or was confirmed by the portal of some event. */
  ghost predicate CacheBacked(first: map<(string, string), int>, cache: map<(string, string), int>,
                              events: seq<Event>, k: int) {
    forall key :: key in cache ==>
      (key in first && first[key] == cache[key])
      || exists m :: 0 <= m < k <= |events| && GaveEntry(events[m], key, cache[key])
  }

  lemma NothingYet(portals: map<string, string>, cache: map<(string, string), int>, events: seq<Event>)
    ensures PortalsBacked(portals, portals, events, 0) && CacheBacked(cache, cache, events, 0)
  {
  }

  lemma ProofIsVouched(portals0: map<string, string>, cache0: map<(string, string), int>,
                       portals: map<string, string>, cache: map<(string, string), int>, events: seq<Event>, k: nat)
    requires k < |events| && PortalsBacked(portals0, portals, events, k) && CacheBacked(cache0, cache, events, k)
    ensures Proved(portals, cache, events[k]) ==> Vouched(portals0, cache0, events, k)
  {
    hide Domain, Token;
    var e := events[k];
    if TokenMatches(portals, e) {
      if portals[Domain(e)] == "" {
        assert Backs(events[k], e);
      } else if m :| 0 <= m < k && GaveToken(events[m], Domain(e), portals[Domain(e)]) {
        assert Backs(events[m], e);
      }
    } else if Token(e) != "" && e.identity == Some(Domain(e)) {
      assert Confirms(events[k], e);
    } else if Token(e) != "" && Remembered(cache, e) {
      var key := (Domain(e), Token(e));
      if m :| 0 <= m < k && GaveEntry(events[m], key, cache[key]) {
        assert Confirms(events[m], e);
      }
    }
  }

  lemma StaysBacked(portals0: map<string, string>, cache0: map<(string, string), int>,
                    portals: map<string, string>, cache: map<(string, string), int>, events: seq<Event>, k: nat)
    requires k < |events| && PortalsBacked(portals0, portals, events, k) && CacheBacked(cache0, cache, events, k)
    ensures PortalsBacked(portals0, portals, events, k + 1) && CacheBacked(cache0, cache, events, k + 1)
    ensures PortalsBacked(portals0, PortalsAfter(portals, events[k]), events, k + 1)
    ensures CacheBacked(cache0, CacheAfter(portals, cache, events[k]), events, k + 1)
  {
    hide Domain, Token;
    var e := events[k];
    assert e.firstTouch ==> GaveToken(events[k], Domain(e), e.applicationToken);
    assert e.identity == Some(Domain(e)) ==> GaveEntry(events[k], (Domain(e), Token(e)), e.now + TOKEN_TTL);
  }

  /** A job the handler queues carries the event's text and chat, leaves by a number of the portal the
      event names, and, in the mode that requires it, answers a proven event. */
  lemma SendsLegitimately(t: Tables, portals: map<string, string>, cache: map<(string, string), int>,
                          marks: map<string, int>, e: Event)
    ensures Sends(t, portals, cache, marks, e) ==>
              Legitimate(t.accounts, e, JobOf(t, e)) && (e.strict ==> Proved(portals, cache, e))
  {
    hide Relevant, Fresh, Proved, BBCode.Clean, Jid.SanitizeJid, Jid.NumeroBase, Identity.NormalizeDomain,
         Identity.StoredForm;
    ByConnectorIsFirst(t.accounts, e.connector);
  }

  /** Exactly which events are answered: messages of people with something to send and somewhere to send
      it, found fresh by both marks, whose route leads to a number of the portal they name, with a proof
      of origin where one is required, while the queue accepts. */
  lemma SendsIff(t: Tables, portals: map<string, string>, cache: map<(string, string), int>,
                 marks: map<string, int>, e: Event)
    ensures var domain, token := Identity.NormalizeDomain(e.authDomain), TrimSpace(e.accessToken);
            var chat, text := Jid.SanitizeJid(e.chatIdRaw), BBCode.Clean(e.text);
            Sends(t, portals, cache, marks, e) <==>
              && e.userId !in {"", "0"} && (e.text != "" || e.file.url != "") && chat != ""
              && !(e.imMsgId != "" && e.idReply.Answered? && Live(MarkOf(marks, "connevt:id:" + e.imMsgId), e.now))
              && !(text != "" && e.textReply.Answered?
                   && Live(MarkOf(marks, "connevt:txt:" + chat + ":" + text), e.now))
              && Route(t, e).Some? && domain != "" && e.accountsReadable
              && (exists k :: 0 <= k < |t.accounts| && Identity.StoredForm(t.accounts[k].domain) == domain
                              && Jid.NumeroBase(t.accounts[k].sessionJid) == Jid.NumeroBase(Route(t, e).value.0))
              && (!e.strict
                  || (e.applicationToken != "" && domain in portals && portals[domain] == e.applicationToken)
                  || (e.applicationToken != "" && domain in portals && portals[domain] == "" && e.firstTouch)
                  || (token != "" && e.identity == Some(domain))
                  || (token != "" && (domain, token) in cache && e.now < cache[(domain, token)]))
              && e.queueAccepts
  {
    hide Route, BBCode.Clean, Jid.SanitizeJid, Jid.NumeroBase, Identity.NormalizeDomain, Identity.StoredForm;
  }

  /** The first application token that a portal backs takes hold: from then on exactly this token is
      proof. If it does not reach the table, the next one asks the portal again. */
  lemma FirstTokenHolds(portals: map<string, string>, a: Event, b: Event)
    requires Domain(a) == Domain(b) && Domain(a) in portals && portals[Domain(a)] == ""
    requires a.applicationToken != "" && a.firstTouch
    ensures a.tokenSaved ==>
              (TokenMatches(PortalsAfter(portals, a), b) <==> b.applicationToken == a.applicationToken)
              && (TokenMatches(PortalsAfter(PortalsAfter(portals, a), b), b)
                  <==> b.applicationToken == a.applicationToken)
    ensures !a.tokenSaved ==>
              (TokenMatches(PortalsAfter(portals, a), b) <==> b.applicationToken != "" && b.firstTouch)
  {
    hide Domain;
  }

  /** The portal is asked only about a token that is presented, needed and not remembered; what is
      remembered is not renewed by being used. */
  lemma AskedWhenUnknown(portals: map<string, string>, cache: map<(string, string), int>, e: Event)
    ensures TokenMatches(portals, e) || Token(e) == "" || Remembered(cache, e) ==>
              CacheAfter(portals, cache, e) == cache
    ensures forall key :: key != (Domain(e), Token(e)) ==>
              (key in CacheAfter(portals, cache, e) <==> key in cache)
              && (key in cache ==> CacheAfter(portals, cache, e)[key] == cache[key])
  {
    hide Domain, Token;
  }

  /** An access token that its portal confirmed is proof for exactly half an hour, and one that lapsed has
      to be confirmed again. */
  lemma ConfirmedHolds(portals: map<string, string>, cache: map<(string, string), int>, a: Event, b: Event)
    requires Domain(a) == Domain(b) && Token(a) == Token(b) != "" && a.identity == Some(Domain(a))
    requires !TokenMatches(portals, a) && !Remembered(cache, a)
    ensures Remembered(CacheAfter(portals, cache, a), b) <==> b.now < a.now + 1_800_000_000_000
    ensures b.now >= a.now + 1_800_000_000_000 && b.identity != Some(Domain(b)) && !TokenMatches(portals, b) ==>
              !Proved(portals, CacheAfter(portals, cache, a), b)
              && (Domain(b), Token(b)) !in CacheAfter(portals, CacheAfter(portals, cache, a), b)
  {
    hide Domain, Token;
  }

  /** The keys of the two deduplications never meet, and ids have keys of their own. */
  lemma KeysApart(a: Event, b: Event)
    ensures IdKey(a) != TextKey(b)
    ensures IdKey(a) == IdKey(b) <==> a.imMsgId == b.imMsgId
  {
    hide Jid.SanitizeJid, BBCode.Clean;
    assert IdKey(a)[8] == 'i' && TextKey(b)[8] == 't';
    assert IdKey(a)[11..] == a.imMsgId && IdKey(b)[11..] == b.imMsgId;
  }

  /** The keys by text tell chats and texts apart, unless one chat id continues the other with a ':'. */
  lemma TextKeysMeetIff(a: Event, b: Event)
    ensures var (s, i, s', i') := (Jid.SanitizeJid(a.chatIdRaw), BBCode.Clean(a.text),
                                   Jid.SanitizeJid(b.chatIdRaw), BBCode.Clean(b.text));
            TextKey(a) == TextKey(b) <==>
              (s == s' && i == i')
              || (exists x: string :: s == s' + ":" + x && i' == x + ":" + i)
              || (exists x: string :: s' == s + ":" + x && i == x + ":" + i')
  {
    hide Jid.SanitizeJid, BBCode.Clean;
    var ka := Jid.SanitizeJid(a.chatIdRaw) + ":" + BBCode.Clean(a.text);
    var kb := Jid.SanitizeJid(b.chatIdRaw) + ":" + BBCode.Clean(b.text);
    assert TextKey(a) == "connevt:txt:" + ka && TextKey(b) == "connevt:txt:" + kb;
    assert TextKey(a)[12..] == ka && TextKey(b)[12..] == kb;
    ColonPairsMeetIff(Jid.SanitizeJid(a.chatIdRaw), BBCode.Clean(a.text), Jid.SanitizeJid(b.chatIdRaw),
                      BBCode.Clean(b.text));
  }

  /** Two attachments without text, with ids of their own, never suppress one another: whatever is
      done about the first leaves the second exactly as fresh as it was. */
  method AttachmentsIndependent(c: Connector, first: Event, second: Event)
    requires BBCode.Clean(first.text) == "" && BBCode.Clean(second.text) == "" && first.imMsgId != second.imMsgId
    modifies c.store
    ensures Fresh(c.store.marks, second) == Fresh(old(c.store.marks), second)
  {
    KeysApart(first, second);
    KeysApart(second, first);
    var isNew := c.FreshEvent(first);
  }

  // ----- which session -------------------------------------------------------------------------

  lemma {:induction false} ByConnectorIsFirst(accounts: seq<Account>, connector: string)
    ensures match ByConnector(accounts, connector)
            case Some(a) => exists k :: IsFirstOf(accounts, connector, k) && accounts[k] == a
            case None => forall k :: 0 <= k < |accounts| ==> accounts[k].connector != connector
  {
    if accounts != [] && accounts[0].connector != connector {
      ByConnectorIsFirst(accounts[1..], connector);
      if k :| IsFirstOf(accounts[1..], connector, k) {
        assert IsFirstOf(accounts, connector, k + 1);
      }
      assert accounts == [accounts[0]] + accounts[1..];
    } else if accounts != [] {
      assert IsFirstOf(accounts, connector, 0);
    }
  }

  /** A Cloud event goes out by the account updated last among those of its connector, and is dropped
      exactly when none has it. */
  lemma CloudRoute(t: Tables, e: Event)
    requires HasPrefix(e.connector, "wa_cloud_")
    ensures Route(t, e).None? <==> forall k :: 0 <= k < |t.accounts| ==> t.accounts[k].connector != e.connector
    ensures Route(t, e).Some? ==>
              exists k :: IsFirstOf(t.accounts, e.connector, k) && Route(t, e).value.0 == t.accounts[k].sessionJid
                          && Route(t, e).value.1 == if e.line == 0 then t.accounts[k].line else e.line
  {
    ByConnectorIsFirst(t.accounts, e.connector);
  }

  /** Any other event goes out by the session its chat was seen on, or by the only live session, and is
      dropped exactly when the chat leads to no session and not exactly one is live. A chat that is
      known never goes out by another session than its own while that one is on record. */
  lemma ChatRoute(t: Tables, e: Event)
    requires !HasPrefix(e.connector, "wa_cloud_")
    ensures var chat := Jid.SanitizeJid(e.chatIdRaw);
            var known := chat in t.contacts && t.contacts[chat].Some? && t.contacts[chat].value in t.sessions
                         && t.sessions[t.contacts[chat].value] != "";
            && (known ==> Route(t, e) == Some((t.sessions[t.contacts[chat].value], e.line)))
            && (!known && Route(t, e).Some? ==> t.live == [Route(t, e).value.0] && Route(t, e).value.1 == e.line)
            && (Route(t, e).None? <==> !known && |t.live| != 1)
  {
    hide Jid.SanitizeJid;
    if |t.live| == 1 {
      assert t.live == [t.live[0]];
    }
  }

  // ----- events that suppress one another ------------------------------------------------------

  /** Event a leaves the mark of the message id, and b finds it. */
  predicate SharesId(before: map<string, int>, a: Event, b: Event) {
    a.imMsgId != "" && a.imMsgId == b.imMsgId && Lands(a.idReply) && b.idReply.Answered?
    && b.now < a.now + 300_000_000_000 && !Live(MarkOf(before, IdKey(a)), a.now)
  }

  predicate StoppedById(marks: map<string, int>, e: Event) {
    e.imMsgId != "" && Judge(MarkOf(marks, IdKey(e)), e.now, e.idReply).Duplicate?
  }

  /** Event a leaves the mark of the chat and text, and b finds it. */
  predicate SharesText(before: map<string, int>, a: Event, b: Event) {
    BBCode.Clean(a.text) != "" && BBCode.Clean(b.text) != "" && TextKey(a) == TextKey(b)
    && Lands(a.textReply) && b.textReply.Answered? && b.now < a.now + 30_000_000_000
    && !StoppedById(before, a) && !Live(MarkOf(before, TextKey(a)), a.now)
  }

  /** Whatever marks it starts from, an event keeps a later one from being fresh exactly when that was
      not fresh anyway, or the two share the message id for five minutes or the chat and the text for
      thirty seconds and the first found no mark of its own: a mark that is found is not renewed. The
      portals they name play no part, nor whether the first proves its origin. */
  lemma SuppressesIff(before: map<string, int>, a: Event, b: Event, after: map<string, int>)
    requires a.now <= b.now && Marked(before, after, a) && OthersUnmarked(before, after, a)
    ensures !Fresh(after, b) <==> !Fresh(before, b) || SharesId(before, a, b) || SharesText(before, a, b)
  {
    hide BBCode.Clean, IdKey, TextKey;
    KeysApart(a, b);
    KeysApart(b, a);
    KeysApart(a, a);
    KeysApart(b, b);
  }

  /** A mark that is found is not renewed: of three events with one id, four minutes and then two
      apart, the second is a duplicate and the third is fresh again. */
  lemma FoundIsNotRenewed(a: Event, b: Event, c: Event, afterA: map<string, int>, afterB: map<string, int>)
    requires a.imMsgId != "" && a.imMsgId == b.imMsgId == c.imMsgId && BBCode.Clean(c.text) == ""
    requires a.idReply.Answered? && b.idReply.Answered? && c.idReply.Answered?
    requires a.now <= b.now < a.now + ID_TTL <= c.now < b.now + ID_TTL
    requires Marked(map[], afterA, a) && Marked(afterA, afterB, b)
    ensures !Fresh(afterA, b) && Fresh(afterB, c)
  {
    hide BBCode.Clean, TextKey;
    assert IdKey(a) == IdKey(b) == IdKey(c);
    assert MarkOf(map[], IdKey(a)) == None;
  }

  /** So an event of one portal can take the place of another portal's answer: if the first finds no
      mark of the id, and the second comes within five minutes and is judged, it is not answered. */
  method ForeignEventSuppresses(c: Connector, a: Event, b: Event)
    requires a.now <= b.now && Domain(a) != Domain(b) && Relevant(a) && Relevant(b)
    requires SharesId(c.store.marks, a, b)
    modifies c`portals, c`cache, c`queue, c.store
    ensures c.queue == old(c.queue) + if Sends(c.tables, old(c.portals), old(c.cache), old(c.store.marks), a)
                                      then [JobOf(c.tables, a)] else []
  {
    hide Legitimate, Fresh, Relevant, Proved, Domain, Sends, Reached, JobOf, Marked, OthersUnmarked, SharesId;
    ghost var before := c.store.marks;
    c.Handle(a);
    SuppressesIff(before, a, b, c.store.marks);
    StaleIsNotSent(c.tables, c.portals, c.cache, c.store.marks, b);
    c.Handle(b);
  }

  lemma StaleIsNotSent(t: Tables, portals: map<string, string>, cache: map<(string, string), int>,
                       marks: map<string, int>, e: Event)
    ensures !Fresh(marks, e) ==> !Sends(t, portals, cache, marks, e)
  {
    hide Route, Fresh, Asks, Proved;
  }
}
