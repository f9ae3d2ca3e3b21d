/** What a portal can do, and all that a request does: the other half of isolation. */
module TenantRights {
  import opened Text
  import opened Bodies
  import opened Jid
  import opened Tenants
  import Identity

  // ----- accounts ------------------------------------------------------------------------------

  /** A row goes when the statement deletes by its very id, or by the number of a QR session. */
  predicate Goes(jid: string, row: string) {
    if HasPrefix(jid, "cloud:") then row == jid else !HasPrefix(row, "cloud:") && SqlNumber(row) == SqlNumber(jid)
  }

  /** Of two sessions in circulation, deleting by one takes the other exactly when they are the same Cloud
      session, or QR sessions of one number on whatever device. */
  lemma GoesWithItsNumber(a: Jid.Session, b: Jid.Session)
    requires a.Valid() && b.Valid()
    ensures Goes(a.Print(), b.Print()) <==> if a.Cloud? then b.Print() == a.Print() else b.Qr? && b.user == a.user
  {
    hide SqlNumber;
    KindShows(a);
    KindShows(b);
    if a.Qr? {
      QrAgree(a);
    }
    if b.Qr? {
      QrAgree(b);
    }
  }

  lemma KindShows(s: Jid.Session)
    requires s.Valid()
    ensures HasPrefix(s.Print(), "cloud:") <==> s.Cloud?
  {
    if s.Qr? {
      QrShape(s);
    } else {
      CloudShape(s);
    }
  }

  /** Some rows went, and nothing else changed. */
  ghost predicate OnlyGone(before: State, after: State, jid: string) {
    && (forall row :: row in after.rows <==> row in before.rows && !Goes(jid, row))
    && (forall row :: row in after.rows ==> after.rows[row] == before.rows[row])
    && after.memory == before.memory && after.saved == before.saved
  }

  /** A request to delete or to unlink takes away the rows of the JID it names if it passes and the table
      can be written, and else changes nothing. */
  lemma DeleteExactly(st: State, d: string, query: map<string, string>, body: Body, env: Env)
    ensures var jid := Get(query, "jid");
            var after := Serve(st, d, Delete(query, body), env);
            && Serve(st, d, Unlink(query, body), env) == after
            && (if Passes(st, d, env, query, body) && jid != "" && env.accountsWritable then OnlyGone(st, after, jid)
                else after == st)
  {
    hide NumeroBase, Seen, Handed, Passes, Scope, SqlNumber;
    KeysDiffer();
    PassesIff(st, d, env, query, body);
  }

  /** Disconnecting does the same for a number of the portal, and forgets its pairing. */
  lemma DisconnectExactly(st: State, d: string, jid: string, env: Env)
    ensures var n, after := NumeroBase(jid), Serve(st, d, Disconnect(jid), env);
            if env.accountsReadable && n != "" && HasNumber(st, d, env, n) then
              && after.memory == st.memory - {n}
              && after.saved == (if env.pairingsWritable then st.saved - {n} else st.saved)
              && (if env.accountsWritable then OnlyGone(st, after.(memory := st.memory, saved := st.saved), jid)
                  else after.rows == st.rows)
            else after == st
  {
    hide NumeroBase, HasNumber, PodeOperar, SqlNumber;
    OperatesIff(st, d, env, jid);
    NoNumberNoJid(jid);
  }

  /** A portal can always take back its own: asked to delete, to unlink or to disconnect the JID of one of
      its rows, the row goes if the tables answer. */
  lemma OwnRowGoes(st: State, d: string, jid: string, env: Env)
    requires CookieDomain(d) && jid in st.rows && Identity.StoredForm(st.rows[jid].domain) == d && NumeroBase(jid) != ""
    requires env.accountsReadable && env.accountsWritable
    ensures jid !in Serve(st, d, Delete(map["jid" := jid], NO_BODY), env).rows
    ensures jid !in Serve(st, d, Unlink(map["jid" := jid], NO_BODY), env).rows
    ensures jid !in Serve(st, d, Disconnect(jid), env).rows
  {
    hide NumeroBase, CookieDomain, Serve, Passes, Contains, Identity.StoredForm;
    assert HasNumber(st, d, env, NumeroBase(jid));
    NoNumberNoJid(jid);
    NamedAlone(st, d, jid, env);
    assert Get(map["jid" := jid], "jid") == jid;
    DeleteExactly(st, d, map["jid" := jid], NO_BODY, env);
    DisconnectExactly(st, d, jid, env);
  }

  lemma NamedAlone(st: State, d: string, jid: string, env: Env)
    requires env.accountsReadable && NumeroBase(jid) != "" && HasNumber(st, d, env, NumeroBase(jid))
    ensures Passes(st, d, env, map["jid" := jid], NO_BODY)
  {
    hide NumeroBase, HasNumber, Contains;
    KeysDiffer();
    NotScannedNotSeen(NO_BODY, d);
    assert Identity.NormalizeDomain("") == "";
  }

  /** Linking stores the session the handler decodes, under its own connector and the line asked for, if
      the request passes, the portal is known, the session has a connector and the table can be written;
      else it changes nothing. */
  lemma LinkExactly(st: State, d: string, query: map<string, string>, body: Body, env: Env)
    ensures var after := Serve(st, d, Link(query, body), env);
            match (Decode(Handed(body, d), {"domain", "session_jid"}))
            case None => after == st
            case Some(f) =>
              var connector := ConnectorDaSessao(f.sessionJid, env.cloudPhoneId);
              if Passes(st, d, env, query, body) && f.domain != "" && f.sessionJid != "" && f.line > 0
                 && env.portalKnown && connector.Some? && env.accountsWritable then
                after == st.(rows := st.rows[f.sessionJid := Row(
                  Identity.NormalizeDomain(NormalizePortalParam(f.domain)), connector.value, f.line)])
              else after == st
  {
    hide NumeroBase, Decode, Handed, Seen, Passes, Scope, ConnectorDaSessao, NormalizePortalParam,
         Identity.NormalizeDomain;
    PassesIff(st, d, env, query, body);
  }

  /** Creating stores what the handler decodes, with line 1 and the common connector where none is given. */
  lemma CreateExactly(st: State, d: string, query: map<string, string>, body: Body, env: Env)
    ensures var after := Serve(st, d, Create(query, body), env);
            match (Decode(Handed(body, d), {"domain", "session_jid", "client_id", "client_secret", "connector_id"}))
            case None => after == st
            case Some(f) =>
              if Passes(st, d, env, query, body) && f.domain != "" && f.sessionJid != "" && f.clientId != ""
                 && f.clientSecret != "" && env.accountsWritable then
                var connector := if f.connectorId == "" then "whatsapp_uc" else f.connectorId;
                var line := if f.line == 0 then 1 else f.line;
                after == st.(rows := st.rows[f.sessionJid := Row(f.domain, connector, line)])
              else after == st
  {
    hide NumeroBase, Decode, Handed, Seen, Passes, Scope;
    PassesIff(st, d, env, query, body);
  }

  // ----- pairings ------------------------------------------------------------------------------

  /** Asking to pair a number gives it to the portal, in memory and in the table, unless it is known to be
      another's; when the session does not start the pairing is forgotten again. */
  lemma PairExactly(st: State, d: string, phone: string, env: Env)
    requires d != ""
    ensures var n, after := NumeroBase(phone), Serve(st, d, StartSession(phone), env);
            && after.rows == st.rows
            && (if phone == "" || env.owner.None? || env.owner.value !in {"", d} then after == st
                else
                  && after.memory == (if env.sessionAdded then st.memory[n := d] else st.memory - {n})
                  && after.saved == (if !env.pairingsWritable then st.saved
                                     else if env.sessionAdded then st.saved[n := d] else st.saved - {n}))
  {
    hide NumeroBase;
  }

  /** A number just paired can be linked, and is the portal's until it is disconnected. */
  lemma PairedIsMine(st: State, d: string, phone: string, env: Env, later: Env)
    requires d != "" && phone != "" && NumeroBase(phone) != "" && later.accountsReadable
    requires env.owner.Some? && env.owner.value in {"", d} && env.sessionAdded
    ensures var paired := Serve(st, d, StartSession(phone), env);
            && HasNumber(paired, d, later, NumeroBase(phone))
            && NumeroBase(phone) !in Serve(paired, d, Disconnect(phone), later).memory
  {
    hide NumeroBase, Serve, PodeOperar;
    PairExactly(st, d, phone, env);
    DisconnectExactly(Serve(st, d, StartSession(phone), env), d, phone, later);
  }
}
