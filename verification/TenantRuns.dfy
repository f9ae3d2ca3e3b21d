/** Runs of requests of many portals, with restarts and lapsing pairings between them: who owns a
    number, and whose rows change. */
module TenantRuns {
  import opened Text
  import opened Bodies
  import opened Jid
  import opened Tenants
  import Identity

  const EMPTY := State(map[], map[], map[])

  datatype Step =
    | Ask(domain: string, request: Request, env: Env)
    | Restart
    | PairingLapses(number: string)

  function Apply(st: State, step: Step): State {
    match step
    case Ask(d, r, env) => Serve(st, d, r, env)
    case Restart => st.(memory := map[])
    case PairingLapses(n) => st.(saved := st.saved - {n})
  }

  function Run(st: State, steps: seq<Step>): State {
    if steps == [] then st else Apply(Run(st, steps[..|steps| - 1]), steps[|steps| - 1])
  }

  /** A request of a signed-in portal whose two readings agree, with honest answers of the database. */
  ghost predicate Proper(st: State, step: Step) {
    step.Ask? ==>
      CookieDomain(step.domain) && Aligned(step.domain, step.request) && Faithful(st, step.request, step.env)
  }

  ghost predicate ProperRun(st: State, steps: seq<Step>) {
    forall k :: 0 <= k < |steps| ==> Proper(Run(st, steps[..k]), steps[k])
  }

  /** Every JID that a step stores has the same number in Go and in SQL. */
  ghost predicate StoresCleanly(steps: seq<Step>) {
    forall k :: 0 <= k < |steps| && steps[k].Ask? ==> StoresCleanJid(steps[k].domain, steps[k].request)
  }

  /** Every JID that a step deletes by is confined. */
  ghost predicate DeletesConfined(steps: seq<Step>) {
    forall k :: 0 <= k < |steps| && steps[k].Ask? ==> CleanRequest(steps[k].domain, steps[k].request)
  }

  lemma EnvironmentKeepsOwners(st: State, step: Step)
    requires OneOwner(st) && CleanState(st) && !step.Ask?
    ensures OneOwner(Apply(st, step)) && CleanState(Apply(st, step)) && Apply(st, step).rows == st.rows
  {
    hide NumeroBase, SqlNumeroBase;
    FewerKeepsOneOwner(st, Apply(st, step));
  }

  lemma RunPrefix(st: State, steps: seq<Step>)
    requires steps != [] && ProperRun(st, steps)
    ensures ProperRun(st, steps[..|steps| - 1])
    ensures StoresCleanly(steps) ==> StoresCleanly(steps[..|steps| - 1])
    ensures DeletesConfined(steps) ==> DeletesConfined(steps[..|steps| - 1])
  {
    hide Proper, StoresCleanJid, CleanRequest, Run;
    var before := steps[..|steps| - 1];
    forall k | 0 <= k < |before| ensures before[..k] == steps[..k] && before[k] == steps[k] {
    }
  }

  /** One owner per number survives every proper run that stores only JIDs whose two forms agree. */
  lemma {:induction false} RunKeepsOwners(st: State, steps: seq<Step>)
    requires OneOwner(st) && CleanState(st) && ProperRun(st, steps) && StoresCleanly(steps)
    ensures OneOwner(Run(st, steps)) && CleanState(Run(st, steps))
  {
    hide NumeroBase, SqlNumeroBase, Perform, Decide, CookieDomain, OneOwner, CleanState, StoresCleanJid,
         Aligned, Faithful;
    if steps != [] {
      var n := |steps| - 1;
      var now, step := Run(st, steps[..n]), steps[n];
      RunPrefix(st, steps);
      RunKeepsOwners(st, steps[..n]);
      assert Proper(now, step);
      if step.Ask? {
        ServeKeepsOneOwner(now, step.domain, step.request, step.env);
        ServeKeepsClean(now, step.domain, step.request, step.env);
      } else {
        EnvironmentKeepsOwners(now, step);
      }
    }
  }

  /** The account rows of a portal. */
  function RowsOf(st: State, d: string): map<string, Row> {
    map jid | jid in st.rows && Owner(st.rows[jid]) == d :: st.rows[jid]
  }

  lemma OthersKeepRows(st: State, st': State, d: string, env: Env, other: string)
    requires OneOwner(st) && TouchesOnly(st, st', NumerosDoTenant(st, d, env), d) && other != d
    ensures RowsOf(st', other) == RowsOf(st, other)
  {
    hide NumeroBase;
    forall jid ensures jid in RowsOf(st', other) <==> jid in RowsOf(st, other)
               ensures jid in RowsOf(st, other) ==> RowAt(st', jid) == RowAt(st, jid) {
      if jid in st.rows && RowAt(st', jid) != RowAt(st, jid) {
        NumberHasOwner(st, d, env, jid);
      }
    }
    assert RowsOf(st', other).Keys == RowsOf(st, other).Keys;
  }

  lemma NumberHasOwner(st: State, d: string, env: Env, jid: string)
    requires OneOwner(st) && jid in st.rows && NumeroBase(jid) in NumerosDoTenant(st, d, env)
    ensures Owner(st.rows[jid]) == d
  {
    hide NumeroBase;
    var n := NumeroBase(jid);
    if n in AccountNumbers(st, d) {
      var a :| a in st.rows && Owner(st.rows[a]) == d && NumeroBase(a) == n;
    }
  }

  /** Over any run in which a portal sends no request, its account rows do not change: whatever the
      other portals ask for, and across restarts and lapsing pairings. */
  lemma {:induction false} IsolationOverRuns(st: State, steps: seq<Step>, portal: string)
    requires OneOwner(st) && CleanState(st) && ProperRun(st, steps) && StoresCleanly(steps) && DeletesConfined(steps)
    requires forall k :: 0 <= k < |steps| && steps[k].Ask? ==> steps[k].domain != portal
    ensures RowsOf(Run(st, steps), portal) == RowsOf(st, portal)
  {
    hide NumeroBase, SqlNumeroBase, Perform, Decide, CookieDomain, OneOwner, CleanState, CleanRequest, StoresCleanJid,
         Aligned, Faithful;
    if steps != [] {
      var n := |steps| - 1;
      var now, step := Run(st, steps[..n]), steps[n];
      RunPrefix(st, steps);
      IsolationOverRuns(st, steps[..n], portal);
      RunKeepsOwners(st, steps[..n]);
      assert Proper(now, step);
      if step.Ask? {
        NonInterference(now, step.domain, step.request, step.env);
        OthersKeepRows(now, Apply(now, step), step.domain, step.env, portal);
      } else {
        EnvironmentKeepsOwners(now, step);
      }
    }
  }

  // ----- the two forms of a number -------------------------------------------------------------------

  /** The owner pairs the number, stores its account, the saved pairing lapses after thirty days, and
      another portal asks to pair the number. */
  function Takeover(owner: string, d: string, jid: string): seq<Step> {
    [Ask(owner, StartSession(jid), WILLING), Ask(owner, Create(map[], AccountBody(EXACT, owner, jid)), WILLING),
     PairingLapses(NumeroBase(jid)), Ask(d, StartSession(jid), WILLING)]
  }

  function Claim(st: State, n: string, d: string): State {
    st.(memory := st.memory[n := d], saved := st.saved[n := d])
  }

  function WithAccount(st: State, d: string, jid: string): State {
    st.(rows := st.rows[jid := Row(d, "whatsapp_uc", 1)])
  }

  /** The states on the way. */
  lemma TakeoverStates(owner: string, d: string, jid: string)
    requires CookieDomain(owner) && CookieDomain(d) && owner != d && jid != "" && NumeroBase(jid) != ""
    ensures var n, steps := NumeroBase(jid), Takeover(owner, d, jid);
            var st2 := WithAccount(Claim(EMPTY, n, owner), owner, jid);
            && Run(EMPTY, steps[..2]) == st2
            && Run(EMPTY, steps[..3]) == st2.(saved := st2.saved - {n})
            && Run(EMPTY, steps) == Claim(st2.(saved := st2.saved - {n}), n, d)
  {
    hide NumeroBase, CookieDomain, Serve, Run, AccountBody, Takeover, Claim, WithAccount;
    var n, steps := NumeroBase(jid), Takeover(owner, d, jid);
    TakeoverSteps(owner, d, jid);
    CookieDomainFixed(owner);
    CookieDomainFixed(d);
    EmptyRun(EMPTY);
    PairServed(EMPTY, owner, jid);
    AccountServed(Claim(EMPTY, n, owner), owner, jid) by { ClaimClaims(EMPTY, n, owner); }
    PairServed(Run(EMPTY, steps[..3]), d, jid);
  }

  lemma ClaimClaims(st: State, n: string, d: string)
    ensures n in Claim(st, n, d).memory && Claim(st, n, d).memory[n] == d
  {
  }

  lemma TakeoverSteps(owner: string, d: string, jid: string)
    ensures var steps := Takeover(owner, d, jid);
            && |steps| == 4 && steps[..0] == [] && steps[..4] == steps
            && Run(EMPTY, steps[..1]) == Serve(Run(EMPTY, []), owner, StartSession(jid), WILLING)
            && Run(EMPTY, steps[..2])
               == Serve(Run(EMPTY, steps[..1]), owner, Create(map[], AccountBody(EXACT, owner, jid)), WILLING)
            && Run(EMPTY, steps[..3])
               == Run(EMPTY, steps[..2]).(saved := Run(EMPTY, steps[..2]).saved - {NumeroBase(jid)})
            && Run(EMPTY, steps) == Serve(Run(EMPTY, steps[..3]), d, StartSession(jid), WILLING)
  {
    hide NumeroBase, Serve, Run, AccountBody;
    var steps := Takeover(owner, d, jid);
    RunStep(EMPTY, steps, 0);
    RunStep(EMPTY, steps, 1);
    RunStep(EMPTY, steps, 2);
    RunStep(EMPTY, steps, 3);
    assert steps[..0] == [] && steps[..4] == steps;
  }

  lemma RunStep(st: State, steps: seq<Step>, k: nat)
    requires k < |steps|
    ensures Run(st, steps[..k + 1]) == Apply(Run(st, steps[..k]), steps[k])
  {
    assert steps[..k + 1][..k] == steps[..k];
  }

  lemma PairServed(st: State, d: string, phone: string)
    requires d != "" && phone != ""
    ensures Serve(st, d, StartSession(phone), WILLING) == Claim(st, NumeroBase(phone), d)
  {
    hide NumeroBase;
  }

  lemma AccountDecided(st: State, d: string, jid: string)
    requires CookieDomain(d) && jid != "" && NumeroBase(jid) != ""
    requires NumeroBase(jid) in st.memory && st.memory[NumeroBase(jid)] == d
    ensures Decide(st, d, Create(map[], AccountBody(EXACT, d, jid)), WILLING) == Store(jid, Row(d, "whatsapp_uc", 1))
  {
    hide NumeroBase, CookieDomain, Scope, Target, Contains, AccountBody, Handed;
    var r := Create(map[], AccountBody(EXACT, d, jid));
    CookieDomainFixed(d);
    ExactPasses(st, d, jid);
    ScopeSound(st, d, WILLING, r.query, r.body, jid);
    ExactCreates(d, jid);
  }

  lemma AccountServed(st: State, d: string, jid: string)
    requires CookieDomain(d) && jid != "" && NumeroBase(jid) != ""
    requires NumeroBase(jid) in st.memory && st.memory[NumeroBase(jid)] == d
    ensures Serve(st, d, Create(map[], AccountBody(EXACT, d, jid)), WILLING) == WithAccount(st, d, jid)
  {
    hide NumeroBase, CookieDomain, Decide, AccountBody;
    AccountDecided(st, d, jid);
  }

  lemma ExactPasses(st: State, d: string, jid: string)
    requires CookieDomain(d) && NumeroBase(jid) != ""
    requires NumeroBase(jid) in st.memory && st.memory[NumeroBase(jid)] == d
    ensures Scope(st, d, WILLING, map[], AccountBody(EXACT, d, jid)).Some?
  {
    hide NumeroBase, CookieDomain, Seen, Scanned, OtherPortal;
    ExactSeen(d, jid);
    NotOther(d);
    assert NumeroBase(jid) in PairedNumbers(st.memory, d);
    var named := Named(map[], AccountBody(EXACT, d, jid));
    assert named[0] == "" && named[1] == "" && named[2] == jid && named[3] == "";
  }

  lemma ExactSeen(d: string, jid: string)
    ensures var body := AccountBody(EXACT, d, jid);
            && Scanned(body) && body.json.Some? && Seen(body, "domain") == d && Seen(body, "session_jid") == jid
            && Seen(body, "portal") == Seen(body, "jid") == ""
  {
    hide Lookup, Contains;
    AccountLookup(EXACT, d, jid);
    KnownTypes();
  }

  /** The account that the body creates. */
  lemma ExactCreates(d: string, jid: string)
    requires d != "" && jid != ""
    ensures CreateAccount(Handed(AccountBody(EXACT, d, jid), d)) == Store(jid, Row(d, "whatsapp_uc", 1))
  {
    hide Decode, Handed;
    AccountFields(EXACT, d, jid);
  }

  /** The agreement of the two forms of a number is needed: a portal stores an account under a JID on
      which they differ, by requests as ordinary as any, and once its pairing has lapsed another portal
      pairs the number. */
  lemma TakeoverSucceeds(owner: string, d: string, jid: string)
    requires CookieDomain(owner) && CookieDomain(d) && owner != d && jid != "" && NumeroBase(jid) != ""
    requires SqlNumeroBase(jid) != NumeroBase(jid)
    ensures ProperRun(EMPTY, Takeover(owner, d, jid)) && !OneOwner(Run(EMPTY, Takeover(owner, d, jid)))
  {
    hide NumeroBase, SqlNumeroBase, CookieDomain, Serve, Aligned, Run;
    var n, steps := NumeroBase(jid), Takeover(owner, d, jid);
    TakeoverStates(owner, d, jid);
    TakeoverProper(owner, d, jid);
    CookieDomainFixed(owner);
    assert jid in Run(EMPTY, steps).rows && Run(EMPTY, steps).memory[n] == d;
  }

  lemma TakeoverProper(owner: string, d: string, jid: string)
    requires CookieDomain(owner) && CookieDomain(d) && owner != d && jid != "" && NumeroBase(jid) != ""
    requires SqlNumeroBase(jid) != NumeroBase(jid)
    ensures ProperRun(EMPTY, Takeover(owner, d, jid))
  {
    hide NumeroBase, SqlNumeroBase, CookieDomain, Serve, Run, Passable, Target, Covered, AccountBody;
    var steps := Takeover(owner, d, jid);
    TakeoverStates(owner, d, jid);
    ExactIsAligned(owner, jid);
    EmptyRun(EMPTY);
    assert steps[..0] == [];
    var st := Run(EMPTY, steps[..3]);
    assert forall row :: !RowOf(st, NumeroBase(jid), row);
    assert OwnerAnswer(st, NumeroBase(jid), "");
    assert OwnerAnswer(EMPTY, NumeroBase(jid), "");
    assert Proper(Run(EMPTY, steps[..0]), steps[0]);
    assert Proper(Run(EMPTY, steps[..1]), steps[1]);
    assert Proper(Run(EMPTY, steps[..2]), steps[2]);
    assert Proper(Run(EMPTY, steps[..3]), steps[3]);
  }

  lemma EmptyRun(st: State)
    ensures Run(st, []) == st
  {
  }

  /** For a JID that has a number, ownership survives every proper run that stores under no other JID
      exactly when the two forms of its number agree. */
  lemma OwnershipIffFormsAgree(owner: string, d: string, jid: string)
    requires CookieDomain(owner) && CookieDomain(d) && owner != d && jid != "" && NumeroBase(jid) != ""
    ensures (forall steps :: ProperRun(EMPTY, steps) && StoresOnly(steps, jid) ==> OneOwner(Run(EMPTY, steps)))
            <==> SqlNumeroBase(jid) == NumeroBase(jid)
  {
    hide NumeroBase, SqlNumeroBase, CookieDomain, Serve, Aligned, Run, ProperRun, OneOwner, Target;
    if SqlNumeroBase(jid) == NumeroBase(jid) {
      forall steps | ProperRun(EMPTY, steps) && StoresOnly(steps, jid) ensures OneOwner(Run(EMPTY, steps)) {
        EmptyIsClean();
        RunKeepsOwners(EMPTY, steps);
      }
    } else {
      TakeoverSucceeds(owner, d, jid);
      AccountDecodes(EXACT, owner, jid) by { CookieDomainFixed(owner); }
      assert StoresOnly(Takeover(owner, d, jid), jid) by { NoTarget(owner, jid); NoTarget(d, jid); }
    }
  }

  lemma NoTarget(d: string, phone: string)
    ensures Target(d, StartSession(phone)).None?
  {
  }

  lemma EmptyIsClean()
    ensures OneOwner(EMPTY) && CleanState(EMPTY)
  {
    hide NumeroBase, SqlNumeroBase;
    var st := EMPTY;
    assert forall a :: a !in st.rows;
    assert forall n :: n !in st.memory && n !in st.saved;
  }

  ghost predicate StoresOnly(steps: seq<Step>, jid: string) {
    forall k :: 0 <= k < |steps| && steps[k].Ask? && Target(steps[k].domain, steps[k].request).Some? ==>
      Target(steps[k].domain, steps[k].request).value.0 == jid
  }

  /** The failing families reach other portals: after a portal has paired its number and stored its
      account, a request of another portal whose body the middleware does not read takes the account
      away. */
  lemma UnreadChangesOthers(owner: string, d: string, r: Request)
    requires CookieDomain(owner) && (r.Link? || r.Create?) && Passable(d, r)
    requires forall k :: 0 <= k < 4 ==> Named(r.query, r.body)[k] == ""
    requires Target(d, r).Some? && Target(d, r).value.1 != owner && NumeroBase(Target(d, r).value.0) != ""
    ensures var jid := Target(d, r).value.0;
            var st := WithAccount(Claim(EMPTY, NumeroBase(jid), owner), owner, jid);
            && Run(EMPTY, [Ask(owner, StartSession(jid), WILLING),
                           Ask(owner, Create(map[], AccountBody(EXACT, owner, jid)), WILLING)]) == st
            && jid in RowsOf(st, owner) && jid !in RowsOf(Serve(st, d, r, WILLING), owner)
  {
    hide NumeroBase, CookieDomain, Target, Passable, Named, Serve, AccountBody, Run, Claim, WithAccount, RowsOf;
    var jid := Target(d, r).value.0;
    NoNumberNoJid(jid);
    OwnerStores(owner, jid);
    OwnersRow(Claim(EMPTY, NumeroBase(jid), owner), owner, jid);
    UnreadTakes(WithAccount(Claim(EMPTY, NumeroBase(jid), owner), owner, jid), d, r, owner);
  }

  lemma OwnersRow(st: State, owner: string, jid: string)
    requires CookieDomain(owner)
    ensures jid in RowsOf(WithAccount(st, owner, jid), owner)
  {
    hide CookieDomain;
    CookieDomainFixed(owner);
  }

  lemma UnreadTakes(st: State, d: string, r: Request, owner: string)
    requires (r.Link? || r.Create?) && Passable(d, r) && Target(d, r).Some? && Target(d, r).value.1 != owner
    requires forall k :: 0 <= k < 4 ==> Named(r.query, r.body)[k] == ""
    ensures Target(d, r).value.0 !in RowsOf(Serve(st, d, r, WILLING), owner)
  {
    hide NumeroBase, Target, Passable, Named, Serve, Scope;
    FourNamed(r.query, r.body);
    PassesWhenPairing(d, r, st);
    StoresWhenWilling(st, d, r);
  }

  lemma OwnerStores(owner: string, jid: string)
    requires CookieDomain(owner) && jid != "" && NumeroBase(jid) != ""
    ensures Run(EMPTY, [Ask(owner, StartSession(jid), WILLING),
                        Ask(owner, Create(map[], AccountBody(EXACT, owner, jid)), WILLING)])
         == WithAccount(Claim(EMPTY, NumeroBase(jid), owner), owner, jid)
  {
    hide NumeroBase, CookieDomain, Serve, AccountBody, Claim, WithAccount, Run;
    var n := NumeroBase(jid);
    var first, second := Ask(owner, StartSession(jid), WILLING),
                          Ask(owner, Create(map[], AccountBody(EXACT, owner, jid)), WILLING);
    RunTwo(EMPTY, first, second);
    CookieDomainFixed(owner);
    PairServed(EMPTY, owner, jid);
    AccountServed(Claim(EMPTY, n, owner), owner, jid) by { ClaimClaims(EMPTY, n, owner); }
  }

  lemma RunTwo(st: State, a: Step, b: Step)
    ensures Run(st, [a, b]) == Apply(Apply(st, a), b)
  {
    hide Apply;
    assert [a, b][..1] == [a] && [a][..0] == [];
    assert Run(st, [a]) == Apply(Run(st, []), a);
  }
}
