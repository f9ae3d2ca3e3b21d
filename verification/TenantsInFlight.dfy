/** Requests in flight: between the decision of a handler and its effect other requests may run. */
module TenantsInFlight {
  import opened Text
  import opened Bodies
  import opened Jid
  import opened Tenants
  import opened TenantRuns
  import Identity

  /** A request between its decision and its effect. */
  datatype Flight = Flight(domain: string, effect: Effect, env: Env)

  datatype Busy = Busy(st: State, flights: seq<Flight>)

  datatype Move =
    | Begin(domain: string, request: Request, env: Env)
    | Finish(k: nat)
    | Forgets
    | Lapses(number: string)

  ghost predicate Possible(b: Busy, m: Move, limit: nat) {
    match m
    case Begin(d, r, env) =>
      |b.flights| < limit && CookieDomain(d) && Aligned(d, r) && StoresCleanJid(d, r) && Faithful(b.st, r, env)
    case Finish(k) => k < |b.flights|
    case _ => true
  }

  function Moved(b: Busy, m: Move): Busy
    requires m.Finish? ==> m.k < |b.flights|
  {
    match m
    case Begin(d, r, env) => b.(flights := b.flights + [Flight(d, Decide(b.st, d, r, env), env)])
    case Finish(k) =>
      var f := b.flights[k];
      Busy(Perform(b.st, f.env, f.effect), b.flights[..k] + b.flights[k + 1..])
    case Forgets => b.(st := b.st.(memory := map[]))
    case Lapses(n) => b.(st := b.st.(saved := b.st.saved - {n}))
  }

  /** The state after the moves; None when some move was not possible. */
  ghost function After(moves: seq<Move>, limit: nat): Option<Busy> {
    if moves == [] then Some(Busy(EMPTY, []))
    else
      match After(moves[..|moves| - 1], limit)
      case None => None
      case Some(b) => var m := moves[|moves| - 1]; if Possible(b, m, limit) then Some(Moved(b, m)) else None
  }

  ghost predicate Reaches(moves: seq<Move>, limit: nat, b: Busy) {
    After(moves, limit) == Some(b)
  }

  /** The effect of a request in flight is still right. */
  ghost predicate Ready(st: State, f: Flight) {
    match f.effect
    case Store(jid, row) =>
      Owner(row) == f.domain != "" && Sole(st, f.domain, NumeroBase(jid)) && SqlNumeroBase(jid) == NumeroBase(jid)
      && (NumeroBase(jid) in st.memory ==> st.memory[NumeroBase(jid)] == f.domain)
    case PairUp(d, phone) => d == f.domain != "" && phone != "" && Sole(st, d, NumeroBase(phone))
    case _ => true
  }

  ghost predicate Orderly(b: Busy) {
    OneOwner(b.st) && CleanState(b.st) && forall k :: 0 <= k < |b.flights| ==> Ready(b.st, b.flights[k])
  }

  lemma BeginIsReady(st: State, d: string, r: Request, env: Env)
    requires OneOwner(st) && CleanState(st)
    requires CookieDomain(d) && Aligned(d, r) && StoresCleanJid(d, r) && Faithful(st, r, env)
    ensures Ready(st, Flight(d, Decide(st, d, r, env), env))
  {
    hide NumeroBase, SqlNumeroBase, Decide, PodeOperar, CookieDomain, Aligned, OneOwner, CleanState, Sole, Target;
    CookieDomainNonEmpty(d);
    DecideSound(st, d, r, env);
    StoresOnlyTarget(st, d, r, env);
    PairsWhoAsks(st, d, r, env);
    var e := Decide(st, d, r, env);
    if e.Store? {
      OwnNumber(st, d, env, e.jid);
    } else if e.PairUp? {
      FreeToPair(st, d, NumeroBase(e.phone), env.owner.value);
    }
  }

  lemma FinishKeepsOrder(st: State, f: Flight)
    requires OneOwner(st) && CleanState(st) && Ready(st, f)
    ensures OneOwner(Perform(st, f.env, f.effect)) && CleanState(Perform(st, f.env, f.effect))
  {
    hide NumeroBase, SqlNumeroBase, OneOwner, CleanState, Sole, Perform;
    match f.effect
    case Nothing => NothingFinishes(st, f.env);
    case Store(jid, row) => StoreFinishes(st, f.domain, f.env, jid, row);
    case Drop(jid) => DropFinishes(st, f.env, jid);
    case Release(jid) => DropFinishes(st, f.env, jid);
    case PairUp(d, phone) => PairFinishes(st, d, f.env, phone);
  }

  lemma NothingFinishes(st: State, env: Env)
    ensures Perform(st, env, Nothing) == st
  {
  }

  lemma StoreFinishes(st: State, d: string, env: Env, jid: string, row: Row)
    requires OneOwner(st) && CleanState(st) && Owner(row) == d != "" && Sole(st, d, NumeroBase(jid))
    requires SqlNumeroBase(jid) == NumeroBase(jid)
    requires NumeroBase(jid) in st.memory ==> st.memory[NumeroBase(jid)] == d
    ensures OneOwner(Perform(st, env, Store(jid, row))) && CleanState(Perform(st, env, Store(jid, row)))
  {
    hide NumeroBase, SqlNumeroBase, OneOwner, Sole;
    StoreKeepsOneOwner(st, d, jid, row);
  }

  lemma DropFinishes(st: State, env: Env, jid: string)
    requires OneOwner(st) && CleanState(st)
    ensures OneOwner(Perform(st, env, Drop(jid))) && CleanState(Perform(st, env, Drop(jid)))
    ensures OneOwner(Perform(st, env, Release(jid))) && CleanState(Perform(st, env, Release(jid)))
  {
    hide NumeroBase, SqlNumeroBase, OneOwner, DeletesRow;
    FewerKeepsOneOwner(st, Perform(st, env, Drop(jid)));
    FewerKeepsOneOwner(st, Perform(st, env, Release(jid)));
  }

  lemma PairFinishes(st: State, d: string, env: Env, phone: string)
    requires OneOwner(st) && CleanState(st) && d != "" && phone != "" && Sole(st, d, NumeroBase(phone))
    ensures OneOwner(Perform(st, env, PairUp(d, phone))) && CleanState(Perform(st, env, PairUp(d, phone)))
  {
    hide NumeroBase, SqlNumeroBase, OneOwner, Sole;
    var registered := RegisterPairing(st, env, d, phone);
    ClaimKeepsOneOwner(st, registered, d, NumeroBase(phone));
    if !env.sessionAdded {
      FewerKeepsOneOwner(registered, Perform(st, env, PairUp(d, phone)));
    }
  }

  /** With one request in flight at a time every effect is still right when it lands. */
  lemma {:induction false} OneAtATime(moves: seq<Move>, b: Busy)
    requires Reaches(moves, 1, b)
    ensures Orderly(b) && |b.flights| <= 1
  {
    hide NumeroBase, SqlNumeroBase, CookieDomain, Aligned, OneOwner, CleanState, StoresCleanJid, Faithful,
         Ready, Perform, Decide;
    if moves == [] {
      EmptyIsClean();
    } else {
      var m := moves[|moves| - 1];
      var before := After(moves[..|moves| - 1], 1).value;
      OneAtATime(moves[..|moves| - 1], before);
      match m
      case Begin(d, r, env) => BeginIsReady(before.st, d, r, env);
      case Finish(k) => FinishKeepsOrder(before.st, before.flights[k]);
      case Forgets => DroppingKeepsOrder(before.st, b.st, before.flights);
      case Lapses(n) => DroppingKeepsOrder(before.st, b.st, before.flights);
    }
  }

  lemma DroppingKeepsOrder(st: State, st': State, flights: seq<Flight>)
    requires OneOwner(st) && CleanState(st) && forall k :: 0 <= k < |flights| ==> Ready(st, flights[k])
    requires st'.rows == st.rows && FewerClaims(st, st')
    ensures OneOwner(st') && CleanState(st') && forall k :: 0 <= k < |flights| ==> Ready(st', flights[k])
  {
    hide NumeroBase, SqlNumeroBase, OneOwner, Ready;
    FewerKeepsOneOwner(st, st');
    forall k | 0 <= k < |flights| ensures Ready(st', flights[k]) {
      StillReady(st, st', flights[k]);
    }
  }

  ghost predicate FewerClaims(st: State, st': State) {
    && (st'.memory.Keys <= st.memory.Keys && forall n :: n in st'.memory ==> st'.memory[n] == st.memory[n])
    && (st'.saved.Keys <= st.saved.Keys && forall n :: n in st'.saved ==> n in st.saved && st'.saved[n] == st.saved[n])
  }

  lemma StillReady(st: State, st': State, f: Flight)
    requires st'.rows == st.rows && FewerClaims(st, st') && Ready(st, f)
    ensures Ready(st', f)
  {
    hide NumeroBase, SqlNumeroBase;
    assert forall n :: n in st'.memory ==> n in st'.memory.Keys && n in st.memory;
  }

  lemma FollowBegin(moves: seq<Move>, limit: nat, b: Busy, d: string, r: Request, e: Effect) returns (all: seq<Move>)
    requires Reaches(moves, limit, b) && |b.flights| < limit && CookieDomain(d) && Aligned(d, r)
    requires StoresCleanJid(d, r) && Faithful(b.st, r, WILLING) && Decide(b.st, d, r, WILLING) == e
    ensures Reaches(all, limit, Busy(b.st, b.flights + [Flight(d, e, WILLING)]))
  {
    hide CookieDomain, Aligned, StoresCleanJid, Faithful, Decide;
    var after := Follow(moves, limit, b, Begin(d, r, WILLING));
    all := moves + [Begin(d, r, WILLING)];
  }

  /** The oldest request in flight takes effect. */
  lemma FollowFinish(moves: seq<Move>, limit: nat, st: State, f: Flight, rest: seq<Flight>) returns (all: seq<Move>)
    requires Reaches(moves, limit, Busy(st, [f] + rest))
    ensures Reaches(all, limit, Busy(Perform(st, f.env, f.effect), rest))
  {
    hide Perform, Reaches;
    var after := Follow(moves, limit, Busy(st, [f] + rest), Finish(0));
    assert after.flights == rest;
    all := moves + [Finish(0)];
  }

  /** Two portals ask to pair one number before either is registered. */
  lemma OverlapPairing(a: string, b: string, jid: string, limit: nat) returns (moves: seq<Move>)
    requires CookieDomain(a) && CookieDomain(b) && jid != "" && limit >= 2
    ensures Reaches(moves, limit, Busy(Claim(EMPTY, NumeroBase(jid), a), [Flight(b, PairUp(b, jid), WILLING)]))
  {
    hide NumeroBase, SqlNumeroBase, CookieDomain, Aligned, StoresCleanJid, Perform, Decide, Claim, Faithful,
         Possible, Moved;
    PairPossible(EMPTY, a, jid);
    PairPossible(EMPTY, b, jid);
    var pairA, pairB := Flight(a, PairUp(a, jid), WILLING), Flight(b, PairUp(b, jid), WILLING);
    assert Reaches([], limit, Busy(EMPTY, []));
    hide Reaches;
    var m1 := FollowBegin([], limit, Busy(EMPTY, []), a, StartSession(jid), pairA.effect);
    assert [] + [pairA] == [pairA] + [];
    var m2 := FollowBegin(m1, limit, Busy(EMPTY, [] + [pairA]), b, StartSession(jid), pairB.effect);
    assert [] + [pairA] + [pairB] == [pairA] + [pairB];
    moves := FollowFinish(m2, limit, EMPTY, pairA, [pairB]);
    CookieDomainFixed(a);
    PairPerformed(EMPTY, a, jid);
  }

  lemma PairPossible(st: State, d: string, jid: string)
    requires jid != "" && st == EMPTY
    ensures Decide(st, d, StartSession(jid), WILLING) == PairUp(d, jid) && Aligned(d, StartSession(jid))
    ensures StoresCleanJid(d, StartSession(jid)) && Faithful(st, StartSession(jid), WILLING)
  {
    hide NumeroBase, SqlNumeroBase;
  }

  /** Once the first is registered it stores its account, which takes effect after the second is
      registered as well. */
  lemma Overlap(a: string, b: string, jid: string, limit: nat) returns (moves: seq<Move>, busy: Busy)
    requires CookieDomain(a) && CookieDomain(b) && a != b && jid != "" && NumeroBase(jid) != "" && limit >= 2
    requires SqlNumeroBase(jid) == NumeroBase(jid)
    ensures Reaches(moves, limit, busy) && !OneOwner(busy.st)
  {
    hide NumeroBase, SqlNumeroBase, CookieDomain, Aligned, StoresCleanJid, Perform, Decide, Claim,
         WithAccount, AccountBody, Faithful, Reaches, OneOwner;
    var n, create := NumeroBase(jid), Create(map[], AccountBody(EXACT, a, jid));
    var pairB, storeA := Flight(b, PairUp(b, jid), WILLING), Flight(a, Store(jid, Row(a, "whatsapp_uc", 1)), WILLING);
    var st1 := Claim(EMPTY, n, a);
    var m3 := OverlapPairing(a, b, jid, limit);
    CreatePossible(st1, a, jid) by { ClaimClaims(EMPTY, n, a); }
    var m4 := FollowBegin(m3, limit, Busy(st1, [pairB]), a, create, storeA.effect);
    var m5 := FollowFinish(m4, limit, st1, pairB, [storeA]);
    assert [storeA] == [storeA] + [];
    moves := FollowFinish(m5, limit, Perform(st1, WILLING, pairB.effect), storeA, []);
    busy := Busy(Perform(Perform(st1, WILLING, pairB.effect), WILLING, storeA.effect), []);
    CookieDomainFixed(b);
    PairPerformed(st1, b, jid);
    StorePerformed(Claim(st1, n, b), a, jid);
    AccountAgainstClaim(st1, a, b, jid);
  }

  lemma CreatePossible(st: State, a: string, jid: string)
    requires CookieDomain(a) && jid != "" && NumeroBase(jid) != "" && SqlNumeroBase(jid) == NumeroBase(jid)
    requires NumeroBase(jid) in st.memory && st.memory[NumeroBase(jid)] == a
    ensures var create := Create(map[], AccountBody(EXACT, a, jid));
            && Decide(st, a, create, WILLING) == Store(jid, Row(a, "whatsapp_uc", 1))
            && Aligned(a, create) && StoresCleanJid(a, create) && Faithful(st, create, WILLING)
  {
    hide NumeroBase, SqlNumeroBase, CookieDomain, Aligned, Target, Decide, AccountBody;
    CookieDomainFixed(a);
    ExactIsAligned(a, jid);
    AccountDecodes(EXACT, a, jid);
    AccountDecided(st, a, jid);
  }

  lemma AccountAgainstClaim(st: State, a: string, b: string, jid: string)
    requires CookieDomain(a) && a != b
    ensures !OneOwner(WithAccount(Claim(st, NumeroBase(jid), b), a, jid))
  {
    hide NumeroBase, CookieDomain, Identity.StoredForm;
    CookieDomainFixed(a);
    var st' := WithAccount(Claim(st, NumeroBase(jid), b), a, jid);
    assert jid in st'.rows && NumeroBase(jid) in st'.memory;
  }

  lemma Follow(moves: seq<Move>, limit: nat, b: Busy, m: Move) returns (after: Busy)
    requires Reaches(moves, limit, b) && Possible(b, m, limit)
    ensures after == Moved(b, m) && Reaches(moves + [m], limit, after)
  {
    after := Moved(b, m);
    var all := moves + [m];
    assert all[..|all| - 1] == moves && all[|all| - 1] == m;
  }

  lemma PairPerformed(st: State, d: string, phone: string)
    requires d != "" && phone != ""
    ensures Perform(st, WILLING, PairUp(d, phone)) == Claim(st, NumeroBase(phone), d)
  {
    hide NumeroBase;
  }

  lemma StorePerformed(st: State, d: string, jid: string)
    ensures Perform(st, WILLING, Store(jid, Row(d, "whatsapp_uc", 1))) == WithAccount(st, d, jid)
  {
  }

  /** "Each number has one owner" holds in every interleaving of requests exactly when they never
      overlap: the decision and its effect are two steps. */
  lemma OneOwnerIffSerial(limit: nat, a: string, b: string, jid: string)
    requires limit >= 1 && CookieDomain(a) && CookieDomain(b) && a != b && jid != ""
    requires NumeroBase(jid) != "" && SqlNumeroBase(jid) == NumeroBase(jid)
    ensures (forall moves, busy :: Reaches(moves, limit, busy) ==> OneOwner(busy.st)) <==> limit == 1
  {
    hide NumeroBase, SqlNumeroBase, CookieDomain, Reaches, OneOwner;
    if limit == 1 {
      forall moves, busy | Reaches(moves, limit, busy) ensures OneOwner(busy.st) {
        OneAtATime(moves, busy);
      }
    } else {
      var moves, busy := Overlap(a, b, jid, limit);
    }
  }
}
