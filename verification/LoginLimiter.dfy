/** The brute-force limiter of the administrator login, and the route that uses it. Times are
    nanoseconds of one monotone clock; every reading the code takes is a parameter of its own. */
module LoginLimiter {
  import opened Text

  const MAX_FAILS := 5
  const SECOND := 1_000_000_000
  const LOCK_WINDOW := 900 * SECOND

  datatype Attempts = Attempts(fails: nat, firstFail: int)
  type Entry = Option<Attempts>

  predicate Expired(a: Attempts, now: int) {
    now - a.firstFail > LOCK_WINDOW
  }

  function AfterCheck(e: Entry, now: int): Entry {
    if e.Some? && Expired(e.value, now) then None else e
  }

  predicate Blocks(e: Entry, now: int) {
    e.Some? && !Expired(e.value, now) && e.value.fails >= MAX_FAILS
  }

  function AfterFail(e: Entry, now: int, stamp: int): Entry {
    if e.None? || Expired(e.value, now) then Some(Attempts(1, stamp))
    else Some(Attempts(e.value.fails + 1, e.value.firstFail))
  }

  function Lookup(m: map<string, Attempts>, ip: string): Entry {
    if ip in m then Some(m[ip]) else None
  }

  ghost predicate OnlyAt(m: map<string, Attempts>, m': map<string, Attempts>, ip: string) {
    forall k :: k != ip ==> Lookup(m', k) == Lookup(m, k)
  }

  datatype Outcome = Disabled | ListedIP | Limited(remaining: int) | LoggedIn | BadCredentials

  /** The readings of the clock one login request takes, in order. */
  datatype Clock = Clock(check: int, left: int, since: int, stamp: int) {
    predicate Monotone() {
      check <= left <= since <= stamp
    }
  }

  class AdminLogin {
    var attempts: map<string, Attempts>
    var blockedIps: set<string>

    method RateLimited(ip: string, now: int, later: int) returns (blocked: bool, remaining: int)
      requires now <= later
      modifies this`attempts
      ensures Lookup(attempts, ip) == AfterCheck(old(Lookup(attempts, ip)), now) && OnlyAt(old(attempts), attempts, ip)
      ensures blocked == Blocks(old(Lookup(attempts, ip)), now)
      ensures !blocked ==> remaining == 0
      ensures blocked ==> 0 <= remaining
      ensures blocked && later - attempts[ip].firstFail <= LOCK_WINDOW ==>
                remaining * SECOND <= attempts[ip].firstFail + LOCK_WINDOW - later < (remaining + 1) * SECOND
    {
      if ip !in attempts {
        return false, 0;
      }
      var a := attempts[ip];
      if now - a.firstFail > LOCK_WINDOW {
        attempts := attempts - {ip};
        return false, 0;
      }
      if a.fails >= MAX_FAILS {
        remaining := (LOCK_WINDOW - (later - a.firstFail)) / SECOND;
        if remaining < 0 {
          remaining := 0;
        }
        return true, remaining;
      }
      return false, 0;
    }

    method RecordFail(ip: string, now: int, stamp: int)
      modifies this`attempts
      ensures Lookup(attempts, ip) == AfterFail(old(Lookup(attempts, ip)), now, stamp)
              && OnlyAt(old(attempts), attempts, ip)
    {
      if ip !in attempts || now - attempts[ip].firstFail > LOCK_WINDOW {
        attempts := attempts[ip := Attempts(1, stamp)];
        return;
      }
      attempts := attempts[ip := Attempts(attempts[ip].fails + 1, attempts[ip].firstFail)];
    }

    method RecordSuccess(ip: string)
      modifies this`attempts
      ensures Lookup(attempts, ip) == None && OnlyAt(old(attempts), attempts, ip)
    {
      attempts := attempts - {ip};
    }

    /** POST /admin/login. `stored` says whether the write to the block list reaches the database,
        `readable` whether the block list can be read. */
    method Submit(ip: string, configured: bool, readable: bool, stored: bool, accepted: bool, clock: Clock)
      returns (outcome: Outcome)
      requires clock.Monotone()
      modifies this
      ensures !configured ==> outcome == Disabled && attempts == old(attempts)
      ensures configured ==>
                var post := Post(clock.check, clock.since, clock.stamp, readable && ip in old(blockedIps), accepted);
                && Lookup(attempts, ip) == Serve(old(Lookup(attempts, ip)), post)
                && (outcome == ListedIP <==> post.listed)
                && (outcome.Limited? <==> !post.listed && Blocks(old(Lookup(attempts, ip)), clock.check))
                && (outcome.LoggedIn? || outcome.BadCredentials? ==> outcome.LoggedIn? == accepted)
                && !outcome.Disabled?
      ensures OnlyAt(old(attempts), attempts, ip)
      ensures blockedIps == if outcome.Limited? && stored then old(blockedIps) + {ip} else old(blockedIps)
    {
      if !configured {
        return Disabled;
      }
      if readable && ip in blockedIps {
        return ListedIP;
      }
      var blocked, remaining := RateLimited(ip, clock.check, clock.left);
      if blocked {
        if stored {
          blockedIps := blockedIps + {ip};
        }
        return Limited(remaining);
      }
      if accepted {
        RecordSuccess(ip);
        return LoggedIn;
      }
      RecordFail(ip, clock.since, clock.stamp);
      return BadCredentials;
    }
  }

  /** A lock holds from the fifth failure until exactly fifteen minutes after the first one. */
  lemma LockEndsExactly(a: Attempts, now: int)
    requires a.fails >= 5
    ensures Blocks(Some(a), now) <==> now <= a.firstFail + 900_000_000_000
    ensures Blocks(Some(a), now) <==> AfterFail(Some(a), now, now) != Some(Attempts(1, now))
    ensures !Blocks(Some(a), now) ==> AfterCheck(Some(a), now) == None
  {
  }

  // ----- one request after another -----------------------------------------------------------

  /** One login request of a single address, as far as the limiter sees it. */
  datatype Post = Post(check: int, since: int, stamp: int, listed: bool, accepted: bool)

  /** The entry, and the failures recorded since the last success, grouped by the entry that
      counted them. A failure is timed by the last reading its recording takes. */
  datatype Trace = Trace(entry: Entry, windows: seq<seq<int>>)

  function Record(t: Trace, now: int, stamp: int): Trace
    requires t.entry.Some? ==> t.windows != []
  {
    var entry := AfterFail(t.entry, now, stamp);
    if t.entry.None? || Expired(t.entry.value, now) then Trace(entry, t.windows + [[stamp]])
    else
      var n := |t.windows| - 1;
      Trace(entry, t.windows[n := t.windows[n] + [now]])
  }

  /** What one request does to the entry of its address. */
  function Serve(e: Entry, p: Post): Entry {
    if p.listed then e
    else if Blocks(e, p.check) then e
    else if p.accepted then None
    else AfterFail(AfterCheck(e, p.check), p.since, p.stamp)
  }

  function Step(t: Trace, p: Post): (t': Trace)
    requires t.entry.Some? ==> t.windows != []
    ensures t'.entry == Serve(t.entry, p)
    ensures t'.entry.Some? ==> t'.windows != []
  {
    if p.listed || Blocks(t.entry, p.check) then t
    else if p.accepted then Trace(None, [])
    else Record(Trace(AfterCheck(t.entry, p.check), t.windows), p.since, p.stamp)
  }

  function Run(posts: seq<Post>): (t: Trace)
    ensures t.entry.Some? ==> t.windows != []
  {
    if posts == [] then Trace(None, []) else Step(Run(posts[..|posts| - 1]), posts[|posts| - 1])
  }

  /** Requests served one after another by a clock that never goes back. */
  ghost predicate Sequential(posts: seq<Post>) {
    && (forall k :: 0 <= k < |posts| ==> posts[k].check <= posts[k].since <= posts[k].stamp)
    && (forall k :: 1 <= k < |posts| ==> posts[k - 1].stamp <= posts[k].check)
  }

  /** What one anchored window may hold: at most five failures, none before the first, none later
      than `LOCK_WINDOW` after it. */
  ghost predicate Anchored(w: seq<int>) {
    1 <= |w| <= MAX_FAILS && forall k :: 0 <= k < |w| ==> w[0] <= w[k] <= w[0] + LOCK_WINDOW
  }

  ghost predicate Inv(t: Trace, now: int) {
    && (forall k :: 0 <= k < |t.windows| ==> Anchored(t.windows[k]) && t.windows[k][0] <= now)
    && (forall k :: 1 <= k < |t.windows| ==> t.windows[k - 1][0] + LOCK_WINDOW < t.windows[k][0])
    && (t.entry.Some? ==>
          var n := |t.windows| - 1;
          n >= 0 && t.entry.value == Attempts(|t.windows[n]|, t.windows[n][0]))
    && (t.entry.None? && t.windows != [] ==> t.windows[|t.windows| - 1][0] + LOCK_WINDOW < now)
  }

  lemma RecordKeepsInv(t: Trace, check: int, now: int, stamp: int)
    requires Inv(t, check) && check <= now <= stamp
    requires t.entry.Some? ==> t.entry.value.fails < MAX_FAILS
    ensures Inv(Record(t, now, stamp), stamp)
  {
    if t.entry.Some? && !Expired(t.entry.value, now) {
      var n := |t.windows| - 1;
      var w, w' := t.windows[n], t.windows[n] + [now];
      assert w'[0] == w[0] && Anchored(w');
    }
  }

  lemma TimeKeepsInv(t: Trace, now: int, later: int)
    requires Inv(t, now) && now <= later
    ensures Inv(t, later)
  {
    hide Anchored;
  }

  lemma CheckKeepsInv(t: Trace, now: int)
    requires Inv(t, now)
    ensures Inv(Trace(AfterCheck(t.entry, now), t.windows), now)
  {
    hide Anchored;
  }

  lemma StepKeepsInv(t: Trace, now: int, p: Post)
    requires Inv(t, now) && now <= p.check <= p.since <= p.stamp
    ensures Inv(Step(t, p), p.stamp)
  {
    hide Inv, Record;
    TimeKeepsInv(t, now, p.check);
    TimeKeepsInv(t, now, p.stamp);
    CheckKeepsInv(t, p.check);
    NoWindows(p.stamp);
    if !p.listed && !Blocks(t.entry, p.check) && !p.accepted {
      RecordKeepsInv(Trace(AfterCheck(t.entry, p.check), t.windows), p.check, p.since, p.stamp);
    }
  }

  lemma NoWindows(now: int)
    ensures Inv(Trace(None, []), now)
  {
  }

  lemma {:induction false} RunInv(posts: seq<Post>)
    requires Sequential(posts)
    ensures posts != [] ==> Inv(Run(posts), posts[|posts| - 1].stamp)
  {
    if posts != [] {
      var before, last := posts[..|posts| - 1], posts[|posts| - 1];
      RunInv(before);
      var now := if before == [] then last.check else before[|before| - 1].stamp;
      StepKeepsInv(Run(before), now, last);
    }
  }

  function CountIn(w: seq<int>, from: int): nat {
    if w == [] then 0
    else CountIn(w[..|w| - 1], from) + if from <= w[|w| - 1] <= from + LOCK_WINDOW then 1 else 0
  }

  /** How many recorded failures lie in the closed interval [from, from + LOCK_WINDOW]. */
  function FailuresIn(ws: seq<seq<int>>, from: int): nat {
    if ws == [] then 0 else FailuresIn(ws[..|ws| - 1], from) + CountIn(ws[|ws| - 1], from)
  }

  lemma {:induction false} CountBounds(w: seq<int>, from: int)
    ensures CountIn(w, from) <= |w|
    ensures w != [] && w[0] < from ==> CountIn(w, from) <= |w| - 1
    ensures (forall k :: 0 <= k < |w| ==> !(from <= w[k] <= from + LOCK_WINDOW)) ==> CountIn(w, from) == 0
  {
    if w != [] {
      CountBounds(w[..|w| - 1], from);
    }
  }

  ghost predicate Separated(ws: seq<seq<int>>) {
    && (forall k :: 0 <= k < |ws| ==> Anchored(ws[k]))
    && (forall k :: 1 <= k < |ws| ==> ws[k - 1][0] + LOCK_WINDOW < ws[k][0])
  }

  /** Windows older than one that begins before `from` contribute nothing. */
  lemma {:induction false} NothingBefore(ws: seq<seq<int>>, from: int)
    requires Separated(ws)
    requires ws != [] ==> ws[|ws| - 1][0] + LOCK_WINDOW < from
    ensures FailuresIn(ws, from) == 0
  {
    if ws != [] {
      var w := ws[|ws| - 1];
      CountBounds(w, from);
      NothingBefore(ws[..|ws| - 1], from);
    }
  }

  lemma {:induction false} AtMostNineIn(ws: seq<seq<int>>, from: int)
    requires Separated(ws)
    ensures FailuresIn(ws, from) <= 2 * MAX_FAILS - 1
  {
    if ws != [] {
      var before, w := ws[..|ws| - 1], ws[|ws| - 1];
      CountBounds(w, from);
      if w[0] > from + LOCK_WINDOW {
        AtMostNineIn(before, from);
      } else if before != [] {
        var u := before[|before| - 1];
        CountBounds(u, from);
        NothingBefore(before[..|before| - 1], from);
      }
    }
  }

  /** However the requests of an address are timed, no 15-minute interval holds more than nine
      recorded failures between two successful logins, and no anchored window more than five. */
  lemma SlidingWindowBound(posts: seq<Post>, from: int)
    requires Sequential(posts)
    ensures FailuresIn(Run(posts).windows, from) <= 9
    ensures forall k :: 0 <= k < |Run(posts).windows| ==> |Run(posts).windows[k]| <= 5
  {
    RunInv(posts);
    AtMostNineIn(Run(posts).windows, from);
  }

  function Failure(at: int): Post {
    Post(at, at, at, false, false)
  }

  /** One more failure: it opens a window, or joins the open one. */
  lemma AddFailure(posts: seq<Post>, ws: seq<seq<int>>, w: seq<int>, at: int)
    requires |w| < MAX_FAILS
    requires w != [] ==> Run(posts) == Trace(Some(Attempts(|w|, w[0])), ws + [w]) && w[0] <= at <= w[0] + LOCK_WINDOW
    requires w == [] ==> Run(posts).windows == ws && Opens(Run(posts), at)
    ensures Run(posts + [Failure(at)]) == Trace(Some(Attempts(|w| + 1, (w + [at])[0])), ws + [w + [at]])
  {
    assert (posts + [Failure(at)])[..|posts|] == posts;
    if w == [] {
      assert w + [at] == [at];
    } else {
      var all := ws + [w];
      assert all[|ws|] == w && all[|ws| := w + [at]] == ws + [w + [at]];
    }
  }

  /** A failure at this time starts a new window. */
  predicate Opens(t: Trace, at: int) {
    t.entry.Some? ==> Expired(t.entry.value, at)
  }

  lemma AppendSequential(posts: seq<Post>, p: Post)
    requires Sequential(posts) && p.check <= p.since <= p.stamp
    requires posts != [] ==> posts[|posts| - 1].stamp <= p.check
    ensures Sequential(posts + [p])
  {
  }

  /** Up to five failures inside one window, appended to a run. */
  lemma {:induction false} Fill(posts: seq<Post>, ws: seq<seq<int>>, times: seq<int>) returns (more: seq<Post>)
    requires Sequential(posts) && 1 <= |times| <= MAX_FAILS && Run(posts).windows == ws && Opens(Run(posts), times[0])
    requires posts != [] ==> posts[|posts| - 1].stamp <= times[0]
    requires forall k :: 1 <= k < |times| ==> times[k - 1] <= times[k]
    requires forall k :: 0 <= k < |times| ==> times[0] <= times[k] <= times[0] + LOCK_WINDOW
    ensures Sequential(more) && more != [] && more[|more| - 1].stamp == times[|times| - 1]
    ensures Run(more) == Trace(Some(Attempts(|times|, times[0])), ws + [times])
  {
    var n := |times| - 1;
    var before := posts;
    var w := times[..n];
    if n > 0 {
      before := Fill(posts, ws, w);
      assert w[n - 1] == times[n - 1] <= times[n];
    }
    AddFailure(before, ws, w, times[n]);
    assert w + [times[n]] == times;
    more := before + [Failure(times[n])];
    AppendSequential(before, Failure(times[n]));
  }

  /** Nine is reached: one failure, four more as its window closes, five a nanosecond later. */
  lemma NineIsReached()
    ensures exists posts :: Sequential(posts) && FailuresIn(Run(posts).windows, 1) == 9
  {
    var w := LOCK_WINDOW;
    var four, second := [w, w, w, w], [w + 1, w + 1, w + 1, w + 1, w + 1];
    var first := [0] + four;
    var posts := Fill([], [], first);
    assert [] + [first] == [first];
    posts := Fill(posts, [first], second);
    CountAll(second, 1);
    CountAll(four, 1);
    CountSplit([0], four, 1);
    assert ([first] + [second])[..1] == [first] && [first][..0] == [];
    assert FailuresIn([first], 1) == 4;
  }

  lemma {:induction false} CountAll(w: seq<int>, from: int)
    requires forall k :: 0 <= k < |w| ==> from <= w[k] <= from + LOCK_WINDOW
    ensures CountIn(w, from) == |w|
  {
    if w != [] {
      CountAll(w[..|w| - 1], from);
    }
  }

  lemma {:induction false} CountSplit(a: seq<int>, b: seq<int>, from: int)
    ensures CountIn(a + b, from) == CountIn(a, from) + CountIn(b, from)
  {
    if b == [] {
      assert a + b == a;
    } else {
      CountSplit(a, b[..|b| - 1], from);
      assert (a + b)[..|a + b| - 1] == a + b[..|b| - 1];
    }
  }

  // ----- requests in flight together -----------------------------------------------------------

  /** What the requests of one address can do to the limiter, in any order and at any times. */
  datatype Move =
    | Enter(now: int)
    | LeaveFailed(now: int, stamp: int)
    | LeaveLoggedIn

  /** `inFlight` requests have passed the check and not yet recorded how they ended. */
  datatype Shared = Shared(entry: Entry, inFlight: nat)

  predicate Possible(s: Shared, m: Move, limit: nat) {
    match m
    case Enter(_) => s.inFlight < limit
    case LeaveFailed(_, _) => s.inFlight > 0
    case LeaveLoggedIn => s.inFlight > 0
  }

  function Apply(s: Shared, m: Move): Shared
    requires m.Enter? || s.inFlight > 0
  {
    match m
    case Enter(now) =>
      Shared(AfterCheck(s.entry, now), if Blocks(s.entry, now) then s.inFlight else s.inFlight + 1)
    case LeaveFailed(now, stamp) => Shared(AfterFail(s.entry, now, stamp), s.inFlight - 1)
    case LeaveLoggedIn => Shared(None, s.inFlight - 1)
  }

  function Fails(e: Entry): nat {
    if e.None? then 0 else e.value.fails
  }

  /** The state after a run; None when some move was not possible. */
  function After(moves: seq<Move>, limit: nat): Option<Shared> {
    if moves == [] then Some(Shared(None, 0))
    else
      var last := moves[|moves| - 1];
      match After(moves[..|moves| - 1], limit)
      case None => None
      case Some(before) => if Possible(before, last, limit) then Some(Apply(before, last)) else None
  }

  predicate Reaches(moves: seq<Move>, limit: nat, s: Shared) {
    After(moves, limit) == Some(s)
  }

  /** With at most `limit` requests in flight, in any interleaving and across window expiry and
      reset, the counter never passes four plus `limit`. */
  lemma {:induction false} ConcurrentBound(moves: seq<Move>, limit: nat, s: Shared)
    requires limit >= 1 && Reaches(moves, limit, s)
    ensures Fails(s.entry) + s.inFlight <= 4 + limit && s.inFlight <= limit
  {
    if moves != [] {
      ConcurrentBound(moves[..|moves| - 1], limit, After(moves[..|moves| - 1], limit).value);
    }
  }

  /** Extending a run by one move. */
  lemma Extend(moves: seq<Move>, limit: nat, s: Shared, m: Move)
    requires Reaches(moves, limit, s) && Possible(s, m, limit)
    ensures Reaches(moves + [m], limit, Apply(s, m))
  {
    assert (moves + [m])[..|moves|] == moves;
  }

  /** Four failures, one after another. */
  lemma {:induction false} ReachFails(limit: nat, n: nat) returns (moves: seq<Move>)
    requires limit >= 1 && n < MAX_FAILS
    ensures Reaches(moves, limit, Shared(if n == 0 then None else Some(Attempts(n, 0)), 0))
  {
    if n == 0 {
      moves := [];
    } else {
      moves := ReachFails(limit, n - 1);
      var s := Shared(if n == 1 then None else Some(Attempts(n - 1, 0)), 0);
      Extend(moves, limit, s, Enter(0));
      Extend(moves + [Enter(0)], limit, Apply(s, Enter(0)), LeaveFailed(0, 0));
      moves := moves + [Enter(0)] + [LeaveFailed(0, 0)];
    }
  }

  lemma {:induction false} ReachEntered(limit: nat, k: nat) returns (moves: seq<Move>)
    requires limit >= 1 && k <= limit
    ensures Reaches(moves, limit, Shared(Some(Attempts(MAX_FAILS - 1, 0)), k))
  {
    if k == 0 {
      moves := ReachFails(limit, MAX_FAILS - 1);
    } else {
      moves := ReachEntered(limit, k - 1);
      Extend(moves, limit, Shared(Some(Attempts(MAX_FAILS - 1, 0)), k - 1), Enter(0));
      moves := moves + [Enter(0)];
    }
  }

  lemma {:induction false} ReachLeft(limit: nat, k: nat) returns (moves: seq<Move>)
    requires limit >= 1 && k <= limit
    ensures Reaches(moves, limit, Shared(Some(Attempts(MAX_FAILS - 1 + k, 0)), limit - k))
  {
    if k == 0 {
      moves := ReachEntered(limit, limit);
    } else {
      moves := ReachLeft(limit, k - 1);
      Extend(moves, limit, Shared(Some(Attempts(MAX_FAILS - 2 + k, 0)), limit - k + 1), LeaveFailed(0, 0));
      moves := moves + [LeaveFailed(0, 0)];
    }
  }

  /** The bound is tight, so the promised limit of five failures is kept in every interleaving
      exactly when requests of one address never overlap. */
  lemma FiveKeptIffSerial(limit: nat)
    requires limit >= 1
    ensures (forall moves, s :: Reaches(moves, limit, s) ==> Fails(s.entry) <= 5) <==> limit == 1
  {
    forall moves, s | Reaches(moves, limit, s) ensures Fails(s.entry) <= MAX_FAILS - 1 + limit {
      ConcurrentBound(moves, limit, s);
    }
    var moves := ReachLeft(limit, limit);
    var worst := Shared(Some(Attempts(MAX_FAILS - 1 + limit, 0)), 0);
    assert Reaches(moves, limit, worst) && Fails(worst.entry) == MAX_FAILS - 1 + limit;
  }

  // ----- the persistent list ---------------------------------------------------------------------

  /** The login route is stricter than the limiter: once a request was rate limited and the address
      stored in the block list, later requests fail however much time passes, except those for which
      the list cannot be read. */
  method LimitedStaysOut(login: AdminLogin, ip: string, accepted: seq<bool>, readable: seq<bool>,
                         first: Clock, firstReadable: bool, clocks: seq<Clock>)
    returns (outcomes: seq<Outcome>)
    requires first.Monotone() && |clocks| == |readable| == |accepted|
    requires forall k :: 0 <= k < |clocks| ==> clocks[k].Monotone()
    requires Blocks(Lookup(login.attempts, ip), first.check)
    modifies login
    ensures |outcomes| == |accepted| && forall k :: 0 <= k < |outcomes| ==> (outcomes[k] == ListedIP <==> readable[k])
  {
    var outcome := login.Submit(ip, true, firstReadable, true, false, first);
    assert ip in login.blockedIps;
    outcomes := [];
    for k := 0 to |accepted|
      invariant ip in login.blockedIps && |outcomes| == k
      invariant forall j :: 0 <= j < k ==> (outcomes[j] == ListedIP <==> readable[j])
    {
      var next := login.Submit(ip, true, readable[k], true, accepted[k], clocks[k]);
      outcomes := outcomes + [next];
    }
  }
}
