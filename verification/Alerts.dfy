/** The e-mail about a WhatsApp number that went down: the grace period, whose memory spans the
    five-minute cycles, and the limits on how often the same number is reported. Times are
    nanoseconds of one monotone clock. */
module Alerts {
  import opened Remote
  import opened Text
  import Jid

  const MINUTE := 60 * 1_000_000_000
  const GRACE := 4 * MINUTE
  const DAY := 24 * 60 * MINUTE
  const NOTICES_BEFORE_SPACING := 3

  /** A session of the database as one cycle meets it: what it is, the portal it is linked to, the
      three readings of the clock taken for it, and how the outside answers: the insert of the notice,
      the e-mail, and the delete of the notice when the e-mail failed. */
  datatype Session = Session(cloud: bool, jid: string, portal: Option<string>, now: int, later: int, asked: int,
                             muted: bool, readable: bool, insert: Reply, mail: Reply, undo: Reply)

  /** A row of alertas_operacionais about a number. */
  datatype Notice = Notice(number: string, at: int)

  /** An e-mail that arrived; `kept` when its notice is still in the log. */
  datatype Mail = Mail(number: string, at: int, since: int, kept: bool)

  /** What a completed cycle saw. */
  datatype Cycle = Cycle(down: set<string>, start: int, end: int)

  // ----- how often ---------------------------------------------------------------------------

  function CountSince(log: seq<Notice>, number: string, from: int): nat {
    if log == [] then 0
    else
      var n := |log| - 1;
      CountSince(log[..n], number, from) + if log[n].number == number && log[n].at > from then 1 else 0
  }

  function LastAt(log: seq<Notice>, number: string, n: nat): Option<int>
    requires n <= |log|
  {
    if n == 0 then None
    else if log[n - 1].number == number then Some(log[n - 1].at)
    else LastAt(log, number, n - 1)
  }

  ghost predicate InOrder(log: seq<Notice>) {
    forall i, j :: 0 <= i < j < |log| ==> log[i].at <= log[j].at
  }

  /** The window in force: a day once three notices went out within a day. */
  function Window(log: seq<Notice>, number: string, now: int, window: int): int {
    if CountSince(log, number, now - DAY) >= NOTICES_BEFORE_SPACING && window < DAY then DAY else window
  }

  predicate Due(log: seq<Notice>, number: string, now: int, window: int) {
    var last := LastAt(log, number, |log|);
    last.None? || now - last.value >= Window(log, number, now, window)
  }

  /** The rows about a number of the day before `now`. */
  function OfTheDay(log: seq<Notice>, number: string, now: int): set<nat> {
    set k: nat | k < |log| && log[k].number == number && log[k].at > now - 86_400_000_000_000
  }

  lemma {:induction false} CountIsSize(log: seq<Notice>, number: string, now: int)
    ensures CountSince(log, number, now - DAY) == |OfTheDay(log, number, now)|
  {
    if log != [] {
      var n := |log| - 1;
      CountIsSize(log[..n], number, now);
      var before := OfTheDay(log[..n], number, now);
      assert OfTheDay(log, number, now)
          == if log[n].number == number && log[n].at > now - DAY then before + {n} else before;
    }
  }

  lemma {:induction false} LastIsSome(log: seq<Notice>, number: string, n: nat)
    requires n <= |log|
    ensures match LastAt(log, number, n)
            case Some(at) => exists i :: 0 <= i < n && log[i] == Notice(number, at)
            case None => forall i :: 0 <= i < n ==> log[i].number != number
  {
    if n > 0 {
      LastIsSome(log, number, n - 1);
    }
  }

  /** The rule, by the rows of the log: no notice about the number within the window, nor within a day
      once there were three in the last one. */
  ghost predicate Allowed(log: seq<Notice>, number: string, now: int, window: int) {
    forall r :: r in log && r.number == number ==>
      now - r.at >= window && (|OfTheDay(log, number, now)| >= 3 ==> now - r.at >= 86_400_000_000_000)
  }

  lemma DueExactly(log: seq<Notice>, number: string, now: int, window: int)
    requires InOrder(log)
    ensures Due(log, number, now, window) <==> Allowed(log, number, now, window)
  {
    hide OfTheDay;
    CountIsSize(log, number, now);
    LastIsSome(log, number, |log|);
    LastIsLast(log, number, |log|);
    forall r | r in log && r.number == number
      ensures LastAt(log, number, |log|).Some? && r.at <= LastAt(log, number, |log|).value
    {
      var i :| 0 <= i < |log| && log[i] == r;
    }
  }

  ghost predicate Two(log: seq<Notice>, i: nat, j: nat) {
    i < j < |log| && log[i].number == log[j].number
  }

  ghost predicate Four(log: seq<Notice>, i: nat, j: nat, k: nat, l: nat) {
    i < j < k < l < |log| && log[i].number == log[j].number == log[k].number == log[l].number
  }

  /** Two notices about a number are at least `floor` apart, and any four span a day. */
  ghost predicate Spaced(log: seq<Notice>, floor: int) {
    && (forall i: nat, j: nat :: Two(log, i, j) ==> log[j].at - log[i].at >= floor)
    && (forall i: nat, j: nat, k: nat, l: nat :: Four(log, i, j, k, l) ==> log[l].at - log[i].at >= DAY)
  }

  lemma {:induction false} LastIsLast(log: seq<Notice>, number: string, n: nat)
    requires n <= |log| && InOrder(log)
    ensures forall i :: 0 <= i < n && log[i].number == number ==>
              LastAt(log, number, n).Some? && log[i].at <= LastAt(log, number, n).value
  {
    if n > 0 {
      LastIsLast(log, number, n - 1);
    }
  }

  lemma {:induction false} CountGrows(log: seq<Notice>, number: string, from: int, i: nat)
    requires i < |log| && log[i].number == number && log[i].at > from
    ensures CountSince(log, number, from) >= CountSince(log[..i], number, from) + 1
  {
    var n := |log| - 1;
    if i < n {
      CountGrows(log[..n], number, from, i);
      assert log[..n][..i] == log[..i];
    }
  }

  lemma CountThree(log: seq<Notice>, number: string, from: int, i: nat, j: nat, k: nat)
    requires i < j < k < |log| && log[i].number == log[j].number == log[k].number == number
    requires log[i].at > from && log[j].at > from && log[k].at > from
    ensures CountSince(log, number, from) >= 3
  {
    CountGrows(log, number, from, k);
    CountGrows(log[..k], number, from, j);
    assert log[..k][..j] == log[..j];
    CountGrows(log[..j], number, from, i);
  }

  /** A notice allowed by the rule keeps the spacing. */
  lemma DueKeepsSpacing(log: seq<Notice>, number: string, now: int, window: int, floor: int)
    requires InOrder(log) && Spaced(log, floor) && Due(log, number, now, window) && window >= floor
    requires forall i :: 0 <= i < |log| ==> log[i].at <= now
    ensures Spaced(log + [Notice(number, now)], floor) && InOrder(log + [Notice(number, now)])
  {
    var all := log + [Notice(number, now)];
    forall i: nat, j: nat | Two(all, i, j) ensures all[j].at - all[i].at >= floor {
      if j < |log| {
        assert Two(log, i, j);
      } else {
        LastIsLast(log, number, |log|);
      }
    }
    forall i: nat, j: nat, k: nat, l: nat | Four(all, i, j, k, l) ensures all[l].at - all[i].at >= DAY {
      if l < |log| {
        assert Four(log, i, j, k, l);
      } else {
        FourthWaits(log, number, now, window, i, j, k);
      }
    }
  }

  lemma FourthWaits(log: seq<Notice>, number: string, now: int, window: int, i: nat, j: nat, k: nat)
    requires InOrder(log) && Due(log, number, now, window)
    requires i < j < k < |log| && log[i].number == log[j].number == log[k].number == number
    ensures now - log[i].at >= DAY
  {
    LastIsLast(log, number, |log|);
    if now - log[i].at < DAY {
      CountThree(log, number, now - DAY, i, j, k);
    }
  }

  lemma {:induction false} OtherRowsDoNotMatter(log: seq<Notice>, more: seq<Notice>,
      number: string, now: int, window: int)
    requires forall r :: r in more ==> r.number != number
    ensures Due(log + more, number, now, window) <==> Due(log, number, now, window)
  {
    LastSkips(log, more, number);
    CountSkips(log, more, number, now - DAY);
  }

  lemma {:induction false} LastSkips(log: seq<Notice>, more: seq<Notice>, number: string)
    requires forall r :: r in more ==> r.number != number
    ensures LastAt(log + more, number, |log + more|) == LastAt(log, number, |log|)
  {
    var all := log + more;
    if more == [] {
      assert all == log;
    } else {
      var less := more[..|more| - 1];
      LastSkips(log, less, number);
      LastFrame(log + less, all, number, |all| - 1);
      assert all[|all| - 1] == more[|more| - 1];
    }
  }

  lemma {:induction false} LastFrame(a: seq<Notice>, b: seq<Notice>, number: string, n: nat)
    requires n <= |a| <= |b| && a == b[..|a|]
    ensures LastAt(a, number, n) == LastAt(b, number, n)
  {
    if n > 0 {
      LastFrame(a, b, number, n - 1);
    }
  }

  lemma {:induction false} CountSkips(log: seq<Notice>, more: seq<Notice>, number: string, from: int)
    requires forall r :: r in more ==> r.number != number
    ensures CountSince(log + more, number, from) == CountSince(log, number, from)
  {
    var all := log + more;
    if more == [] {
      assert all == log;
    } else {
      var less := more[..|more| - 1];
      CountSkips(log, less, number, from);
      assert all[..|all| - 1] == log + less;
      assert all[|all| - 1] == more[|more| - 1];
    }
  }

  // ----- one cycle, row by row ---------------------------------------------------------------

  function Number(s: Session): string {
    Jid.SomenteNumero(s.jid)
  }

  predicate IsDown(s: Session, live: set<string>) {
    !s.cloud && Number(s) != "" && Number(s) !in live
  }

  /** The numbers down among the first k sessions. */
  function Down(sessions: seq<Session>, live: set<string>, k: nat): set<string>
    requires k <= |sessions|
  {
    if k == 0 then {}
    else Down(sessions, live, k - 1) + if IsDown(sessions[k - 1], live) then {Number(sessions[k - 1])} else {}
  }

  /** Row k is the first of its number, the only one of them the cycle looks at. */
  predicate Leads(sessions: seq<Session>, live: set<string>, k: nat)
    requires k < |sessions|
  {
    IsDown(sessions[k], live) && Number(sessions[k]) !in Down(sessions, live, k)
  }

  predicate Linked(s: Session) {
    s.portal.Some? && s.portal.value != ""
  }

  function Since(seen: map<string, int>, s: Session): int {
    if Number(s) in seen then seen[Number(s)] else s.now
  }

  /** Row k is to be warned about, judged by the state at the start of the cycle alone. */
  predicate Warned(seen: map<string, int>, log: seq<Notice>, sessions: seq<Session>, live: set<string>,
                   window: int, k: nat)
    requires k < |sessions|
  {
    var s := sessions[k];
    Leads(sessions, live, k) && Linked(s) && s.later - Since(seen, s) >= GRACE
    && !s.muted && s.readable && Due(log, Number(s), s.asked, window)
  }

  /** What a warning leaves: an e-mail that arrives, and a notice in the log. */
  predicate Arrives(s: Session) {
    s.insert.Answered? && Lands(s.mail)
  }

  predicate StaysNoted(s: Session) {
    match s.insert case Lost(applied) => applied case Answered => s.mail.Answered? || !Lands(s.undo)
  }

  function Outgoing(seen: map<string, int>, log: seq<Notice>, sessions: seq<Session>, live: set<string>,
                    window: int, k: nat): seq<Mail>
    requires k <= |sessions|
  {
    if k == 0 then []
    else
      var s := sessions[k - 1];
      Outgoing(seen, log, sessions, live, window, k - 1)
      + if Warned(seen, log, sessions, live, window, k - 1) && Arrives(s)
        then [Mail(Number(s), s.asked, Since(seen, s), StaysNoted(s))] else []
  }

  /** The rows of the log that the first k sessions leave. */
  function Rows(seen: map<string, int>, log: seq<Notice>, sessions: seq<Session>, live: set<string>,
                window: int, k: nat): seq<Notice>
    requires k <= |sessions|
  {
    if k == 0 then []
    else
      var s := sessions[k - 1];
      Rows(seen, log, sessions, live, window, k - 1)
      + if Warned(seen, log, sessions, live, window, k - 1) && StaysNoted(s) then [Notice(Number(s), s.asked)] else []
  }

  /** The times remembered once the first k sessions were visited. */
  function Marked(seen: map<string, int>, sessions: seq<Session>, live: set<string>, k: nat): map<string, int>
    requires k <= |sessions|
  {
    if k == 0 then seen
    else
      var s := sessions[k - 1];
      var before := Marked(seen, sessions, live, k - 1);
      if Leads(sessions, live, k - 1) && Linked(s) then before[Number(s) := Since(seen, s)] else before
  }

  /** The readings of the clock never go back. */
  ghost predicate Clocked(sessions: seq<Session>, start: int, end: int) {
    && start <= end
    && (forall i :: 0 <= i < |sessions| ==>
          start <= sessions[i].now <= sessions[i].later <= sessions[i].asked <= end)
    && (forall i, j :: 0 <= i < j < |sessions| ==> sessions[i].asked <= sessions[j].asked)
  }

  lemma {:induction false} DownGrows(sessions: seq<Session>, live: set<string>, i: nat, k: nat)
    requires i <= k <= |sessions|
    ensures Down(sessions, live, i) <= Down(sessions, live, k)
  {
    if i < k {
      DownGrows(sessions, live, i, k - 1);
    }
  }

  /** Row i is the first of the number that is not of the cloud. */
  predicate FirstRow(sessions: seq<Session>, number: string, i: int) {
    0 <= i < |sessions| && !sessions[i].cloud && Jid.SomenteNumero(sessions[i].jid) == number
    && forall j :: 0 <= j < i ==> sessions[j].cloud || Jid.SomenteNumero(sessions[j].jid) != number
  }

  /** A number is down in the cycle exactly when some session not of the cloud has it and no live
      connection does. */
  lemma {:induction false} DownExactly(sessions: seq<Session>, live: set<string>, k: nat, number: string)
    requires k <= |sessions|
    ensures number in Down(sessions, live, k) <==>
            number != "" && number !in live
            && exists i :: 0 <= i < k && !sessions[i].cloud && Jid.SomenteNumero(sessions[i].jid) == number
  {
    hide Jid.SomenteNumero;
    if k > 0 {
      DownExactly(sessions, live, k - 1, number);
    }
  }

  lemma LeadsExactly(sessions: seq<Session>, live: set<string>, k: nat, number: string)
    requires k < |sessions|
    ensures Leads(sessions, live, k) && Number(sessions[k]) == number
            <==> number != "" && number !in live && FirstRow(sessions, number, k)
  {
    hide Jid.SomenteNumero, Down;
    DownExactly(sessions, live, k, number);
  }

  /** The first row of its number finds in the running memory what the start of the cycle decides. */
  lemma {:induction false} MarkedMeansSince(seen: map<string, int>, sessions: seq<Session>, live: set<string>, k: nat)
    requires k <= |sessions|
    ensures seen.Keys <= Marked(seen, sessions, live, k).Keys <= seen.Keys + Down(sessions, live, k)
    ensures forall n :: n in seen ==> Marked(seen, sessions, live, k)[n] == seen[n]
    ensures forall n :: n in Marked(seen, sessions, live, k) && n !in seen ==>
              exists i :: 0 <= i < k && Marked(seen, sessions, live, k)[n] == sessions[i].now
  {
    hide Number;
    if k > 0 {
      MarkedMeansSince(seen, sessions, live, k - 1);
    }
  }

  /** The rows added so far are about numbers already met, so they do not bear on the next one. */
  lemma {:induction false} RowsAreOfDown(seen: map<string, int>, log: seq<Notice>, sessions: seq<Session>,
                                         live: set<string>, window: int, k: nat)
    requires k <= |sessions|
    ensures forall r :: r in Rows(seen, log, sessions, live, window, k) ==> r.number in Down(sessions, live, k)
  {
    hide Number, Due;
    if k > 0 {
      RowsAreOfDown(seen, log, sessions, live, window, k - 1);
    }
  }

  lemma DueNow(seen: map<string, int>, log: seq<Notice>, sessions: seq<Session>, live: set<string>,
               window: int, k: nat)
    requires k < |sessions| && Leads(sessions, live, k)
    ensures var s := sessions[k];
            Due(log + Rows(seen, log, sessions, live, window, k), Number(s), s.asked, window)
            <==> Due(log, Number(s), s.asked, window)
  {
    hide Number, Due;
    RowsAreOfDown(seen, log, sessions, live, window, k);
    OtherRowsDoNotMatter(log, Rows(seen, log, sessions, live, window, k), Number(sessions[k]),
                         sessions[k].asked, window);
  }

  lemma {:induction false} RowsKeepSpacing(seen: map<string, int>, log: seq<Notice>, sessions: seq<Session>,
                                           live: set<string>, window: int, k: nat, floor: int, start: int, end: int)
    requires k <= |sessions| && InOrder(log) && Spaced(log, floor) && window >= floor && Clocked(sessions, start, end)
    requires forall i :: 0 <= i < |log| ==> log[i].at <= start
    ensures var all := log + Rows(seen, log, sessions, live, window, k);
            InOrder(all) && Spaced(all, floor)
            && forall i :: 0 <= i < |all| ==> all[i].at <= if k == 0 then start else sessions[k - 1].asked
  {
    hide Number, Due, Spaced;
    if k == 0 {
      assert log + Rows(seen, log, sessions, live, window, k) == log;
    } else {
      var s := sessions[k - 1];
      var before := log + Rows(seen, log, sessions, live, window, k - 1);
      RowsKeepSpacing(seen, log, sessions, live, window, k - 1, floor, start, end);
      if Warned(seen, log, sessions, live, window, k - 1) && StaysNoted(s) {
        DueNow(seen, log, sessions, live, window, k - 1);
        DueKeepsSpacing(before, Number(s), s.asked, window, floor);
        assert log + Rows(seen, log, sessions, live, window, k) == before + [Notice(Number(s), s.asked)];
      } else {
        assert log + Rows(seen, log, sessions, live, window, k) == before;
      }
    }
  }

  // ----- history -----------------------------------------------------------------------------

  /** The number was down in every completed cycle from the one that contains `since` up to `last`. */
  ghost predicate DownSince(cycles: seq<Cycle>, number: string, since: int, last: int) {
    exists k :: DownFrom(cycles, number, since, k, last)
  }

  ghost predicate DownFrom(cycles: seq<Cycle>, number: string, since: int, k: int, last: int) {
    0 <= k <= last < |cycles| && cycles[k].start <= since <= cycles[k].end
    && forall j :: k <= j <= last ==> number in cycles[j].down
  }

  lemma DownSinceGrows(cycles: seq<Cycle>, c: Cycle, number: string, since: int, last: int)
    requires DownSince(cycles, number, since, last)
    ensures DownSince(cycles + [c], number, since, last)
    ensures last == |cycles| - 1 && number in c.down ==> DownSince(cycles + [c], number, since, |cycles|)
  {
    var k :| DownFrom(cycles, number, since, k, last);
    assert DownFrom(cycles + [c], number, since, k, last);
    if last == |cycles| - 1 && number in c.down {
      assert DownFrom(cycles + [c], number, since, k, |cycles|);
    }
  }

  lemma DownSinceStarts(cycles: seq<Cycle>, c: Cycle, number: string, since: int)
    requires number in c.down && c.start <= since <= c.end
    ensures DownSince(cycles + [c], number, since, |cycles|)
  {
    assert DownFrom(cycles + [c], number, since, |cycles|, |cycles|);
  }

  /** Each remembered number was down ever since its time, up to the last completed cycle. */
  ghost predicate Remembered(seen: map<string, int>, cycles: seq<Cycle>) {
    forall n :: n in seen ==> DownSince(cycles, n, seen[n], |cycles| - 1)
  }

  /** A mail as history justifies it: sent in cycle c about a number that was down in every completed
      cycle since a time at least the grace period earlier. */
  ghost predicate Justified(m: Mail, c: nat, cycles: seq<Cycle>) {
    c < |cycles| && DownSince(cycles, m.number, m.since, c) && m.at - m.since >= GRACE
    && cycles[c].start <= m.at <= cycles[c].end
  }

  /** The mails whose notice was kept, each with its row of the log. */
  ghost predicate Registered(mails: seq<Mail>, rowOf: seq<nat>, log: seq<Notice>) {
    && |mails| == |rowOf|
    && (forall m :: 0 <= m < |mails| && mails[m].kept ==>
          rowOf[m] < |log| && log[rowOf[m]] == Notice(mails[m].number, mails[m].at))
    && (forall m, n :: 0 <= m < n < |mails| && mails[m].kept && mails[n].kept ==> rowOf[m] < rowOf[n])
  }

  lemma RegisteredGrows(mails: seq<Mail>, rowOf: seq<nat>, log: seq<Notice>, m: Mail)
    requires Registered(mails, rowOf, log)
    ensures Registered(mails, rowOf, log + [Notice(m.number, m.at)])
    ensures Registered(mails + [m.(kept := true)], rowOf + [|log|], log + [Notice(m.number, m.at)])
    ensures Registered(mails + [m.(kept := false)], rowOf + [|log|], log)
  {
  }

  /** Mails of one cycle are about different numbers, all of them down in it. */
  ghost predicate OncePerNumber(mails: seq<Mail>) {
    forall i, j :: 0 <= i < j < |mails| ==> mails[i].number != mails[j].number
  }

  lemma {:induction false} OutgoingOnce(seen: map<string, int>, log: seq<Notice>, sessions: seq<Session>,
                                        live: set<string>, window: int, k: nat)
    requires k <= |sessions|
    ensures OncePerNumber(Outgoing(seen, log, sessions, live, window, k))
    ensures forall m :: m in Outgoing(seen, log, sessions, live, window, k) ==> m.number in Down(sessions, live, k)
  {
    hide Number, Due;
    if k > 0 {
      OutgoingOnce(seen, log, sessions, live, window, k - 1);
    }
  }

  /** A number is warned about exactly when its first row asks for it and the e-mail leaves. */
  lemma {:induction false} OutgoingExactly(seen: map<string, int>, log: seq<Notice>, sessions: seq<Session>,
                                           live: set<string>, window: int, k: nat, m: Mail)
    requires k <= |sessions|
    ensures m in Outgoing(seen, log, sessions, live, window, k) <==>
            exists i :: 0 <= i < k && Warned(seen, log, sessions, live, window, i) && Arrives(sessions[i])
                        && m == Mail(Number(sessions[i]), sessions[i].asked, Since(seen, sessions[i]),
                                    StaysNoted(sessions[i]))
  {
    hide Number, Due, Since, Warned, Arrives, StaysNoted;
    if k > 0 {
      OutgoingExactly(seen, log, sessions, live, window, k - 1, m);
    }
  }

  lemma {:induction false} OutgoingJustified(seen: map<string, int>, log: seq<Notice>, sessions: seq<Session>,
                                             live: set<string>, window: int, k: nat, cycles: seq<Cycle>, c: Cycle)
    requires k <= |sessions| && Clocked(sessions, c.start, c.end)
    requires Remembered(seen, cycles) && c.down == Down(sessions, live, |sessions|)
    ensures forall m :: m in Outgoing(seen, log, sessions, live, window, k) ==> Justified(m, |cycles|, cycles + [c])
  {
    hide Number, Due, DownSince, Remembered;
    if k > 0 {
      OutgoingJustified(seen, log, sessions, live, window, k - 1, cycles, c);
      var s := sessions[k - 1];
      if Warned(seen, log, sessions, live, window, k - 1) && Arrives(s) {
        DownGrows(sessions, live, k, |sessions|);
        SinceHolds(seen, s, cycles, c);
      }
    }
  }

  lemma SinceHolds(seen: map<string, int>, s: Session, cycles: seq<Cycle>, c: Cycle)
    requires Remembered(seen, cycles) && Number(s) in c.down && c.start <= s.now <= c.end
    ensures DownSince(cycles + [c], Number(s), Since(seen, s), |cycles|)
  {
    hide Number, DownSince;
    if Number(s) in seen {
      DownSinceGrows(cycles, c, Number(s), seen[Number(s)], |cycles| - 1);
    } else {
      DownSinceStarts(cycles, c, Number(s), s.now);
    }
  }

  /** After the cycle only the numbers down in it are remembered, each since a time it was down from. */
  lemma StillRemembered(seen: map<string, int>, sessions: seq<Session>, live: set<string>, cycles: seq<Cycle>, c: Cycle)
    requires Clocked(sessions, c.start, c.end) && Remembered(seen, cycles)
    requires c.down == Down(sessions, live, |sessions|)
    ensures var marked := Marked(seen, sessions, live, |sessions|);
            Remembered(Confined(marked, c.down), cycles + [c])
  {
    hide Number, DownSince, Down;
    MarkedMeansSince(seen, sessions, live, |sessions|);
    var marked := Marked(seen, sessions, live, |sessions|);
    forall n | n in marked && n in c.down ensures DownSince(cycles + [c], n, marked[n], |cycles|) {
      if n in seen {
        DownSinceGrows(cycles, c, n, seen[n], |cycles| - 1);
      } else {
        DownSinceStarts(cycles, c, n, marked[n]);
      }
    }
  }

  /** The numbers that came back leave the count. */
  function Confined(seen: map<string, int>, down: set<string>): map<string, int> {
    map n | n in seen && n in down :: seen[n]
  }

  /** The mails of the finished cycle join the older ones. */
  lemma NewMailsFit(mails: seq<Mail>, sentIn: seq<nat>, more: seq<Mail>, cycles: seq<Cycle>, c: Cycle)
    requires Fitting(mails, sentIn, cycles) && OncePerNumber(more)
    requires forall m :: m in more ==> Justified(m, |cycles|, cycles + [c])
    ensures Fitting(mails + more, sentIn + seq(|more|, _ => |cycles|), cycles + [c])
  {
    hide Justified;
    OlderStayJustified(mails, sentIn, cycles, c);
    assert forall m :: 0 <= m < |mails| ==> sentIn[m] < |cycles| by {
      forall m | 0 <= m < |mails| ensures sentIn[m] < |cycles| {
        JustifiedInTime(mails[m], sentIn[m], cycles);
      }
    }
  }

  lemma JustifiedInTime(m: Mail, c: nat, cycles: seq<Cycle>)
    requires Justified(m, c, cycles)
    ensures c < |cycles|
  {
  }

  /** Every mail is justified by the cycle that sent it, and no cycle reports a number twice. */
  ghost predicate Fitting(mails: seq<Mail>, sentIn: seq<nat>, cycles: seq<Cycle>) {
    && |sentIn| == |mails|
    && (forall m :: 0 <= m < |mails| ==> Justified(mails[m], sentIn[m], cycles))
    && (forall m, n :: 0 <= m < n < |mails| && sentIn[m] == sentIn[n] ==> mails[m].number != mails[n].number)
  }

  lemma OlderStayJustified(mails: seq<Mail>, sentIn: seq<nat>, cycles: seq<Cycle>, c: Cycle)
    requires |sentIn| == |mails| && forall m :: 0 <= m < |mails| ==> Justified(mails[m], sentIn[m], cycles)
    ensures forall m :: 0 <= m < |mails| ==> Justified(mails[m], sentIn[m], cycles + [c])
  {
    forall m | 0 <= m < |mails| ensures Justified(mails[m], sentIn[m], cycles + [c]) {
      DownSinceGrows(cycles, c, mails[m].number, mails[m].since, sentIn[m]);
    }
  }

  /** When a cycle takes less than the grace period, a mail means that the number was already down in
      the cycle before: one reading alone never reports. */
  lemma TwoReadings(m: Mail, c: nat, cycles: seq<Cycle>)
    requires Justified(m, c, cycles) && cycles[c].end - cycles[c].start < GRACE
    ensures c > 0 && m.number in cycles[c].down && m.number in cycles[c - 1].down
  {
    var k :| DownFrom(cycles, m.number, m.since, k, c);
    assert k != c;
  }

  /** No number is the subject of four mails with a kept notice within a day, whatever the window. */
  lemma ThreeADay(mails: seq<Mail>, rowOf: seq<nat>, log: seq<Notice>, floor: int, a: nat, b: nat, c: nat, d: nat)
    requires Spaced(log, floor) && Registered(mails, rowOf, log) && a < b < c < d < |mails|
    requires mails[a].number == mails[b].number == mails[c].number == mails[d].number
    requires mails[a].kept && mails[b].kept && mails[c].kept && mails[d].kept
    ensures mails[d].at - mails[a].at >= DAY && mails[b].at - mails[a].at >= floor
  {
    assert Four(log, rowOf[a], rowOf[b], rowOf[c], rowOf[d]);
    assert Two(log, rowOf[a], rowOf[b]);
  }

  // ----- who is mailed about -------------------------------------------------------------------

  /** A round mails about a number exactly when no live connection has it, its first row is linked to a
      portal and found it missing for four minutes, the portal is not muted, the log allows it, the note
      is answered and the e-mail arrives. */
  lemma MailedIff(seen: map<string, int>, log: seq<Notice>, sessions: seq<Session>, live: set<string>,
                  window: int, number: string)
    requires InOrder(log)
    ensures Mails(seen, log, sessions, live, window, number) <==>
            number != "" && number !in live
            && exists i :: FirstRow(sessions, number, i)
                  && (var s := sessions[i];
                      && s.portal.Some? && s.portal.value != ""
                      && s.later - (if number in seen then seen[number] else s.now) >= 240_000_000_000
                      && !s.muted && s.readable && Allowed(log, number, s.asked, window)
                      && s.insert.Answered? && Lands(s.mail))
  {
    hide Jid.SomenteNumero, Number, FirstRow, Leads, Due, Allowed, Outgoing, Mails;
    forall i | 0 <= i < |sessions|
      ensures Leads(sessions, live, i) && Number(sessions[i]) == number
              <==> number != "" && number !in live && FirstRow(sessions, number, i)
    {
      LeadsExactly(sessions, live, i, number);
    }
    forall i | 0 <= i < |sessions|
      ensures Due(log, number, sessions[i].asked, window) <==> Allowed(log, number, sessions[i].asked, window)
    {
      DueExactly(log, number, sessions[i].asked, window);
    }
    forall i | FirstRow(sessions, number, i) ensures 0 <= i < |sessions| && Number(sessions[i]) == number {
      FirstRowIsRow(sessions, number, i);
    }
    if Mails(seen, log, sessions, live, window, number) {
      OnlyTurns(seen, log, sessions, live, window, number);
      var i :| 0 <= i < |sessions| && Warned(seen, log, sessions, live, window, i) && Number(sessions[i]) == number;
      OfItsTurn(seen, log, sessions, live, window, i);
      assert FirstRow(sessions, number, i);
    }
    if i :| FirstRow(sessions, number, i) && Warned(seen, log, sessions, live, window, i) && Arrives(sessions[i]) {
      OfItsTurn(seen, log, sessions, live, window, i);
    }
  }

  lemma FirstRowIsRow(sessions: seq<Session>, number: string, i: int)
    requires FirstRow(sessions, number, i)
    ensures 0 <= i < |sessions| && Number(sessions[i]) == number
  {
  }

  datatype Round = Round(sessions: seq<Session>, live: set<string>)

  /** What is remembered after some rounds. */
  function SeenAfter(seen: map<string, int>, rounds: seq<Round>): map<string, int> {
    if rounds == [] then seen
    else
      var last := rounds[|rounds| - 1];
      var n := |last.sessions|;
      var before := SeenAfter(seen, rounds[..|rounds| - 1]);
      Confined(Marked(before, last.sessions, last.live, n), Down(last.sessions, last.live, n))
  }

  ghost predicate Missing(r: Round, number: string) {
    number != "" && number !in r.live && exists i :: FirstRow(r.sessions, number, i)
  }

  lemma {:induction false} MarkedByFirst(seen: map<string, int>, sessions: seq<Session>, live: set<string>, k: nat,
                                         number: string, i: int)
    requires k <= |sessions| && number != "" && number !in live && FirstRow(sessions, number, i)
    ensures number in seen ==> number in Marked(seen, sessions, live, k)
                               && Marked(seen, sessions, live, k)[number] == seen[number]
    ensures number !in seen && i < k && Linked(sessions[i]) ==>
              number in Marked(seen, sessions, live, k) && Marked(seen, sessions, live, k)[number] == sessions[i].now
    ensures number !in seen && (i >= k || !Linked(sessions[i])) ==> number !in Marked(seen, sessions, live, k)
  {
    hide Jid.SomenteNumero, Leads;
    if k > 0 {
      MarkedByFirst(seen, sessions, live, k - 1, number, i);
      LeadsExactly(sessions, live, k - 1, number);
    }
  }

  /** After a round a number is remembered exactly when it was missing in it, and had been remembered or was
      linked by its first row; since when it was, or since now. */
  lemma RememberedIff(seen: map<string, int>, r: Round, number: string)
    ensures var after := SeenAfter(seen, [r]);
            && (number in after <==>
                  Missing(r, number)
                  && (number in seen || exists i :: FirstRow(r.sessions, number, i) && HasPortal(r.sessions[i])))
            && (number in after && number in seen ==> after[number] == seen[number])
            && (number in after && number !in seen ==>
                  exists i :: FirstRow(r.sessions, number, i) && after[number] == r.sessions[i].now)
  {
    hide Jid.SomenteNumero, FirstRow, Down, Marked, Missing;
    var n := |r.sessions|;
    assert [r][..0] == [] && SeenAfter(seen, []) == seen;
    assert SeenAfter(seen, [r]) == Confined(Marked(seen, r.sessions, r.live, n), Down(r.sessions, r.live, n));
    MissingIffDown(r, number);
    if Missing(r, number) {
      MissingHasRow(r, number);
      var i :| FirstRow(r.sessions, number, i);
      MarkedByFirst(seen, r.sessions, r.live, n, number, i);
      FirstRowIsRow(r.sessions, number, i);
      forall j | FirstRow(r.sessions, number, j) ensures j == i {
        OneFirstRow(r.sessions, number, i, j);
      }
    }
  }

  predicate HasPortal(s: Session) {
    s.portal.Some? && s.portal.value != ""
  }

  lemma MissingHasRow(r: Round, number: string)
    requires Missing(r, number)
    ensures number != "" && number !in r.live && exists i :: FirstRow(r.sessions, number, i)
  {
  }

  lemma OneFirstRow(sessions: seq<Session>, number: string, i: int, j: int)
    requires FirstRow(sessions, number, i) && FirstRow(sessions, number, j)
    ensures i == j
  {
    hide Jid.SomenteNumero;
  }

  lemma MissingIffDown(r: Round, number: string)
    ensures Missing(r, number) <==> number in Down(r.sessions, r.live, |r.sessions|)
  {
    hide Jid.SomenteNumero;
    DownExactly(r.sessions, r.live, |r.sessions|, number);
    if i :| 0 <= i < |r.sessions| && !r.sessions[i].cloud && Jid.SomenteNumero(r.sessions[i].jid) == number {
      var first := FirstOf(r.sessions, number, i);
      assert FirstRow(r.sessions, number, first);
    }
  }

  lemma {:induction false} FirstOf(sessions: seq<Session>, number: string, i: nat) returns (first: int)
    requires i < |sessions| && !sessions[i].cloud && Jid.SomenteNumero(sessions[i].jid) == number
    ensures FirstRow(sessions, number, first)
    decreases i
  {
    hide Jid.SomenteNumero;
    first := i;
    if j: nat :| j < i && !sessions[j].cloud && Jid.SomenteNumero(sessions[j].jid) == number {
      first := FirstOf(sessions, number, j);
    }
  }

  /** A number missing in all of some rounds is remembered from the first of them, if it is linked there. */
  lemma {:induction false} RememberedFromFirst(seen: map<string, int>, rounds: seq<Round>, number: string, i: int)
    requires rounds != [] && forall k :: 0 <= k < |rounds| ==> Missing(rounds[k], number)
    requires FirstRow(rounds[0].sessions, number, i) && Linked(rounds[0].sessions[i])
    requires number in seen ==> seen[number] <= rounds[0].sessions[i].now
    ensures number in SeenAfter(seen, rounds) && SeenAfter(seen, rounds)[number] <= rounds[0].sessions[i].now
  {
    hide Jid.SomenteNumero, FirstRow, Down;
    var n := |rounds| - 1;
    var before, last := SeenAfter(seen, rounds[..n]), rounds[n];
    MissingIffDown(last, number);
    if n == 0 {
      assert rounds[..0] == [];
      MarkedByFirst(seen, last.sessions, last.live, |last.sessions|, number, i);
      FirstRowIsRow(last.sessions, number, i);
    } else {
      RememberedFromFirst(seen, rounds[..n], number, i);
      var j :| FirstRow(last.sessions, number, j);
      MarkedByFirst(before, last.sessions, last.live, |last.sessions|, number, j);
    }
  }

  /** A number that stays down is reported: missing in every round since one that found it linked, it is
      mailed about in the first round four minutes later that finds it linked, not muted and allowed by
      the log, if the note is answered and the e-mail arrives. */
  lemma LongDownIsTold(seen: map<string, int>, rounds: seq<Round>, log: seq<Notice>, last: Round, window: int,
                       number: string, i: int, j: int)
    requires InOrder(log) && rounds != [] && forall k :: 0 <= k < |rounds| ==> Missing(rounds[k], number)
    requires FirstRow(rounds[0].sessions, number, i) && Linked(rounds[0].sessions[i])
    requires number in seen ==> seen[number] <= rounds[0].sessions[i].now
    requires number !in last.live && FirstRow(last.sessions, number, j) && Linked(last.sessions[j])
    requires last.sessions[j].later - rounds[0].sessions[i].now >= 240_000_000_000
    requires !last.sessions[j].muted && last.sessions[j].readable
    requires Allowed(log, number, last.sessions[j].asked, window) && Arrives(last.sessions[j])
    ensures Mails(SeenAfter(seen, rounds), log, last.sessions, last.live, window, number)
  {
    hide Jid.SomenteNumero, FirstRow, SeenAfter, Allowed, Mails;
    assert Missing(rounds[0], number);
    RememberedFromFirst(seen, rounds, number, i);
    MailedIff(SeenAfter(seen, rounds), log, last.sessions, last.live, window, number);
  }

  // ----- what a round notes and what it sends --------------------------------------------------

  /** The insert took effect without an answer, or the e-mail and the delete of its notice both failed. */
  predicate NotedInVain(s: Session) {
    s.insert == Lost(true) || (s.insert.Answered? && s.mail == Lost(false) && s.undo == Lost(false))
  }

  /** The e-mail arrived although its call failed, and its notice was deleted. */
  predicate MailedUnseen(s: Session) {
    s.insert.Answered? && s.mail == Lost(true) && Lands(s.undo)
  }

  ghost predicate Notes(seen: map<string, int>, log: seq<Notice>, sessions: seq<Session>, live: set<string>,
                        window: int, number: string) {
    exists r :: r in Rows(seen, log, sessions, live, window, |sessions|) && r.number == number
  }

  ghost predicate Mails(seen: map<string, int>, log: seq<Notice>, sessions: seq<Session>, live: set<string>,
                        window: int, number: string) {
    exists m :: m in Outgoing(seen, log, sessions, live, window, |sessions|) && m.number == number
  }

  lemma {:induction false} RowsExactly(seen: map<string, int>, log: seq<Notice>, sessions: seq<Session>,
                                       live: set<string>, window: int, k: nat, row: Notice)
    requires k <= |sessions|
    ensures row in Rows(seen, log, sessions, live, window, k) <==>
            exists i :: 0 <= i < k && Warned(seen, log, sessions, live, window, i) && StaysNoted(sessions[i])
                        && row == Notice(Number(sessions[i]), sessions[i].asked)
  {
    hide Number, Warned, StaysNoted;
    if k > 0 {
      RowsExactly(seen, log, sessions, live, window, k - 1, row);
    }
  }

  /** A number has one turn in a round. */
  lemma WarnedOnce(seen: map<string, int>, log: seq<Notice>, sessions: seq<Session>, live: set<string>,
                   window: int, i: nat, j: nat)
    requires i < |sessions| && j < |sessions| && Number(sessions[i]) == Number(sessions[j])
    requires Warned(seen, log, sessions, live, window, i) && Warned(seen, log, sessions, live, window, j)
    ensures i == j
  {
    hide Number, Due;
    if i < j {
      DownGrows(sessions, live, i + 1, j);
    } else if j < i {
      DownGrows(sessions, live, j + 1, i);
    }
  }

  /** What the turn of a warned number notes and sends. */
  lemma OfItsTurn(seen: map<string, int>, log: seq<Notice>, sessions: seq<Session>, live: set<string>,
                  window: int, i: nat)
    requires i < |sessions| && Warned(seen, log, sessions, live, window, i)
    ensures Notes(seen, log, sessions, live, window, Number(sessions[i])) <==> StaysNoted(sessions[i])
    ensures Mails(seen, log, sessions, live, window, Number(sessions[i])) <==> Arrives(sessions[i])
  {
    hide Number, Warned, StaysNoted, Arrives, Since, Rows, Outgoing;
    var s, n := sessions[i], |sessions|;
    var row, mail := Notice(Number(s), s.asked), Mail(Number(s), s.asked, Since(seen, s), StaysNoted(s));
    RowsExactly(seen, log, sessions, live, window, n, row);
    OutgoingExactly(seen, log, sessions, live, window, n, mail);
    if r :| r in Rows(seen, log, sessions, live, window, n) && r.number == Number(s) {
      RowsExactly(seen, log, sessions, live, window, n, r);
      var j :| 0 <= j < n && Warned(seen, log, sessions, live, window, j) && StaysNoted(sessions[j])
               && r == Notice(Number(sessions[j]), sessions[j].asked);
      WarnedOnce(seen, log, sessions, live, window, i, j);
    }
    if m :| m in Outgoing(seen, log, sessions, live, window, n) && m.number == Number(s) {
      OutgoingExactly(seen, log, sessions, live, window, n, m);
      var j :| 0 <= j < n && Warned(seen, log, sessions, live, window, j) && Arrives(sessions[j])
               && m == Mail(Number(sessions[j]), sessions[j].asked, Since(seen, sessions[j]), StaysNoted(sessions[j]));
      WarnedOnce(seen, log, sessions, live, window, i, j);
    }
  }

  lemma OnlyTurns(seen: map<string, int>, log: seq<Notice>, sessions: seq<Session>, live: set<string>,
                  window: int, number: string)
    requires Notes(seen, log, sessions, live, window, number) || Mails(seen, log, sessions, live, window, number)
    ensures exists i :: 0 <= i < |sessions| && Warned(seen, log, sessions, live, window, i)
                        && Number(sessions[i]) == number
  {
    hide Number, Warned, StaysNoted, Arrives, Since, Rows, Outgoing;
    var n := |sessions|;
    if r :| r in Rows(seen, log, sessions, live, window, n) && r.number == number {
      RowsExactly(seen, log, sessions, live, window, n, r);
    } else {
      var m :| m in Outgoing(seen, log, sessions, live, window, n) && m.number == number;
      OutgoingExactly(seen, log, sessions, live, window, n, m);
    }
  }

  /** A round notes exactly the numbers it mails about if and only if no warned number was noted in vain
      and none was mailed unseen. */
  lemma NotedAreMailedIff(seen: map<string, int>, log: seq<Notice>, sessions: seq<Session>, live: set<string>,
                          window: int)
    ensures (forall number :: Notes(seen, log, sessions, live, window, number)
                              <==> Mails(seen, log, sessions, live, window, number))
            <==> forall i :: 0 <= i < |sessions| && Warned(seen, log, sessions, live, window, i) ==>
                   !NotedInVain(sessions[i]) && !MailedUnseen(sessions[i])
  {
    hide Number, Warned, Notes, Mails;
    forall i | 0 <= i < |sessions| && Warned(seen, log, sessions, live, window, i)
      ensures (Notes(seen, log, sessions, live, window, Number(sessions[i]))
               <==> Mails(seen, log, sessions, live, window, Number(sessions[i])))
              <==> !NotedInVain(sessions[i]) && !MailedUnseen(sessions[i])
    {
      OfItsTurn(seen, log, sessions, live, window, i);
    }
    forall number | Notes(seen, log, sessions, live, window, number) || Mails(seen, log, sessions, live, window, number)
      ensures exists i :: 0 <= i < |sessions| && Warned(seen, log, sessions, live, window, i)
                          && Number(sessions[i]) == number
    {
      OnlyTurns(seen, log, sessions, live, window, number);
    }
  }

  /** An e-mail that arrived although its call failed leaves no trace once its notice is deleted: the
      limits are for the next cycle what they were for this one. */
  lemma UnseenLeavesNoTrace(seen: map<string, int>, log: seq<Notice>, sessions: seq<Session>, live: set<string>,
                            window: int, k: nat, number: string, now: int)
    requires k < |sessions| && Warned(seen, log, sessions, live, window, k)
    requires sessions[k].insert.Answered? && sessions[k].mail == Lost(true) && Lands(sessions[k].undo)
    requires number == Number(sessions[k])
    ensures |Outgoing(seen, log, sessions, live, window, k + 1)| == |Outgoing(seen, log, sessions, live, window, k)| + 1
    ensures Due(log + Rows(seen, log, sessions, live, window, k + 1), number, now, window)
            <==> Due(log, number, now, window)
  {
    hide Number, Due;
    RowsAreOfDown(seen, log, sessions, live, window, k);
    OtherRowsDoNotMatter(log, Rows(seen, log, sessions, live, window, k), number, now, window);
    var rows := Rows(seen, log, sessions, live, window, k);
    assert Rows(seen, log, sessions, live, window, k + 1) == rows + [] == rows;
  }

  /** An insert that takes effect without an answer sends nothing, and silences the number for the
      window. */
  lemma LostInsertSilences(seen: map<string, int>, log: seq<Notice>, sessions: seq<Session>, live: set<string>,
                           window: int, k: nat, now: int)
    requires k < |sessions| && Warned(seen, log, sessions, live, window, k) && sessions[k].insert == Lost(true)
    requires now - sessions[k].asked < window
    ensures Outgoing(seen, log, sessions, live, window, k + 1) == Outgoing(seen, log, sessions, live, window, k)
    ensures !Due(log + Rows(seen, log, sessions, live, window, k + 1), Number(sessions[k]), now, window)
  {
    hide Number;
    var row := Notice(Number(sessions[k]), sessions[k].asked);
    var before := log + Rows(seen, log, sessions, live, window, k);
    assert Rows(seen, log, sessions, live, window, k + 1) == Rows(seen, log, sessions, live, window, k) + [row];
    assert log + Rows(seen, log, sessions, live, window, k + 1) == before + [row];
    NotDueAfter(before, row, now, window);
  }

  lemma NotDueAfter(log: seq<Notice>, row: Notice, now: int, window: int)
    requires now - row.at < window
    ensures !Due(log + [row], row.number, now, window)
  {
    assert LastAt(log + [row], row.number, |log| + 1) == Some(row.at);
  }

  // ----- the job -----------------------------------------------------------------------------

  class AlertJob {
    /** quedaVista: since when each number has been seen down. */
    var seen: map<string, int>
    var log: seq<Notice>
    var mails: seq<Mail>
    /** The completed cycles, the cycle that sent each mail and the row of the log it left. */
    ghost var cycles: seq<Cycle>
    ghost var sentIn: seq<nat>
    ghost var rowOf: seq<nat>
    /** No cycle runs with a window below this one. */
    ghost const floor: int

    constructor (ghost floor: int, ghost now: int)
      ensures Valid(now) && mails == [] && seen == map[] && log == [] && cycles == [] && this.floor == floor
    {
      seen, log, mails, cycles, sentIn, rowOf := map[], [], [], [], [], [];
      this.floor := floor;
    }

    ghost predicate Valid(now: int)
      reads this
    {
      && InOrder(log) && Spaced(log, floor) && (forall i :: 0 <= i < |log| ==> log[i].at <= now)
      && Remembered(seen, cycles)
      && Registered(mails, rowOf, log)
      && Fitting(mails, sentIn, cycles)
    }

    /** DeveAvisar: decides and, in the same step, takes note; an insert without an answer may have
        noted all the same. */
    method DeveAvisar(number: string, s: Session, window: int) returns (ok: bool)
      modifies this`log
      ensures var due := !s.muted && s.readable && Due(old(log), number, s.asked, window);
              && (ok <==> due && s.insert.Answered?)
              && log == if due && Lands(s.insert) then old(log) + [Notice(number, s.asked)] else old(log)
    {
      if s.muted || !s.readable || !Due(log, number, s.asked, window) {
        return false;
      }
      if Lands(s.insert) {
        log := log + [Notice(number, s.asked)];
      }
      return s.insert.Answered?;
    }

    /** What one session adds, judged by the state its turn finds. */
    method Visit(s: Session, live: set<string>, down: set<string>, window: int) returns (isNew: bool)
      requires Registered(mails, rowOf, log)
      modifies this
      ensures isNew <==> IsDown(s, live) && Number(s) !in down
      ensures var number := Jid.SomenteNumero(s.jid);
              isNew <==> !s.cloud && number != "" && number !in live && number !in down
      ensures seen == if isNew && Linked(s) then old(seen)[Number(s) := Since(old(seen), s)] else old(seen)
      ensures var warned := isNew && Linked(s) && s.later - Since(old(seen), s) >= GRACE && !s.muted && s.readable
                            && Due(old(log), Number(s), s.asked, window);
              && log == old(log) + (if warned && StaysNoted(s) then [Notice(Number(s), s.asked)] else [])
              && mails == old(mails) + (if warned && Arrives(s)
                                        then [Mail(Number(s), s.asked, Since(old(seen), s), StaysNoted(s))] else [])
      ensures Registered(mails, rowOf, log)
      ensures cycles == old(cycles) && sentIn == old(sentIn)
    {
      hide Jid.SomenteNumero, Due, Registered;
      if s.cloud {
        return false;
      }
      var number := Number(s);
      if number == "" || number in live || number in down {
        return false;
      }
      isNew := true;
      if !Linked(s) {
        return;
      }
      if number !in seen {
        seen := seen[number := s.now];
      }
      var since := seen[number];
      if s.later - since < GRACE {
        return;
      }
      ghost var row := |log|;
      var before := log;
      RegisteredGrows(mails, rowOf, log, Mail(number, s.asked, since, true));
      var ok := DeveAvisar(number, s, window);
      if !ok {
        return;
      }
      if Lands(s.mail) {
        mails, rowOf := mails + [Mail(number, s.asked, since, StaysNoted(s))], rowOf + [row];
      }
      if s.mail.Lost? && Lands(s.undo) {
        log := log[..|log| - 1];
        assert log == before;
      }
    }

    /** The loop over the sessions, each judged in the end by the state the round began with. */
    method VisitAll(sessions: seq<Session>, live: set<string>, window: int) returns (down: set<string>)
      requires Registered(mails, rowOf, log)
      modifies this
      ensures down == Down(sessions, live, |sessions|)
      ensures seen == Marked(old(seen), sessions, live, |sessions|)
      ensures log == old(log) + Rows(old(seen), old(log), sessions, live, window, |sessions|)
      ensures mails == old(mails) + Outgoing(old(seen), old(log), sessions, live, window, |sessions|)
      ensures Registered(mails, rowOf, log)
      ensures cycles == old(cycles) && sentIn == old(sentIn)
    {
      hide Number, Due, IsDown, Linked, Registered;
      ghost var log0, seen0 := log, seen;
      down := {};
      var i := 0;
      while i < |sessions|
        invariant 0 <= i <= |sessions|
        invariant down == Down(sessions, live, i)
        invariant seen == Marked(seen0, sessions, live, i)
        invariant log == log0 + Rows(seen0, log0, sessions, live, window, i)
        invariant mails == old(mails) + Outgoing(seen0, log0, sessions, live, window, i)
        invariant Registered(mails, rowOf, log) && cycles == old(cycles) && sentIn == old(sentIn)
      {
        MarkedMeansSince(seen0, sessions, live, i);
        if Leads(sessions, live, i) {
          DueNow(seen0, log0, sessions, live, window, i);
        }
        var isNew := Visit(sessions[i], live, down, window);
        if isNew {
          down := down + {Number(sessions[i])};
        }
        i := i + 1;
      }
    }

    /** One round over the sessions; None is a list that could not be read. */
    method AlertarSessoesCaidas(listed: Option<seq<Session>>, live: set<string>, window: int,
                                ghost start: int, ghost end: int)
      requires Valid(start) && window >= floor && start <= end
      requires listed.Some? ==> Clocked(listed.value, start, end)
      modifies this
      ensures Valid(end)
      ensures listed.None? ==> seen == old(seen) && log == old(log) && mails == old(mails) && cycles == old(cycles)
      ensures old(mails) <= mails && forall m :: m in mails[|old(mails)|..] ==> m.number !in live
      ensures listed.Some? ==>
                var sessions, n := listed.value, |listed.value|;
                && mails == old(mails) + Outgoing(old(seen), old(log), sessions, live, window, n)
                && log == old(log) + Rows(old(seen), old(log), sessions, live, window, n)
                && seen == Confined(Marked(old(seen), sessions, live, n), Down(sessions, live, n))
                && cycles == old(cycles) + [Cycle(Down(sessions, live, n), start, end)]
    {
      hide Number, Due, IsDown, Linked, Registered, Remembered, Spaced,
           InOrder, Justified, Outgoing, Rows, Marked, Down, OncePerNumber, Confined, Fitting;
      if listed.None? {
        return;
      }
      var sessions := listed.value;
      ghost var n := |sessions|;
      ghost var mails0, cycles0 := mails, cycles;
      ghost var more := Outgoing(seen, log, sessions, live, window, n);
      RowsKeepSpacing(seen, log, sessions, live, window, n, floor, start, end);
      OutgoingOnce(seen, log, sessions, live, window, n);
      forall m | m in more ensures m.number !in live {
        DownExactly(sessions, live, n, m.number);
      }
      ghost var c := Cycle(Down(sessions, live, n), start, end);
      OutgoingJustified(seen, log, sessions, live, window, n, cycles, c);
      StillRemembered(seen, sessions, live, cycles, c);
      var down := VisitAll(sessions, live, window);
      seen := Confined(seen, down);
      NewMailsFit(mails0, sentIn, more, cycles0, c);
      sentIn := sentIn + seq(|more|, _ => |cycles0|);
      cycles := cycles + [c];
    }
  }
}
