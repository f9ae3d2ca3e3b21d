/** The daily notices to finance about licences that are about to lapse or have lapsed: one per
    client, kind and due date. Instants are nanoseconds of one clock, dates are days of it. */
module Licences {

  import opened Remote
  import opened Text

  const SECOND := 1_000_000_000
  const DAY := 24 * 60 * 60 * SECOND
  const DAYS_AHEAD := 7

  datatype Kind = Vencendo | Vencida

  datatype Key = Key(domain: string, kind: Kind, dueDate: int)

  datatype License = License(domain: string, validUntil: Option<int>)

  /** A licence as one round meets it: the two readings of the clock taken for it, what the block list
      says, and how the insert of the mark, the e-mail and the delete of the mark go. */
  datatype Turn = Turn(lic: License, daysAt: int, expiredAt: int, blocked: bool,
                       insert: Reply, mail: Reply, unmark: Reply)

  datatype Notice = Notice(key: Key, days: int)

  // ----- dates -------------------------------------------------------------------------------

  /** 23:59:59 of the day. */
  function EndOfDay(day: int): int {
    day * DAY + DAY - SECOND
  }

  /** Go's integer conversion of a quotient: toward zero. */
  function Toward0(a: int, b: int): int
    requires b > 0
  {
    if a < 0 then -((-a) / b) else a / b
  }

  function DaysUntilExpiry(dueDate: int, now: int): int {
    Toward0(EndOfDay(dueDate) - now, DAY)
  }

  predicate Expired(dueDate: int, now: int) {
    now > EndOfDay(dueDate)
  }

  function Judged(t: Turn): Kind
    requires t.lic.validUntil.Some?
  {
    if Expired(t.lic.validUntil.value, t.expiredAt) then Vencida else Vencendo
  }

  function KeyOf(t: Turn): Key
    requires t.lic.validUntil.Some?
  {
    Key(t.lic.domain, Judged(t), t.lic.validUntil.value)
  }

  /** The number of days the e-mail speaks of. */
  function DaysSaid(t: Turn): int
    requires t.lic.validUntil.Some?
  {
    var dias := DaysUntilExpiry(t.lic.validUntil.value, t.daysAt);
    if Judged(t) == Vencida then -dias else dias
  }

  /** The query that feeds the round, run on the day that contains `at`. */
  predicate Listed(lic: License, at: int) {
    lic.validUntil.Some? && lic.validUntil.value <= at / DAY + DAYS_AHEAD
  }

  /** The days by the calendar: on the due day and before, the days that are left; from the day after on,
      one less than have gone by, for the licence lapses a second before midnight. (A time of day in that
      last second is left aside.) */
  lemma DaysByCalendar(due: int, d: int, time: int)
    requires 0 <= time < 86_399_000_000_000
    ensures var now := (due - d) * 86_400_000_000_000 + time;
            && DaysUntilExpiry(due, now) == (if d >= 0 then d else d + 1)
            && (Expired(due, now) <==> d < 0)
    ensures forall at :: Expired(due, at) <==> at > due * 86_400_000_000_000 + 86_399_000_000_000
  {
    var now := (due - d) * DAY + time;
    var gap := EndOfDay(due) - now;
    assert gap == d * DAY + (DAY - SECOND - time);
    if d < 0 {
      assert -gap == (-d - 1) * DAY + (SECOND + time);
      Quotient(-gap, -d - 1, SECOND + time);
    } else {
      Quotient(gap, d, DAY - SECOND - time);
    }
  }

  lemma Quotient(a: int, q: int, rest: int)
    requires a == q * DAY + rest && 0 <= rest < DAY
    ensures a / DAY == q
  {
  }

  /** So the notice of a day, and the days it speaks of. */
  lemma NoticeByCalendar(t: Turn, d: int, daysTime: int, expiredTime: int)
    requires t.lic.validUntil.Some? && 0 <= daysTime <= expiredTime < 86_399_000_000_000
    requires t.daysAt == (t.lic.validUntil.value - d) * 86_400_000_000_000 + daysTime
    requires t.expiredAt == (t.lic.validUntil.value - d) * 86_400_000_000_000 + expiredTime
    ensures KeyOf(t) == Key(t.lic.domain, if d < 0 then Vencida else Vencendo, t.lic.validUntil.value)
    ensures DaysSaid(t) == if d < 0 then -d - 1 else d
    ensures Listed(t.lic, t.daysAt) <==> d <= 7
  {
    hide DaysUntilExpiry, Expired;
    Quotient(t.daysAt, t.lic.validUntil.value - d, daysTime);
    DaysByCalendar(t.lic.validUntil.value, d, daysTime);
    DaysByCalendar(t.lic.validUntil.value, d, expiredTime);
  }

  /** An e-mail never speaks of a negative number of days, nor of more than a week to go. */
  lemma DaysMakeSense(t: Turn, listedAt: int)
    requires Listed(t.lic, listedAt) && listedAt <= t.daysAt <= t.expiredAt < t.daysAt + DAY
    ensures 0 <= DaysSaid(t)
    ensures KeyOf(t).kind == Vencendo ==> DaysSaid(t) <= DAYS_AHEAD
    ensures KeyOf(t).kind == Vencida ==>
              EndOfDay(t.lic.validUntil.value) + DaysSaid(t) * DAY <= t.expiredAt
  {
    var gap := EndOfDay(t.lic.validUntil.value) - t.daysAt;
    if gap < 0 {
      assert (-gap) / DAY * DAY <= -gap;
    } else {
      assert gap / DAY * DAY <= gap;
    }
    assert listedAt / DAY * DAY <= listedAt;
  }

  // ----- one turn ----------------------------------------------------------------------------

  /** The marks in the table, and the e-mails that reached finance. */
  datatype State = State(marks: set<Key>, delivered: seq<Notice>)

  const START := State({}, [])

  /** The turn reaches the insert for key k. */
  predicate Asks(t: Turn, k: Key) {
    t.lic.validUntil.Some? && !t.blocked && KeyOf(t) == k
  }

  /** A turn that finds its key unmarked: mark, send, and take the mark back when the e-mail failed. */
  function Attempt(st: State, t: Turn): State
    requires t.lic.validUntil.Some?
  {
    var k := KeyOf(t);
    var marked := st.marks + {k};
    match t.insert
    case Lost(applied) => st.(marks := if applied then marked else st.marks)
    case Answered =>
      var delivered := if Lands(t.mail) then st.delivered + [Notice(k, DaysSaid(t))] else st.delivered;
      State(if t.mail.Lost? && Lands(t.unmark) then marked - {k} else marked, delivered)
  }

  function Step(st: State, t: Turn): State {
    if t.lic.validUntil.None? || t.blocked || KeyOf(t) in st.marks then st else Attempt(st, t)
  }

  function Run(st: State, turns: seq<Turn>, n: nat): State
    requires n <= |turns|
  {
    if n == 0 then st else Step(Run(st, turns, n - 1), turns[n - 1])
  }

  // ----- what a history delivers -------------------------------------------------------------

  /** The turn leaves the mark of k: the insert took effect without an answer, the e-mail was
      acknowledged, or the delete of the mark failed. */
  predicate LeavesMark(t: Turn, k: Key) {
    Asks(t, k) && match t.insert case Lost(applied) => applied case Answered => t.mail.Answered? || !Lands(t.unmark)
  }

  ghost predicate Open(turns: seq<Turn>, i: int, k: Key) {
    forall j :: 0 <= j < i <= |turns| ==> !LeavesMark(turns[j], k)
  }

  /** Turn i is the one that settles key k: the first to leave its mark. */
  ghost predicate Settles(turns: seq<Turn>, i: int, k: Key) {
    0 <= i < |turns| && LeavesMark(turns[i], k) && Open(turns, i, k)
  }

  /** Turn i gets an e-mail about k to finance. */
  ghost predicate Sends(turns: seq<Turn>, i: int, k: Key) {
    0 <= i < |turns| && Asks(turns[i], k) && turns[i].insert.Answered? && Lands(turns[i].mail) && Open(turns, i, k)
  }

  ghost predicate Settled(turns: seq<Turn>, n: int, k: Key) {
    exists i :: 0 <= i < n && Settles(turns, i, k)
  }

  lemma {:induction false} SettledIffMarked(turns: seq<Turn>, n: nat, k: Key)
    requires n <= |turns|
    ensures Settled(turns, n, k) <==> !Open(turns, n, k)
  {
    hide LeavesMark;
    if n > 0 {
      SettledIffMarked(turns, n - 1, k);
      if Settled(turns, n - 1, k) {
        var i :| 0 <= i < n - 1 && Settles(turns, i, k);
        assert !Open(turns, n, k);
      } else if LeavesMark(turns[n - 1], k) {
        assert Settles(turns, n - 1, k);
      }
    }
  }

  lemma StepMarks(st: State, t: Turn, k: Key)
    ensures k in Step(st, t).marks <==> k in st.marks || LeavesMark(t, k)
  {
    hide KeyOf, DaysSaid;
  }

  /** A key is marked from the turn that settles it on, whatever follows, and not before. */
  lemma {:induction false} SettledForGood(turns: seq<Turn>, n: nat, k: Key)
    requires n <= |turns|
    ensures k in Run(START, turns, n).marks <==> Settled(turns, n, k)
  {
    hide LeavesMark, Step;
    SettledIffMarked(turns, n, k);
    if n > 0 {
      SettledForGood(turns, n - 1, k);
      SettledIffMarked(turns, n - 1, k);
      StepMarks(Run(START, turns, n - 1), turns[n - 1], k);
    }
  }

  /** How many e-mails about k are in a log, and how many turns sent one. */
  function CountOf(log: seq<Notice>, k: Key): nat {
    if log == [] then 0 else CountOf(log[..|log| - 1], k) + if log[|log| - 1].key == k then 1 else 0
  }

  ghost function SendsBefore(turns: seq<Turn>, n: nat, k: Key): nat {
    if n == 0 then 0 else SendsBefore(turns, n - 1, k) + if Sends(turns, n - 1, k) then 1 else 0
  }

  lemma CountAppend(log: seq<Notice>, n: Notice, k: Key)
    ensures CountOf(log + [n], k) == CountOf(log, k) + if n.key == k then 1 else 0
  {
    assert (log + [n])[..|log|] == log;
  }

  lemma StepDelivers(st: State, t: Turn, k: Key)
    ensures CountOf(Step(st, t).delivered, k)
         == CountOf(st.delivered, k)
            + if Asks(t, k) && k !in st.marks && t.insert.Answered? && Lands(t.mail) then 1 else 0
  {
    hide KeyOf, DaysSaid;
    if t.lic.validUntil.Some? {
      CountAppend(st.delivered, Notice(KeyOf(t), DaysSaid(t)), k);
    }
  }

  /** Over all rounds an e-mail about a key arrives exactly as often as turns send it while the key is
      open. */
  lemma {:induction false} DeliveredExactly(turns: seq<Turn>, n: nat, k: Key)
    requires n <= |turns|
    ensures CountOf(Run(START, turns, n).delivered, k) == SendsBefore(turns, n, k)
  {
    hide Step, Asks, Settled;
    if n > 0 {
      DeliveredExactly(turns, n - 1, k);
      StepDelivers(Run(START, turns, n - 1), turns[n - 1], k);
      SettledForGood(turns, n - 1, k);
      SettledIffMarked(turns, n - 1, k);
    }
  }

  /** An e-mail that arrived although its call failed, and whose mark was then taken back. */
  ghost predicate SendsUnseen(turns: seq<Turn>, i: int, k: Key) {
    Sends(turns, i, k) && turns[i].mail == Lost(true) && Lands(turns[i].unmark)
  }

  /** A turn that leaves the mark without an e-mail: the insert's answer was lost, or e-mail and delete
      both failed. */
  ghost predicate MarksSilently(turns: seq<Turn>, i: int, k: Key) {
    Settles(turns, i, k) && (turns[i].insert.Lost? || turns[i].mail == Lost(false))
  }

  /** Every e-mail but the last one about a key arrived unseen; after an acknowledged one no other
      follows. */
  lemma SendsAfterUnseen(turns: seq<Turn>, i: int, j: int, k: Key)
    requires i < j && Sends(turns, i, k) && Sends(turns, j, k)
    ensures SendsUnseen(turns, i, k)
  {
    assert !LeavesMark(turns[i], k);
  }

  lemma {:induction false} SendsOnlyOnce(turns: seq<Turn>, n: nat, k: Key)
    requires n <= |turns| && forall i :: 0 <= i < n ==> !SendsUnseen(turns, i, k)
    ensures SendsBefore(turns, n, k) <= 1
    ensures SendsBefore(turns, n, k) == 1 <==> exists i :: 0 <= i < n && Sends(turns, i, k)
  {
    hide Sends, SendsUnseen;
    if n > 0 {
      SendsOnlyOnce(turns, n - 1, k);
      if Sends(turns, n - 1, k) && SendsBefore(turns, n - 1, k) == 1 {
        var i :| 0 <= i < n - 1 && Sends(turns, i, k);
        SendsAfterUnseen(turns, i, n - 1, k);
      }
    }
  }

  /** A key is e-mailed at most once when no e-mail arrived unseen; then it is e-mailed exactly when the
      turn that settles it did not do so silently. */
  lemma AtMostOnce(turns: seq<Turn>, k: Key)
    requires forall i :: 0 <= i < |turns| ==> !SendsUnseen(turns, i, k)
    ensures var count := CountOf(Run(START, turns, |turns|).delivered, k);
            && count <= 1
            && (count == 1 <==> exists i :: 0 <= i < |turns| && Settles(turns, i, k) && !MarksSilently(turns, i, k))
  {
    var n := |turns|;
    DeliveredExactly(turns, n, k);
    SendsOnlyOnce(turns, n, k);
    hide Sends, Settles, MarksSilently, SendsUnseen, CountOf;
    SendsOrSettles(turns, k);
    forall i | Settles(turns, i, k) ensures 0 <= i < n {
      SettlesInRange(turns, i, k);
    }
  }

  lemma SettlesInRange(turns: seq<Turn>, i: int, k: Key)
    requires Settles(turns, i, k)
    ensures 0 <= i < |turns|
  {
  }

  /** An e-mail that arrives unseen may be followed by another: the failing input of "at most once". */
  lemma UnseenRepeats(t: Turn, k: Key)
    requires Asks(t, k) && t.insert.Answered? && t.mail == Lost(true) && Lands(t.unmark)
    ensures CountOf(Run(START, [t, t], 2).delivered, k) == 2
  {
    hide KeyOf, DaysSaid;
    var turns := [t, t];
    assert !LeavesMark(t, k);
    assert turns[0] == t && turns[1] == t;
    assert Sends(turns, 0, k) && Sends(turns, 1, k);
    assert SendsBefore(turns, 1, k) == 1;
    DeliveredExactly(turns, 2, k);
  }

  /** The marks are exactly the keys e-mailed. */
  ghost predicate Faithful(st: State) {
    forall k :: k in st.marks <==> CountOf(st.delivered, k) > 0
  }

  lemma {:induction false} SomeSend(turns: seq<Turn>, n: nat, k: Key)
    ensures SendsBefore(turns, n, k) > 0 <==> exists i :: 0 <= i < n && Sends(turns, i, k)
  {
    hide Sends;
    if n > 0 {
      SomeSend(turns, n - 1, k);
    }
  }

  /** A key marked though nothing arrived, or e-mailed though no mark is left. */
  ghost predicate MarkedInVain(turns: seq<Turn>, k: Key) {
    (exists i :: MarksSilently(turns, i, k)) && !exists i :: SendsUnseen(turns, i, k)
  }

  ghost predicate SentInVain(turns: seq<Turn>, k: Key) {
    (exists i :: SendsUnseen(turns, i, k)) && Open(turns, |turns|, k)
  }

  /** The marks are exactly the keys e-mailed if and only if no key was marked silently without an
      earlier e-mail that arrived unseen, and none that arrived unseen is still open. */
  lemma MarksAreDeliveriesIff(turns: seq<Turn>)
    ensures Faithful(Run(START, turns, |turns|))
            <==> forall k :: !MarkedInVain(turns, k) && !SentInVain(turns, k)
  {
    hide Run, MarkedInVain, SentInVain, CountOf;
    var st := Run(START, turns, |turns|);
    forall k ensures (k in st.marks <==> CountOf(st.delivered, k) > 0)
                     <==> !MarkedInVain(turns, k) && !SentInVain(turns, k)
    {
      FaithfulAt(turns, k);
    }
  }

  lemma FaithfulAt(turns: seq<Turn>, k: Key)
    ensures var st := Run(START, turns, |turns|);
            (k in st.marks <==> CountOf(st.delivered, k) > 0) <==> !MarkedInVain(turns, k) && !SentInVain(turns, k)
  {
    hide Run, LeavesMark, CountOf;
    var n := |turns|;
    DeliveredExactly(turns, n, k);
    SomeSend(turns, n, k);
    SettledForGood(turns, n, k);
    SettledIffMarked(turns, n, k);
    SendsOrSettles(turns, k);
  }

  /** A turn that settles sends or is silent; a turn that sends settles or is unseen. */
  lemma SendsOrSettles(turns: seq<Turn>, k: Key)
    ensures forall i :: Settles(turns, i, k) ==> (Sends(turns, i, k) <==> !MarksSilently(turns, i, k))
    ensures forall i :: Sends(turns, i, k) ==> (Settles(turns, i, k) <==> !SendsUnseen(turns, i, k))
    ensures forall i, j :: MarksSilently(turns, i, k) && Sends(turns, j, k) ==> SendsUnseen(turns, j, k)
  {
    forall i, j | MarksSilently(turns, i, k) && Sends(turns, j, k) ensures SendsUnseen(turns, j, k) {
      assert j <= i;
    }
  }

  /** The failing input of an insert that takes effect without an answer: the key is marked, nobody was
      told, and no later round ever tells. */
  lemma LostInsertSilences(turns: seq<Turn>, k: Key)
    requires turns != [] && Asks(turns[0], k) && turns[0].insert == Lost(true)
    ensures k in Run(START, turns, |turns|).marks && CountOf(Run(START, turns, |turns|).delivered, k) == 0
  {
    hide Run;
    var n := |turns|;
    assert LeavesMark(turns[0], k);
    assert Settles(turns, 0, k);
    SettledForGood(turns, n, k);
    DeliveredExactly(turns, n, k);
    SomeSend(turns, n, k);
  }

  // ----- the rounds that follow ----------------------------------------------------------------

  /** A turn in which everything works. */
  predicate Works(t: Turn) {
    t.lic.validUntil.Some? && !t.blocked && t.insert.Answered? && t.mail.Answered?
  }

  /** What is still open is told by the next turn that works. */
  lemma OpenIsTold(turns: seq<Turn>, next: Turn)
    requires Works(next) && Open(turns, |turns|, KeyOf(next))
    ensures Step(Run(START, turns, |turns|), next).delivered
         == Run(START, turns, |turns|).delivered + [Notice(KeyOf(next), DaysSaid(next))]
  {
    hide Run, DaysSaid, LeavesMark, KeyOf;
    SettledIffMarked(turns, |turns|, KeyOf(next));
    SettledForGood(turns, |turns|, KeyOf(next));
  }

  ghost predicate Chronological(turns: seq<Turn>) {
    forall i, j :: 0 <= i < j < |turns| ==> turns[i].expiredAt <= turns[j].expiredAt
  }

  /** Turn i failed to tell its notice and left it open, and no later turn is about the same client. */
  ghost predicate FailedLast(turns: seq<Turn>, i: int) {
    && 0 <= i < |turns| && turns[i].lic.validUntil.Some? && Open(turns, i + 1, KeyOf(turns[i]))
    && forall j :: i < j < |turns| ==> turns[j].lic.domain != turns[i].lic.domain
  }

  /** A failed e-mail is retried, whatever other clients the rounds visit in between: if the licence did
      not change, its next turn that works tells its notice, or, when the due date has passed in between,
      the notice that it lapsed. */
  lemma FailedIsRetried(turns: seq<Turn>, i: nat, next: Turn)
    requires FailedLast(turns, i) && Chronological(turns + [next]) && Works(next) && next.lic == turns[i].lic
    ensures var k := KeyOf(turns[i]);
            KeyOf(next) == if Judged(next) == k.kind then k else k.(kind := Vencida)
    ensures Step(Run(START, turns, |turns|), next).delivered
         == Run(START, turns, |turns|).delivered + [Notice(KeyOf(next), DaysSaid(next))]
  {
    hide Run, DaysSaid, LeavesMark, KeyOf, Judged, Works;
    var all := turns + [next];
    assert forall j :: 0 <= j < |turns| ==> all[j] == turns[j];
    assert all[|turns|] == next;
    KindTurns(turns[i], next);
    forall j | 0 <= j < |turns| ensures !LeavesMark(turns[j], KeyOf(next)) {
      if j > i {
        OfAnother(turns[j], next);
      } else if KeyOf(next) != KeyOf(turns[i]) {
        NotYetLapsed(turns[j], turns[i], next);
      }
    }
    OpenIsTold(turns, next);
  }

  lemma OfAnother(t: Turn, next: Turn)
    requires next.lic.validUntil.Some? && t.lic.domain != next.lic.domain
    ensures !LeavesMark(t, KeyOf(next))
  {
  }

  lemma KindTurns(last: Turn, next: Turn)
    requires last.lic == next.lic && last.lic.validUntil.Some? && last.expiredAt <= next.expiredAt
    ensures KeyOf(next) == if Judged(next) == KeyOf(last).kind then KeyOf(last) else KeyOf(last).(kind := Vencida)
  {
  }

  /** Before the due date passed, no turn spoke of a lapsed licence with that date. */
  lemma NotYetLapsed(t: Turn, last: Turn, next: Turn)
    requires last.lic == next.lic && last.lic.validUntil.Some? && last.expiredAt <= next.expiredAt
    requires KeyOf(next) != KeyOf(last) && t.expiredAt <= last.expiredAt
    ensures !LeavesMark(t, KeyOf(next))
  {
  }

  /** When a payment moves the due date, the notices of the new date are open again. */
  lemma RenewalReopens(turns: seq<Turn>, t: Turn)
    requires Works(t)
    requires forall i :: 0 <= i < |turns| && turns[i].lic.domain == t.lic.domain ==>
               turns[i].lic.validUntil != t.lic.validUntil
    ensures Step(Run(START, turns, |turns|), t).delivered
            == Run(START, turns, |turns|).delivered + [Notice(KeyOf(t), DaysSaid(t))]
  {
    hide Run, DaysSaid;
    assert Open(turns, |turns|, KeyOf(t));
    OpenIsTold(turns, t);
  }

  // ----- the job -----------------------------------------------------------------------------

  class Notifier {
    /** license_notifications, and the e-mails that arrived. */
    var marks: set<Key>
    var delivered: seq<Notice>

    constructor ()
      ensures Now() == START
    {
      marks, delivered := {}, [];
    }

    function Now(): State
      reads this
    {
      State(marks, delivered)
    }

    /** INSERT ... ON CONFLICT DO NOTHING: None is an error, with or without effect. */
    method MarkNotificationSent(k: Key, insert: Reply) returns (isNew: Option<bool>)
      modifies this`marks
      ensures isNew == if insert.Answered? then Some(k !in old(marks)) else None
      ensures marks == if Lands(insert) then old(marks) + {k} else old(marks)
    {
      var was := k in marks;
      if Lands(insert) {
        marks := marks + {k};
      }
      return if insert.Answered? then Some(!was) else None;
    }

    /** One round; None is a query that failed. */
    method VerificarVencimentos(listed: Option<seq<Turn>>) returns (vencendo: nat, vencidas: nat)
      modifies this
      ensures listed.None? ==> Now() == old(Now()) && vencendo == vencidas == 0
      ensures listed.Some? ==> Now() == Run(old(Now()), listed.value, |listed.value|)
      ensures vencendo + vencidas >= |delivered| - |old(delivered)|
    {
      vencendo, vencidas := 0, 0;
      if listed.None? {
        return;
      }
      var turns := listed.value;
      ghost var was := Now();
      var i := 0;
      while i < |turns|
        invariant 0 <= i <= |turns|
        invariant Now() == Run(was, turns, i)
        invariant vencendo + vencidas >= |delivered| - |old(delivered)|
      {
        var t := turns[i];
        i := i + 1;
        if t.lic.validUntil.None? || t.blocked {
          continue;
        }
        var dias := DaysUntilExpiry(t.lic.validUntil.value, t.daysAt);
        var tipo := Vencendo;
        if Expired(t.lic.validUntil.value, t.expiredAt) {
          tipo := Vencida;
        }
        var key := Key(t.lic.domain, tipo, t.lic.validUntil.value);
        ghost var before := marks;
        var novo := MarkNotificationSent(key, t.insert);
        if novo.None? || !novo.value {
          assert key in before ==> marks == before;
          continue;
        }
        if Lands(t.mail) {
          delivered := delivered + [Notice(key, if tipo == Vencida then -dias else dias)];
        }
        if t.mail.Lost? && Lands(t.unmark) {
          marks := marks - {key};
        }
        if tipo == Vencida {
          vencidas := vencidas + 1;
        } else {
          vencendo := vencendo + 1;
        }
      }
    }
  }
}
