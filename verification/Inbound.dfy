/** A WhatsApp event on its way to Bitrix: content filter, deduplication and the two delivery routes. */
module Inbound {
  import opened Text
  import opened Dedup
  import opened Remote

  const INBOUND_TTL := 300 * 1_000_000_000
  const LARGE_MEDIA := 30 * 1024 * 1024

  /** An event once its text and media are extracted, with the answers the outside world will give:
      the dedup command, the four calls of the public-link route, and the queue. */
  datatype Event = Event(sessionJid: string, id: string, text: string, mediaSize: nat, mediaName: string,
                         now: int, reply: Reply,
                         accountFound: bool, portalBlocked: bool, mediaStored: bool, post: Reply, push: Reply)

  datatype Outcome = Empty | AlreadyHandled | Refused | ByLink | ByQueue | QueueFailed

  predicate HasContent(e: Event) {
    !AllSpace(e.text) || e.mediaSize > 0
  }

  function Key(e: Event): string {
    "waInbound:" + e.sessionJid + ":" + e.id
  }

  /** Whether dedup lets the event through, given the mark of its key. */
  predicate Passes(mark: Mark, e: Event) {
    HasContent(e) && (e.id == "" || !Judge(mark, e.now, e.reply).Duplicate?)
  }

  /** Media too large for the queue's own upload. */
  predicate IsLarge(e: Event) {
    e.mediaSize > LARGE_MEDIA && e.mediaName != ""
  }

  /** A blocked portal gets nothing, and the code takes that for delivered. */
  predicate IsRefused(e: Event) {
    IsLarge(e) && e.accountFound && e.portalBlocked
  }

  predicate IsPosted(e: Event) {
    IsLarge(e) && e.accountFound && !e.portalBlocked && e.mediaStored
  }

  /** The route an event that passed ends on. */
  function Route(e: Event): Outcome {
    if IsRefused(e) then Refused
    else if IsPosted(e) && e.post.Answered? then ByLink
    else if e.push.Answered? then ByQueue
    else QueueFailed
  }

  /** What of the event reaches Bitrix by link, and what by queue, once it passed. */
  predicate LandsByLink(e: Event) {
    IsPosted(e) && Lands(e.post)
  }

  predicate LandsByQueue(e: Event) {
    !IsRefused(e) && !(IsPosted(e) && e.post.Answered?) && Lands(e.push)
  }

  method HasText(text: string) returns (b: bool)
    ensures b == !AllSpace(text)
  {
    TrimSpaceBlank(text);
    b := TrimSpace(text) != "";
  }

  class Handler {
    const store: Marks
    var linked: seq<(string, string)>
    var queued: seq<(string, string)>

    constructor (store: Marks)
      ensures this.store == store && linked == [] && queued == []
    {
      this.store := store;
      linked := [];
      queued := [];
    }

    /** Hosting the file and posting a link to it. `ok` means the event needs nothing more. */
    method DeliverViaPublicLink(e: Event) returns (ok: bool, failed: bool)
      modifies this`linked
      ensures ok <==> e.mediaSize > 0 && e.mediaName != "" && e.accountFound
                      && (e.portalBlocked || (e.mediaStored && e.post.Answered?))
      ensures var posted := e.mediaSize > 0 && e.mediaName != "" && e.accountFound && !e.portalBlocked && e.mediaStored;
              linked == if posted && Lands(e.post) then old(linked) + [(e.sessionJid, e.id)] else old(linked)
      ensures failed ==> !ok
    {
      if e.mediaSize == 0 || e.mediaName == "" {
        return false, false;
      }
      if !e.accountFound {
        return false, true;
      }
      if e.portalBlocked {
        return true, false;
      }
      if !e.mediaStored {
        return false, true;
      }
      if Lands(e.post) {
        linked := linked + [(e.sessionJid, e.id)];
      }
      if e.post.Lost? {
        return false, true;
      }
      return true, false;
    }

    /** The handler: content filter, deduplication, the link for large media, the queue for the rest
        and for a link that failed. */
    method OnMessage(e: Event) returns (outcome: Outcome)
      modifies this, store
      ensures var mark := MarkOf(old(store.marks), Key(e));
              outcome == (if !HasContent(e) then Empty else if !Passes(mark, e) then AlreadyHandled else Route(e))
      ensures HasContent(e) && e.id != "" ==>
                && MarkOf(store.marks, Key(e))
                   == AfterReply(MarkOf(old(store.marks), Key(e)), e.now, INBOUND_TTL, e.reply)
                && (forall other :: other != Key(e) ==> MarkOf(store.marks, other) == MarkOf(old(store.marks), other))
      ensures !HasContent(e) || e.id == "" ==> store.marks == old(store.marks)
      ensures outcome == Empty <==> (forall k :: 0 <= k < |e.text| ==> IsSpace(e.text[k])) && e.mediaSize == 0
      ensures outcome == Empty ==> linked == old(linked) && queued == old(queued)
      ensures outcome != Empty ==>
                var key := "waInbound:" + e.sessionJid + ":" + e.id;
                (outcome == AlreadyHandled <==>
                   e.id != "" && e.reply.Answered? && key in old(store.marks) && e.now < old(store.marks[key]))
      ensures outcome == AlreadyHandled ==> linked == old(linked) && queued == old(queued)
      ensures outcome != Empty && outcome != AlreadyHandled ==>
                var hosts := e.mediaSize > 31_457_280 && e.mediaName != "" && e.accountFound;
                var me := [(e.sessionJid, e.id)];
                if hosts && e.portalBlocked then outcome == Refused && linked == old(linked) && queued == old(queued)
                else if hosts && e.mediaStored && e.post.Answered? then
                  outcome == ByLink && linked == old(linked) + me && queued == old(queued)
                else
                  && outcome == (if e.push.Answered? then ByQueue else QueueFailed)
                  && linked == old(linked) + (if hosts && e.mediaStored && e.post == Lost(true) then me else [])
                  && queued == old(queued) + (if e.push != Lost(false) then me else [])
      ensures linked == if TakenUp(outcome) && LandsByLink(e) then old(linked) + [(e.sessionJid, e.id)] else old(linked)
      ensures queued == if TakenUp(outcome) && LandsByQueue(e) then old(queued) + [(e.sessionJid, e.id)]
                        else old(queued)
    {
      var hasText := HasText(e.text);
      if !hasText && e.mediaSize == 0 {
        return Empty;
      }
      if e.id != "" {
        var verdict := store.MarkProcessed(Key(e), e.now, INBOUND_TTL, e.reply);
        if verdict.Duplicate? {
          return AlreadyHandled;
        }
      }
      if e.mediaSize > LARGE_MEDIA && e.mediaName != "" {
        var ok, failed := DeliverViaPublicLink(e);
        if ok {
          return if e.portalBlocked then Refused else ByLink;
        }
      }
      if Lands(e.push) {
        queued := queued + [(e.sessionJid, e.id)];
      }
      return if e.push.Answered? then ByQueue else QueueFailed;
    }
  }

  /** The event passed both filters. */
  predicate TakenUp(o: Outcome) {
    !o.Empty? && !o.AlreadyHandled?
  }

  // ----- runs of events of one message -----------------------------------------------------------

  /** The attempts on the dedup key that the first `n` events of a run make: only the events with
      content make one. */
  function Attempts(events: seq<Event>, n: nat): (run: seq<Attempt>)
    requires n <= |events|
    ensures |run| <= n
  {
    if n == 0 then []
    else
      var last := events[n - 1];
      Attempts(events, n - 1) + if HasContent(last) then [Attempt(last.now, last.reply)] else []
  }

  ghost predicate SameMessage(events: seq<Event>) {
    && (forall i, j :: 0 <= i < j < |events| ==> events[i].now <= events[j].now)
    && (forall i, j :: 0 <= i < |events| && 0 <= j < |events| ==> Key(events[i]) == Key(events[j]))
    && (forall i :: 0 <= i < |events| ==> events[i].id != "")
  }

  /** The outcome of event `k` in a run that starts without a mark. */
  function OutcomeAt(events: seq<Event>, k: nat): Outcome
    requires k < |events|
  {
    var mark := MarkAfter(Attempts(events, k), INBOUND_TTL);
    if !HasContent(events[k]) then Empty else if !Passes(mark, events[k]) then AlreadyHandled else Route(events[k])
  }

  /** The events of a run that reach Bitrix by link, and by queue. */
  function LinkedIn(events: seq<Event>, n: nat): seq<(string, string)>
    requires n <= |events|
  {
    if n == 0 then []
    else
      var e := events[n - 1];
      LinkedIn(events, n - 1)
      + if TakenUp(OutcomeAt(events, n - 1)) && LandsByLink(e) then [(e.sessionJid, e.id)] else []
  }

  function QueuedIn(events: seq<Event>, n: nat): seq<(string, string)>
    requires n <= |events|
  {
    if n == 0 then []
    else
      var e := events[n - 1];
      QueuedIn(events, n - 1)
      + if TakenUp(OutcomeAt(events, n - 1)) && LandsByQueue(e) then [(e.sessionJid, e.id)] else []
  }

  /** Running the handler over the events gives these outcomes, and delivers exactly these events. */
  method HandleAll(handler: Handler, events: seq<Event>) returns (outcomes: seq<Outcome>)
    requires SameMessage(events)
    requires events != [] ==> MarkOf(handler.store.marks, Key(events[0])) == None
    modifies handler, handler.store
    ensures |outcomes| == |events| && forall k :: 0 <= k < |events| ==> outcomes[k] == OutcomeAt(events, k)
    ensures handler.linked == old(handler.linked) + LinkedIn(events, |events|)
    ensures handler.queued == old(handler.queued) + QueuedIn(events, |events|)
    ensures |handler.linked| + |handler.queued|
         == |old(handler.linked)| + |old(handler.queued)| + Copies(events, |events|)
  {
    hide HasContent, Passes, Route, LandsByLink, LandsByQueue, Key, AfterReply, MarkOf, Copies, Attempts;
    outcomes := [];
    for n := 0 to |events|
      invariant |outcomes| == n && forall k :: 0 <= k < n ==> outcomes[k] == OutcomeAt(events, k)
      invariant events != [] ==>
                  MarkOf(handler.store.marks, Key(events[0])) == MarkAfter(Attempts(events, n), INBOUND_TTL)
      invariant handler.linked == old(handler.linked) + LinkedIn(events, n)
      invariant handler.queued == old(handler.queued) + QueuedIn(events, n)
    {
      assert Key(events[n]) == Key(events[0]);
      AttemptsStep(events, n);
      var outcome := handler.OnMessage(events[n]);
      outcomes := outcomes + [outcome];
    }
    CopiesCounted(events, |events|);
  }

  lemma {:induction false} CopiesCounted(events: seq<Event>, n: nat)
    requires n <= |events|
    ensures |LinkedIn(events, n)| + |QueuedIn(events, n)| == Copies(events, n)
  {
    hide OutcomeAt;
    if n > 0 {
      CopiesCounted(events, n - 1);
    }
  }

  lemma AttemptsStep(events: seq<Event>, n: nat)
    requires n < |events|
    ensures MarkAfter(Attempts(events, n + 1), INBOUND_TTL)
         == if HasContent(events[n])
            then AfterReply(MarkAfter(Attempts(events, n), INBOUND_TTL), events[n].now, INBOUND_TTL, events[n].reply)
            else MarkAfter(Attempts(events, n), INBOUND_TTL)
  {
    var before, last := Attempts(events, n), Attempt(events[n].now, events[n].reply);
    assert (before + [last])[..|before|] == before && before + [] == before;
  }

  /** Where the attempt of an event stands among the attempts of the run. */
  lemma {:induction false} AttemptPosition(events: seq<Event>, n: nat, k: nat)
    requires k < n <= |events| && HasContent(events[k])
    ensures var p, run := |Attempts(events, k)|, Attempts(events, n);
            p < |run| && run[p] == Attempt(events[k].now, events[k].reply) && run[..p] == Attempts(events, k)
  {
    if k < n - 1 {
      AttemptPosition(events, n - 1, k);
    }
  }

  lemma {:induction false} AttemptEvent(events: seq<Event>, n: nat, p: nat) returns (k: nat)
    requires n <= |events| && p < |Attempts(events, n)|
    ensures k < n && HasContent(events[k]) && p == |Attempts(events, k)|
  {
    if p < |Attempts(events, n - 1)| {
      k := AttemptEvent(events, n - 1, p);
    } else {
      k := n - 1;
    }
  }

  lemma {:induction false} AttemptsTimely(events: seq<Event>, n: nat)
    requires SameMessage(events) && n <= |events|
    ensures Timely(Attempts(events, n))
    ensures forall p :: 0 <= p < |Attempts(events, n)| ==> Attempts(events, n)[p].now <= events[n - 1].now
  {
    if n > 0 {
      AttemptsTimely(events, n - 1);
    }
  }

  lemma {:induction false} AttemptsGrow(events: seq<Event>, j: nat, i: nat)
    requires j <= i <= |events|
    ensures |Attempts(events, j)| <= |Attempts(events, i)|
  {
    if j < i {
      AttemptsGrow(events, j, i - 1);
    }
  }

  /** What is set aside was preceded, less than five minutes before, by an event with content that
      passed and left the mark. */
  lemma SetAsideAfterAnother(events: seq<Event>, j: nat)
    requires SameMessage(events) && j < |events| && OutcomeAt(events, j).AlreadyHandled?
    ensures exists i :: Precedes(events, i, j)
  {
    var n := |events|;
    var run, p := Attempts(events, n), |Attempts(events, j)|;
    AttemptsTimely(events, n);
    AttemptPosition(events, n, j);
    DuplicateHasOriginal(run, p, INBOUND_TTL);
    var q :| 0 <= q < p && Handled(run, q, INBOUND_TTL) && run[q].now <= run[p].now < run[q].now + INBOUND_TTL;
    var i := AttemptEvent(events, n, q);
    AttemptPosition(events, n, i);
    if i >= j {
      AttemptsGrow(events, j, i);
    }
    assert Precedes(events, i, j);
  }

  ghost predicate Precedes(events: seq<Event>, i: int, j: int) {
    0 <= i < j < |events| && TakenUp(OutcomeAt(events, i))
    && events[i].now <= events[j].now < events[i].now + INBOUND_TTL
  }

  /** With Redis answering, two events of one message that pass are at least five minutes apart. */
  lemma OnePassPerWindow(events: seq<Event>, i: nat, j: nat)
    requires SameMessage(events) && i < j < |events|
    requires events[i].reply.Answered? && events[j].reply.Answered?
    requires TakenUp(OutcomeAt(events, i)) && TakenUp(OutcomeAt(events, j))
    ensures events[j].now >= events[i].now + 300_000_000_000
  {
    var n := |events|;
    AttemptsTimely(events, n);
    AttemptPosition(events, n, i);
    AttemptPosition(events, n, j);
    AttemptPosition(events, j, i);
    FirstsAreApart(Attempts(events, n), |Attempts(events, i)|, |Attempts(events, j)|, INBOUND_TTL);
  }

  // ----- what reaches Bitrix -----------------------------------------------------------------------

  function Bit(b: bool): nat {
    if b then 1 else 0
  }

  /** How often event k of a run reaches Bitrix. */
  function CopiesAt(events: seq<Event>, k: nat): nat
    requires k < |events|
  {
    if TakenUp(OutcomeAt(events, k)) then Bit(LandsByLink(events[k])) + Bit(LandsByQueue(events[k])) else 0
  }

  function Copies(events: seq<Event>, n: nat): nat
    requires n <= |events|
  {
    if n == 0 then 0 else Copies(events, n - 1) + CopiesAt(events, n - 1)
  }

  ghost predicate Answering(events: seq<Event>) {
    forall k :: 0 <= k < |events| ==> events[k].reply.Answered?
  }

  /** The event reaches Bitrix not at all: its portal is blocked, or neither call delivers. */
  predicate ReachesNothing(e: Event) {
    IsRefused(e) || (!(IsPosted(e) && Lands(e.post)) && e.push == Lost(false))
  }

  /** The event reaches Bitrix twice: its link was posted but the answer was lost, and the queue took
      it as well. */
  predicate ReachesTwice(e: Event) {
    IsPosted(e) && e.post == Lost(true) && Lands(e.push)
  }

  /** An event that passed keeps every other within five minutes from passing. */
  lemma OthersSetAside(events: seq<Event>, i: nat, k: nat)
    requires SameMessage(events) && Answering(events) && i < k < |events| && TakenUp(OutcomeAt(events, i))
    requires events[k].now < events[i].now + INBOUND_TTL
    ensures CopiesAt(events, k) == 0
  {
    if TakenUp(OutcomeAt(events, k)) {
      OnePassPerWindow(events, i, k);
    }
  }

  /** Nothing of the events from i to j reaches Bitrix. */
  ghost predicate NothingArrives(events: seq<Event>, i: int, j: int) {
    forall k :: 0 <= i <= k <= j < |events| ==> CopiesAt(events, k) == 0
  }

  /** Content is set aside for good exactly when no event taken up since the one that left the mark
      reached Bitrix: the mark is set before anything is delivered and stays when delivery fails. With
      Redis answering, the event that left the mark is the only one taken up. */
  lemma ContentLostIff(events: seq<Event>, j: nat)
    requires SameMessage(events) && j < |events| && OutcomeAt(events, j).AlreadyHandled?
    ensures exists i :: Precedes(events, i, j)
                     && (NothingArrives(events, i, j) <==>
                         forall k :: i <= k <= j && TakenUp(OutcomeAt(events, k)) ==> ReachesNothing(events[k]))
                     && (Answering(events) ==> (NothingArrives(events, i, j) <==> ReachesNothing(events[i])))
  {
    hide OutcomeAt, CopiesAt, ReachesNothing;
    SetAsideAfterAnother(events, j);
    var i :| Precedes(events, i, j);
    forall k | i <= k <= j
      ensures CopiesAt(events, k) == 0 <==> (TakenUp(OutcomeAt(events, k)) ==> ReachesNothing(events[k]))
    {
      CopiesOf(events, k);
    }
    if Answering(events) {
      forall k | i < k <= j ensures CopiesAt(events, k) == 0 {
        OthersSetAside(events, i, k);
      }
    }
  }

  lemma CopiesOf(events: seq<Event>, k: nat)
    requires k < |events|
    ensures CopiesAt(events, k) == 0 <==> (TakenUp(OutcomeAt(events, k)) ==> ReachesNothing(events[k]))
  {
    hide OutcomeAt;
  }

  lemma CopiesOfPassed(events: seq<Event>, i: nat)
    requires i < |events| && TakenUp(OutcomeAt(events, i))
    ensures CopiesAt(events, i) == 0 <==> ReachesNothing(events[i])
    ensures CopiesAt(events, i) == 2 <==> ReachesTwice(events[i])
  {
    hide OutcomeAt;
  }

  /** A message whose only push fails: the retry inside five minutes is set aside and nothing is ever
      delivered. */
  lemma FailedPushThenSetAside(a: Event, b: Event)
    requires Key(a) == Key(b) && a.id != "" && b.id != "" && HasContent(a) && HasContent(b)
    requires a.reply.Answered? && b.reply.Answered? && a.now <= b.now < a.now + INBOUND_TTL
    requires a.mediaSize == 0 && a.push == Lost(false)
    ensures OutcomeAt([a, b], 0) == QueueFailed && OutcomeAt([a, b], 1) == AlreadyHandled
    ensures Copies([a, b], 2) == 0
  {
    AttemptsStep([a, b], 0);
    assert CopiesAt([a, b], 0) == 0;
    assert CopiesAt([a, b], 1) == 0;
    assert Copies([a, b], 1) == 0;
  }

  ghost predicate IsFirst(events: seq<Event>, i: int) {
    0 <= i < |events| && HasContent(events[i]) && forall k :: 0 <= k < i ==> !HasContent(events[k])
  }

  lemma {:induction false} NothingBeforeContent(events: seq<Event>, n: nat)
    requires n <= |events| && forall k :: 0 <= k < n ==> !HasContent(events[k])
    ensures Copies(events, n) == 0 && Attempts(events, n) == []
  {
    if n > 0 {
      NothingBeforeContent(events, n - 1);
    }
  }

  lemma {:induction false} NothingAfterFirst(events: seq<Event>, i: nat, n: nat)
    requires SameMessage(events) && Answering(events) && IsFirst(events, i) && i < n <= |events|
    requires events[|events| - 1].now < events[i].now + INBOUND_TTL
    ensures TakenUp(OutcomeAt(events, i)) && Copies(events, n) == CopiesAt(events, i)
  {
    if n == i + 1 {
      NothingBeforeContent(events, i);
    } else {
      NothingAfterFirst(events, i, n - 1);
      OthersSetAside(events, i, n - 1);
    }
  }

  /** Within five minutes of the first event with content, and with Redis answering, the whole run
      delivers what that event delivers: nothing, once or twice, by the branch it takes. */
  lemma DeliversLikeFirst(events: seq<Event>, i: nat)
    requires SameMessage(events) && Answering(events) && IsFirst(events, i)
    requires events[|events| - 1].now < events[i].now + INBOUND_TTL
    ensures Copies(events, |events|) <= 2
    ensures Copies(events, |events|) == 0 <==> ReachesNothing(events[i])
    ensures Copies(events, |events|) == 2 <==> ReachesTwice(events[i])
  {
    hide OutcomeAt, ReachesNothing, ReachesTwice;
    NothingAfterFirst(events, i, |events|);
    CopiesOfPassed(events, i);
  }

  // ----- the key -----------------------------------------------------------------------------------

  /** Two events share a key exactly when they are of the same session and message, or one session id
      continues the other with a ':' and the message ids make up for it. */
  lemma KeysMeetIff(a: Event, b: Event)
    ensures Key(a) == Key(b) <==>
            (a.sessionJid == b.sessionJid && a.id == b.id)
            || (exists x: string :: a.sessionJid == b.sessionJid + ":" + x && b.id == x + ":" + a.id)
            || (exists x: string :: b.sessionJid == a.sessionJid + ":" + x && a.id == x + ":" + b.id)
  {
    var ka, kb := a.sessionJid + ":" + a.id, b.sessionJid + ":" + b.id;
    assert Key(a) == "waInbound:" + ka && Key(b) == "waInbound:" + kb;
    assert Key(a)[10..] == ka && Key(b)[10..] == kb;
    ColonPairsMeetIff(a.sessionJid, a.id, b.sessionJid, b.id);
  }
}
