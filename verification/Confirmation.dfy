/** "Delivered" in Bitrix: the rendezvous between the worker that sent a message and the receipts the
    customer's phone returns. Redis executes single commands atomically, so the interleaving is
    modelled command by command; a command may also fail, with or without having taken effect. */
module Confirmation {
  import opened Remote
  import opened Text

  // ----- the rendezvous for one message --------------------------------------------------------

  /** How far the worker is: before SET, before EXISTS, before GETDEL, done. */
  datatype Worker = Storing | Looking | Taking | Done

  /** `pending` and `mark` are the two Redis keys; `open` receipts have set the mark and not yet
      tried to take the entry; `receipts` and `confirms` count what happened so far. */
  datatype State = State(worker: Worker, pending: bool, mark: bool, open: nat, receipts: nat, confirms: nat)

  const START := State(Storing, false, false, 0, 0, 0)

  datatype Step =
    | Store
    | Look
    | Take
    | ReceiptMarks
    | ReceiptTakes
    | MarkExpires
    | PendingExpires
    | StoreFails(applied: bool)
    | LookFails
    | TakeFails(applied: bool)
    | ReceiptMarkFails(applied: bool)
    | ReceiptTakeFails(applied: bool)

  predicate Enabled(s: State, step: Step) {
    match step
    case Store => s.worker.Storing?
    case StoreFails(_) => s.worker.Storing?
    case Look => s.worker.Looking?
    case LookFails => s.worker.Looking?
    case Take => s.worker.Taking?
    case TakeFails(_) => s.worker.Taking?
    case ReceiptTakes => s.open > 0
    case ReceiptTakeFails(_) => s.open > 0
    case _ => true
  }

  /** Taking the entry: whoever gets it sends the confirmation. */
  function Taken(s: State): State {
    if s.pending then s.(pending := false, confirms := s.confirms + 1) else s
  }

  function Next(s: State, step: Step): State
    requires Enabled(s, step)
  {
    match step
    case Store => s.(worker := Looking, pending := true)
    case Look => s.(worker := if s.mark then Taking else Done)
    case Take => Taken(s).(worker := Done)
    case ReceiptMarks => s.(mark := true, open := s.open + 1, receipts := s.receipts + 1)
    case ReceiptTakes => Taken(s).(open := s.open - 1)
    case MarkExpires => s.(mark := false)
    case PendingExpires => s.(pending := false)
    case StoreFails(applied) => s.(worker := Done, pending := s.pending || applied, confirms := s.confirms + 1)
    case LookFails => s.(worker := Done, confirms := s.confirms + 1)
    case TakeFails(applied) => s.(worker := Done, pending := s.pending && !applied, confirms := s.confirms + 1)
    case ReceiptMarkFails(applied) => s.(mark := s.mark || applied, receipts := s.receipts + 1)
    case ReceiptTakeFails(applied) => s.(pending := s.pending && !applied, open := s.open - 1)
  }

  /** The state after a run from `s`; None when some step was not enabled. */
  function After(s: State, steps: seq<Step>): Option<State>
    decreases |steps|
  {
    if steps == [] then Some(s)
    else if !Enabled(s, steps[0]) then None
    else After(Next(s, steps[0]), steps[1..])
  }

  predicate NoFault(step: Step) {
    step.Store? || step.Look? || step.Take? || step.ReceiptMarks? || step.ReceiptTakes?
  }

  /** Nothing fails but what the predicate allows: keys that lapse, or commands of receipts. */
  ghost predicate OnlyExpires(steps: seq<Step>) {
    forall k :: 0 <= k < |steps| ==> NoFault(steps[k]) || steps[k].MarkExpires? || steps[k].PendingExpires?
  }

  ghost predicate OnlyReceiptsFail(steps: seq<Step>) {
    forall k :: 0 <= k < |steps| ==> NoFault(steps[k]) || steps[k].ReceiptMarkFails? || steps[k].ReceiptTakeFails?
  }

  function Bit(b: bool): nat {
    if b then 1 else 0
  }

  /** The right to confirm: not yet stored, stored, or used. */
  function Rights(s: State): nat {
    Bit(s.worker.Storing?) + Bit(s.pending) + s.confirms
  }

  /** What faultless steps keep: the one right, and a mark once a receipt came; an entry that waits
      beside the mark has a receipt on its way. */
  ghost predicate Exact(s: State) {
    && Rights(s) == 1 && Heard(s)
    && (s.receipts > 0 ==> s.mark)
    && (s.worker.Done? && s.pending && s.mark ==> s.open > 0)
  }

  ghost predicate Heard(s: State) {
    s.mark || s.open > 0 || s.worker.Taking? ==> s.receipts > 0
  }

  lemma {:induction false} RunsStayExact(s: State, steps: seq<Step>)
    requires Exact(s) && After(s, steps).Some?
    requires forall k :: 0 <= k < |steps| ==> NoFault(steps[k])
    ensures Exact(After(s, steps).value)
    decreases |steps|
  {
    if steps != [] {
      assert NoFault(steps[0]);
      RunsStayExact(Next(s, steps[0]), steps[1..]);
    }
  }

  // ----- who confirms, in any run ----------------------------------------------------------------

  /** The steps that take the entry away if it is there. */
  predicate Removes(step: Step) {
    Claims(step) || step == TakeFails(true) || step == ReceiptTakeFails(true) || step.PendingExpires?
  }

  /** Of those, the ones that get an answer, and confirm. */
  predicate Claims(step: Step) {
    step.Take? || step.ReceiptTakes?
  }

  predicate Stores(step: Step) {
    step.Store? || step == StoreFails(true)
  }

  predicate WorkerFails(step: Step) {
    step.StoreFails? || step.LookFails? || step.TakeFails?
  }

  function WorkerFailures(steps: seq<Step>): nat
    decreases |steps|
  {
    if steps == [] then 0 else Bit(WorkerFails(steps[0])) + WorkerFailures(steps[1..])
  }

  /** Step k is the first from there on to remove the entry, and gets it. */
  ghost predicate FirstClaim(steps: seq<Step>, from: int, k: int) {
    0 <= from <= k < |steps| && Claims(steps[k]) && forall j :: from <= j < k ==> !Removes(steps[j])
  }

  ghost predicate ClaimedFrom(steps: seq<Step>, from: int) {
    exists k :: FirstClaim(steps, from, k)
  }

  ghost predicate StoredThenClaimed(steps: seq<Step>) {
    exists p :: 0 <= p < |steps| && Stores(steps[p]) && ClaimedFrom(steps, p + 1)
  }

  lemma ClaimedFromTail(steps: seq<Step>, from: nat)
    requires steps != [] && from < |steps| && (from == 0 ==> !Removes(steps[0]))
    ensures ClaimedFrom(steps, from) <==> ClaimedFrom(steps[1..], if from > 0 then from - 1 else 0)
  {
    var tail, at := steps[1..], if from > 0 then from - 1 else 0;
    if k :| FirstClaim(steps, from, k) {
      assert FirstClaim(tail, at, k - 1);
    }
    if k :| FirstClaim(tail, at, k) {
      assert FirstClaim(steps, from, k + 1);
    }
  }

  lemma ClaimedAtOnce(steps: seq<Step>)
    requires steps != [] && Removes(steps[0])
    ensures ClaimedFrom(steps, 0) <==> Claims(steps[0])
  {
    if Claims(steps[0]) {
      assert FirstClaim(steps, 0, 0);
    }
  }

  lemma StoredThenClaimedTail(steps: seq<Step>)
    requires steps != []
    ensures !Stores(steps[0]) ==> (StoredThenClaimed(steps) <==> StoredThenClaimed(steps[1..]))
    ensures Stores(steps[0]) ==>
              (StoredThenClaimed(steps) <==> ClaimedFrom(steps[1..], 0) || StoredThenClaimed(steps[1..]))
  {
    var tail := steps[1..];
    forall p | 0 <= p < |steps| ensures ClaimedFrom(steps, p + 1) <==> ClaimedFrom(tail, p) {
      if p + 1 < |steps| {
        ClaimedFromTail(steps, p + 1);
      }
    }
    if p :| 0 <= p < |steps| && Stores(steps[p]) && ClaimedFrom(steps, p + 1) {
      assert p > 0 ==> Stores(tail[p - 1]) && ClaimedFrom(tail, p - 1 + 1);
    }
    if p :| 0 <= p < |tail| && Stores(tail[p]) && ClaimedFrom(tail, p + 1) {
      assert Stores(steps[p + 1]) && ClaimedFrom(steps, p + 1 + 1);
    }
  }

  /** Only the worker stores, and it does so once. */
  lemma {:induction false} StoresOnce(s: State, steps: seq<Step>)
    requires !s.worker.Storing? && After(s, steps).Some?
    ensures !StoredThenClaimed(steps)
    decreases |steps|
  {
    if steps != [] {
      StoresOnce(Next(s, steps[0]), steps[1..]);
      StoredThenClaimedTail(steps);
    }
  }

  /** From any state: each failed command of the worker confirms, and so does the first step to remove
      the entry - there now, or stored on the way - when it gets its answer. */
  lemma {:induction false} ConfirmedFrom(s: State, steps: seq<Step>)
    requires !(s.worker.Storing? && s.pending) && After(s, steps).Some?
    ensures After(s, steps).value.confirms
         == s.confirms + WorkerFailures(steps) + Bit((s.pending && ClaimedFrom(steps, 0)) || StoredThenClaimed(steps))
    decreases |steps|
  {
    if steps != [] {
      var t, tail := Next(s, steps[0]), steps[1..];
      ConfirmedFrom(t, tail);
      StoredThenClaimedTail(steps);
      if !s.worker.Storing? || !t.worker.Storing? {
        StoresOnce(t, tail);
      }
      if Removes(steps[0]) {
        ClaimedAtOnce(steps);
      } else {
        ClaimedFromTail(steps, 0);
      }
    }
  }

  /** In any run whatever, faults and expiry included: a message is confirmed once for each failed
      command of the worker, and once more exactly when the first step to remove the entry after it was
      stored is a GETDEL that got its answer. So a receipt stays without confirmation exactly when no
      command of the worker failed and the entry lapsed, or lost its answer, or waits. */
  lemma ConfirmedExactly(steps: seq<Step>)
    requires After(START, steps).Some?
    ensures After(START, steps).value.confirms == WorkerFailures(steps) + Bit(StoredThenClaimed(steps))
  {
    ConfirmedFrom(START, steps);
  }

  ghost predicate Untouched(steps: seq<Step>, from: int) {
    forall k :: 0 <= from <= k < |steps| ==> !Removes(steps[k])
  }

  /** Step p stores the entry and nothing removes it afterwards. */
  ghost predicate StoredUntouched(steps: seq<Step>, p: int) {
    0 <= p < |steps| && Stores(steps[p]) && Untouched(steps, p + 1)
  }

  lemma {:induction false} WaitsFrom(s: State, steps: seq<Step>)
    requires After(s, steps).Some?
    ensures After(s, steps).value.pending
            <==> (s.pending && Untouched(steps, 0)) || exists p :: StoredUntouched(steps, p)
    decreases |steps|
  {
    if steps != [] {
      var t, tail := Next(s, steps[0]), steps[1..];
      WaitsFrom(t, tail);
      forall p | 0 < p < |steps| ensures StoredUntouched(steps, p) <==> StoredUntouched(tail, p - 1) {
        UntouchedTail(steps, p + 1);
      }
      UntouchedTail(steps, 1);
      if p :| StoredUntouched(tail, p) {
        assert StoredUntouched(steps, p + 1);
      }
      if p :| StoredUntouched(steps, p) {
        assert p > 0 ==> StoredUntouched(tail, p - 1);
      }
      assert Stores(steps[0]) && Untouched(tail, 0) ==> StoredUntouched(steps, 0);
    }
  }

  lemma UntouchedTail(steps: seq<Step>, from: nat)
    requires steps != [] && from > 0
    ensures Untouched(steps, from) <==> Untouched(steps[1..], from - 1)
  {
    var tail := steps[1..];
    if Untouched(tail, from - 1) {
      assert forall k :: from <= k < |steps| ==> steps[k] == tail[k - 1];
    }
  }

  /** The entry waits at the end of a run exactly when it was stored and nothing removed it since. */
  lemma WaitsExactly(steps: seq<Step>)
    requires After(START, steps).Some?
    ensures After(START, steps).value.pending <==> exists p :: StoredUntouched(steps, p)
  {
    WaitsFrom(START, steps);
  }

  /** A worker fails at most once: it is done then. */
  lemma {:induction false} FailsOnce(s: State, steps: seq<Step>)
    requires After(s, steps).Some?
    ensures WorkerFailures(steps) <= Bit(!s.worker.Done?)
    decreases |steps|
  {
    if steps != [] {
      FailsOnce(Next(s, steps[0]), steps[1..]);
    }
  }

  /** Nobody claims an entry before a receipt came. */
  lemma {:induction false} ClaimedAfterReceipt(s: State, steps: seq<Step>)
    requires Heard(s) && After(s, steps).Some?
    ensures After(s, steps).value.receipts >= s.receipts
    ensures (exists k :: 0 <= k < |steps| && Claims(steps[k])) ==> After(s, steps).value.receipts > 0
    decreases |steps|
  {
    if steps != [] {
      ClaimedAfterReceipt(Next(s, steps[0]), steps[1..]);
      if k :| 0 <= k < |steps| && Claims(steps[k]) {
        assert k > 0 ==> Claims(steps[1..][k - 1]);
      }
    }
  }

  lemma {:induction false} NoFailures(steps: seq<Step>)
    requires forall k :: 0 <= k < |steps| ==> !WorkerFails(steps[k])
    ensures WorkerFailures(steps) == 0
    decreases |steps|
  {
    if steps != [] {
      NoFailures(steps[1..]);
    }
  }

  /** Unless a command of the worker fails, whatever fails or lapses besides: one confirmation exactly
      when the entry was claimed first, never more, and none before a receipt. */
  lemma AtMostOnce(steps: seq<Step>)
    requires After(START, steps).Some?
    requires forall k :: 0 <= k < |steps| ==> !WorkerFails(steps[k])
    ensures var s := After(START, steps).value;
            && s.confirms == Bit(StoredThenClaimed(steps))
            && (s.confirms == 1 ==> s.receipts > 0)
  {
    ConfirmedExactly(steps);
    NoFailures(steps);
    ClaimedAfterReceipt(START, steps);
    if StoredThenClaimed(steps) {
      var p :| 0 <= p < |steps| && Stores(steps[p]) && ClaimedFrom(steps, p + 1);
      var k :| FirstClaim(steps, p + 1, k);
      assert Claims(steps[k]);
    }
  }

  /** Without faults, in every interleaving with any number of receipts: never more than one
      confirmation, never one before a receipt, and when everybody is done exactly one if a receipt
      came and none otherwise. */
  lemma ExactlyOnce(steps: seq<Step>)
    requires After(START, steps).Some?
    requires forall k :: 0 <= k < |steps| ==> NoFault(steps[k])
    ensures var s := After(START, steps).value;
            && s.confirms <= 1
            && (s.confirms == 1 ==> s.receipts > 0)
            && (s.worker.Done? && s.open == 0 ==> s.confirms == Bit(s.receipts > 0))
  {
    assert forall k :: 0 <= k < |steps| ==> NoFault(steps[k]) && !WorkerFails(steps[k]);
    AtMostOnce(steps);
    RunsStayExact(START, steps);
  }

  /** In any run whatsoever a message is confirmed at most twice. */
  lemma NeverThrice(s: State, steps: seq<Step>)
    requires After(s, steps).Some?
    requires Rights(s) <= 1 || (s.worker.Done? && Rights(s) <= 2)
    ensures After(s, steps).value.confirms <= 2
  {
    ConfirmedFrom(s, steps);
    FailsOnce(s, steps);
    if !s.worker.Storing? {
      StoresOnce(s, steps);
    }
  }

  /** The mark may expire before the worker looks: both sides happened, nobody confirms. */
  lemma ExpiryCanLose()
    ensures exists steps :: OnlyExpires(steps) && After(START, steps) == Some(State(Done, true, false, 0, 1, 0))
  {
    var steps := [ReceiptMarks, ReceiptTakes, MarkExpires, Store, Look];
    Unfold(START, steps);
    Unfold(Next(START, ReceiptMarks), steps[1..]);
    Unfold(State(Storing, false, true, 0, 1, 0), steps[2..]);
    Unfold(State(Storing, false, false, 0, 1, 0), steps[3..]);
    Unfold(State(Looking, true, false, 0, 1, 0), steps[4..]);
  }

  lemma Unfold(s: State, steps: seq<Step>)
    requires steps != [] && Enabled(s, steps[0])
    ensures After(s, steps) == After(Next(s, steps[0]), steps[1..])
  {
  }

  // ----- faults --------------------------------------------------------------------------------

  /** Once the worker is done no entry is stored any more: from here the confirmations can still
      grow by one exactly when the entry is still there. */
  lemma {:induction false} AfterWorker(s: State, steps: seq<Step>)
    requires s.worker.Done? && After(s, steps).Some?
    ensures s.confirms <= After(s, steps).value.confirms <= s.confirms + Bit(s.pending)
    decreases |steps|
  {
    if steps != [] {
      AfterWorker(Next(s, steps[0]), steps[1..]);
    }
  }

  lemma OneMoreReceipt(s: State) returns (steps: seq<Step>)
    ensures After(s, steps).Some? && After(s, steps).value.confirms == s.confirms + Bit(s.pending)
  {
    steps := [ReceiptMarks, ReceiptTakes];
    Two(s, ReceiptMarks, ReceiptTakes);
  }

  lemma Two(s: State, a: Step, b: Step)
    requires Enabled(s, a) && Enabled(Next(s, a), b)
    ensures After(s, [a, b]) == Some(Next(Next(s, a), b))
  {
    Unfold(s, [a, b]);
    assert [a, b][1..] == [b];
    One(Next(s, a), b);
  }

  lemma One(s: State, a: Step)
    requires Enabled(s, a)
    ensures After(s, [a]) == Some(Next(s, a))
  {
    assert [a][1..] == [];
  }

  /** A message of a finished worker stays confirmed at most once, whatever comes, exactly when the
      rights still in circulation are at most one. */
  lemma NeverTwiceIff(s: State)
    requires s.worker.Done?
    ensures (forall steps :: After(s, steps).Some? ==> After(s, steps).value.confirms <= 1) <==> Rights(s) <= 1
  {
    if Rights(s) <= 1 {
      forall steps | After(s, steps).Some? ensures After(s, steps).value.confirms <= 1 {
        AfterWorker(s, steps);
      }
    } else {
      var steps := OneMoreReceipt(s);
      assert After(s, []) == Some(s);
    }
  }

  /** A command of the worker that fails makes it confirm at once. That is the only confirmation
      there will ever be exactly when the failed command left nothing behind: the SET did not reach
      Redis, or the GETDEL did and found the entry. A failed EXISTS always leaves the second one
      possible or already sent. */
  lemma WorkerFaults(s: State, step: Step)
    requires Exact(s) && Enabled(s, step)
    requires step.StoreFails? || step.LookFails? || step.TakeFails?
    ensures var t := Next(s, step);
            && t.worker.Done? && t.confirms == s.confirms + 1
            && ((forall steps :: After(t, steps).Some? ==> After(t, steps).value.confirms == 1) <==>
                (step == StoreFails(false) || (step == TakeFails(true) && s.pending)))
  {
    var t := Next(s, step);
    NeverTwiceIff(t);
    if Rights(t) == 1 && t.confirms == 1 {
      forall steps | After(t, steps).Some? ensures After(t, steps).value.confirms == 1 {
        AfterWorker(t, steps);
      }
    }
  }

  /** Steps without faults move the right to confirm but neither make nor destroy it. */
  lemma {:induction false} RightsKept(s: State, steps: seq<Step>)
    requires After(s, steps).Some? && forall k :: 0 <= k < |steps| ==> NoFault(steps[k])
    requires Rights(s) <= 1
    ensures Rights(After(s, steps).value) == Rights(s)
    decreases |steps|
  {
    if steps != [] {
      assert NoFault(steps[0]);
      RightsKept(Next(s, steps[0]), steps[1..]);
    }
  }

  /** From a state that holds the one right, some run without faults confirms. */
  lemma CanConfirm(s: State) returns (steps: seq<Step>)
    requires Rights(s) == 1
    ensures After(s, steps).Some? && After(s, steps).value.confirms == 1
    ensures forall k :: 0 <= k < |steps| ==> NoFault(steps[k])
  {
    if s.worker.Storing? {
      steps := [Store] + [ReceiptMarks, ReceiptTakes];
      Unfold(s, steps);
      assert steps[1..] == [ReceiptMarks, ReceiptTakes];
      assert forall k :: 0 <= k < |steps| ==> NoFault(steps[k]);
      Two(Next(s, Store), ReceiptMarks, ReceiptTakes);
    } else {
      steps := [ReceiptMarks, ReceiptTakes];
      assert forall k :: 0 <= k < |steps| ==> NoFault(steps[k]);
      Two(s, ReceiptMarks, ReceiptTakes);
    }
  }

  ghost predicate CanStillConfirm(s: State) {
    exists steps :: After(s, steps).Some? && After(s, steps).value.confirms > s.confirms
                    && forall k :: 0 <= k < |steps| ==> NoFault(steps[k])
  }

  /** A receipt whose commands fail sends nothing itself. Unless the confirmation was sent before, the
      steps that follow can still send it exactly when the failed command was not a GETDEL that
      removed the entry. */
  lemma ReceiptFaults(s: State, step: Step)
    requires Exact(s) && Enabled(s, step)
    requires step.ReceiptMarkFails? || step.ReceiptTakeFails?
    ensures Next(s, step).confirms == s.confirms
    ensures CanStillConfirm(Next(s, step)) <==> s.confirms == 0 && !(step == ReceiptTakeFails(true) && s.pending)
  {
    var t := Next(s, step);
    if s.confirms == 0 && !(step == ReceiptTakeFails(true) && s.pending) {
      var steps := CanConfirm(t);
    } else {
      forall steps | After(t, steps).Some? && forall k :: 0 <= k < |steps| ==> NoFault(steps[k])
        ensures After(t, steps).value.confirms <= t.confirms
      {
        RightsKept(t, steps);
      }
    }
  }

  /** A last receipt whose mark fails: a receipt came, everybody is done, the entry waits and nobody
      is left to confirm it. */
  lemma FailedReceiptWaits()
    ensures exists steps :: OnlyReceiptsFail(steps) && After(START, steps) == Some(State(Done, true, false, 0, 1, 0))
  {
    var steps := [Store, Look, ReceiptMarkFails(false)];
    Unfold(START, steps);
    assert steps[1..] == [Look, ReceiptMarkFails(false)];
    Two(State(Looking, true, false, 0, 0, 0), Look, ReceiptMarkFails(false));
  }

  // ----- the queue and the receipt handler -------------------------------------------------------

  datatype Pending = Pending(sessionJid: string, connector: string, line: int,
                             imChatId: string, imMsgId: string, chatExtId: string)

  datatype Answer = Failed | Got(entry: Option<Pending>)

  datatype ReceiptType = Delivered | Read | Played | Other

  /** The confirmations sent, with the two key families of Redis. */
  datatype Keys = Keys(pending: map<string, Pending>, marks: set<string>, confirmed: seq<(string, Pending)>)

  function Receive(st: Keys, id: string, mark: Reply, take: Reply): Keys {
    if mark.Lost? then st.(marks := if mark.applied then st.marks + {id} else st.marks)
    else
      var marked := st.(marks := st.marks + {id});
      if take.Lost? then (if take.applied then marked.(pending := st.pending - {id}) else marked)
      else if id in st.pending then
        marked.(pending := st.pending - {id}, confirmed := st.confirmed + [(id, st.pending[id])])
      else marked
  }

  function ReceiveAll(st: Keys, ids: seq<string>, faults: seq<(Reply, Reply)>): Keys
    requires |faults| == |ids|
  {
    if ids == [] then st
    else
      var n := |ids| - 1;
      Receive(ReceiveAll(st, ids[..n], faults[..n]), ids[n], faults[n].0, faults[n].1)
  }

  class Queue {
    var pending: map<string, Pending>
    var marks: set<string>
    var confirmed: seq<(string, Pending)>

    function View(): Keys
      reads this
    {
      Keys(pending, marks, confirmed)
    }

    method TakePending(id: string, take: Reply) returns (answer: Answer)
      modifies this`pending
      ensures take.Answered? ==> answer == Got(if id in old(pending) then Some(old(pending)[id]) else None)
      ensures take.Lost? ==> answer == Failed
      ensures pending == if take.Answered? || take.applied then old(pending) - {id} else old(pending)
    {
      if take.Lost? {
        if take.applied {
          pending := pending - {id};
        }
        return Failed;
      }
      answer := Got(if id in pending then Some(pending[id]) else None);
      pending := pending - {id};
    }

    method GuardarConfirmacao(id: string, entry: Pending, store: Reply, look: Reply, take: Reply)
      returns (answer: Answer)
      modifies this`pending
      ensures store.Lost? ==>
                answer == Failed && pending == if store.applied then old(pending)[id := entry] else old(pending)
      ensures store.Answered? && look.Lost? ==> answer == Failed && pending == old(pending)[id := entry]
      ensures store.Answered? && look.Answered? && id !in marks ==>
                answer == Got(None) && pending == old(pending)[id := entry]
      ensures store.Answered? && look.Answered? && id in marks && take.Answered? ==>
                answer == Got(Some(entry)) && pending == old(pending) - {id}
      ensures store.Answered? && look.Answered? && id in marks && take.Lost? ==>
                answer == Failed && pending == if take.applied then old(pending) - {id} else old(pending)[id := entry]
    {
      if store.Lost? {
        if store.applied {
          pending := pending[id := entry];
        }
        return Failed;
      }
      pending := pending[id := entry];
      if look.Lost? {
        return Failed;
      }
      if id !in marks {
        return Got(None);
      }
      answer := TakePending(id, take);
      assert old(pending)[id := entry] - {id} == old(pending) - {id};
    }

    method ReciboChegou(id: string, mark: Reply, take: Reply) returns (answer: Answer)
      modifies this`pending, this`marks
      ensures View().(confirmed := []) == Receive(old(View()), id, mark, take).(confirmed := [])
      ensures answer == if mark.Lost? || take.Lost? then Failed
                        else Got(if id in old(pending) then Some(old(pending)[id]) else None)
    {
      if mark.Lost? {
        if mark.applied {
          marks := marks + {id};
        }
        return Failed;
      }
      marks := marks + {id};
      answer := TakePending(id, take);
      assert id !in old(pending) ==> old(pending) - {id} == old(pending);
    }

    /** The handler of one receipt event. When its commands are answered every message listed is marked
        and taken, and those that waited are confirmed, each once and in order; faults or not, what it
        does to each single message is the run of that message's receipts. */
    method TratarRecibo(fromMe: bool, kind: ReceiptType, ids: seq<string>, faults: seq<(Reply, Reply)>)
      requires |faults| == |ids|
      modifies this
      ensures fromMe || kind.Other? ==> View() == old(View())
      ensures !fromMe && !kind.Other? && Answers(faults) ==>
                && marks == old(marks) + (set k | 0 <= k < |ids| :: ids[k])
                && pending == old(pending) - (set k | 0 <= k < |ids| :: ids[k])
                && old(confirmed) <= confirmed
                && exists at :: ConfirmsFirsts(confirmed[|old(confirmed)|..], old(pending), ids, at)
      ensures !fromMe && !kind.Other? ==>
                forall id, worker, open, receipts ::
                  After(Project(old(View()), id, worker, open, receipts), StepsFor(id, ids, faults))
                  == Some(Project(View(), id, worker, open, receipts + multiset(ids)[id]))
    {
      if fromMe {
        return;
      }
      match kind {
        case Delivered =>
        case Read =>
        case Played =>
        case Other => return;
      }
      ghost var start := View();
      for k := 0 to |ids|
        invariant View() == ReceiveAll(start, ids[..k], faults[..k])
      {
        assert ids[..k + 1][..k] == ids[..k] && faults[..k + 1][..k] == faults[..k];
        var answer := ReciboChegou(ids[k], faults[k].0, faults[k].1);
        if answer.Got? && answer.entry.Some? {
          confirmed := confirmed + [(ids[k], answer.entry.value)];
        }
      }
      assert ids[..|ids|] == ids && faults[..|ids|] == faults;
      if Answers(faults) {
        ghost var at := AllReceived(start, ids, faults);
      }
      forall id, worker, open, receipts
        ensures After(Project(start, id, worker, open, receipts), StepsFor(id, ids, faults))
             == Some(Project(View(), id, worker, open, receipts + multiset(ids)[id]))
      {
        ReceiveAllIsARun(start, ids, faults, id, worker, open, receipts);
      }
    }

    /** What the worker does once WhatsApp has accepted the message: at most this message is confirmed,
        with this entry, and at most its own entry changes. */
    method AguardarRecibo(id: string, entry: Pending, store: Reply, look: Reply, take: Reply)
      modifies this
      ensures marks == old(marks) && pending - {id} == old(pending) - {id}
      ensures confirmed == old(confirmed) || confirmed == old(confirmed) + [(id, entry)]
      ensures id in pending && (id !in old(pending) || pending[id] != old(pending)[id]) ==> pending[id] == entry
      ensures View() == if entry.connector == "" || entry.imMsgId == "" then old(View())
                        else Await(old(View()), id, entry, store, look, take)
    {
      if entry.connector == "" || entry.imMsgId == "" {
        return;
      }
      var answer := GuardarConfirmacao(id, entry, store, look, take);
      match answer {
        case Failed => confirmed := confirmed + [(id, entry)];
        case Got(found) =>
          if found.Some? {
            confirmed := confirmed + [(id, found.value)];
          }
      }
    }
  }

  /** The worker's side on the stored values: it confirms at once when a command failed, or when it
      found the receipt's mark and took its own entry back. */
  function Await(st: Keys, id: string, entry: Pending, store: Reply, look: Reply, take: Reply): Keys {
    var stored := st.pending[id := entry];
    var logged := st.confirmed + [(id, entry)];
    if store.Lost? then st.(pending := if store.applied then stored else st.pending, confirmed := logged)
    else if look.Lost? then st.(pending := stored, confirmed := logged)
    else if id !in st.marks then st.(pending := stored)
    else st.(pending := if take.Answered? || take.applied then st.pending - {id} else stored, confirmed := logged)
  }

  function CountFor(log: seq<(string, Pending)>, id: string): nat {
    if log == [] then 0 else CountFor(log[..|log| - 1], id) + Bit(log[|log| - 1].0 == id)
  }

  lemma CountAppend(log: seq<(string, Pending)>, entry: (string, Pending), id: string)
    ensures CountFor(log + [entry], id) == CountFor(log, id) + Bit(entry.0 == id)
  {
    assert (log + [entry])[..|log|] == log;
  }

  /** The store as one message sees it. */
  function Project(st: Keys, id: string, worker: Worker, open: nat, receipts: nat): State {
    State(worker, id in st.pending, id in st.marks, open, receipts, CountFor(st.confirmed, id))
  }

  /** A store that does not know the message is the start of its runs. */
  lemma {:induction false} UnknownIsStart(st: Keys, id: string)
    requires id !in st.pending && id !in st.marks && forall k :: 0 <= k < |st.confirmed| ==> st.confirmed[k].0 != id
    ensures Project(st, id, Storing, 0, 0) == START
    decreases |st.confirmed|
  {
    if st.confirmed != [] {
      var n := |st.confirmed| - 1;
      UnknownIsStart(st.(confirmed := st.confirmed[..n]), id);
    }
  }

  function WorkerSteps(mark: bool, store: Reply, look: Reply, take: Reply): seq<Step> {
    if store.Lost? then [StoreFails(store.applied)]
    else if look.Lost? then [Store, LookFails]
    else if !mark then [Store, Look]
    else if take.Lost? then [Store, Look, TakeFails(take.applied)]
    else [Store, Look, Take]
  }

  /** The queue's methods are runs of the rendezvous: the worker's side ... */
  lemma AwaitIsARun(st: Keys, id: string, entry: Pending, store: Reply, look: Reply, take: Reply,
                    open: nat, receipts: nat)
    ensures After(Project(st, id, Storing, open, receipts), WorkerSteps(id in st.marks, store, look, take))
         == Some(Project(Await(st, id, entry, store, look, take), id, Done, open, receipts))
  {
    var s, mark := Project(st, id, Storing, open, receipts), id in st.marks;
    CountAppend(st.confirmed, (id, entry), id);
    if store.Lost? {
      One(s, StoreFails(store.applied));
    } else if look.Lost? {
      Two(s, Store, LookFails);
    } else if !mark {
      Two(s, Store, Look);
    } else {
      var last := if take.Lost? then TakeFails(take.applied) else Take;
      Unfold(s, [Store, Look, last]);
      assert [Store, Look, last][1..] == [Look, last];
      Two(Next(s, Store), Look, last);
    }
  }

  function ReceiptSteps(mark: Reply, take: Reply): seq<Step> {
    if mark.Lost? then [ReceiptMarkFails(mark.applied)]
    else if take.Lost? then [ReceiptMarks, ReceiptTakeFails(take.applied)]
    else [ReceiptMarks, ReceiptTakes]
  }

  /** ... and the receipt's side. */
  lemma ReceiveIsARun(st: Keys, id: string, mark: Reply, take: Reply, worker: Worker, open: nat, receipts: nat)
    ensures After(Project(st, id, worker, open, receipts), ReceiptSteps(mark, take))
         == Some(Project(Receive(st, id, mark, take), id, worker, open, receipts + 1))
  {
    var s := Project(st, id, worker, open, receipts);
    ReceivedState(st, id, mark, take, worker, open, receipts);
    if mark.Lost? {
      One(s, ReceiptMarkFails(mark.applied));
    } else if take.Lost? {
      Two(s, ReceiptMarks, ReceiptTakeFails(take.applied));
    } else {
      Two(s, ReceiptMarks, ReceiptTakes);
    }
  }

  function Received(s: State, mark: Reply, take: Reply): State {
    if mark.Lost? then Next(s, ReceiptMarkFails(mark.applied))
    else Next(Next(s, ReceiptMarks), if take.Lost? then ReceiptTakeFails(take.applied) else ReceiptTakes)
  }

  lemma ReceivedState(st: Keys, id: string, mark: Reply, take: Reply, worker: Worker, open: nat, receipts: nat)
    ensures Project(Receive(st, id, mark, take), id, worker, open, receipts + 1)
         == Received(Project(st, id, worker, open, receipts), mark, take)
  {
    if id in st.pending {
      CountAppend(st.confirmed, (id, st.pending[id]), id);
    }
  }

  /** A receipt touches no other message. */
  lemma ReceiveTouchesOne(st: Keys, id: string, mark: Reply, take: Reply, other: string, worker: Worker,
                          open: nat, receipts: nat)
    requires other != id
    ensures Project(Receive(st, id, mark, take), other, worker, open, receipts)
         == Project(st, other, worker, open, receipts)
    ensures other in st.pending ==> Receive(st, id, mark, take).pending[other] == st.pending[other]
  {
    if id in st.pending {
      CountAppend(st.confirmed, (id, st.pending[id]), other);
    }
  }

  // ----- a receipt for many messages -----------------------------------------------------------

  predicate Answers(faults: seq<(Reply, Reply)>) {
    forall k :: 0 <= k < |faults| ==> faults[k].0.Answered? && faults[k].1.Answered?
  }

  /** Position k holds the first mention of a message that waits. */
  predicate FirstWaiting(pending: map<string, Pending>, ids: seq<string>, k: nat)
    requires k < |ids|
  {
    ids[k] in pending && ids[k] !in ids[..k]
  }

  /** The log holds one entry for each message of the list that waits, the one stored for it, in the order
      of the list; `at` tells where in the list. */
  ghost predicate ConfirmsFirsts(log: seq<(string, Pending)>, pending: map<string, Pending>, ids: seq<string>,
                                 at: seq<nat>) {
    && |at| == |log|
    && (forall n :: 0 <= n < |at| ==> at[n] < |ids| && FirstWaiting(pending, ids, at[n])
                                      && log[n] == (ids[at[n]], pending[ids[at[n]]]))
    && (forall n, m :: 0 <= n < m < |at| ==> at[n] < at[m])
    && (forall k: nat :: k < |ids| && FirstWaiting(pending, ids, k) ==> k in at)
  }

  function Listed(ids: seq<string>): set<string> {
    set k | 0 <= k < |ids| :: ids[k]
  }

  lemma ListedStep(ids: seq<string>)
    requires ids != []
    ensures Listed(ids) == Listed(ids[..|ids| - 1]) + {ids[|ids| - 1]}
    ensures forall id :: id in Listed(ids) <==> id in ids
  {
    var front := ids[..|ids| - 1];
    assert forall k :: 0 <= k < |front| ==> front[k] == ids[k];
  }

  lemma {:induction false} KeysReceived(st: Keys, ids: seq<string>, faults: seq<(Reply, Reply)>)
    requires |faults| == |ids| && Answers(faults)
    ensures ReceiveAll(st, ids, faults).marks == st.marks + Listed(ids)
    ensures ReceiveAll(st, ids, faults).pending == st.pending - Listed(ids)
  {
    if ids == [] {
      assert st.pending - Listed(ids) == st.pending;
    } else {
      hide Listed;
      var n := |ids| - 1;
      ListedStep(ids);
      KeysReceived(st, ids[..n], faults[..n]);
      assert st.pending - Listed(ids) == st.pending - Listed(ids[..n]) - {ids[n]};
    }
  }

  lemma {:induction false} AllReceived(st: Keys, ids: seq<string>, faults: seq<(Reply, Reply)>) returns (at: seq<nat>)
    requires |faults| == |ids| && Answers(faults)
    ensures var out := ReceiveAll(st, ids, faults);
            && out.marks == st.marks + Listed(ids) && out.pending == st.pending - Listed(ids)
            && st.confirmed <= out.confirmed
            && ConfirmsFirsts(out.confirmed[|st.confirmed|..], st.pending, ids, at)
  {
    at := [];
    KeysReceived(st, ids, faults);
    if ids != [] {
      hide ConfirmsFirsts, Listed;
      var n := |ids| - 1;
      var before := ReceiveAll(st, ids[..n], faults[..n]);
      at := AllReceived(st, ids[..n], faults[..n]);
      var log := before.confirmed[|st.confirmed|..];
      FirstsGrow(log, st.pending, ids, at);
      WaitsStill(st.pending, ids, n);
      if FirstWaiting(st.pending, ids, n) {
        at := at + [n];
        assert (before.confirmed + [(ids[n], st.pending[ids[n]])])[|st.confirmed|..]
            == log + [(ids[n], st.pending[ids[n]])];
      }
    }
  }

  lemma WaitsStill(pending: map<string, Pending>, ids: seq<string>, n: nat)
    requires n < |ids|
    ensures FirstWaiting(pending, ids, n) <==> ids[n] in pending - Listed(ids[..n])
  {
  }

  lemma FirstsGrow(log: seq<(string, Pending)>, pending: map<string, Pending>, ids: seq<string>, at: seq<nat>)
    requires ids != [] && ConfirmsFirsts(log, pending, ids[..|ids| - 1], at)
    ensures var n := |ids| - 1;
            if FirstWaiting(pending, ids, n) then
              ConfirmsFirsts(log + [(ids[n], pending[ids[n]])], pending, ids, at + [n])
            else ConfirmsFirsts(log, pending, ids, at)
  {
    var n := |ids| - 1;
    var front := ids[..n];
    forall k: nat | k < n ensures FirstWaiting(pending, ids, k) <==> FirstWaiting(pending, front, k) {
      assert front[..k] == ids[..k];
    }
  }

  /** The steps that the receipt makes for one message. */
  function StepsFor(id: string, ids: seq<string>, faults: seq<(Reply, Reply)>): seq<Step>
    requires |faults| == |ids|
  {
    if ids == [] then []
    else
      var n := |ids| - 1;
      StepsFor(id, ids[..n], faults[..n]) + if ids[n] == id then ReceiptSteps(faults[n].0, faults[n].1) else []
  }

  lemma {:induction false} AfterBoth(s: State, first: seq<Step>, second: seq<Step>)
    requires After(s, first).Some?
    ensures After(s, first + second) == After(After(s, first).value, second)
    decreases |first|
  {
    if first == [] {
      assert first + second == second;
    } else {
      assert (first + second)[1..] == first[1..] + second;
      AfterBoth(Next(s, first[0]), first[1..], second);
    }
  }

  /** The whole receipt, projected on one message, is the run of that message's receipts. */
  lemma {:induction false} ReceiveAllIsARun(st: Keys, ids: seq<string>, faults: seq<(Reply, Reply)>, id: string,
                                            worker: Worker, open: nat, receipts: nat)
    requires |faults| == |ids|
    ensures After(Project(st, id, worker, open, receipts), StepsFor(id, ids, faults))
         == Some(Project(ReceiveAll(st, ids, faults), id, worker, open, receipts + multiset(ids)[id]))
  {
    hide Project, After, Receive;
    if ids == [] {
      NoSteps(Project(st, id, worker, open, receipts));
    } else {
      var n := |ids| - 1;
      var before, front := ReceiveAll(st, ids[..n], faults[..n]), StepsFor(id, ids[..n], faults[..n]);
      var times := multiset(ids[..n])[id];
      assert ids == ids[..n] + [ids[n]];
      ReceiveAllIsARun(st, ids[..n], faults[..n], id, worker, open, receipts);
      if ids[n] == id {
        AfterBoth(Project(st, id, worker, open, receipts), front, ReceiptSteps(faults[n].0, faults[n].1));
        ReceiveIsARun(before, id, faults[n].0, faults[n].1, worker, open, receipts + times);
      } else {
        ReceiveTouchesOne(before, ids[n], faults[n].0, faults[n].1, id, worker, open, receipts + times);
        assert front + [] == front;
      }
    }
  }

  lemma NoSteps(s: State)
    ensures After(s, []) == Some(s)
  {
  }
}
