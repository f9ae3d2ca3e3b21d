/** `MarkProcessed`: Redis SETNX with a time limit, the mark that keeps a message from being handled
    twice. Times are nanoseconds of one monotone clock. */
module Dedup {
  import opened Remote
  import opened Text

  /** When the mark of a key lapses; None when it was never set. */
  type Mark = Option<int>

  predicate Live(mark: Mark, now: int) {
    mark.Some? && now < mark.value
  }

  function SetIfAbsent(mark: Mark, now: int, ttl: int): Mark {
    if Live(mark, now) then mark else Some(now + ttl)
  }

  function AfterReply(mark: Mark, now: int, ttl: int, reply: Reply): Mark {
    if reply == Lost(false) then mark else SetIfAbsent(mark, now, ttl)
  }

  function MarkOf(marks: map<string, int>, key: string): Mark {
    if key in marks then Some(marks[key]) else None
  }

  datatype Verdict = First | Duplicate | Unknown

  function Judge(mark: Mark, now: int, reply: Reply): Verdict {
    if reply.Lost? then Unknown else if Live(mark, now) then Duplicate else First
  }

  class Marks {
    var marks: map<string, int>

    method MarkProcessed(key: string, now: int, ttl: int, reply: Reply) returns (verdict: Verdict)
      modifies this
      ensures verdict == Judge(MarkOf(old(marks), key), now, reply)
      ensures MarkOf(marks, key) == AfterReply(MarkOf(old(marks), key), now, ttl, reply)
      ensures forall other :: other != key ==> MarkOf(marks, other) == MarkOf(old(marks), other)
    {
      var live := key in marks && now < marks[key];
      if reply != Lost(false) && !live {
        marks := marks[key := now + ttl];
      }
      if reply.Lost? {
        return Unknown;
      }
      return if live then Duplicate else First;
    }
  }

  // ----- many attempts on one key ----------------------------------------------------------------

  /** One attempt to mark the key. */
  datatype Attempt = Attempt(now: int, reply: Reply)

  ghost predicate Timely(run: seq<Attempt>) {
    forall i, j :: 0 <= i < j < |run| ==> run[i].now <= run[j].now
  }

  function MarkAfter(run: seq<Attempt>, ttl: int): Mark {
    if run == [] then None
    else
      var last := run[|run| - 1];
      AfterReply(MarkAfter(run[..|run| - 1], ttl), last.now, ttl, last.reply)
  }

  function VerdictAt(run: seq<Attempt>, k: nat, ttl: int): Verdict
    requires k < |run|
  {
    Judge(MarkAfter(run[..k], ttl), run[k].now, run[k].reply)
  }

  /** The attempts that go on to handle the message: the code does so unless told "duplicate". */
  predicate Handled(run: seq<Attempt>, k: nat, ttl: int)
    requires k < |run|
  {
    !VerdictAt(run, k, ttl).Duplicate?
  }

  lemma BeforeTheLast(run: seq<Attempt>, k: nat, ttl: int)
    requires k < |run| - 1
    ensures VerdictAt(run[..|run| - 1], k, ttl) == VerdictAt(run, k, ttl)
  {
    assert run[..|run| - 1][..k] == run[..k];
  }

  /** The mark was left by an attempt that handled the message. */
  lemma {:induction false} MarkOrigin(run: seq<Attempt>, ttl: int)
    requires Timely(run)
    ensures MarkAfter(run, ttl).Some? ==>
              exists k :: 0 <= k < |run| && Handled(run, k, ttl) && run[k].now + ttl == MarkAfter(run, ttl).value
  {
    hide VerdictAt;
    if run != [] && MarkAfter(run, ttl).Some? {
      var n := |run| - 1;
      var before := run[..n];
      if MarkAfter(run, ttl) == MarkAfter(before, ttl) {
        MarkOrigin(before, ttl);
        var k :| 0 <= k < n && Handled(before, k, ttl) && before[k].now + ttl == MarkAfter(run, ttl).value;
        BeforeTheLast(run, k, ttl);
      } else {
        SetsWhenHandled(run, ttl);
      }
    }
  }

  lemma SetsWhenHandled(run: seq<Attempt>, ttl: int)
    requires run != [] && MarkAfter(run, ttl) != MarkAfter(run[..|run| - 1], ttl)
    ensures Handled(run, |run| - 1, ttl) && MarkAfter(run, ttl) == Some(run[|run| - 1].now + ttl)
  {
  }

  /** After an attempt told "first" the mark stands for `ttl` at least. */
  lemma {:induction false} MarkStands(run: seq<Attempt>, ttl: int)
    requires ttl > 0 && Timely(run)
    ensures forall k :: 0 <= k < |run| && VerdictAt(run, k, ttl).First? ==>
              MarkAfter(run, ttl).Some? && run[k].now + ttl <= MarkAfter(run, ttl).value
  {
    if run != [] {
      var n := |run| - 1;
      MarkStands(run[..n], ttl);
      forall k | 0 <= k < n ensures VerdictAt(run[..n], k, ttl) == VerdictAt(run, k, ttl) {
        BeforeTheLast(run, k, ttl);
      }
    }
  }

  /** Two attempts both told "first" are at least `ttl` apart. */
  lemma FirstsAreApart(run: seq<Attempt>, i: nat, j: nat, ttl: int)
    requires ttl > 0 && Timely(run) && i < j < |run|
    requires VerdictAt(run, i, ttl).First? && VerdictAt(run, j, ttl).First?
    ensures run[j].now >= run[i].now + ttl
  {
    var before := run[..j];
    MarkStands(before, ttl);
    assert before[..i] == run[..i];
    assert VerdictAt(before, i, ttl).First?;
  }

  /** A duplicate is only ever declared within `ttl` of an attempt that did handle the message. */
  lemma DuplicateHasOriginal(run: seq<Attempt>, j: nat, ttl: int)
    requires ttl > 0 && Timely(run) && j < |run| && VerdictAt(run, j, ttl).Duplicate?
    ensures exists i :: 0 <= i < j && Handled(run, i, ttl) && run[i].now <= run[j].now < run[i].now + ttl
  {
    var before := run[..j];
    MarkOrigin(before, ttl);
    var i :| 0 <= i < j && Handled(before, i, ttl) && before[i].now + ttl == MarkAfter(before, ttl).value;
    assert before[..i] == run[..i];
    assert Handled(run, i, ttl) && run[i].now <= run[j].now < run[i].now + ttl;
  }

  /** Inside one time limit and with every command answered, the message is handled exactly once:
      by the first attempt. */
  lemma HandledOnce(run: seq<Attempt>, ttl: int)
    requires ttl > 0 && Timely(run) && run != [] && run[|run| - 1].now < run[0].now + ttl
    requires forall k :: 0 <= k < |run| ==> run[k].reply.Answered?
    ensures forall k :: 0 <= k < |run| ==> (Handled(run, k, ttl) <==> k == 0)
  {
    forall k | 0 <= k < |run| ensures Handled(run, k, ttl) <==> k == 0 {
      assert run[..0] == [];
      if k > 0 && Handled(run, k, ttl) {
        FirstsAreApart(run, 0, k, ttl);
      }
    }
  }
}
