/** The messages of a CRM conversation, sorted in place by their numeric id. Go hands them over in the
    order of a map iteration, which is a different one every time. */
module History {
  datatype Entry<T> = Entry(numId: int, msg: T)

  // ----- the order -------------------------------------------------------------------------

  /** The entry goes behind every entry whose id is not greater. */
  function Insert<T>(s: seq<Entry<T>>, x: Entry<T>): seq<Entry<T>> {
    if s == [] || s[|s| - 1].numId <= x.numId then s + [x]
    else Insert(s[..|s| - 1], x) + [s[|s| - 1]]
  }

  function Sorting<T>(s: seq<Entry<T>>): seq<Entry<T>> {
    if s == [] then [] else Insert(Sorting(s[..|s| - 1]), s[|s| - 1])
  }

  ghost predicate Sorted<T>(s: seq<Entry<T>>) {
    forall i, j :: 0 <= i < j < |s| ==> s[i].numId <= s[j].numId
  }

  /** The entries with one id, in order. */
  function WithId<T>(s: seq<Entry<T>>, id: int): seq<Entry<T>> {
    if s == [] then [] else WithId(s[..|s| - 1], id) + if s[|s| - 1].numId == id then [s[|s| - 1]] else []
  }

  lemma {:induction false} InsertPermutes<T>(s: seq<Entry<T>>, x: Entry<T>)
    ensures multiset(Insert(s, x)) == multiset(s) + multiset{x} && |Insert(s, x)| == |s| + 1
  {
    if s != [] && s[|s| - 1].numId > x.numId {
      var front, last := s[..|s| - 1], s[|s| - 1];
      InsertPermutes(front, x);
      assert s == front + [last];
    }
  }

  ghost predicate AtMost<T(!new)>(s: seq<Entry<T>>, id: int) {
    forall e :: e in s ==> e.numId <= id
  }

  lemma InsertAtMost<T(!new)>(s: seq<Entry<T>>, x: Entry<T>, id: int)
    requires AtMost(s, id) && x.numId <= id
    ensures AtMost(Insert(s, x), id)
  {
    hide Insert;
    InsertPermutes(s, x);
    forall e | e in Insert(s, x) ensures e.numId <= id {
      assert e in multiset(Insert(s, x));
    }
  }

  lemma SortedGrows<T(!new)>(s: seq<Entry<T>>, x: Entry<T>)
    ensures Sorted(s) && AtMost(s, x.numId) ==> Sorted(s + [x])
    ensures Sorted(s) && s != [] ==> AtMost(s, s[|s| - 1].numId) && Sorted(s[..|s| - 1])
                                     && AtMost(s[..|s| - 1], s[|s| - 1].numId)
  {
  }

  lemma {:induction false} InsertSorts<T(!new)>(s: seq<Entry<T>>, x: Entry<T>)
    requires Sorted(s)
    ensures Sorted(Insert(s, x))
  {
    hide Sorted, AtMost;
    SortedGrows(s, x);
    if s == [] || s[|s| - 1].numId <= x.numId {
      LastIsMost(s, x.numId);
    } else {
      var front, last := s[..|s| - 1], s[|s| - 1];
      InsertSorts(front, x);
      InsertAtMost(front, x, last.numId);
      SortedGrows(Insert(front, x), last);
    }
  }

  lemma LastIsMost<T(!new)>(s: seq<Entry<T>>, id: int)
    requires Sorted(s) && (s == [] || s[|s| - 1].numId <= id)
    ensures AtMost(s, id)
  {
  }

  lemma {:induction false} InsertIsStable<T>(s: seq<Entry<T>>, x: Entry<T>, id: int)
    ensures WithId(Insert(s, x), id) == WithId(s + [x], id)
  {
    var all := s + [x];
    assert all[..|all| - 1] == s;
    if s != [] && s[|s| - 1].numId > x.numId {
      var front, last := s[..|s| - 1], s[|s| - 1];
      InsertIsStable(front, x, id);
      var fx := front + [x];
      assert fx[..|fx| - 1] == front;
      var r := Insert(s, x);
      assert r[..|r| - 1] == Insert(front, x) && r[|r| - 1] == last;
    }
  }

  /** The sorted conversation is a permutation of the one received, ascending, and entries with the
      same id keep their order. */
  lemma {:induction false} SortingSorts<T(!new)>(s: seq<Entry<T>>)
    ensures Sorted(Sorting(s)) && |Sorting(s)| == |s| && multiset(Sorting(s)) == multiset(s)
    ensures forall id :: WithId(Sorting(s), id) == WithId(s, id)
  {
    if s != [] {
      var front, last := s[..|s| - 1], s[|s| - 1];
      SortingSorts(front);
      InsertPermutes(Sorting(front), last);
      InsertSorts(Sorting(front), last);
      assert s == front + [last];
      forall id ensures WithId(Sorting(s), id) == WithId(s, id) {
        InsertIsStable(Sorting(front), last, id);
        var sl := Sorting(front) + [last];
        assert sl[..|sl| - 1] == Sorting(front);
      }
    }
  }

  /** Entries of one id are all the same entry. */
  ghost predicate IdsIdentify<T(!new)>(s: seq<Entry<T>>) {
    forall a, b :: a in s && b in s && a.numId == b.numId ==> a == b
  }

  lemma LastsAgree<T(!new)>(s: seq<Entry<T>>, t: seq<Entry<T>>)
    requires Sorted(s) && Sorted(t) && multiset(s) == multiset(t) && IdsIdentify(s) && s != [] && t != []
    ensures s[|s| - 1] == t[|t| - 1]
  {
    var a, b := s[|s| - 1], t[|t| - 1];
    assert a in multiset(t) && b in multiset(s);
    assert a in t && b in s;
  }

  lemma FrontsAgree<T>(s: seq<Entry<T>>, t: seq<Entry<T>>, x: Entry<T>)
    requires multiset(s + [x]) == multiset(t + [x])
    ensures multiset(s) == multiset(t)
  {
    assert multiset(s) == multiset(s + [x]) - multiset{x};
    assert multiset(t) == multiset(t + [x]) - multiset{x};
  }

  lemma FrontKeeps<T(!new)>(s: seq<Entry<T>>)
    requires s != []
    ensures Sorted(s) ==> Sorted(s[..|s| - 1])
    ensures IdsIdentify(s) ==> IdsIdentify(s[..|s| - 1])
  {
    var front := s[..|s| - 1];
    assert forall e :: e in front ==> e in s;
  }

  lemma {:induction false} SortedIsUnique<T(!new)>(s: seq<Entry<T>>, t: seq<Entry<T>>)
    requires Sorted(s) && Sorted(t) && multiset(s) == multiset(t) && IdsIdentify(s)
    ensures s == t
  {
    hide Sorted, IdsIdentify;
    assert |s| == |multiset(s)| && |t| == |multiset(t)|;
    if s != [] {
      LastsAgree(s, t);
      var x, s', t' := s[|s| - 1], s[..|s| - 1], t[..|t| - 1];
      assert s == s' + [x] && t == t' + [x];
      FrontsAgree(s', t', x);
      FrontKeeps(s);
      FrontKeeps(t);
      SortedIsUnique(s', t');
    }
  }

  lemma WithIdOfPair<T>(a: Entry<T>, b: Entry<T>, rest: seq<Entry<T>>)
    requires a.numId == b.numId
    ensures |WithId([a, b] + rest, a.numId)| >= 2
    ensures WithId([a, b] + rest, a.numId)[0] == a
    decreases |rest|
  {
    var s := [a, b] + rest;
    if rest == [] {
      assert s[..1] == [a] && s[..1][..0] == [];
      assert WithId(s[..1], a.numId) == [a];
    } else {
      assert s[..|s| - 1] == [a, b] + rest[..|rest| - 1];
      WithIdOfPair(a, b, rest[..|rest| - 1]);
    }
  }

  lemma SameEntriesSameOrder<T(!new)>(s: seq<Entry<T>>, t: seq<Entry<T>>)
    requires IdsIdentify(s) && multiset(t) == multiset(s)
    ensures Sorting(t) == Sorting(s)
  {
    hide Sorting, Sorted, WithId;
    SortingSorts(s);
    SortingSorts(t);
    IdsOfMultiset(s, Sorting(s));
    SortedIsUnique(Sorting(s), Sorting(t));
  }

  lemma IdsOfMultiset<T(!new)>(s: seq<Entry<T>>, t: seq<Entry<T>>)
    requires IdsIdentify(s) && multiset(t) == multiset(s)
    ensures IdsIdentify(t)
  {
    forall a, b | a in t && b in t && a.numId == b.numId ensures a == b {
      assert a in multiset(s) && b in multiset(s);
      assert a in s && b in s;
    }
  }

  /** Two different entries with one id come out in the order they were received. */
  lemma SharedIdShows<T(!new)>(a: Entry<T>, b: Entry<T>, rest: seq<Entry<T>>)
    requires a.numId == b.numId && a != b
    ensures Sorting([a, b] + rest) != Sorting([b, a] + rest)
  {
    hide Sorting, Sorted, WithId;
    SortingSorts([a, b] + rest);
    SortingSorts([b, a] + rest);
    WithIdOfPair(a, b, rest);
    WithIdOfPair(b, a, rest);
  }

  /** The order of the map iteration is invisible if and only if no two different messages share a
      numeric id, as two unparsable ids do. */
  lemma OrderIsInvisibleIff<T(!new)>(s: seq<Entry<T>>)
    ensures (forall t: seq<Entry<T>> :: multiset(t) == multiset(s) ==> Sorting(t) == Sorting(s)) <==> IdsIdentify(s)
  {
    hide Sorting;
    if IdsIdentify(s) {
      forall t: seq<Entry<T>> | multiset(t) == multiset(s) ensures Sorting(t) == Sorting(s) {
        SameEntriesSameOrder(s, t);
      }
    }
    if a, b :| a in s && b in s && a.numId == b.numId && a != b {
      var rest := Without(s, a, b);
      var t, u := [a, b] + rest, [b, a] + rest;
      assert multiset(u) == multiset(t) == multiset(s);
      SharedIdShows(a, b, rest);
    }
  }

  lemma Without<T>(s: seq<Entry<T>>, a: Entry<T>, b: Entry<T>) returns (rest: seq<Entry<T>>)
    requires a in s && b in s && a != b
    ensures multiset([a, b] + rest) == multiset(s)
  {
    var i :| 0 <= i < |s| && s[i] == a;
    var s1 := s[..i] + s[i + 1..];
    assert s == s[..i] + [a] + s[i + 1..];
    assert multiset(s) == multiset(s1) + multiset{a};
    assert b in multiset(s1);
    var j :| 0 <= j < |s1| && s1[j] == b;
    rest := s1[..j] + s1[j + 1..];
    assert s1 == s1[..j] + [b] + s1[j + 1..];
    assert multiset(s1) == multiset(rest) + multiset{b};
  }

  // ----- in place ----------------------------------------------------------------------------

  lemma {:induction false} InsertAt<T>(s: seq<Entry<T>>, x: Entry<T>, j: nat)
    requires j <= |s| && (j > 0 ==> s[j - 1].numId <= x.numId)
    requires forall k :: j <= k < |s| ==> s[k].numId > x.numId
    ensures Insert(s, x) == s[..j] + [x] + s[j..]
  {
    if j < |s| {
      var front := s[..|s| - 1];
      InsertAt(front, x, j);
      assert front[..j] == s[..j] && s[j..] == front[j..] + [s[|s| - 1]];
    }
  }

  /** The entry at i of `base`, moved down to j. */
  function Moved<T>(base: seq<Entry<T>>, i: nat, j: nat): seq<Entry<T>>
    requires j <= i < |base|
  {
    base[..j] + [base[i]] + base[j..i] + base[i + 1..]
  }

  lemma MoveStep<T>(base: seq<Entry<T>>, i: nat, j: nat)
    requires 0 < j <= i < |base|
    ensures var m := Moved(base, i, j);
            m[j] == base[i] && m[j - 1] == base[j - 1] && m[j := m[j - 1]][j - 1 := m[j]] == Moved(base, i, j - 1)
  {
  }

  /** The inner loop: the entry at i moves down to its place. */
  method Sink<T>(entries: array<Entry<T>>, i: nat) returns (ghost j: nat)
    requires i < entries.Length
    modifies entries
    ensures j <= i && entries[..] == Moved(old(entries[..]), i, j)
    ensures j > 0 ==> old(entries[..])[j - 1].numId <= old(entries[..])[i].numId
    ensures forall k :: j <= k < i ==> old(entries[..])[k].numId > old(entries[..])[i].numId
  {
    hide Moved;
    ghost var base := entries[..];
    var n: nat := i;
    MoveNothing(base, i);
    while n > 0 && entries[n].numId < entries[n - 1].numId
      invariant 0 <= n <= i && |base| == entries.Length
      invariant entries[..] == Moved(base, i, n)
      invariant forall k :: n <= k < i ==> base[k].numId > base[i].numId
    {
      MoveStep(base, i, n);
      ghost var m := entries[..];
      assert m[n] == entries[n] && m[n - 1] == entries[n - 1];
      entries[n], entries[n - 1] := entries[n - 1], entries[n];
      assert entries[..] == m[n := m[n - 1]][n - 1 := m[n]];
      n := n - 1;
    }
    if n > 0 {
      MoveStep(base, i, n);
      assert entries[..][n] == entries[n] && entries[..][n - 1] == entries[n - 1];
    }
    j := n;
  }

  lemma MoveNothing<T>(base: seq<Entry<T>>, i: nat)
    requires i < |base|
    ensures Moved(base, i, i) == base
  {
  }

  method SortById<T>(entries: array<Entry<T>>)
    modifies entries
    ensures entries[..] == Sorting(old(entries[..]))
  {
    hide Sorting, Moved;
    ghost var was := entries[..];
    SortedSoFar(was);
    if entries.Length == 0 {
      return;
    }
    var i := 1;
    while i < entries.Length
      invariant 1 <= i <= entries.Length
      invariant |was| == entries.Length && |Sorting(was[..i])| == i
      invariant entries[..] == Sorting(was[..i]) + was[i..]
    {
      ghost var base := entries[..];
      ghost var j := Sink(entries, i);
      Placed(was, base, i, j);
      i := i + 1;
    }
    assert was[..i] == was && was[i..] == [];
  }

  lemma SortedSoFar<T>(was: seq<Entry<T>>)
    ensures was == [] ==> Sorting(was) == []
    ensures was != [] ==> was == Sorting(was[..1]) + was[1..] && |Sorting(was[..1])| == 1
  {
    if was != [] {
      assert was[..1] == [was[0]] && was[..1][..0] == [];
      assert Sorting(was[..1][..0]) == [];
      assert Sorting(was[..1]) == [was[0]];
    }
  }

  /** The prefix is sorted one entry further. */
  lemma Placed<T>(was: seq<Entry<T>>, base: seq<Entry<T>>, i: nat, j: nat)
    requires j <= i < |was| == |base| && |Sorting(was[..i])| == i && base == Sorting(was[..i]) + was[i..]
    requires j > 0 ==> base[j - 1].numId <= base[i].numId
    requires forall k :: j <= k < i ==> base[k].numId > base[i].numId
    ensures Moved(base, i, j) == Sorting(was[..i + 1]) + was[i + 1..] && |Sorting(was[..i + 1])| == i + 1
  {
    hide Insert, Sorting;
    var s := Sorting(was[..i]);
    assert base[i] == was[i] && base[..i] == s && base[i + 1..] == was[i + 1..];
    InsertAt(s, was[i], j);
    NextSorting(was, i);
    assert base[..j] == s[..j] && base[j..i] == s[j..];
  }

  lemma NextSorting<T>(was: seq<Entry<T>>, i: nat)
    requires i < |was|
    ensures Sorting(was[..i + 1]) == Insert(Sorting(was[..i]), was[i])
  {
    assert was[..i + 1][..i] == was[..i];
  }
}
