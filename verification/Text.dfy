/** The parts of Go's `strings` and `strconv` packages that the modelled code calls.
    A string is a sequence of characters; a Go byte below 128 is one character. */
module Text {

  datatype Option<+T> = None | Some(value: T)

  /** strings.IndexByte: the first position of `c`, or -1. */
  function IndexOf(s: string, c: char): (i: int)
    ensures -1 <= i < |s|
    ensures i >= 0 ==> s[i] == c && forall k :: 0 <= k < i ==> s[k] != c
    ensures i < 0 ==> c !in s
  {
    IndexFrom(s, c, 0)
  }

  function IndexFrom(s: string, c: char, from: nat): (i: int)
    requires from <= |s|
    ensures i == -1 || from <= i < |s|
    ensures i >= 0 ==> s[i] == c
    ensures forall k :: from <= k < (if i < 0 then |s| else i) ==> s[k] != c
    decreases |s| - from
  {
    if from == |s| then -1 else if s[from] == c then from else IndexFrom(s, c, from + 1)
  }

  /** strings.LastIndex for a one-character separator. */
  function LastIndexOf(s: string, c: char): (i: int)
    ensures -1 <= i < |s|
    ensures i >= 0 ==> s[i] == c && forall k :: i < k < |s| ==> s[k] != c
    ensures i < 0 ==> c !in s
  {
    LastIndexBelow(s, c, |s|)
  }

  function LastIndexBelow(s: string, c: char, n: nat): (i: int)
    requires n <= |s|
    ensures -1 <= i < n
    ensures i >= 0 ==> s[i] == c
    ensures forall k :: i < k < n ==> s[k] != c
  {
    if n == 0 then -1 else if s[n - 1] == c then n - 1 else LastIndexBelow(s, c, n - 1)
  }

  lemma FirstSeparator(a: string, c: char, b: string)
    requires c !in a
    ensures IndexOf(a + [c] + b, c) == |a|
  {
    var s := a + [c] + b;
    assert s[|a|] == c;
    assert forall k :: 0 <= k < |a| ==> s[k] == a[k];
  }

  lemma LastSeparator(a: string, c: char, b: string)
    requires c !in b
    ensures LastIndexOf(a + [c] + b, c) == |a|
  {
    var s := a + [c] + b;
    forall k | |a| < k < |s| ensures s[k] != c {
      assert s[k] == b[k - |a| - 1] && s[k] in b;
    }
    assert s[|a|] == c;
  }

  /** strings.Split for a one-character separator: never empty. */
  function Split(s: string, c: char): (parts: seq<string>)
    ensures |parts| >= 1
    decreases |s|
  {
    var i := IndexOf(s, c);
    if i < 0 then [s] else [s[..i]] + Split(s[i + 1..], c)
  }

  /** strings.SplitN: at most `n` pieces, the last one keeps the rest. */
  function SplitN(s: string, c: char, n: nat): (parts: seq<string>)
    requires n >= 1
    ensures 1 <= |parts| <= n
    decreases n
  {
    var i := IndexOf(s, c);
    if n == 1 || i < 0 then [s] else [s[..i]] + SplitN(s[i + 1..], c, n - 1)
  }

  /** strings.Join with a one-character separator. */
  function Join(parts: seq<string>, c: char): string {
    if |parts| == 0 then ""
    else if |parts| == 1 then parts[0]
    else parts[0] + [c] + Join(parts[1..], c)
  }

  lemma SplitStep(a: string, c: char, b: string)
    requires c !in a
    ensures Split(a + [c] + b, c) == [a] + Split(b, c)
  {
    FirstSeparator(a, c, b);
    var s := a + [c] + b;
    assert s[..|a|] == a && s[|a| + 1..] == b;
  }

  /** Two pairs joined by a ':' give one text exactly when they are the same, or one first part continues
      the other with a ':' and the second parts make up for it. */
  lemma ColonPairsMeetIff(s: string, i: string, s': string, i': string)
    ensures s + ":" + i == s' + ":" + i' <==>
            (s == s' && i == i')
            || (exists x: string :: s == s' + ":" + x && i' == x + ":" + i)
            || (exists x: string :: s' == s + ":" + x && i == x + ":" + i')
  {
    if s + ":" + i == s' + ":" + i' {
      if |s| >= |s'| {
        ColonContinues(s, i, s', i');
      } else {
        ColonContinues(s', i', s, i);
      }
    }
    if x: string :| s == s' + ":" + x && i' == x + ":" + i {
      assert s + ":" + i == s' + ":" + i';
    }
    if x: string :| s' == s + ":" + x && i == x + ":" + i' {
      assert s + ":" + i == s' + ":" + i';
    }
  }

  lemma ColonContinues(s: string, i: string, s': string, i': string)
    requires s + ":" + i == s' + ":" + i' && |s| >= |s'|
    ensures (s == s' && i == i') || exists x: string :: s == s' + ":" + x && i' == x + ":" + i
  {
    var whole := s + ":" + i;
    assert s' == whole[..|s'|] == s[..|s'|];
    if |s| == |s'| {
      assert i == whole[|s| + 1..] == i';
    } else {
      var x := s[|s'| + 1..];
      assert s[|s'|] == whole[|s'|] == ':';
      assert s == s' + ":" + x;
      assert i' == whole[|s'| + 1..] == x + ":" + i;
    }
  }

  /** Splitting and joining are inverse, and no piece holds the separator. */
  lemma {:induction false} JoinSplit(s: string, c: char)
    ensures Join(Split(s, c), c) == s
    ensures forall k :: 0 <= k < |Split(s, c)| ==> c !in Split(s, c)[k]
    decreases |s|
  {
    var i := IndexOf(s, c);
    if i >= 0 {
      JoinSplit(s[i + 1..], c);
      assert s == s[..i] + [c] + s[i + 1..];
      assert Split(s, c)[1..] == Split(s[i + 1..], c);
    }
  }

  lemma {:induction false} JoinSplitN(s: string, c: char, n: nat)
    requires n >= 1
    ensures Join(SplitN(s, c, n), c) == s
    decreases n
  {
    var i := IndexOf(s, c);
    if n > 1 && i >= 0 {
      var rest := s[i + 1..];
      JoinSplitN(rest, c, n - 1);
      JoinStep(s[..i], SplitN(rest, c, n - 1), c);
      assert s == s[..i] + [c] + rest;
    }
  }

  lemma CountAround(s: string, front: string, c: char, rest: string)
    requires s == front + ([c] + rest) && c !in front
    ensures multiset(s)[c] == multiset(rest)[c] + 1
  {
    assert multiset(s) == multiset(front) + (multiset{c} + multiset(rest));
  }

  /** Splitting makes one piece more than there are separators. */
  lemma {:induction false} SplitCount(s: string, c: char)
    ensures |Split(s, c)| == multiset(s)[c] + 1
    decreases |s|
  {
    var i := IndexOf(s, c);
    if i >= 0 {
      var front, rest := s[..i], s[i + 1..];
      SplitCount(rest, c);
      assert s == front + ([c] + rest);
      CountAround(s, front, c, rest);
    }
  }

  ghost predicate AllFree(parts: seq<string>, c: char) {
    forall k :: 0 <= k < |parts| ==> c !in parts[k]
  }

  lemma AllFreeStep(head: string, tail: seq<string>, c: char)
    ensures AllFree([head] + tail, c) <==> c !in head && AllFree(tail, c)
  {
    var parts := [head] + tail;
    if AllFree(parts, c) {
      assert c !in parts[0];
      assert forall k :: 0 <= k < |tail| ==> tail[k] == parts[k + 1];
    }
  }

  lemma JoinStep(head: string, tail: seq<string>, c: char)
    requires tail != []
    ensures Join([head] + tail, c) == head + [c] + Join(tail, c)
  {
    assert ([head] + tail)[1..] == tail;
  }

  lemma CountOfJoin(head: string, rest: string, c: char)
    ensures multiset(head + [c] + rest)[c] == multiset(head)[c] + 1 + multiset(rest)[c]
  {
  }

  /** Joined fields split back into themselves exactly when none of them holds the separator. */
  lemma {:induction false} SplitJoin(parts: seq<string>, c: char)
    requires |parts| >= 1
    ensures |Split(Join(parts, c), c)| >= |parts|
    ensures |Split(Join(parts, c), c)| == |parts| <==> AllFree(parts, c)
    ensures AllFree(parts, c) ==> Split(Join(parts, c), c) == parts
  {
    var head, tail := parts[0], parts[1..];
    assert parts == [head] + tail;
    AllFreeStep(head, tail, c);
    if tail == [] {
      SplitCount(head, c);
    } else {
      SplitJoin(tail, c);
      JoinStep(head, tail, c);
      var rest := Join(tail, c);
      SplitCount(head + [c] + rest, c);
      SplitCount(rest, c);
      CountOfJoin(head, rest, c);
      if c !in head {
        SplitStep(head, c, rest);
      }
    }
  }

  /** A text before the first separator, and the rest, are determined by the whole. */
  lemma FirstFieldUnique(a: string, b: string, a': string, b': string, c: char)
    requires c !in a && c !in a'
    requires a + [c] + b == a' + [c] + b'
    ensures a == a' && b == b'
  {
    FirstSeparator(a, c, b);
    FirstSeparator(a', c, b');
    var s := a + [c] + b;
    assert s[..|a|] == a && s[..|a'|] == a' && s[|a| + 1..] == b && s[|a'| + 1..] == b';
  }

  predicate HasPrefix(s: string, p: string) {
    p <= s
  }

  function TrimPrefix(s: string, p: string): string {
    if p <= s then s[|p|..] else s
  }

  predicate HasSuffix(s: string, p: string) {
    |p| <= |s| && s[|s| - |p|..] == p
  }

  function TrimSuffix(s: string, p: string): string {
    if HasSuffix(s, p) then s[..|s| - |p|] else s
  }

  /** strings.Contains. */
  predicate Contains(s: string, part: string) {
    part <= s || (s != "" && Contains(s[1..], part))
  }

  function LowerChar(c: char): char {
    if 'A' <= c <= 'Z' then (c as int + 32) as char else c
  }

  /** strings.ToLower on the ASCII range. */
  function ToLower(s: string): (r: string)
    ensures |r| == |s| && forall k :: 0 <= k < |s| ==> r[k] == LowerChar(s[k])
  {
    seq(|s|, k requires 0 <= k < |s| => LowerChar(s[k]))
  }

  /** unicode.IsSpace. */
  predicate IsSpace(c: char) {
    var n := c as int;
    9 <= n <= 13 || n == 32 || n == 0x85 || n == 0xA0 || n == 0x1680 ||
    0x2000 <= n <= 0x200A || n == 0x2028 || n == 0x2029 || n == 0x202F || n == 0x205F || n == 0x3000
  }

  /** Of the characters of ASCII, the tabulator, the four line ends and the space. */
  lemma AsciiSpaces(c: char)
    requires c < '\U{0080}'
    ensures IsSpace(c) <==> c in {'\t', '\n', '\U{0B}', '\U{0C}', '\r', ' '}
  {
  }

  function FirstNonSpace(s: string, from: nat): (i: nat)
    requires from <= |s|
    ensures from <= i <= |s| && (i < |s| ==> !IsSpace(s[i]))
    ensures forall k :: from <= k < i ==> IsSpace(s[k])
    decreases |s| - from
  {
    if from < |s| && IsSpace(s[from]) then FirstNonSpace(s, from + 1) else from
  }

  function AfterLastNonSpace(s: string, to: nat): (i: nat)
    requires to <= |s|
    ensures i <= to && (i > 0 ==> !IsSpace(s[i - 1]))
    ensures forall k :: i <= k < to ==> IsSpace(s[k])
  {
    if to > 0 && IsSpace(s[to - 1]) then AfterLastNonSpace(s, to - 1) else to
  }

  function TrimLeft(s: string): (r: string)
    ensures r != "" ==> !IsSpace(r[0])
    ensures |r| <= |s| && r == s[|s| - |r|..]
    ensures forall k :: 0 <= k < |s| - |r| ==> IsSpace(s[k])
  {
    s[FirstNonSpace(s, 0)..]
  }

  function TrimRight(s: string): (r: string)
    ensures r != "" ==> !IsSpace(r[|r| - 1])
    ensures r <= s
    ensures forall k :: |r| <= k < |s| ==> IsSpace(s[k])
  {
    s[..AfterLastNonSpace(s, |s|)]
  }

  /** strings.TrimSpace. */
  function TrimSpace(s: string): string {
    TrimRight(TrimLeft(s))
  }

  predicate Trimmed(s: string) {
    s == "" || (!IsSpace(s[0]) && !IsSpace(s[|s| - 1]))
  }

  lemma TrimSpaceTrims(s: string)
    ensures Trimmed(TrimSpace(s))
    ensures Trimmed(s) ==> TrimSpace(s) == s
  {
    var l := TrimLeft(s);
    var r := TrimRight(l);
    assert r != "" ==> r[0] == l[0];
  }

  /** TrimSpace drops nothing but white space at the two ends. */
  lemma TrimSpaceDrops(s: string) returns (before: string, after: string)
    ensures s == before + TrimSpace(s) + after && AllSpace(before) && AllSpace(after)
  {
    var l := TrimLeft(s);
    var r := TrimRight(l);
    before, after := Surroundings(s, l, r);
  }

  lemma Surroundings(s: string, l: string, r: string) returns (before: string, after: string)
    requires |l| <= |s| && l == s[|s| - |l|..] && r <= l
    requires forall k :: 0 <= k < |s| - |l| ==> IsSpace(s[k])
    requires forall k :: |r| <= k < |l| ==> IsSpace(l[k])
    ensures s == before + r + after && AllSpace(before) && AllSpace(after)
  {
    before, after := s[..|s| - |l|], l[|r|..];
    assert l == r + after;
  }

  predicate AllSpace(s: string) {
    forall k :: 0 <= k < |s| ==> IsSpace(s[k])
  }

  /** White space around a trimmed core is all that is dropped. */
  lemma TrimSpaceOf(before: string, core: string, after: string)
    requires AllSpace(before) && AllSpace(after) && core != "" && Trimmed(core)
    ensures TrimSpace(before + core + after) == core
  {
    var s := before + core + after;
    var n, m := |before|, |before| + |core|;
    assert s[n] == core[0] && s[m - 1] == core[|core| - 1];
    assert forall k :: 0 <= k < n ==> s[k] == before[k];
    assert forall k {:trigger s[k]} :: m <= k < |s| ==> s[k] == after[k - m];
    var l := TrimLeft(s);
    assert FirstNonSpace(s, 0) == n;
    assert l == core + after;
    assert forall k {:trigger l[k]} :: |core| <= k < |l| ==> l[k] == after[k - |core|];
    assert l[|core| - 1] == core[|core| - 1];
    assert AfterLastNonSpace(l, |l|) == |core|;
  }

  lemma TrimSpaceBlank(s: string)
    ensures TrimSpace(s) == "" <==> AllSpace(s)
  {
    var before, after := TrimSpaceDrops(s);
    var r := TrimSpace(s);
    if r != "" {
      TrimSpaceTrims(s);
      assert s[|before|] == r[0];
    } else {
      assert forall k :: 0 <= k < |s| ==> s[k] == (if k < |before| then before[k] else after[k - |before|]);
    }
  }

  predicate IsDigit(c: char) {
    '0' <= c <= '9'
  }

  predicate AllDigits(s: string) {
    forall k :: 0 <= k < |s| ==> IsDigit(s[k])
  }

  function DigitOf(d: nat): (c: char)
    requires d < 10
    ensures IsDigit(c) && c as int == d + '0' as int
  {
    (d + '0' as int) as char
  }

  function Digits(n: nat): (s: string)
    ensures |s| >= 1 && AllDigits(s)
  {
    if n < 10 then [DigitOf(n)] else Digits(n / 10) + [DigitOf(n % 10)]
  }

  function Value(s: string): nat
    requires AllDigits(s)
  {
    if s == "" then 0 else 10 * Value(s[..|s| - 1]) + (s[|s| - 1] as int - '0' as int)
  }

  lemma {:induction false} ValueOfDigits(n: nat)
    ensures Value(Digits(n)) == n
  {
    if n >= 10 {
      ValueOfDigits(n / 10);
      assert Digits(n)[..|Digits(n)| - 1] == Digits(n / 10);
    }
  }

  const MIN_INT64: int := -0x8000_0000_0000_0000
  const MAX_INT64: int := 0x7FFF_FFFF_FFFF_FFFF

  predicate IsInt64(n: int) {
    MIN_INT64 <= n <= MAX_INT64
  }

  /** strconv.FormatInt(n, 10). */
  function FormatInt(n: int): string {
    if n < 0 then "-" + Digits(-n) else Digits(n)
  }

  /** strconv.ParseInt(s, 10, 64): None stands for its syntax and range errors. */
  function ParseInt(s: string): Option<int> {
    var signed := s != "" && (s[0] == '+' || s[0] == '-');
    var body := if signed then s[1..] else s;
    if body == "" || !AllDigits(body) then None
    else
      var n: int := if signed && s[0] == '-' then -(Value(body) as int) else Value(body);
      if IsInt64(n) then Some(n) else None
  }

  /** Printing a 64-bit number and parsing it back is the identity. */
  lemma ParseFormat(n: int)
    requires IsInt64(n)
    ensures ParseInt(FormatInt(n)) == Some(n)
  {
    var k := if n < 0 then -n else n;
    ValueOfDigits(k);
    assert IsDigit(Digits(k)[0]);
    if n < 0 {
      assert FormatInt(n)[1..] == Digits(k);
    }
  }

  /** What a decimal can start with, and the only characters it holds. */
  lemma FormatShape(n: int)
    ensures FormatInt(n) != ""
    ensures forall k :: 0 <= k < |FormatInt(n)| ==> FormatInt(n)[k] == '-' || IsDigit(FormatInt(n)[k])
  {
  }

  lemma ParsedShape(s: string)
    requires ParseInt(s).Some?
    ensures s != "" && (s[0] == '+' || s[0] == '-' || IsDigit(s[0]))
    ensures forall k :: 0 <= k < |s| ==> s[k] == '+' || s[k] == '-' || IsDigit(s[k])
  {
    if s[0] == '+' || s[0] == '-' {
      assert forall k :: 1 <= k < |s| ==> s[k] == s[1..][k - 1];
    }
  }
}
