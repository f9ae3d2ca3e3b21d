/** Turning the operator's BBCode into WhatsApp markdown: `stripBBCode`. */
module BBCode {
  import opened Text

  /** strings.ReplaceAll: leftmost, non-overlapping. */
  function ReplaceAll(s: string, from: string, to: string): string
    requires from != ""
    decreases |s|
  {
    if s == "" then ""
    else if from <= s then to + ReplaceAll(s[|from|..], from, to)
    else [s[0]] + ReplaceAll(s[1..], from, to)
  }

  /** Four replacements: the lower-case pair of a tag, then its upper-case pair. */
  function ConvertPair(s: string, lowerOpen: string, lowerClose: string, upperOpen: string, upperClose: string,
                       mark: string): string
    requires lowerOpen != "" && lowerClose != "" && upperOpen != "" && upperClose != ""
  {
    var lower := ReplaceAll(ReplaceAll(s, lowerOpen, mark), lowerClose, mark);
    ReplaceAll(ReplaceAll(lower, upperOpen, mark), upperClose, mark)
  }

  /** The thirteen replacements, in the order the code makes them. */
  function ConvertTags(s: string): string {
    var broken := ReplaceAll(s, "[br]", "\n");
    var bold := ConvertPair(broken, "[b]", "[/b]", "[B]", "[/B]", "*");
    var italic := ConvertPair(bold, "[i]", "[/i]", "[I]", "[/I]", "_");
    ConvertPair(italic, "[s]", "[/s]", "[S]", "[/S]", "~")
  }

  /** What is left once every bracketed stretch is dropped. An opening bracket never closed drops the
      rest of the text; a closing bracket alone just disappears. */
  function DropTags(s: string, inTag: bool): string {
    if s == "" then ""
    else if s[0] == '[' then DropTags(s[1..], true)
    else if s[0] == ']' then DropTags(s[1..], false)
    else (if inTag then "" else [s[0]]) + DropTags(s[1..], inTag)
  }

  /** Every maximal run of `c` becomes one `c`. */
  function CollapseRuns(s: string, c: char): string {
    if s == "" then ""
    else Prepend(s[0], CollapseRuns(s[1..], c), c)
  }

  function Prepend(x: char, s: string, c: char): string {
    if x == c && s != "" && s[0] == c then s else [x] + s
  }

  function Clean(s: string): string {
    TrimSpace(CollapseRuns(CollapseRuns(DropTags(ConvertTags(s), false), '*'), '_'))
  }

  method StripBBCode(s: string) returns (r: string)
    ensures r == Clean(s)
  {
    var t := ConvertTags(s);
    var result := "";
    var inTag := false;
    ghost var dropped := DropTags(t, false);
    assert t[0..] == t;
    for i := 0 to |t|
      invariant dropped == result + DropTags(t[i..], inTag)
    {
      var ch := t[i];
      DropStep(t, i, inTag);
      if ch == '[' {
        inTag := true;
      } else if ch == ']' {
        inTag := false;
      } else if !inTag {
        AppendOne(result, ch, DropTags(t[i + 1..], inTag));
        result := result + [ch];
      }
    }
    assert dropped == result by {
      assert t[|t|..] == "" && DropTags("", inTag) == "";
    }
    var out := CollapseLoop(result, '*');
    out := CollapseLoop(out, '_');
    r := TrimSpace(out);
  }

  lemma DropStep(t: string, i: nat, inTag: bool)
    requires i < |t|
    ensures DropTags(t[i..], inTag)
         == if t[i] == '[' then DropTags(t[i + 1..], true)
            else if t[i] == ']' then DropTags(t[i + 1..], false)
            else if inTag then DropTags(t[i + 1..], inTag)
            else [t[i]] + DropTags(t[i + 1..], inTag)
  {
    assert t[i..][1..] == t[i + 1..];
  }

  lemma AppendOne(a: string, x: char, b: string)
    ensures a + ([x] + b) == (a + [x]) + b
  {
  }

  /** One of the two "replace until nothing is left to replace" loops. */
  method CollapseLoop(s: string, c: char) returns (out: string)
    ensures out == CollapseRuns(s, c)
  {
    out := s;
    while Contains(out, [c, c])
      invariant CollapseRuns(out, c) == CollapseRuns(s, c)
      decreases |out|
    {
      ReplaceShortens(out, c);
      ReplaceKeepsRuns(out, c);
      out := ReplaceAll(out, [c, c], [c]);
    }
    NothingToCollapse(out, c);
  }

  // ----- the loops ---------------------------------------------------------------------------

  lemma {:induction false} ReplaceShortens(s: string, c: char)
    ensures |ReplaceAll(s, [c, c], [c])| <= |s|
    ensures Contains(s, [c, c]) ==> |ReplaceAll(s, [c, c], [c])| < |s|
    decreases |s|
  {
    if s != "" {
      if [c, c] <= s {
        ReplaceShortens(s[2..], c);
      } else {
        ReplaceShortens(s[1..], c);
      }
    }
  }

  lemma CollapseHead(s: string, c: char)
    ensures s == "" <==> CollapseRuns(s, c) == ""
    ensures s != "" ==> CollapseRuns(s, c)[0] == s[0]
  {
  }

  /** Halving the pairs does not change what collapsing every run gives. */
  lemma {:induction false} ReplaceKeepsRuns(s: string, c: char)
    ensures CollapseRuns(ReplaceAll(s, [c, c], [c]), c) == CollapseRuns(s, c)
    decreases |s|
  {
    if s != "" {
      if [c, c] <= s {
        var t := ReplaceAll(s[2..], [c, c], [c]);
        ReplaceKeepsRuns(s[2..], c);
        assert ([c] + t)[1..] == t;
        assert s[1..][1..] == s[2..] && s[1..] != "";
        CollapseHead(s[1..], c);
      } else {
        var t := ReplaceAll(s[1..], [c, c], [c]);
        ReplaceKeepsRuns(s[1..], c);
        assert ([s[0]] + t)[1..] == t;
      }
    }
  }

  predicate NoPair(s: string, c: char) {
    forall k :: 0 < k < |s| ==> !(s[k - 1] == c && s[k] == c)
  }

  lemma {:induction false} NoPairMeansNotContained(s: string, c: char)
    ensures Contains(s, [c, c]) <==> !NoPair(s, c)
  {
    if s != "" {
      NoPairMeansNotContained(s[1..], c);
      assert NoPair(s, c) <==> !([c, c] <= s) && NoPair(s[1..], c) by {
        assert forall k :: 0 < k < |s[1..]| ==> s[1..][k] == s[k + 1] && s[1..][k - 1] == s[k];
        if [c, c] <= s {
          assert s[0] == c && s[1] == c;
        }
        if NoPair(s[1..], c) && !([c, c] <= s) {
          forall k | 0 < k < |s| ensures !(s[k - 1] == c && s[k] == c) {
            if k > 1 {
              assert s[1..][k - 1] == s[k] && s[1..][k - 2] == s[k - 1];
            }
          }
        }
      }
    }
  }

  lemma NoPairTail(s: string, c: char)
    requires NoPair(s, c) && s != ""
    ensures NoPair(s[1..], c)
    ensures |s| > 1 ==> s[1..][0] == s[1] && !(s[0] == c && s[1] == c)
  {
    assert forall k :: 0 < k < |s[1..]| ==> s[1..][k] == s[k + 1] && s[1..][k - 1] == s[k];
  }

  lemma {:induction false} CollapsedFixed(s: string, c: char)
    requires NoPair(s, c)
    ensures CollapseRuns(s, c) == s
  {
    if s != "" {
      NoPairTail(s, c);
      CollapsedFixed(s[1..], c);
      assert [s[0]] + s[1..] == s;
    }
  }

  lemma NothingToCollapse(s: string, c: char)
    requires !Contains(s, [c, c])
    ensures CollapseRuns(s, c) == s
  {
    NoPairMeansNotContained(s, c);
    CollapsedFixed(s, c);
  }

  /** Collapsing leaves no pair, and makes no new pair of another character. */
  lemma {:induction false} CollapseLeavesNoPair(s: string, c: char, d: char)
    ensures NoPair(CollapseRuns(s, c), c)
    ensures NoPair(s, d) ==> NoPair(CollapseRuns(s, c), d)
  {
    if s != "" {
      CollapseLeavesNoPair(s[1..], c, d);
      CollapseHead(s[1..], c);
      assert NoPair(s, d) ==> NoPair(s[1..], d) by {
        assert forall k :: 0 < k < |s[1..]| ==> s[1..][k] == s[k + 1] && s[1..][k - 1] == s[k];
      }
      var t := CollapseRuns(s[1..], c);
      PrependKeeps(s[0], t, c, c);
      if NoPair(s, d) {
        assert t != "" ==> t[0] == s[1];
        PrependKeeps(s[0], t, c, d);
      }
    }
  }

  lemma PrependKeeps(x: char, t: string, c: char, d: char)
    requires NoPair(t, d)
    requires d == c || t == "" || !(x == d && t[0] == d)
    ensures NoPair(Prepend(x, t, c), d)
  {
    var r := [x] + t;
    assert forall k {:trigger r[k]} :: 0 < k < |r| ==> r[k] == t[k - 1] && (k > 1 ==> r[k - 1] == t[k - 2]);
  }

  // ----- the normal form ---------------------------------------------------------------------

  lemma {:induction false} DropTagsFrees(s: string, inTag: bool)
    ensures '[' !in DropTags(s, inTag) && ']' !in DropTags(s, inTag)
  {
    if s != "" {
      DropTagsFrees(s[1..], inTag);
      DropTagsFrees(s[1..], true);
      DropTagsFrees(s[1..], false);
    }
  }

  lemma {:induction false} CollapseKeepsCharacters(s: string, c: char)
    ensures forall x :: x in CollapseRuns(s, c) ==> x in s
  {
    if s != "" {
      CollapseKeepsCharacters(s[1..], c);
    }
  }

  predicate Free(s: string) {
    '[' !in s && ']' !in s
  }

  /** What a cleaned text looks like. */
  predicate Normal(s: string) {
    Free(s) && NoPair(s, '*') && NoPair(s, '_') && Trimmed(s)
  }

  lemma InfixKeeps(before: string, r: string, after: string, c: char)
    ensures NoPair(before + r + after, c) ==> NoPair(r, c)
    ensures forall x :: x in r ==> x in before + r + after
  {
    var s := before + r + after;
    assert forall k :: 0 <= k < |r| ==> r[k] == s[|before| + k];
  }

  /** Whatever the operator typed, the result holds no bracket, no "**", no "__" and no white space
      at its ends. */
  lemma CleanIsNormal(s: string)
    ensures Normal(Clean(s))
  {
    var t := DropTags(ConvertTags(s), false);
    DropTagsFrees(ConvertTags(s), false);
    var u := CollapseRuns(t, '*');
    CollapseLeavesNoPair(t, '*', '*');
    CollapseKeepsCharacters(t, '*');
    var v := CollapseRuns(u, '_');
    CollapseLeavesNoPair(u, '_', '*');
    CollapseKeepsCharacters(u, '_');
    TrimSpaceTrims(v);
    var before, after := TrimSpaceDrops(v);
    InfixKeeps(before, Clean(s), after, '*');
    InfixKeeps(before, Clean(s), after, '_');
  }

  lemma {:induction false} NothingToDrop(s: string)
    requires Free(s)
    ensures DropTags(s, false) == s && DropTags(s, true) == ""
  {
    if s != "" {
      assert s[0] in s;
      NothingToDrop(s[1..]);
    }
  }

  // ----- thirteen passes are one -------------------------------------------------------------

  /** A tag by the word between its brackets, and the mark that replaces it. */
  datatype Tag = Tag(word: string, mark: char) {
    function Text(): string {
      "[" + word + "]"
    }
  }

  const BREAK := [Tag("br", '\n')]
  const BOLD := [Tag("b", '*'), Tag("/b", '*'), Tag("B", '*'), Tag("/B", '*')]
  const ITALIC := [Tag("i", '_'), Tag("/i", '_'), Tag("I", '_'), Tag("/I", '_')]
  const STRUCK := [Tag("s", '~'), Tag("/s", '~'), Tag("S", '~'), Tag("/S", '~')]
  const TAGS: seq<Tag> := BREAK + (BOLD + (ITALIC + STRUCK))

  predicate IsMark(c: char) {
    c == '\n' || c == '*' || c == '_' || c == '~'
  }

  predicate IsWordCharacter(c: char) {
    c == '/' || 'a' <= c <= 'z' || 'A' <= c <= 'Z'
  }

  predicate IsWord(s: string) {
    forall k :: 0 <= k < |s| ==> IsWordCharacter(s[k])
  }

  predicate WellFormed(t: Tag) {
    IsMark(t.mark) && IsWord(t.word)
  }

  /** The first tag of the table that starts the text; 0 tags match when the result is None. */
  function Match(s: string, tags: seq<Tag>): (r: Option<Tag>)
    ensures r.Some? ==> r.value in tags && r.value.Text() <= s
    ensures r.None? ==> forall t :: t in tags ==> !(t.Text() <= s)
  {
    if tags == [] then None
    else if tags[0].Text() <= s then Some(tags[0])
    else Match(s, tags[1..])
  }

  /** One scan from left to right that replaces every tag of the table where it stands. */
  function Scan(s: string, tags: seq<Tag>): string
    requires forall t :: t in tags ==> WellFormed(t)
    decreases |s|
  {
    if s == "" then ""
    else
      match Match(s, tags)
      case Some(t) => [t.mark] + Scan(s[|t.Text()|..], tags)
      case None => [s[0]] + Scan(s[1..], tags)
  }

  /** A tag is never made or broken by replacing another one. */
  lemma {:induction false} PrefixSurvives(s: string, from: Tag, p: string)
    requires WellFormed(from)
    requires forall k :: 0 <= k < |p| ==> IsWordCharacter(p[k]) || p[k] == ']'
    ensures p <= s <==> p <= ReplaceAll(s, from.Text(), [from.mark])
    ensures p <= s ==> ReplaceAll(s, from.Text(), [from.mark])[|p|..] == ReplaceAll(s[|p|..], from.Text(), [from.mark])
  {
    if p != "" && s != "" {
      if from.Text() <= s {
        assert s[0] == '[' && ReplaceAll(s, from.Text(), [from.mark])[0] == from.mark;
        assert p[0] != s[0] && p[0] != from.mark;
      } else {
        PrefixSurvives(s[1..], from, p[1..]);
        var r := ReplaceAll(s, from.Text(), [from.mark]);
        assert r[1..] == ReplaceAll(s[1..], from.Text(), [from.mark]);
        assert p <= s <==> p[0] == s[0] && p[1..] <= s[1..];
        assert p <= r <==> p[0] == r[0] && p[1..] <= r[1..];
        assert p <= s ==> s[1..][|p| - 1..] == s[|p|..] && r[1..][|p| - 1..] == r[|p|..];
      }
    }
  }

  lemma TagSurvives(s: string, from: Tag, t: Tag)
    requires WellFormed(from) && WellFormed(t) && s != "" && !(from.Text() <= s)
    ensures var r := ReplaceAll(s, from.Text(), [from.mark]);
            && (t.Text() <= s <==> t.Text() <= r)
            && (t.Text() <= s ==> r[|t.Text()|..] == ReplaceAll(s[|t.Text()|..], from.Text(), [from.mark]))
  {
    var r := ReplaceAll(s, from.Text(), [from.mark]);
    var rest := ReplaceAll(s[1..], from.Text(), [from.mark]);
    var p := t.word + "]";
    PrefixSurvives(s[1..], from, p);
    assert t.Text() == ['['] + p && s == [s[0]] + s[1..] && r == [s[0]] + rest;
    ConsPrefix('[', p, s[0], s[1..]);
    ConsPrefix('[', p, s[0], rest);
  }

  lemma ConsPrefix(c: char, p: string, x: char, rest: string)
    ensures [c] + p <= [x] + rest <==> c == x && p <= rest
    ensures p <= rest ==> ([x] + rest)[1 + |p|..] == rest[|p|..]
  {
    var t, s := [c] + p, [x] + rest;
    if t <= s {
      assert t[0] == s[0];
      assert forall k :: 0 <= k < |p| ==> p[k] == t[k + 1] && rest[k] == s[k + 1];
    }
  }

  lemma {:induction false} MatchSurvives(s: string, from: Tag, tags: seq<Tag>)
    requires WellFormed(from) && (forall t :: t in tags ==> WellFormed(t)) && s != "" && !(from.Text() <= s)
    ensures Match(ReplaceAll(s, from.Text(), [from.mark]), tags) == Match(s, tags)
  {
    if tags != [] {
      TagSurvives(s, from, tags[0]);
      MatchSurvives(s, from, tags[1..]);
    }
  }

  lemma {:induction false} NoMatch(s: string, tags: seq<Tag>)
    requires (forall t :: t in tags ==> WellFormed(t)) && s != "" && s[0] != '['
    ensures Match(s, tags) == None
  {
    if tags != [] {
      assert tags[0] in tags;
      NoMatch(s, tags[1..]);
    }
  }

  /** A replacement pass followed by a scan is one scan with a larger table. */
  lemma {:induction false} Fuse(s: string, from: Tag, tags: seq<Tag>)
    requires WellFormed(from) && forall t :: t in tags ==> WellFormed(t)
    ensures Scan(ReplaceAll(s, from.Text(), [from.mark]), tags) == Scan(s, [from] + tags)
    decreases |s|
  {
    var all := [from] + tags;
    assert all[1..] == tags;
    if s != "" {
      var r := ReplaceAll(s, from.Text(), [from.mark]);
      if from.Text() <= s {
        var rest := s[|from.Text()|..];
        Fuse(rest, from, tags);
        assert r[1..] == ReplaceAll(rest, from.Text(), [from.mark]);
        NoMatch(r, tags);
      } else {
        MatchSurvives(s, from, tags);
        match Match(s, tags) {
          case Some(t) =>
            TagSurvives(s, from, t);
            Fuse(s[|t.Text()|..], from, tags);
          case None =>
            Fuse(s[1..], from, tags);
            assert r[1..] == ReplaceAll(s[1..], from.Text(), [from.mark]);
        }
      }
    }
  }

  lemma {:induction false} ScanNothing(s: string)
    ensures Scan(s, []) == s
  {
    if s != "" {
      ScanNothing(s[1..]);
    }
  }

  /** One replacement pass for each tag of the table, in its order. */
  function Passes(s: string, tags: seq<Tag>): string
    requires forall t :: t in tags ==> WellFormed(t)
    decreases |tags|
  {
    if tags == [] then s
    else
      assert tags[0] in tags && WellFormed(tags[0]);
      Passes(ReplaceAll(s, tags[0].Text(), [tags[0].mark]), tags[1..])
  }

  lemma {:induction false} PassesAreOneScan(s: string, tags: seq<Tag>)
    requires forall t :: t in tags ==> WellFormed(t)
    ensures Passes(s, tags) == Scan(s, tags)
    decreases |tags|
  {
    if tags == [] {
      ScanNothing(s);
    } else {
      assert tags[0] in tags;
      var r := ReplaceAll(s, tags[0].Text(), [tags[0].mark]);
      PassesAreOneScan(r, tags[1..]);
      Fuse(s, tags[0], tags[1..]);
      assert tags == [tags[0]] + tags[1..];
    }
  }

  lemma TagsWellFormed()
    ensures forall t :: t in TAGS ==> WellFormed(t)
  {
    forall t | t in TAGS ensures WellFormed(t) {
      assert |t.word| <= 2;
    }
  }

  ghost predicate Table(tags: seq<Tag>) {
    forall t :: t in tags ==> WellFormed(t)
  }

  lemma PassStep(s: string, first: Tag, rest: seq<Tag>, text: string, mark: string)
    requires Table([first] + rest) && text == first.Text() && mark == [first.mark]
    ensures Passes(s, [first] + rest) == Passes(ReplaceAll(s, text, mark), rest)
  {
    assert ([first] + rest)[1..] == rest;
  }

  lemma PairStep(s: string, a: Tag, b: Tag, c: Tag, d: Tag, rest: seq<Tag>, open: string, close: string,
                 upperOpen: string, upperClose: string, mark: string)
    requires Table([a] + ([b] + ([c] + ([d] + rest))))
    requires open == a.Text() && close == b.Text() && upperOpen == c.Text() && upperClose == d.Text()
    requires mark == [a.mark] == [b.mark] == [c.mark] == [d.mark]
    ensures Passes(s, [a] + ([b] + ([c] + ([d] + rest))))
         == Passes(ConvertPair(s, open, close, upperOpen, upperClose, mark), rest)
  {
    var s1 := ReplaceAll(s, open, mark);
    var s2 := ReplaceAll(s1, close, mark);
    var s3 := ReplaceAll(s2, upperOpen, mark);
    PassStep(s, a, [b] + ([c] + ([d] + rest)), open, mark);
    PassStep(s1, b, [c] + ([d] + rest), close, mark);
    PassStep(s2, c, [d] + rest, upperOpen, mark);
    PassStep(s3, d, rest, upperClose, mark);
  }

  lemma BoldStep(s: string, rest: seq<Tag>)
    requires Table(BOLD + rest)
    ensures Passes(s, BOLD + rest) == Passes(ConvertPair(s, "[b]", "[/b]", "[B]", "[/B]", "*"), rest)
  {
    var all := [BOLD[0]] + ([BOLD[1]] + ([BOLD[2]] + ([BOLD[3]] + rest)));
    assert all == BOLD + rest;
    PairStep(s, BOLD[0], BOLD[1], BOLD[2], BOLD[3], rest, "[b]", "[/b]", "[B]", "[/B]", "*");
  }

  lemma ItalicStep(s: string, rest: seq<Tag>)
    requires Table(ITALIC + rest)
    ensures Passes(s, ITALIC + rest) == Passes(ConvertPair(s, "[i]", "[/i]", "[I]", "[/I]", "_"), rest)
  {
    var all := [ITALIC[0]] + ([ITALIC[1]] + ([ITALIC[2]] + ([ITALIC[3]] + rest)));
    assert all == ITALIC + rest;
    PairStep(s, ITALIC[0], ITALIC[1], ITALIC[2], ITALIC[3], rest, "[i]", "[/i]", "[I]", "[/I]", "_");
  }

  lemma StruckStep(s: string)
    requires Table(STRUCK)
    ensures Passes(s, STRUCK) == ConvertPair(s, "[s]", "[/s]", "[S]", "[/S]", "~")
  {
    var all := [STRUCK[0]] + ([STRUCK[1]] + ([STRUCK[2]] + ([STRUCK[3]] + [])));
    assert all == STRUCK;
    PairStep(s, STRUCK[0], STRUCK[1], STRUCK[2], STRUCK[3], [], "[s]", "[/s]", "[S]", "[/S]", "~");
  }

  function OneScan(s: string): string {
    TagsWellFormed();
    Scan(s, TAGS)
  }

  /** The thirteen replacement passes are one left-to-right scan that replaces each tag of the table
      where it stands: no pass ever makes or destroys a tag for a later one. */
  lemma ConversionIsOneScan(s: string)
    ensures ConvertTags(s) == OneScan(s)
  {
    TagsWellFormed();
    var s1 := ReplaceAll(s, "[br]", "\n");
    var s2 := ConvertPair(s1, "[b]", "[/b]", "[B]", "[/B]", "*");
    var s3 := ConvertPair(s2, "[i]", "[/i]", "[I]", "[/I]", "_");
    PassStep(s, BREAK[0], BOLD + (ITALIC + STRUCK), "[br]", "\n");
    BoldStep(s1, ITALIC + STRUCK);
    ItalicStep(s2, STRUCK);
    StruckStep(s3);
    PassesAreOneScan(s, TAGS);
  }

  // ----- what stays and what is wrapped --------------------------------------------------------

  lemma {:induction false} ScanPlain(s: string, tags: seq<Tag>)
    requires (forall t :: t in tags ==> WellFormed(t)) && '[' !in s
    ensures Scan(s, tags) == s
  {
    if s != "" {
      assert s[0] in s;
      NoMatch(s, tags);
      ScanPlain(s[1..], tags);
    }
  }

  /** The texts the conversion leaves alone are exactly the normal ones, so it is idempotent. */
  lemma FixedExactlyWhenNormal(s: string)
    ensures Clean(s) == s <==> Normal(s)
    ensures Clean(Clean(s)) == Clean(s)
  {
    CleanIsNormal(s);
    NormalFixed(Clean(s));
    if Normal(s) {
      NormalFixed(s);
    }
  }

  lemma NormalSurvives(s: string)
    requires Normal(s)
    ensures TrimSpace(CollapseRuns(CollapseRuns(DropTags(s, false), '*'), '_')) == s
  {
    NothingToDrop(s);
    CollapsedFixed(s, '*');
    CollapsedFixed(s, '_');
    TrimSpaceTrims(s);
  }

  lemma NormalFixed(s: string)
    requires Normal(s)
    ensures Clean(s) == s
  {
    ConversionIsOneScan(s);
    TagsWellFormed();
    ScanPlain(s, TAGS);
    NormalSurvives(s);
  }

  lemma {:induction false} ScanAfterPlain(x: string, rest: string, tags: seq<Tag>)
    requires (forall t :: t in tags ==> WellFormed(t)) && '[' !in x
    ensures Scan(x + rest, tags) == x + Scan(rest, tags)
  {
    if x == "" {
      assert x + rest == rest;
    } else {
      assert (x + rest)[0] == x[0] && x[0] in x && (x + rest)[1..] == x[1..] + rest;
      NoMatch(x + rest, tags);
      ScanAfterPlain(x[1..], rest, tags);
    }
  }

  /** No tag of the table starts another one, so a tag in front of any text is the one that matches. */
  lemma TagMatchesItself(t: Tag, rest: string)
    requires t in TAGS
    ensures Match(t.Text() + rest, TAGS) == Some(t)
  {
    TagsWellFormed();
    var s := t.Text() + rest;
    assert t.Text() <= s;
    var u := Match(s, TAGS).value;
    SameWord(t, u, s);
    WordsDiffer(t, u);
  }

  lemma SameWord(t: Tag, u: Tag, s: string)
    requires WellFormed(t) && WellFormed(u) && t.Text() <= s && u.Text() <= s
    ensures t.word == u.word
  {
    var n, m := |t.word|, |u.word|;
    assert s[n + 1] == ']' && s[m + 1] == ']';
    assert forall k :: 0 <= k < n ==> s[k + 1] == t.word[k];
    assert forall k :: 0 <= k < m ==> s[k + 1] == u.word[k];
    assert n == m;
    assert forall k :: 0 <= k < n ==> t.word[k] == s[k + 1] == u.word[k];
  }

  lemma WordsDiffer(t: Tag, u: Tag)
    requires t in TAGS && u in TAGS && t.word == u.word
    ensures t == u
  {
    MarkByWord(t);
    MarkByWord(u);
  }

  /** The last letter of a word tells its mark. */
  lemma MarkByWord(t: Tag)
    requires t in TAGS
    ensures t.word != ""
    ensures var c := t.word[|t.word| - 1];
            t.mark == if c == 'r' then '\n' else if c in "bB" then '*' else if c in "iI" then '_' else '~'
  {
  }

  /** Bold, italic or struck text: the words between an opening and a closing tag with the same mark
      come out unchanged between two marks, provided they are normal and do not touch the marks. */
  lemma Wrapped(open: Tag, close: Tag, x: string)
    requires open in TAGS && close in TAGS && open.mark == close.mark && open.mark != '\n'
    requires Normal(x) && x != "" && x[0] != open.mark && x[|x| - 1] != open.mark
    ensures Clean(open.Text() + x + close.Text()) == [open.mark] + x + [open.mark]
  {
    WrappedConverts(open, close, x);
    TagsWellFormed();
    WrapIsNormal(open.mark, x);
    NormalSurvives([open.mark] + x + [open.mark]);
  }

  /** Bold, in the letters of Bitrix and of WhatsApp ... */
  lemma Bold(x: string)
    requires Normal(x) && x != "" && x[0] != '*' && x[|x| - 1] != '*'
    ensures Clean("[b]" + x + "[/b]") == Clean("[B]" + x + "[/B]") == "*" + x + "*"
  {
    hide Clean, Normal;
    assert forall t :: t in BOLD ==> t in TAGS;
    Spelled(BOLD[0], BOLD[1], x, "[b]", "[/b]", "*");
    Spelled(BOLD[2], BOLD[3], x, "[B]", "[/B]", "*");
  }

  /** ... italic ... */
  lemma Italic(x: string)
    requires Normal(x) && x != "" && x[0] != '_' && x[|x| - 1] != '_'
    ensures Clean("[i]" + x + "[/i]") == Clean("[I]" + x + "[/I]") == "_" + x + "_"
  {
    hide Clean, Normal;
    assert forall t :: t in ITALIC ==> t in TAGS;
    Spelled(ITALIC[0], ITALIC[1], x, "[i]", "[/i]", "_");
    Spelled(ITALIC[2], ITALIC[3], x, "[I]", "[/I]", "_");
  }

  /** ... and struck out. */
  lemma Struck(x: string)
    requires Normal(x) && x != "" && x[0] != '~' && x[|x| - 1] != '~'
    ensures Clean("[s]" + x + "[/s]") == Clean("[S]" + x + "[/S]") == "~" + x + "~"
  {
    hide Clean, Normal;
    assert forall t :: t in STRUCK ==> t in TAGS;
    Spelled(STRUCK[0], STRUCK[1], x, "[s]", "[/s]", "~");
    Spelled(STRUCK[2], STRUCK[3], x, "[S]", "[/S]", "~");
  }

  lemma Spelled(open: Tag, close: Tag, x: string, before: string, after: string, mark: string)
    requires open in TAGS && close in TAGS && open.Text() == before && close.Text() == after
    requires mark == [open.mark] == [close.mark] && open.mark != '\n'
    requires Normal(x) && x != "" && x[0] != open.mark && x[|x| - 1] != open.mark
    ensures Clean(before + x + after) == mark + x + mark
  {
    hide Clean, Normal;
    Wrapped(open, close, x);
  }

  lemma WrapIsNormal(mark: char, x: string)
    requires IsMark(mark) && mark != '\n'
    requires Normal(x) && x != "" && x[0] != mark && x[|x| - 1] != mark
    ensures Normal([mark] + x + [mark])
  {
    WrapKeepsNoPair(mark, x, '*');
    WrapKeepsNoPair(mark, x, '_');
  }

  lemma WrappedConverts(open: Tag, close: Tag, x: string)
    requires open in TAGS && close in TAGS && '[' !in x
    ensures ConvertTags(open.Text() + x + close.Text()) == [open.mark] + x + [close.mark]
  {
    hide Scan, ConvertTags;
    TagsWellFormed();
    var s, rest := open.Text() + x + close.Text(), x + close.Text();
    calc {
      ConvertTags(s);
      { ConversionIsOneScan(s); assert s == open.Text() + rest; }
      OneScan(open.Text() + rest);
      { ScanTag(open, rest); }
      [open.mark] + OneScan(rest);
      { ScanAfterPlain(x, close.Text(), TAGS); }
      [open.mark] + (x + OneScan(close.Text()));
      { ScanTag(close, ""); assert close.Text() + "" == close.Text(); }
      [open.mark] + (x + ([close.mark] + OneScan("")));
      { ScanEmpty(); }
      [open.mark] + (x + ([close.mark] + ""));
    }
  }

  lemma ScanEmpty()
    ensures OneScan("") == ""
  {
  }

  lemma ScanTag(t: Tag, rest: string)
    requires t in TAGS
    ensures OneScan(t.Text() + rest) == [t.mark] + OneScan(rest)
  {
    TagMatchesItself(t, rest);
    assert (t.Text() + rest)[|t.Text()|..] == rest;
  }

  lemma WrapKeepsNoPair(mark: char, x: string, c: char)
    requires NoPair(x, c) && x != "" && x[0] != mark && x[|x| - 1] != mark
    ensures NoPair([mark] + x + [mark], c)
  {
    var w := [mark] + x + [mark];
    forall k | 0 < k < |w| ensures !(w[k - 1] == c && w[k] == c) {
      assert 1 < k < |w| - 1 ==> w[k - 1] == x[k - 2] && w[k] == x[k - 1];
    }
  }

  // ----- where the conversion stops short ------------------------------------------------------

  /** A text with one bracketed word converts exactly by the thirteen entries of the table. */
  lemma OneTag(x: string, w: string, y: string)
    requires '[' !in x && '[' !in w && ']' !in w && '[' !in y
    ensures var tag := "[" + w + "]";
            var out := if Match(tag, TAGS).Some? then [Match(tag, TAGS).value.mark] else tag;
            ConvertTags(x + (tag + y)) == x + (out + y)
  {
    hide ConvertTags, Scan, Match;
    TagsWellFormed();
    var tag := "[" + w + "]";
    ConversionIsOneScan(x + (tag + y));
    ScanAfterPlain(x, tag + y, TAGS);
    ScanWord(tag, w, y);
  }

  /** Only a tag with this very word starts a bracketed word, whatever follows. */
  lemma MatchInFront(w: string, y: string)
    requires '[' !in w && ']' !in w
    ensures Match(("[" + w + "]") + y, TAGS) == Match("[" + w + "]", TAGS)
    ensures forall t :: t in TAGS && t.Text() <= ("[" + w + "]") + y ==> t.word == w
  {
    TagsWellFormed();
    var tag := "[" + w + "]";
    forall t | t in TAGS && t.Text() <= tag + y ensures t.word == w {
      WordInFront(t, w, y);
    }
    forall t | t in TAGS && t.Text() <= tag ensures t.word == w {
      assert tag + "" == tag;
      WordInFront(t, w, "");
    }
    if Match(tag + y, TAGS).Some? {
      assert Match(tag + y, TAGS).value.Text() == tag;
    }
    if Match(tag, TAGS).Some? {
      TagMatchesItself(Match(tag, TAGS).value, y);
    }
  }

  lemma WordInFront(t: Tag, w: string, y: string)
    requires WellFormed(t) && '[' !in w && ']' !in w && t.Text() <= ("[" + w + "]") + y
    ensures t.word == w
  {
    var s, n := ("[" + w + "]") + y, |t.word|;
    assert s[n + 1] == t.Text()[n + 1] == ']' && s[|w| + 1] == ']';
    forall k | 0 <= k < |w| ensures s[k + 1] == w[k] && s[k + 1] != ']' {
      assert w[k] in w;
    }
    forall k | 0 <= k < n ensures s[k + 1] == t.word[k] && s[k + 1] != ']' {
      assert s[k + 1] == t.Text()[k + 1] && IsWordCharacter(t.word[k]);
    }
  }

  lemma ScanWord(tag: string, w: string, y: string)
    requires tag == "[" + w + "]" && '[' !in w && ']' !in w && '[' !in y
    ensures Match(tag, TAGS).Some? ==> OneScan(tag + y) == [Match(tag, TAGS).value.mark] + y
    ensures Match(tag, TAGS).None? ==> OneScan(tag + y) == tag + y
  {
    hide Match, OneScan, WellFormed;
    MatchInFront(w, y);
    if Match(tag, TAGS).Some? {
      ScanTagThen(Match(tag, TAGS).value, y);
    } else {
      NoBracketBehind(tag, w, y);
      ScanBracketThen(tag + y);
    }
  }

  lemma NoBracketBehind(tag: string, w: string, y: string)
    requires tag == "[" + w + "]" && '[' !in w && '[' !in y
    ensures '[' !in (tag + y)[1..]
  {
    assert (tag + y)[1..] == w + ("]" + y);
  }

  lemma ScanTagThen(t: Tag, y: string)
    requires t in TAGS && '[' !in y
    ensures OneScan(t.Text() + y) == [t.mark] + y
  {
    hide Match, Scan;
    TagsWellFormed();
    ScanTag(t, y);
    ScanPlain(y, TAGS);
  }

  lemma ScanBracketThen(s: string)
    requires s != "" && Match(s, TAGS).None? && '[' !in s[1..]
    ensures OneScan(s) == s
  {
    TagsWellFormed();
    ScanPlain(s[1..], TAGS);
    assert s == [s[0]] + s[1..];
  }

  /** The line break, unlike the other tags, is converted in lower case only: in any other spelling it
      loses its brackets and its word with them, and the lines run together. */
  lemma BreakConvertsIff(x: string, w: string, y: string)
    requires '[' !in x && '[' !in y && ToLower(w) == "br"
    ensures ConvertTags(x + (("[" + w + "]") + y)) == x + ("\n" + y) <==> w == "br"
    ensures w != "br" ==> ConvertTags(x + (("[" + w + "]") + y)) == x + (("[" + w + "]") + y)
    ensures w != "br" && ']' !in x && ']' !in y ==> DropTags(ConvertTags(x + (("[" + w + "]") + y)), false) == x + y
  {
    hide ConvertTags, Match, DropTags;
    assert |w| == 2 && w[0] in "bB" && w[1] in "rR";
    OneTag(x, w, y);
    MatchInFront(w, "");
    assert ("[" + w + "]") + "" == "[" + w + "]";
    var tag := "[" + w + "]";
    if w == "br" {
      TagMatchesItself(BREAK[0], "");
      assert BREAK[0].Text() + "" == tag;
    } else {
      forall t | t in TAGS ensures t.word != w {
        LongWords(t);
      }
      assert x + (tag + y) != x + ("\n" + y) by {
        assert |x + (tag + y)| > |x + ("\n" + y)|;
      }
      if ']' !in x && ']' !in y {
        DropsBracketed(x, w, y);
      }
    }
  }

  lemma LongWords(t: Tag)
    requires t in TAGS
    ensures |t.word| == 1 || t.word[0] == '/' || t.word == "br"
  {
  }

  lemma DropsBracketed(x: string, w: string, y: string)
    requires Free(x) && Free(w) && Free(y)
    ensures DropTags(x + (("[" + w + "]") + y), false) == x + y
  {
    hide DropTags, Free;
    var rest := ("[" + w + "]") + y;
    DropsAfter(x, rest, false);
    assert rest[0] == '[' && rest[1..] == w + ("]" + y);
    OpenBracket(rest);
    DropsAfter(w, "]" + y, true);
    assert ("]" + y)[1..] == y;
    ClosedBracket("]" + y);
    NothingToDrop(x);
    NothingToDrop(w);
    NothingToDrop(y);
  }

  lemma OpenBracket(s: string)
    requires s != "" && s[0] == '['
    ensures DropTags(s, false) == DropTags(s[1..], true)
  {
  }

  lemma ClosedBracket(s: string)
    requires s != "" && s[0] == ']'
    ensures DropTags(s, true) == DropTags(s[1..], false)
  {
  }

  /** The text ends inside a bracket that nothing closes. */
  predicate Unclosed(s: string) {
    LastIndexOf(s, '[') > LastIndexOf(s, ']')
  }

  lemma LastIndexTail(s: string, c: char)
    requires s != ""
    ensures LastIndexOf(s, c)
         == if c in s[1..] then LastIndexOf(s[1..], c) + 1 else if s[0] == c then 0 else -1
  {
    var i, j := LastIndexOf(s, c), LastIndexOf(s[1..], c);
    assert forall k :: 1 <= k < |s| ==> s[k] == s[1..][k - 1];
    assert i >= 1 ==> s[i] == s[1..][i - 1];
    assert j >= 0 ==> s[j + 1] == c;
  }

  lemma UnclosedTail(s: string)
    requires s != ""
    ensures Free(s) <==> s[0] != '[' && s[0] != ']' && Free(s[1..])
    ensures Unclosed(s) == if Free(s[1..]) then s[0] == '[' else Unclosed(s[1..])
  {
    LastIndexTail(s, '[');
    LastIndexTail(s, ']');
    assert s == [s[0]] + s[1..];
  }

  /** Dropping goes on after a text as its last bracket says. */
  lemma {:induction false} DropsAfter(s: string, t: string, inTag: bool)
    ensures DropTags(s + t, inTag) == DropTags(s, inTag) + DropTags(t, if Free(s) then inTag else Unclosed(s))
    decreases |s|
  {
    hide Free, Unclosed;
    if s == "" {
      assert s + t == t;
      assert Free(s) by { NoBracket(); }
    } else {
      assert (s + t)[0] == s[0] && (s + t)[1..] == s[1..] + t;
      UnclosedTail(s);
      DropsAfter(s[1..], t, if s[0] == '[' then true else if s[0] == ']' then false else inTag);
    }
  }

  lemma NoBracket()
    ensures Free("")
  {
  }

  /** The tags of a text are converted alike whatever plain text follows it. */
  lemma {:induction false} ScanThenPlain(s: string, t: string)
    requires Free(t)
    ensures OneScan(s + t) == OneScan(s) + t
    decreases |s|
  {
    hide Match;
    TagsWellFormed();
    if s == "" {
      assert s + t == t;
      ScanPlain(t, TAGS);
    } else {
      MatchThenPlain(s, t);
      match Match(s, TAGS)
      case Some(tag) =>
        var n := |tag.Text()|;
        assert (s + t)[n..] == s[n..] + t;
        ScanThenPlain(s[n..], t);
      case None =>
        assert (s + t)[0] == s[0] && (s + t)[1..] == s[1..] + t;
        ScanThenPlain(s[1..], t);
    }
  }

  lemma MatchThenPlain(s: string, t: string)
    requires Free(t) && s != ""
    ensures Match(s + t, TAGS) == Match(s, TAGS)
  {
    hide Match, WellFormed, Free;
    TagsWellFormed();
    if Match(s + t, TAGS).Some? {
      TagEndsInFront(Match(s + t, TAGS).value, s, t);
    }
    if Match(s, TAGS).Some? {
      var u := Match(s, TAGS).value;
      TagMatchesItself(u, s[|u.Text()|..] + t);
      assert s + t == u.Text() + (s[|u.Text()|..] + t);
    }
  }

  lemma TagEndsInFront(tag: Tag, s: string, t: string)
    requires Free(t) && tag.Text() <= s + t
    ensures tag.Text() <= s
  {
    forall k | |s| <= k < |s + t| ensures (s + t)[k] != ']' {
      assert t[k - |s|] in t;
    }
    var n := |tag.Text()|;
    assert (s + t)[n - 1] == tag.Text()[n - 1] == ']';
  }

  /** Exactly which text an operator loses: what follows is dropped if and only if the tags converted
      leave a bracket open, and otherwise it is kept as it is. */
  lemma RestLostIff(s: string, t: string)
    requires Free(t) && t != ""
    ensures DropTags(s + t, false) == DropTags(s, false) <==> Unclosed(s)
    ensures var c := ConvertTags(s);
            && DropTags(ConvertTags(s + t), false) == DropTags(c, false) + (if Unclosed(c) then "" else t)
            && (DropTags(ConvertTags(s + t), false) == DropTags(c, false) <==> Unclosed(c))
            && (Unclosed(c) ==> Clean(s + t) == Clean(s))
  {
    hide ConvertTags, DropTags, Unclosed;
    ConversionIsOneScan(s);
    ConversionIsOneScan(s + t);
    ScanThenPlain(s, t);
    RestDropped(s, t);
    RestDropped(ConvertTags(s), t);
  }

  lemma RestDropped(s: string, t: string)
    requires Free(t)
    ensures DropTags(s + t, false) == DropTags(s, false) + (if Unclosed(s) then "" else t)
  {
    DropsAfter(s, t, false);
    NothingToDrop(t);
    assert Free(s) ==> LastIndexOf(s, '[') == LastIndexOf(s, ']') == -1;
  }
}
