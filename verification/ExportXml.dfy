/** The XML form of an exported report: how it is printed, and that reading it back as XML gives the
    report. */
module ExportXml {
  import opened Text
  import opened Xml

  // ----- tag names ---------------------------------------------------------------------------

  predicate IsTagChar(c: char) {
    'a' <= c <= 'z' || 'A' <= c <= 'Z' || '0' <= c <= '9'
  }

  function TagChar(c: char): char {
    if IsTagChar(c) then c else '_'
  }

  function TagName(s: string): string {
    var out := seq(|s|, i requires 0 <= i < |s| => TagChar(s[i]));
    if out == "" then "campo" else if IsDigit(out[0]) then "c" + out else out
  }

  method XmlTagName(s: string) returns (r: string)
    ensures r == TagName(s) && IsName(r)
  {
    var out := "";
    for i := 0 to |s|
      invariant out == seq(i, k requires 0 <= k < i => TagChar(s[k]))
    {
      out := out + if IsTagChar(s[i]) then [s[i]] else "_";
    }
    TagNameIsName(s);
    if |out| == 0 {
      return "campo";
    }
    if IsDigit(out[0]) {
      out := "c" + out;
    }
    return out;
  }

  /** Whatever the header, its tag is a Name (section 2.3 of XML 1.0), made of letters, digits and
      underscores only; a header made of them that is a Name itself is its own tag. */
  lemma TagNameIsName(s: string)
    ensures IsName(TagName(s))
    ensures forall k :: 0 <= k < |TagName(s)| ==> IsTagChar(TagName(s)[k]) || TagName(s)[k] == '_'
    ensures s != "" && !IsDigit(s[0]) && (forall k :: 0 <= k < |s| ==> IsTagChar(s[k]) || s[k] == '_') ==>
              TagName(s) == s
  {
  }

  /** The tag, character by character: every letter and digit stays in its place, everything else is an
      underscore, and a 'c' comes before a digit in front. */
  lemma TagByCharacter(s: string, k: nat)
    ensures s == "" ==> TagName(s) == "campo"
    ensures s != "" ==> |TagName(s)| == |s| + (if '0' <= s[0] <= '9' then 1 else 0)
    ensures s != "" && '0' <= s[0] <= '9' ==> TagName(s)[0] == 'c'
    ensures k < |s| ==>
              TagName(s)[if '0' <= s[0] <= '9' then k + 1 else k]
              == if 'a' <= s[k] <= 'z' || 'A' <= s[k] <= 'Z' || '0' <= s[k] <= '9' then s[k] else '_'
  {
  }

  function FieldName(headers: seq<string>, i: nat): string {
    if i < |headers| then TagName(headers[i]) else "coluna"
  }

  lemma FieldNameIsName(headers: seq<string>, i: nat)
    ensures IsName(FieldName(headers, i))
  {
    if i < |headers| {
      TagNameIsName(headers[i]);
    }
  }

  // ----- printing ----------------------------------------------------------------------------

  function Spaces(n: nat): string {
    seq(n, _ => ' ')
  }

  /** The end of a line and the indentation of the next. */
  function Break(n: nat): string {
    "\n" + Spaces(n)
  }

  function ElementThen(name: string, text: string, rest: string): string {
    OpenTag(name) + (Escape(text) + (CloseTag(name) + rest))
  }

  /** The cells of a row from column i on, each on its own line, and the rest. */
  function FieldsThen(headers: seq<string>, row: seq<string>, i: nat, rest: string): string
    requires i <= |row|
    decreases |row| - i
  {
    if i == |row| then rest
    else Break(6) + ElementThen(FieldName(headers, i), row[i], FieldsThen(headers, row, i + 1, rest))
  }

  function RecordsThen(headers: seq<string>, rows: seq<seq<string>>, i: nat, rest: string): string
    requires i <= |rows|
    decreases |rows| - i
  {
    if i == |rows| then rest
    else
      Break(4) + (OpenTag("registro")
      + FieldsThen(headers, rows[i], 0, Break(4) + (CloseTag("registro") + RecordsThen(headers, rows, i + 1, rest))))
  }

  function Tail(): string {
    Break(2) + (CloseTag("dados") + (Break(0) + CloseTag("relatorio")))
  }

  function Document(title: string, when: string, headers: seq<string>, rows: seq<seq<string>>): string {
    DECLARATION
    + (OpenTag("relatorio")
    + (Break(2) + ElementThen("titulo", title,
       Break(2) + ElementThen("gerado_em", when,
       Break(2) + (OpenTag("dados") + RecordsThen(headers, rows, 0, Tail()))))))
  }

  /** The characters of a date and time as the report prints them. */
  predicate IsTimestamp(s: string) {
    s != "" && forall k :: 0 <= k < |s| ==> IsDigit(s[k]) || s[k] == '/' || s[k] == ':' || s[k] == ' '
  }

  lemma Regroup(a: string, b: string, c: string)
    ensures (a + b) + c == a + (b + c)
  {
  }

  /** A line appended to a buffer that ends a line. */
  lemma AppendLine(sofar: string, n: nat, name: string, text: string, rest: string)
    ensures sofar + "\n" + Spaces(n) + OpenTag(name) + text + CloseTag(name) + "\n"
         == sofar + Break(n) + OpenTag(name) + text + CloseTag(name) + "\n"
    ensures sofar + Break(n) + OpenTag(name) + text + CloseTag(name) + rest
         == sofar + (Break(n) + (OpenTag(name) + (text + (CloseTag(name) + rest))))
  {
    hide Spaces, OpenTag, CloseTag;
    Regroup(sofar, "\n", Spaces(n));
    var o, c := OpenTag(name), CloseTag(name);
    Regroup(sofar + Break(n) + o + text, c, rest);
    Regroup(sofar + Break(n) + o, text, c + rest);
    Regroup(sofar + Break(n), o, text + (c + rest));
    Regroup(sofar, Break(n), o + (text + (c + rest)));
  }

  /** A tag alone on its line. */
  lemma AppendTag(sofar: string, n: nat, tag: string, rest: string)
    ensures sofar + "\n" + Spaces(n) + tag + "\n" == sofar + Break(n) + tag + "\n"
    ensures sofar + Break(n) + tag + rest == sofar + (Break(n) + (tag + rest))
  {
    hide Spaces;
    Regroup(sofar, "\n", Spaces(n));
    Regroup(sofar + Break(n), tag, rest);
    Regroup(sofar, Break(n), tag + rest);
  }

  predicate EndsLine(buf: string) {
    buf != "" && buf[|buf| - 1] == '\n'
  }

  /** A buffer up to its last line end. */
  function UpTo(buf: string): string
    requires EndsLine(buf)
  {
    buf[..|buf| - 1]
  }

  lemma LineEnds(buf: string)
    ensures EndsLine(buf + "\n") && UpTo(buf + "\n") == buf
    ensures EndsLine(buf) ==> buf == UpTo(buf) + "\n"
  {
  }

  /** The lines of one row, after a buffer that ends a line. */
  method ExportRow(headers: seq<string>, row: seq<string>, before: string, ghost rest: string) returns (buf: string)
    requires EndsLine(before)
    ensures EndsLine(buf) && UpTo(buf) + rest == UpTo(before) + FieldsThen(headers, row, 0, rest)
  {
    hide Spaces, Break, OpenTag, CloseTag, Escape, TagName, IsName, EndsLine, UpTo;
    LineEnds(before);
    buf := before;
    ghost var written := UpTo(before);
    var i := 0;
    while i < |row|
      invariant 0 <= i <= |row|
      invariant buf == written + "\n"
      invariant written + FieldsThen(headers, row, i, rest) == UpTo(before) + FieldsThen(headers, row, 0, rest)
    {
      var colName := "coluna";
      if i < |headers| {
        colName := XmlTagName(headers[i]);
      }
      buf := buf + Spaces(6) + OpenTag(colName) + Escape(row[i]) + CloseTag(colName) + "\n";
      AppendLine(written, 6, colName, Escape(row[i]), FieldsThen(headers, row, i + 1, rest));
      written := written + Break(6) + OpenTag(colName) + Escape(row[i]) + CloseTag(colName);
      i := i + 1;
    }
    LineEnds(written);
  }

  /** The lines of all the rows. */
  method ExportRows(headers: seq<string>, rows: seq<seq<string>>, before: string, ghost rest: string)
    returns (buf: string)
    requires EndsLine(before)
    ensures EndsLine(buf) && UpTo(buf) + rest == UpTo(before) + RecordsThen(headers, rows, 0, rest)
  {
    hide Spaces, Break, OpenTag, CloseTag, FieldsThen, EndsLine, UpTo;
    LineEnds(before);
    buf := before;
    ghost var written := UpTo(before);
    var i := 0;
    while i < |rows|
      invariant 0 <= i <= |rows|
      invariant buf == written + "\n"
      invariant written + RecordsThen(headers, rows, i, rest) == UpTo(before) + RecordsThen(headers, rows, 0, rest)
    {
      ghost var more := RecordsThen(headers, rows, i + 1, rest);
      ghost var end := Break(4) + (CloseTag("registro") + more);
      buf := buf + Spaces(4) + OpenTag("registro") + "\n";
      AppendTag(written, 4, OpenTag("registro"), FieldsThen(headers, rows[i], 0, end));
      LineEnds(written + Break(4) + OpenTag("registro"));
      buf := ExportRow(headers, rows[i], buf, end);
      LineEnds(buf);
      written := UpTo(buf);
      buf := buf + Spaces(4) + CloseTag("registro") + "\n";
      AppendTag(written, 4, CloseTag("registro"), more);
      written := written + Break(4) + CloseTag("registro");
      i := i + 1;
    }
    LineEnds(written);
  }

  /** What precedes the rows. */
  lemma HeadGrows(title: string, when: string, rest: string)
    requires IsTimestamp(when)
    ensures var begun := DECLARATION + OpenTag("relatorio");
            var titled := begun + Break(2) + OpenTag("titulo") + Escape(title) + CloseTag("titulo");
            var dated := titled + Break(2) + OpenTag("gerado_em") + when + CloseTag("gerado_em");
            dated + Break(2) + OpenTag("dados") + rest
            == DECLARATION + (OpenTag("relatorio") + (Break(2) + ElementThen("titulo", title,
                 Break(2) + ElementThen("gerado_em", when, Break(2) + (OpenTag("dados") + rest)))))
  {
    EscapeOfPlain(when);
    hide Break, OpenTag, CloseTag, Escape;
    var begun := DECLARATION + OpenTag("relatorio");
    var titled := begun + Break(2) + OpenTag("titulo") + Escape(title) + CloseTag("titulo");
    var dated := titled + Break(2) + OpenTag("gerado_em") + when + CloseTag("gerado_em");
    var rest1 := Break(2) + (OpenTag("dados") + rest);
    AppendTag(dated, 2, OpenTag("dados"), rest);
    AppendLine(titled, 2, "gerado_em", when, rest1);
    var rest2 := Break(2) + ElementThen("gerado_em", when, rest1);
    AppendLine(begun, 2, "titulo", Escape(title), rest2);
    Regroup(DECLARATION, OpenTag("relatorio"), Break(2) + ElementThen("titulo", title, rest2));
  }

  method ExportXML(headers: seq<string>, rows: seq<seq<string>>, title: string, when: string) returns (doc: string)
    requires IsTimestamp(when)
    ensures doc == Document(title, when, headers, rows)
    ensures Read(doc) == Some(Expected(title, when, headers, rows))
  {
    hide Read, Expected, Spaces, Break, OpenTag, CloseTag, Escape, RecordsThen, IsTimestamp, EndsLine, UpTo;
    var begun := DECLARATION + OpenTag("relatorio");
    var buf := begun + "\n" + Spaces(2) + OpenTag("titulo") + Escape(title) + CloseTag("titulo") + "\n";
    AppendLine(begun, 2, "titulo", Escape(title), "");
    ghost var titled := begun + Break(2) + OpenTag("titulo") + Escape(title) + CloseTag("titulo");
    buf := buf + Spaces(2) + OpenTag("gerado_em") + when + CloseTag("gerado_em") + "\n";
    AppendLine(titled, 2, "gerado_em", when, "");
    ghost var dated := titled + Break(2) + OpenTag("gerado_em") + when + CloseTag("gerado_em");
    buf := buf + Spaces(2) + OpenTag("dados") + "\n";
    AppendTag(dated, 2, OpenTag("dados"), "");
    ghost var head := dated + Break(2) + OpenTag("dados");
    HeadGrows(title, when, RecordsThen(headers, rows, 0, Tail()));
    LineEnds(head);
    buf := ExportRows(headers, rows, buf, Tail());
    LineEnds(buf);
    ghost var written := UpTo(buf);
    buf := buf + Spaces(2) + CloseTag("dados") + "\n" + CloseTag("relatorio");
    TailGrows(written);
    DocumentReads(title, when, headers, rows);
    return buf;
  }

  lemma TailGrows(written: string)
    ensures written + "\n" + Spaces(2) + CloseTag("dados") + "\n" + CloseTag("relatorio") == written + Tail()
  {
    assert Break(0) == "\n";
    hide Spaces, CloseTag;
    AppendTag(written, 2, CloseTag("dados"), Break(0) + CloseTag("relatorio"));
    Regroup(written + Break(2) + CloseTag("dados"), "\n", CloseTag("relatorio"));
  }

  // ----- reading -----------------------------------------------------------------------------

  datatype Field = Field(tag: string, text: string)

  datatype Report = Report(title: string, when: string, rows: seq<seq<Field>>)

  function FieldsOf(nodes: seq<Node>): seq<Field> {
    if nodes == [] then []
    else (if nodes[0].Elem? then [Field(nodes[0].name, TextOf(nodes[0].kids))] else []) + FieldsOf(nodes[1..])
  }

  function RowsOf(nodes: seq<Node>): seq<seq<Field>> {
    if nodes == [] then []
    else (if nodes[0].Elem? then [FieldsOf(nodes[0].kids)] else []) + RowsOf(nodes[1..])
  }

  /** The report a consumer finds in the document: None unless it is well-formed XML of this shape. */
  function Read(doc: string): Option<Report> {
    match Root(doc)
    case None => None
    case Some(root) =>
      var es := Elements(root.kids);
      if root.name == "relatorio" && |es| == 3
         && es[0].name == "titulo" && es[1].name == "gerado_em" && es[2].name == "dados"
      then Some(Report(TextOf(es[0].kids), TextOf(es[1].kids), RowsOf(es[2].kids)))
      else None
  }

  function ExpectedRow(headers: seq<string>, row: seq<string>): seq<Field> {
    seq(|row|, i requires 0 <= i < |row| => Field(FieldName(headers, i), Sanitized(row[i])))
  }

  function Expected(title: string, when: string, headers: seq<string>, rows: seq<seq<string>>): Report {
    Report(Sanitized(title), when, seq(|rows|, i requires 0 <= i < |rows| => ExpectedRow(headers, rows[i])))
  }

  // ----- the tree behind the text ------------------------------------------------------------

  function Leaf(text: string): seq<Node> {
    if text == "" then [] else [Data(Sanitized(text))]
  }

  function FieldNodes(headers: seq<string>, row: seq<string>, i: nat): seq<Node>
    requires i <= |row|
    decreases |row| - i
  {
    if i == |row| then [Data(Break(4))]
    else [Data(Break(6)), Elem(FieldName(headers, i), Leaf(row[i]))] + FieldNodes(headers, row, i + 1)
  }

  function RecordNodes(headers: seq<string>, rows: seq<seq<string>>, i: nat): seq<Node>
    requires i <= |rows|
    decreases |rows| - i
  {
    if i == |rows| then [Data(Break(2))]
    else [Data(Break(4)), Elem("registro", FieldNodes(headers, rows[i], 0))] + RecordNodes(headers, rows, i + 1)
  }

  function Dados(headers: seq<string>, rows: seq<seq<string>>): Node {
    Elem("dados", RecordNodes(headers, rows, 0))
  }

  function Tree(title: string, when: string, headers: seq<string>, rows: seq<seq<string>>): Node {
    Elem("relatorio",
         [Data(Break(2)), Elem("titulo", Leaf(title)), Data(Break(2)), Elem("gerado_em", Leaf(when)),
          Data(Break(2)), Dados(headers, rows), Data(Break(0))])
  }

  predicate IsBlank(s: string) {
    forall k :: 0 <= k < |s| ==> s[k] == '\n' || s[k] == ' '
  }

  lemma {:induction false} BlankReads(s: string)
    requires IsBlank(s)
    ensures Unescape(s) == Some(s)
  {
    if s != "" {
      BlankReads(s[1..]);
      assert s == [s[0]] + s[1..];
    }
  }

  lemma LexBreak(n: nat, rest: string)
    requires rest != "" && rest[0] == '<'
    ensures Lex(Break(n) + rest) == Xml.Before(Chars(Break(n)), Lex(rest))
  {
    hide Unescape, Lex;
    BlankReads(Break(n));
    LexChars(Break(n), Break(n), rest);
  }

  lemma LexElement(name: string, text: string, rest: string, ts: seq<Token>)
    requires IsName(name) && Lex(rest) == Some(ts)
    ensures Lex(ElementThen(name, text, rest)) == Some(TokensThen([Elem(name, Leaf(text))], ts))
  {
    hide Unescape, Lex, IsName, Escape, OpenTag, CloseTag;
    var raw := Escape(text);
    var close := CloseTag(name) + rest;
    LexClose(name, rest);
    TagStarts(name, rest);
    LexOpen(name, raw + close);
    EscapedIsPlain(text);
    EscapedReads(text);
    if text == "" {
      assert raw + close == close;
    } else {
      LexChars(raw, Sanitized(text), close);
      assert [Chars(Sanitized(text)), Close(name)] + ts == [Chars(Sanitized(text))] + ([Close(name)] + ts);
    }
    LeafTokens(name, text, ts);
  }

  lemma LeafTokens(name: string, text: string, ts: seq<Token>)
    ensures TokensThen([Elem(name, Leaf(text))], ts)
         == [Open(name)] + (if text == "" then [Close(name)] + ts else [Chars(Sanitized(text)), Close(name)] + ts)
  {
    hide Sanitized;
    var after := [Close(name)] + ts;
    assert TokensThen([], ts) == ts;
    assert [Elem(name, Leaf(text))][1..] == [];
    if text != "" {
      assert [Data(Sanitized(text))][1..] == [];
      assert TokensThen(Leaf(text), after) == [Chars(Sanitized(text))] + after;
    }
  }

  lemma PairTokens(text: string, e: Node, more: seq<Node>, ts: seq<Token>)
    requires e.Elem?
    ensures TokensThen([Data(text), e] + more, ts) == [Chars(text)] + TokensThen([e], TokensThen(more, ts))
  {
    var all := [Data(text), e] + more;
    assert all[1..] == [e] + more;
    assert ([e] + more)[1..] == more;
    assert [e][1..] == [];
    assert TokensThen([], TokensThen(more, ts)) == TokensThen(more, ts);
    assert TokensThen([e], TokensThen(more, ts))
        == [Open(e.name)] + TokensThen(e.kids, [Close(e.name)] + TokensThen(more, ts));
  }

  lemma LastTokens(text: string, ts: seq<Token>)
    ensures TokensThen([Data(text)], ts) == [Chars(text)] + ts
  {
    assert [Data(text)][1..] == [];
  }

  /** A line break, an element and the rest. */
  lemma LexPair(n: nat, name: string, text: string, rest: string, more: seq<Node>, ts: seq<Token>)
    requires IsName(name) && Lex(rest) == Some(TokensThen(more, ts))
    ensures Lex(Break(n) + ElementThen(name, text, rest))
         == Some(TokensThen([Data(Break(n)), Elem(name, Leaf(text))] + more, ts))
  {
    hide Lex, TokensThen, IsName, Escape, Leaf, Break, OpenTag;
    LexElement(name, text, rest, TokensThen(more, ts));
    TagStarts(name, Escape(text) + (CloseTag(name) + rest));
    LexBreak(n, ElementThen(name, text, rest));
    PairTokens(Break(n), Elem(name, Leaf(text)), more, ts);
  }

  lemma {:induction false} FieldsLex(headers: seq<string>, row: seq<string>, i: nat, close: string, ts: seq<Token>)
    requires i <= |row| && close != "" && close[0] == '<' && Lex(close) == Some(ts)
    ensures Lex(FieldsThen(headers, row, i, Break(4) + close)) == Some(TokensThen(FieldNodes(headers, row, i), ts))
    decreases |row| - i
  {
    hide Lex, TokensThen, ElementThen, FieldName, IsName, Break;
    if i == |row| {
      LexBreak(4, close);
      LastTokens(Break(4), ts);
    } else {
      FieldsLex(headers, row, i + 1, close, ts);
      FieldNameIsName(headers, i);
      LexPair(6, FieldName(headers, i), row[i], FieldsThen(headers, row, i + 1, Break(4) + close),
              FieldNodes(headers, row, i + 1), ts);
    }
  }

  /** A line break, an element with the given inside, and the rest. */
  lemma LexNested(n: nat, name: string, inner: string, kids: seq<Node>, more: seq<Node>, ts: seq<Token>)
    requires IsName(name)
    requires Lex(inner) == Some(TokensThen(kids, [Close(name)] + TokensThen(more, ts)))
    ensures Lex(Break(n) + (OpenTag(name) + inner)) == Some(TokensThen([Data(Break(n)), Elem(name, kids)] + more, ts))
  {
    hide Lex, IsName, Break, OpenTag, TokensThen;
    LexOpen(name, inner);
    TagStarts(name, inner);
    LexBreak(n, OpenTag(name) + inner);
    PairTokens(Break(n), Elem(name, kids), more, ts);
    OneTokens(Elem(name, kids), TokensThen(more, ts));
  }

  lemma OneTokens(e: Node, ts: seq<Token>)
    requires e.Elem?
    ensures TokensThen([e], ts) == [Open(e.name)] + TokensThen(e.kids, [Close(e.name)] + ts)
  {
    assert [e][1..] == [];
    assert TokensThen([], ts) == ts;
  }

  lemma {:induction false} RecordsLex(headers: seq<string>, rows: seq<seq<string>>, i: nat,
                                     close: string, ts: seq<Token>)
    requires i <= |rows| && close != "" && close[0] == '<' && Lex(close) == Some(ts)
    ensures Lex(RecordsThen(headers, rows, i, Break(2) + close)) == Some(TokensThen(RecordNodes(headers, rows, i), ts))
    decreases |rows| - i
  {
    hide Lex, TokensThen, FieldsThen, FieldNodes, Break, OpenTag, CloseTag;
    if i == |rows| {
      LexBreak(2, close);
      LastTokens(Break(2), ts);
    } else {
      RecordsLex(headers, rows, i + 1, close, ts);
      var rest := RecordsThen(headers, rows, i + 1, Break(2) + close);
      var more := RecordNodes(headers, rows, i + 1);
      var end := CloseTag("registro") + rest;
      LexClose("registro", rest);
      TagStarts("registro", rest);
      FieldsLex(headers, rows[i], 0, end, [Close("registro")] + TokensThen(more, ts));
      LexNested(4, "registro", FieldsThen(headers, rows[i], 0, Break(4) + end), FieldNodes(headers, rows[i], 0),
                 more, ts);
    }
  }

  lemma PlainKept(c: char)
    requires IsDigit(c) || c == '/' || c == ':' || c == ' '
    ensures EscapeChar(c) == [c] && Kept(c) == c
  {
  }

  lemma {:induction false} EscapeOfPlain(s: string)
    requires forall k :: 0 <= k < |s| ==> IsDigit(s[k]) || s[k] == '/' || s[k] == ':' || s[k] == ' '
    ensures Escape(s) == s && Sanitized(s) == s
  {
    hide EscapeChar, Kept;
    forall k | 0 <= k < |s| ensures Kept(s[k]) == s[k] {
      PlainKept(s[k]);
    }
    assert Sanitized(s) == s;
    if s != "" {
      EscapeOfPlain(s[1..]);
      PlainKept(s[0]);
      assert s == [s[0]] + s[1..];
    }
  }

  /** From the line of <dados> to the end. */
  lemma DataLex(headers: seq<string>, rows: seq<seq<string>>)
    ensures Lex(Break(2) + (OpenTag("dados") + RecordsThen(headers, rows, 0, Tail())))
         == Some(TokensThen([Data(Break(2)), Dados(headers, rows)] + [Data(Break(0))], [Close("relatorio")]))
  {
    hide Lex, TokensThen, RecordsThen, RecordNodes, Break, OpenTag, CloseTag;
    var end := CloseTag("relatorio");
    LexEnd();
    var rest := Break(0) + end;
    LexBreak(0, end);
    LastTokens(Break(0), [Close("relatorio")]);
    var close := CloseTag("dados") + rest;
    LexClose("dados", rest);
    TagStarts("dados", rest);
    var more := [Data(Break(0))];
    RecordsLex(headers, rows, 0, close, [Close("dados")] + TokensThen(more, [Close("relatorio")]));
    LexNested(2, "dados", RecordsThen(headers, rows, 0, Break(2) + close), RecordNodes(headers, rows, 0), more,
              [Close("relatorio")]);
  }

  lemma NameRelatorio()
    ensures IsName("relatorio")
  {
  }

  lemma LexNothing()
    ensures Lex("") == Some([])
  {
  }

  lemma LexEnd()
    ensures Lex(CloseTag("relatorio")) == Some([Close("relatorio")])
    ensures CloseTag("relatorio") != "" && CloseTag("relatorio")[0] == '<'
  {
    NameRelatorio();
    LexNothing();
    hide Lex, CloseTag, IsName;
    LexClose("relatorio", "");
    TagStarts("relatorio", "");
    assert CloseTag("relatorio") + "" == CloseTag("relatorio");
    assert [Close("relatorio")] + [] == [Close("relatorio")];
  }

  /** The printed document is the tree, token for token. */
  lemma DocumentLex(title: string, when: string, headers: seq<string>, rows: seq<seq<string>>)
    requires IsTimestamp(when)
    ensures Lex(TrimPrefix(Document(title, when, headers, rows), DECLARATION))
         == Some(TokensThen([Tree(title, when, headers, rows)], []))
  {
    hide Lex, TokensThen, RecordsThen, Leaf, Break, OpenTag, ElementThen, Dados, IsTimestamp;
    var data := Break(2) + (OpenTag("dados") + RecordsThen(headers, rows, 0, Tail()));
    var end := [Close("relatorio")];
    DataLex(headers, rows);
    var nodes1 := [Data(Break(2)), Dados(headers, rows)] + [Data(Break(0))];
    LexPair(2, "gerado_em", when, data, nodes1, end);
    var nodes2 := [Data(Break(2)), Elem("gerado_em", Leaf(when))] + nodes1;
    var text2 := Break(2) + ElementThen("gerado_em", when, data);
    LexPair(2, "titulo", title, text2, nodes2, end);
    var nodes3 := [Data(Break(2)), Elem("titulo", Leaf(title))] + nodes2;
    var text3 := Break(2) + ElementThen("titulo", title, text2);
    LexOpen("relatorio", text3);
    AfterPrefix(DECLARATION, OpenTag("relatorio") + text3);
    OneTokens(Elem("relatorio", nodes3), []);
    assert [Close("relatorio")] + [] == end;
    assert Tree(title, when, headers, rows) == Elem("relatorio", nodes3);
  }

  lemma AfterPrefix(p: string, rest: string)
    ensures TrimPrefix(p + rest, p) == rest
  {
  }

  // ----- what is found in the tree -----------------------------------------------------------

  lemma TextOfLeaf(text: string)
    ensures TextOf(Leaf(text)) == Sanitized(text)
  {
    hide Kept;
    if text == "" {
      assert Sanitized(text) == "";
    } else {
      var t := Sanitized(text);
      assert [Data(t)][1..] == [];
      assert TextOf([Data(t)]) == t + "";
    }
  }

  lemma {:induction false} FieldsFound(headers: seq<string>, row: seq<string>, i: nat)
    requires i <= |row|
    ensures FieldsOf(FieldNodes(headers, row, i)) == ExpectedRow(headers, row)[i..]
    decreases |row| - i
  {
    hide FieldName, Sanitized, Leaf, TextOf;
    var nodes := FieldNodes(headers, row, i);
    if i == |row| {
      assert nodes[1..] == [];
      assert FieldsOf(nodes) == [];
    } else {
      FieldsFound(headers, row, i + 1);
      TextOfLeaf(row[i]);
      var more := FieldNodes(headers, row, i + 1);
      SkipData(nodes[0], nodes[1], more);
      assert nodes == [nodes[0], nodes[1]] + more;
      assert ExpectedRow(headers, row)[i..] == [ExpectedRow(headers, row)[i]] + ExpectedRow(headers, row)[i + 1..];
    }
  }

  lemma SkipData(d: Node, e: Node, more: seq<Node>)
    requires d.Data? && e.Elem?
    ensures FieldsOf([d, e] + more) == [Field(e.name, TextOf(e.kids))] + FieldsOf(more)
    ensures RowsOf([d, e] + more) == [FieldsOf(e.kids)] + RowsOf(more)
  {
    hide TextOf;
    assert ([d, e] + more)[1..] == [e] + more;
    assert ([e] + more)[1..] == more;
    assert FieldsOf([d, e] + more) == FieldsOf([e] + more);
    assert RowsOf([d, e] + more) == RowsOf([e] + more);
  }

  lemma RowFound(headers: seq<string>, rows: seq<seq<string>>, i: nat)
    requires i < |rows|
    ensures RowsOf(RecordNodes(headers, rows, i))
         == [ExpectedRow(headers, rows[i])] + RowsOf(RecordNodes(headers, rows, i + 1))
  {
    hide ExpectedRow, FieldsOf, FieldNodes, RowsOf;
    var nodes, more := RecordNodes(headers, rows, i), RecordNodes(headers, rows, i + 1);
    FieldsFound(headers, rows[i], 0);
    SkipData(nodes[0], nodes[1], more);
    assert nodes == [nodes[0], nodes[1]] + more;
    assert ExpectedRow(headers, rows[i])[0..] == ExpectedRow(headers, rows[i]);
  }

  lemma {:induction false} RowsFound(headers: seq<string>, rows: seq<seq<string>>, i: nat)
    requires i <= |rows|
    ensures RowsOf(RecordNodes(headers, rows, i))
         == seq(|rows|, k requires 0 <= k < |rows| => ExpectedRow(headers, rows[k]))[i..]
    decreases |rows| - i
  {
    hide ExpectedRow;
    var expected := seq(|rows|, k requires 0 <= k < |rows| => ExpectedRow(headers, rows[k]));
    if i == |rows| {
      NoRows(headers, rows);
    } else {
      hide RowsOf, RecordNodes;
      RowFound(headers, rows, i);
      RowsFound(headers, rows, i + 1);
      assert expected[i..] == [expected[i]] + expected[i + 1..];
    }
  }

  lemma NoRows(headers: seq<string>, rows: seq<seq<string>>)
    ensures RowsOf(RecordNodes(headers, rows, |rows|)) == []
  {
    assert RecordNodes(headers, rows, |rows|)[1..] == [];
  }

  lemma TreeElements(title: string, when: string, headers: seq<string>, rows: seq<seq<string>>)
    ensures Elements(Tree(title, when, headers, rows).kids)
         == [Elem("titulo", Leaf(title)), Elem("gerado_em", Leaf(when)), Dados(headers, rows)]
  {
    hide Leaf, Break, RecordNodes;
    var a, b, c := Elem("titulo", Leaf(title)), Elem("gerado_em", Leaf(when)), Dados(headers, rows);
    var d, z := Data(Break(2)), Data(Break(0));
    assert Tree(title, when, headers, rows).kids == [d, a] + ([d, b] + ([d, c] + [z]));
    SkipBlank(d, a, [d, b] + ([d, c] + [z]));
    SkipBlank(d, b, [d, c] + [z]);
    SkipBlank(d, c, [z]);
    assert [z][1..] == [];
    assert Elements([z]) == [];
  }

  lemma SkipBlank(d: Node, e: Node, more: seq<Node>)
    requires d.Data? && e.Elem?
    ensures Elements([d, e] + more) == [e] + Elements(more)
  {
    assert ([d, e] + more)[1..] == [e] + more;
    assert ([e] + more)[1..] == more;
    assert Elements([d, e] + more) == Elements([e] + more);
  }

  /** Any XML reader finds the report in the document: every row in order, every cell under the tag of
      its header, with its text, whatever the headers and the cells are. */
  lemma DocumentReads(title: string, when: string, headers: seq<string>, rows: seq<seq<string>>)
    requires IsTimestamp(when)
    ensures Read(Document(title, when, headers, rows)) == Some(Expected(title, when, headers, rows))
  {
    hide Lex, TokensThen, Nodes, Document, Tree, RecordNodes, Leaf, Sanitized, Elements, RowsOf, TextOf, ExpectedRow;
    var tree := Tree(title, when, headers, rows);
    DocumentLex(title, when, headers, rows);
    TreeRoot(title, when, headers, rows);
    NodesRead([tree], []);
    assert Root(Document(title, when, headers, rows)) == Some(tree);
    TreeElements(title, when, headers, rows);
    TextOfLeaf(title);
    TextOfLeaf(when);
    EscapeOfPlain(when);
    RowsFound(headers, rows, 0);
    var expected := seq(|rows|, k requires 0 <= k < |rows| => ExpectedRow(headers, rows[k]));
    assert expected[0..] == expected;
  }

  lemma TreeRoot(title: string, when: string, headers: seq<string>, rows: seq<seq<string>>)
    ensures Tree(title, when, headers, rows).Elem? && Tree(title, when, headers, rows).name == "relatorio"
  {
  }

  /** The text is the cell with the replacement character for what XML cannot hold. */
  ghost predicate ReadAs(text: string, cell: string) {
    |text| == |cell|
    && forall k :: 0 <= k < |cell| ==> text[k] == if IsXmlChar(cell[k]) then cell[k] else '\U{FFFD}'
  }

  lemma CellReads(cell: string)
    ensures ReadAs(Sanitized(cell), cell)
    ensures Sanitized(cell) == cell <==> forall k :: 0 <= k < |cell| ==> IsXmlChar(cell[k])
  {
    SanitizedIffXml(cell);
  }

  /** Each cell comes back under the tag of its column, character by character, and exactly as it was if
      and only if all its characters are XML characters. */
  lemma TextsSurviveIff(title: string, when: string, headers: seq<string>, rows: seq<seq<string>>)
    requires IsTimestamp(when)
    ensures Read(Document(title, when, headers, rows)).Some?
    ensures var report := Read(Document(title, when, headers, rows)).value;
            |report.rows| == |rows| && forall i :: 0 <= i < |rows| ==>
              |report.rows[i]| == |rows[i]| && forall j :: 0 <= j < |rows[i]| ==>
                report.rows[i][j].tag == (if j < |headers| then TagName(headers[j]) else "coluna")
                && ReadAs(report.rows[i][j].text, rows[i][j])
                && (report.rows[i][j].text == rows[i][j]
                    <==> forall k :: 0 <= k < |rows[i][j]| ==> IsXmlChar(rows[i][j][k]))
  {
    hide Document, Read, Sanitized, IsXmlChar, ReadAs, TagName;
    DocumentReads(title, when, headers, rows);
    forall cell: string
      ensures ReadAs(Sanitized(cell), cell)
      ensures Sanitized(cell) == cell <==> forall k :: 0 <= k < |cell| ==> IsXmlChar(cell[k])
    {
      CellReads(cell);
    }
  }
}
