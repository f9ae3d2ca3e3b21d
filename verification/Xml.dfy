/** XML 1.0, as much of it as the exported report uses: characters, names, the escaping of Go's
    encoding/xml, and a reader of elements without attributes. Strings are sequences of Unicode
    characters. */
module Xml {
  import opened Text

  // ----- characters and names (sections 2.2 and 2.3 of XML 1.0) -----------------------------

  predicate IsXmlChar(c: char) {
    var n := c as int;
    n == 0x9 || n == 0xA || n == 0xD || 0x20 <= n <= 0xD7FF || 0xE000 <= n <= 0xFFFD || 0x10000 <= n <= 0x10FFFF
  }

  predicate IsNameStart(c: char) {
    var n := c as int;
    c == ':' || c == '_' || 'A' <= c <= 'Z' || 'a' <= c <= 'z'
    || 0xC0 <= n <= 0xD6 || 0xD8 <= n <= 0xF6 || 0xF8 <= n <= 0x2FF || 0x370 <= n <= 0x37D || 0x37F <= n <= 0x1FFF
    || 0x200C <= n <= 0x200D || 0x2070 <= n <= 0x218F || 0x2C00 <= n <= 0x2FEF || 0x3001 <= n <= 0xD7FF
    || 0xF900 <= n <= 0xFDCF || 0xFDF0 <= n <= 0xFFFD || 0x10000 <= n <= 0xEFFFF
  }

  predicate IsNamePart(c: char) {
    var n := c as int;
    IsNameStart(c) || c == '-' || c == '.' || '0' <= c <= '9' || n == 0xB7
    || 0x300 <= n <= 0x36F || 0x203F <= n <= 0x2040
  }

  predicate IsName(s: string) {
    s != "" && IsNameStart(s[0]) && forall k :: 0 <= k < |s| ==> IsNamePart(s[k])
  }

  // ----- xml.EscapeText ----------------------------------------------------------------------

  function EscapeChar(c: char): string {
    if c == '"' then "&#34;"
    else if c == '\'' then "&#39;"
    else if c == '&' then "&amp;"
    else if c == '<' then "&lt;"
    else if c == '>' then "&gt;"
    else if c == '\t' then "&#x9;"
    else if c == '\n' then "&#xA;"
    else if c == '\r' then "&#xD;"
    else if !IsXmlChar(c) then "\U{FFFD}"
    else [c]
  }

  function Escape(s: string): string {
    if s == "" then "" else EscapeChar(s[0]) + Escape(s[1..])
  }

  /** What survives of a character: those XML cannot hold become the replacement character. */
  function Kept(c: char): char {
    if IsXmlChar(c) then c else '\U{FFFD}'
  }

  function Sanitized(s: string): string {
    seq(|s|, i requires 0 <= i < |s| => Kept(s[i]))
  }

  lemma SanitizedIffXml(s: string)
    ensures Sanitized(s) == s <==> forall k :: 0 <= k < |s| ==> IsXmlChar(s[k])
  {
    if k :| 0 <= k < |s| && !IsXmlChar(s[k]) {
      assert Sanitized(s)[k] == '\U{FFFD}';
    }
  }

  // ----- reading character data (sections 2.4, 2.11 and 4.1) ---------------------------------

  function HexDigit(c: char): Option<nat> {
    if '0' <= c <= '9' then Some(c as int - '0' as int)
    else if 'a' <= c <= 'f' then Some(c as int - 'a' as int + 10)
    else if 'A' <= c <= 'F' then Some(c as int - 'A' as int + 10)
    else None
  }

  function HexValue(s: string): Option<nat> {
    if s == "" then Some(0)
    else
      match (HexValue(s[..|s| - 1]), HexDigit(s[|s| - 1]))
      case (Some(high), Some(low)) => Some(16 * high + low)
      case _ => None
  }

  function CharOf(n: nat): Option<char> {
    if (n < 0xD800 || 0xE000 <= n < 0x11_0000) && IsXmlChar(n as char) then Some(n as char) else None
  }

  /** The character that the text between '&' and ';' stands for. */
  function Reference(name: string): Option<char> {
    if name == "lt" then Some('<')
    else if name == "gt" then Some('>')
    else if name == "amp" then Some('&')
    else if name == "quot" then Some('"')
    else if name == "apos" then Some('\'')
    else if |name| > 2 && name[0] == '#' && name[1] == 'x' then
      match HexValue(name[2..]) case Some(n) => CharOf(n) case None => None
    else if |name| > 1 && name[0] == '#' && AllDigits(name[1..]) then CharOf(Value(name[1..]))
    else None
  }

  function Prepend(c: char, rest: Option<string>): Option<string> {
    match rest case Some(s) => Some([c] + s) case None => None
  }

  /** Character data as an application sees it: references resolved, line ends normalized; None is
      text that is not well-formed. */
  function Unescape(s: string): Option<string> {
    if s == "" then Some("")
    else if s[0] == '&' then
      var i := IndexOf(s, ';');
      if i < 0 then None
      else
        match Reference(s[1..i])
        case Some(c) => Prepend(c, Unescape(s[i + 1..]))
        case None => None
    else if s[0] == '\r' then
      Prepend('\n', Unescape(if |s| > 1 && s[1] == '\n' then s[2..] else s[1..]))
    else if s[0] == '<' || !IsXmlChar(s[0]) then None
    else Prepend(s[0], Unescape(s[1..]))
  }

  lemma ReferenceResolves(name: string, rest: string)
    requires ';' !in name && Reference(name).Some?
    ensures Unescape("&" + name + ";" + rest) == Prepend(Reference(name).value, Unescape(rest))
  {
    var s := "&" + name + ";" + rest;
    FirstSeparator("&" + name, ';', rest);
    assert s == ("&" + name) + [';'] + rest;
    assert IndexOf(s, ';') == |name| + 1;
    assert s[1..|name| + 1] == name;
    assert s[|name| + 2..] == rest;
  }

  lemma KnownReferences()
    ensures Reference("lt") == Some('<') && Reference("gt") == Some('>') && Reference("amp") == Some('&')
    ensures Reference("#34") == Some('"') && Reference("#39") == Some('\'')
    ensures Reference("#x9") == Some('\t') && Reference("#xA") == Some('\n') && Reference("#xD") == Some('\r')
  {
    DecimalTwo("#34", 3, 4);
    DecimalTwo("#39", 3, 9);
    HexOne("#x9");
    HexOne("#xA");
    HexOne("#xD");
  }

  lemma DecimalTwo(name: string, a: nat, b: nat)
    requires |name| == 3 && name[0] == '#' && a < 10 && b < 10 && name[1] == DigitOf(a) && name[2] == DigitOf(b)
    ensures Reference(name) == CharOf(10 * a + b)
  {
    var t := name[1..];
    assert t == [DigitOf(a), DigitOf(b)];
    assert t[..1] == [DigitOf(a)];
    assert t[..1][..0] == "";
    assert Value(t[..1]) == a;
    assert Value(t) == 10 * a + b;
    assert name[1] != 'x' && name != "amp";
  }

  lemma HexOne(name: string)
    requires |name| == 3 && name[0] == '#' && name[1] == 'x' && HexDigit(name[2]).Some?
    ensures Reference(name) == CharOf(HexDigit(name[2]).value)
  {
    var t := name[2..];
    assert t == [name[2]];
    assert t[..0] == "";
    assert HexValue(t[..0]) == Some(0);
    assert HexValue(t) == HexDigit(name[2]);
  }

  lemma AnyReferenceReads(c: char, name: string, rest: string)
    requires EscapeChar(c) == "&" + name + ";" && ';' !in name && Reference(name) == Some(c) && IsXmlChar(c)
    ensures Unescape(EscapeChar(c) + rest) == Prepend(Kept(c), Unescape(rest))
  {
    hide Reference, Unescape;
    ReferenceResolves(name, rest);
  }

  lemma EscapedCharReads(c: char, rest: string)
    ensures Unescape(EscapeChar(c) + rest) == Prepend(Kept(c), Unescape(rest))
  {
    hide Unescape, Reference;
    KnownReferences();
    if c == '"' {
      AnyReferenceReads(c, "#34", rest);
    } else if c == '\'' {
      AnyReferenceReads(c, "#39", rest);
    } else if c == '&' {
      AnyReferenceReads(c, "amp", rest);
    } else if c == '<' {
      AnyReferenceReads(c, "lt", rest);
    } else if c == '>' {
      AnyReferenceReads(c, "gt", rest);
    } else if c == '\t' {
      AnyReferenceReads(c, "#x9", rest);
    } else if c == '\n' {
      AnyReferenceReads(c, "#xA", rest);
    } else if c == '\r' {
      AnyReferenceReads(c, "#xD", rest);
    } else {
      PlainReads(Kept(c), rest);
    }
  }

  lemma PlainReads(c: char, rest: string)
    requires IsXmlChar(c) && c != '&' && c != '<' && c != '\r'
    ensures Unescape([c] + rest) == Prepend(c, Unescape(rest))
  {
    assert ([c] + rest)[1..] == rest;
  }

  /** Reading escaped text gives the text back, with the characters XML cannot hold replaced. */
  lemma {:induction false} EscapedReads(s: string)
    ensures Unescape(Escape(s)) == Some(Sanitized(s))
  {
    hide EscapeChar, Kept;
    if s == "" {
      assert Sanitized(s) == "";
    } else {
      var rest := Escape(s[1..]);
      EscapedReads(s[1..]);
      EscapedCharReads(s[0], rest);
      assert Escape(s) == EscapeChar(s[0]) + rest;
      assert Unescape(Escape(s)) == Prepend(Kept(s[0]), Unescape(rest));
      assert Sanitized(s) == [Kept(s[0])] + Sanitized(s[1..]);
    }
  }

  predicate Plain(c: char) {
    IsXmlChar(c) && c != '<' && c != '>'
  }

  /** Escaped text holds no markup. */
  lemma {:induction false} EscapedIsPlain(s: string)
    ensures Escape(s) == "" <==> s == ""
    ensures forall k :: 0 <= k < |Escape(s)| ==> Plain(Escape(s)[k])
  {
    if s != "" {
      EscapedIsPlain(s[1..]);
      EscapedCharIsPlain(s[0]);
      hide EscapeChar, Plain;
      var a, b := EscapeChar(s[0]), Escape(s[1..]);
      assert Escape(s) == a + b && |a| > 0 && |a + b| > 0;
      forall k | 0 <= k < |a + b| ensures Plain((a + b)[k]) {
        assert (a + b)[k] == if k < |a| then a[k] else b[k - |a|];
      }
    }
  }

  lemma EscapedCharIsPlain(c: char)
    ensures EscapeChar(c) != ""
    ensures forall k :: 0 <= k < |EscapeChar(c)| ==> Plain(EscapeChar(c)[k])
  {
  }

  // ----- tokens ------------------------------------------------------------------------------

  datatype Token = Open(name: string) | Close(name: string) | Chars(text: string)

  function Before(t: Token, rest: Option<seq<Token>>): Option<seq<Token>> {
    match rest case Some(ts) => Some([t] + ts) case None => None
  }

  /** Tags without attributes and the text between them; None is a document that is not well-formed. */
  function Lex(s: string): Option<seq<Token>>
    decreases |s|
  {
    if s == "" then Some([])
    else if s[0] == '<' then
      var i := IndexOf(s, '>');
      if i < 0 then None
      else if i > 1 && s[1] == '/' then
        if IsName(s[2..i]) then Before(Close(s[2..i]), Lex(s[i + 1..])) else None
      else if IsName(s[1..i]) then Before(Open(s[1..i]), Lex(s[i + 1..]))
      else None
    else
      var i := IndexOf(s, '<');
      var n := if i < 0 then |s| else i;
      match Unescape(s[..n])
      case Some(t) => Before(Chars(t), Lex(s[n..]))
      case None => None
  }

  lemma NameHasNoMarkup(name: string)
    requires IsName(name)
    ensures '>' !in name && '<' !in name && name[0] != '/'
  {
  }

  function OpenTag(name: string): string {
    "<" + name + ">"
  }

  function CloseTag(name: string): string {
    "</" + name + ">"
  }

  lemma TagStarts(name: string, rest: string)
    ensures OpenTag(name) + rest != "" && (OpenTag(name) + rest)[0] == '<'
    ensures CloseTag(name) + rest != "" && (CloseTag(name) + rest)[0] == '<'
  {
  }

  lemma LexOpen(name: string, rest: string)
    requires IsName(name)
    ensures Lex(OpenTag(name) + rest) == Before(Open(name), Lex(rest))
  {
    hide IsName;
    NameNotEmpty(name);
    NameHasNoMarkup(name);
    var s := OpenTag(name) + rest;
    FirstSeparator("<" + name, '>', rest);
    assert s == ("<" + name) + ['>'] + rest;
    var i := IndexOf(s, '>');
    assert s[1..i] == name && s[i + 1..] == rest;
    assert s[1] == name[0];
  }

  lemma NameNotEmpty(name: string)
    requires IsName(name)
    ensures name != ""
  {
  }

  lemma LexClose(name: string, rest: string)
    requires IsName(name)
    ensures Lex(CloseTag(name) + rest) == Before(Close(name), Lex(rest))
  {
    hide IsName;
    NameHasNoMarkup(name);
    var s := CloseTag(name) + rest;
    FirstSeparator("</" + name, '>', rest);
    assert s == ("</" + name) + ['>'] + rest;
    var i := IndexOf(s, '>');
    assert s[2..i] == name && s[i + 1..] == rest;
  }

  lemma LexChars(raw: string, t: string, rest: string)
    requires raw != "" && '<' !in raw && Unescape(raw) == Some(t) && rest != "" && rest[0] == '<'
    ensures Lex(raw + rest) == Before(Chars(t), Lex(rest))
  {
    hide Unescape;
    var s := raw + rest;
    assert s[0] == raw[0];
    FirstSeparator(raw, '<', rest[1..]);
    assert s == raw + ['<'] + rest[1..];
    assert s[..|raw|] == raw && s[|raw|..] == rest;
  }

  // ----- elements ----------------------------------------------------------------------------

  datatype Node = Elem(name: string, kids: seq<Node>) | Data(text: string)

  /** The tokens of the nodes, followed by the given ones. */
  function TokensThen(nodes: seq<Node>, rest: seq<Token>): seq<Token> {
    if nodes == [] then rest
    else
      var more := TokensThen(nodes[1..], rest);
      match nodes[0]
      case Elem(name, kids) => [Open(name)] + TokensThen(kids, [Close(name)] + more)
      case Data(text) => [Chars(text)] + more
  }

  /** The nodes up to the first closing tag that opens none of them, and what is left. */
  function Nodes(ts: seq<Token>): (r: Option<(seq<Node>, seq<Token>)>)
    ensures r.Some? ==> |r.value.1| <= |ts|
    decreases |ts|
  {
    if ts == [] || ts[0].Close? then Some(([], ts))
    else if ts[0].Chars? then
      match Nodes(ts[1..])
      case Some((more, rest)) => Some(([Data(ts[0].text)] + more, rest))
      case None => None
    else
      match Nodes(ts[1..])
      case None => None
      case Some((kids, after)) =>
        if after == [] || after[0] != Close(ts[0].name) then None
        else
          match Nodes(after[1..])
          case Some((more, rest)) => Some(([Elem(ts[0].name, kids)] + more, rest))
          case None => None
  }

  /** Building the nodes from their tokens gives the same nodes back. */
  lemma {:induction false} NodesRead(nodes: seq<Node>, rest: seq<Token>)
    requires rest == [] || rest[0].Close?
    ensures Nodes(TokensThen(nodes, rest)) == Some((nodes, rest))
    decreases nodes
  {
    if nodes != [] {
      var more := TokensThen(nodes[1..], rest);
      NodesRead(nodes[1..], rest);
      var ts := TokensThen(nodes, rest);
      assert nodes == [nodes[0]] + nodes[1..];
      match nodes[0] {
        case Data(text) =>
          assert ts[1..] == more;
        case Elem(name, kids) =>
          var after := [Close(name)] + more;
          NodesRead(kids, after);
          assert ts[1..] == TokensThen(kids, after);
          assert after[1..] == more;
      }
    }
  }

  const DECLARATION := "<?xml version=\"1.0\" encoding=\"UTF-8\"?>\n"

  /** The root element of a document. */
  function Root(doc: string): Option<Node> {
    match Lex(TrimPrefix(doc, DECLARATION))
    case None => None
    case Some(ts) =>
      match Nodes(ts)
      case Some((nodes, rest)) =>
        if rest == [] && |nodes| == 1 && nodes[0].Elem? then Some(nodes[0]) else None
      case None => None
  }

  function TextOf(nodes: seq<Node>): string {
    if nodes == [] then "" else (if nodes[0].Data? then nodes[0].text else "") + TextOf(nodes[1..])
  }

  function Elements(nodes: seq<Node>): (es: seq<Node>)
    ensures forall e :: e in es ==> e.Elem?
  {
    if nodes == [] then []
    else (if nodes[0].Elem? then [nodes[0]] else []) + Elements(nodes[1..])
  }
}
