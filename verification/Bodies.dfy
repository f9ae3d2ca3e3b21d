/** The body of a request as two readers see it: the scoping middleware, which parses it as JSON into a
    map when the content type says so, and Fiber's BodyParser, which the handlers call and which
    chooses a decoder by the content type and fills a struct. */
module Bodies {
  import opened Text

  /** A JSON value as far as the readers tell them apart. */
  datatype Value = Str(text: string) | Int(n: int) | Null | Other

  datatype Member = Member(key: string, value: Value)

  /** The fields of the structs that the two account handlers fill. */
  datatype Fields = Fields(domain: string, sessionJid: string, clientId: string, clientSecret: string,
                           connectorId: string, line: int)

  /** `json` is what the bytes are as a JSON object, in document order; `other` is what the decoders for
      forms and XML find in the bytes that reach the handler. */
  datatype Body = Body(contentType: string, empty: bool, json: Option<seq<Member>>, other: Option<Fields>)

  const NO_BODY := Body("", true, None, None)

  // ----- the middleware ------------------------------------------------------------------------

  predicate Scanned(b: Body) {
    Contains(b.contentType, "application/json") && !b.empty
  }

  /** json.Unmarshal into a map: the last member of a name counts. */
  function Lookup(ms: seq<Member>, key: string): Option<Value> {
    if ms == [] then None
    else if ms[|ms| - 1].key == key then Some(ms[|ms| - 1].value)
    else Lookup(ms[..|ms| - 1], key)
  }

  function TextOf(v: Option<Value>): string {
    if v.Some? && v.value.Str? then v.value.text else ""
  }

  /** The text the middleware reads under a name, "" when it does not look. */
  function Seen(b: Body, key: string): string {
    if Scanned(b) && b.json.Some? then TextOf(Lookup(b.json.value, key)) else ""
  }

  /** Go's order of strings. */
  predicate Less(a: string, b: string) {
    b != "" && (a == "" || a[0] < b[0] || (a[0] == b[0] && Less(a[1..], b[1..])))
  }

  predicate HasKey(ms: seq<Member>, key: string) {
    exists k :: 0 <= k < |ms| && ms[k].key == key
  }

  function Insert(ms: seq<Member>, m: Member): seq<Member> {
    if ms == [] || Less(ms[|ms| - 1].key, m.key) then ms + [m]
    else Insert(ms[..|ms| - 1], m) + [ms[|ms| - 1]]
  }

  function Overwritten(ms: seq<Member>, m: Member): seq<Member> {
    seq(|ms|, k requires 0 <= k < |ms| => if ms[k].key == m.key then m else ms[k])
  }

  function Put(ms: seq<Member>, m: Member): seq<Member> {
    if HasKey(ms, m.key) then Overwritten(ms, m) else Insert(ms, m)
  }

  /** json.Unmarshal into a map and json.Marshal of it: one member a name, in order. */
  function Canonical(ms: seq<Member>): seq<Member> {
    if ms == [] then [] else Put(Canonical(ms[..|ms| - 1]), ms[|ms| - 1])
  }

  function Replaced(ms: seq<Member>, key: string, text: string): seq<Member> {
    if HasKey(ms, key) then Put(ms, Member(key, Str(text))) else ms
  }

  /** The body the middleware hands on for the portal of the cookie. */
  function Handed(b: Body, d: string): Body {
    if Scanned(b) && b.json.Some? then
      b.(json := Some(Replaced(Replaced(Canonical(b.json.value), "domain", d), "portal", d)))
    else b
  }

  // ----- the handlers --------------------------------------------------------------------------

  datatype Decoder = Json | FormOrXml | NoDecoder

  /** "application/vnd.x+json" counts as "application/json". */
  function WithoutVendor(ctype: string): string {
    var plus, semi, slash := IndexOf(ctype, '+'), IndexOf(ctype, ';'), IndexOf(ctype, '/');
    if plus < 0 then ctype
    else if 0 <= semi <= plus then ctype[..semi]
    else if slash < 0 || slash > plus then ctype
    else ctype[..slash + 1] + ctype[plus + 1..if semi < 0 then |ctype| else semi]
  }

  function DecoderOf(contentType: string): Decoder {
    var whole := WithoutVendor(ToLower(contentType));
    var semi := IndexOf(whole, ';');
    var ctype := if semi < 0 then whole else whole[..semi];
    if HasSuffix(ctype, "json") then Json
    else if HasPrefix(ctype, "application/x-www-form-urlencoded") || HasPrefix(ctype, "multipart/form-data")
            || HasPrefix(ctype, "text/xml") || HasPrefix(ctype, "application/xml") then FormOrXml
    else NoDecoder
  }

  /** Case folding of encoding/json, which also takes the long s and the Kelvin sign. */
  function FoldChar(c: char): char {
    if 'a' <= c <= 'z' then (c as int - 32) as char
    else if c == '\U{017F}' then 'S'
    else if c == '\U{212A}' then 'K'
    else c
  }

  predicate SameName(key: string, name: string) {
    |key| == |name| && forall k :: 0 <= k < |key| ==> FoldChar(key[k]) == FoldChar(name[k])
  }

  /** encoding/json into a string field: every member that matches the name assigns, null does not. */
  function FieldText(ms: seq<Member>, name: string): string {
    if ms == [] then ""
    else
      var last := ms[|ms| - 1];
      if SameName(last.key, name) && last.value.Str? then last.value.text else FieldText(ms[..|ms| - 1], name)
  }

  function FieldInt(ms: seq<Member>, name: string): int {
    if ms == [] then 0
    else
      var last := ms[|ms| - 1];
      if SameName(last.key, name) && last.value.Int? then last.value.n else FieldInt(ms[..|ms| - 1], name)
  }

  const LINK_NAMES := {"domain", "session_jid"}
  const CREATE_NAMES := {"domain", "session_jid", "client_id", "client_secret", "connector_id"}

  /** A value of another kind than its field makes the decoding fail. */
  predicate WellTyped(m: Member, names: set<string>) {
    && (forall name :: name in names && SameName(m.key, name) ==> m.value.Str? || m.value.Null?)
    && (SameName(m.key, "open_line_id") ==> m.value.Int? || m.value.Null?)
  }

  function DecodeJson(ms: seq<Member>, names: set<string>): Option<Fields> {
    if exists k :: 0 <= k < |ms| && !WellTyped(ms[k], names) then None
    else
      var text := (name: string) => if name in names then FieldText(ms, name) else "";
      Some(Fields(text("domain"), text("session_jid"), text("client_id"), text("client_secret"), text("connector_id"),
                  FieldInt(ms, "open_line_id")))
  }

  /** c.BodyParser. */
  function Decode(b: Body, names: set<string>): Option<Fields> {
    match DecoderOf(b.contentType)
    case Json => if b.empty || b.json.None? then None else DecodeJson(b.json.value, names)
    case FormOrXml => b.other
    case NoDecoder => None
  }

  /** JSON is decoded exactly when every member that matches a text field holds a text or null, and every
      one that matches the line a number or null. */
  lemma DecodesIff(ms: seq<Member>, names: set<string>)
    ensures DecodeJson(ms, names).Some? <==>
            forall m :: m in ms ==>
              && (m.value.Int? || m.value.Other? ==> forall name :: name in names ==> !SameName(m.key, name))
              && (m.value.Str? || m.value.Other? ==> !SameName(m.key, "open_line_id"))
  {
    hide SameName, FieldText, FieldInt;
  }

  // ----- when the two readings agree -----------------------------------------------------------

  /** Every member that the handler takes for this name is spelled this way. */
  ghost predicate SpelledAs(ms: seq<Member>, name: string, key: string) {
    forall k :: 0 <= k < |ms| && SameName(ms[k].key, name) ==> ms[k].key == key
  }

  /** ... and as the middleware spells it. */
  ghost predicate SpelledExactly(ms: seq<Member>, name: string) {
    SpelledAs(ms, name, name)
  }

  /** A body that both read as JSON, with the names of the domain and the session spelled exactly. */
  ghost predicate ReadAlike(b: Body) {
    Scanned(b) && DecoderOf(b.contentType).Json? && b.json.Some?
    && SpelledExactly(b.json.value, "domain") && SpelledExactly(b.json.value, "session_jid")
  }

  lemma {:induction false} InsertLookup(ms: seq<Member>, m: Member, key: string)
    requires !HasKey(ms, m.key)
    ensures Lookup(Insert(ms, m), key) == if key == m.key then Some(m.value) else Lookup(ms, key)
    ensures forall n :: n in Insert(ms, m) <==> n in ms || n == m
  {
    if ms == [] || Less(ms[|ms| - 1].key, m.key) {
      assert (ms + [m])[..|ms|] == ms;
    } else {
      var front, last := ms[..|ms| - 1], ms[|ms| - 1];
      InsertLookup(front, m, key);
      assert (Insert(front, m) + [last])[..|Insert(front, m)|] == Insert(front, m);
      assert ms == front + [last];
    }
  }

  lemma {:induction false} OverwrittenLookup(ms: seq<Member>, m: Member, key: string)
    ensures Lookup(Overwritten(ms, m), key)
         == if key == m.key && HasKey(ms, key) then Some(m.value) else Lookup(ms, key)
  {
    if ms != [] {
      var front := ms[..|ms| - 1];
      OverwrittenLookup(front, m, key);
      assert Overwritten(ms, m)[..|ms| - 1] == Overwritten(front, m);
      assert HasKey(ms, key) <==> HasKey(front, key) || ms[|ms| - 1].key == key;
      if !HasKey(ms, key) {
        NotFound(ms, key);
      }
    }
  }

  lemma {:induction false} NotFound(ms: seq<Member>, key: string)
    ensures Lookup(ms, key).None? <==> !HasKey(ms, key)
  {
    if ms != [] {
      var front := ms[..|ms| - 1];
      NotFound(front, key);
      assert HasKey(ms, key) <==> HasKey(front, key) || ms[|ms| - 1].key == key;
    }
  }

  lemma PutLookup(ms: seq<Member>, m: Member, key: string)
    ensures Lookup(Put(ms, m), key) == if key == m.key then Some(m.value) else Lookup(ms, key)
    ensures forall n :: n in Put(ms, m) ==> n in ms || n == m
  {
    hide Insert, Lookup;
    if HasKey(ms, m.key) {
      OverwrittenLookup(ms, m, key);
    } else {
      InsertLookup(ms, m, key);
    }
  }

  /** No two members share a name. */
  ghost predicate Unique(ms: seq<Member>) {
    forall i, j :: 0 <= i < j < |ms| ==> ms[i].key != ms[j].key
  }

  lemma {:induction false} InsertUnique(ms: seq<Member>, m: Member)
    requires Unique(ms) && !HasKey(ms, m.key)
    ensures Unique(Insert(ms, m))
    ensures forall n :: n in Insert(ms, m) <==> n in ms || n == m
  {
    if ms != [] && !Less(ms[|ms| - 1].key, m.key) {
      var front, last := ms[..|ms| - 1], ms[|ms| - 1];
      InsertUnique(front, m);
      assert ms == front + [last];
      assert forall n :: n in front ==> n.key != last.key;
    }
  }

  lemma PutUnique(ms: seq<Member>, m: Member)
    requires Unique(ms)
    ensures Unique(Put(ms, m))
  {
    if !HasKey(ms, m.key) {
      InsertUnique(ms, m);
    }
  }

  lemma {:induction false} CanonicalKeeps(ms: seq<Member>, key: string)
    ensures Unique(Canonical(ms)) && Lookup(Canonical(ms), key) == Lookup(ms, key)
    ensures forall n :: n in Canonical(ms) ==> n in ms
  {
    if ms != [] {
      var front, last := ms[..|ms| - 1], ms[|ms| - 1];
      CanonicalKeeps(front, key);
      PutLookup(Canonical(front), last, key);
      PutUnique(Canonical(front), last);
    }
  }

  /** With one member a name, the handler reads under a name spelled in one way what the map holds. */
  lemma {:induction false} FieldIsLookup(ms: seq<Member>, name: string, key: string)
    requires Unique(ms) && SpelledAs(ms, name, key) && SameName(key, name)
    ensures FieldText(ms, name) == TextOf(Lookup(ms, key))
  {
    if ms != [] {
      var front, last := ms[..|ms| - 1], ms[|ms| - 1];
      FieldIsLookup(front, name, key);
      if last.key == key {
        assert !HasKey(front, key);
        NotFound(front, key);
      }
    }
  }

  /** Member k is the last one that assigns a text, or a number, to the field. */
  ghost predicate LastText(ms: seq<Member>, name: string, k: int) {
    0 <= k < |ms| && SameName(ms[k].key, name) && ms[k].value.Str?
    && forall j :: k < j < |ms| && SameName(ms[j].key, name) ==> !ms[j].value.Str?
  }

  ghost predicate LastInt(ms: seq<Member>, name: string, k: int) {
    0 <= k < |ms| && SameName(ms[k].key, name) && ms[k].value.Int?
    && forall j :: k < j < |ms| && SameName(ms[j].key, name) ==> !ms[j].value.Int?
  }

  /** A field gets the value of the last member of its name, in any case of letters, that has one of its
      kind, and is zero when there is none. */
  lemma {:induction false} FieldIsLast(ms: seq<Member>, name: string)
    ensures forall k :: LastText(ms, name, k) ==> FieldText(ms, name) == ms[k].value.text
    ensures (forall k :: !LastText(ms, name, k)) ==> FieldText(ms, name) == ""
    ensures forall k :: LastInt(ms, name, k) ==> FieldInt(ms, name) == ms[k].value.n
    ensures (forall k :: !LastInt(ms, name, k)) ==> FieldInt(ms, name) == 0
  {
    hide SameName;
    if ms != [] {
      var n := |ms| - 1;
      var front := ms[..n];
      FieldIsLast(front, name);
      forall k | 0 <= k < n ensures front[k] == ms[k] {
      }
      if SameName(ms[n].key, name) && ms[n].value.Str? {
        assert LastText(ms, name, n);
      } else {
        assert forall k :: LastText(ms, name, k) <==> LastText(front, name, k);
      }
      if SameName(ms[n].key, name) && ms[n].value.Int? {
        assert LastInt(ms, name, n);
      } else {
        assert forall k :: LastInt(ms, name, k) <==> LastInt(front, name, k);
      }
    }
  }

  lemma SpelledInSubset(ms: seq<Member>, all: seq<Member>, name: string, key: string)
    requires SpelledAs(all, name, key) && forall n :: n in ms ==> n in all || n.key == key || !SameName(n.key, name)
    ensures SpelledAs(ms, name, key)
  {
    forall k | 0 <= k < |ms| && SameName(ms[k].key, name) ensures ms[k].key == key {
      assert ms[k] in ms;
    }
  }

  /** The rewritten body: what was read, except that the domain and the portal are the cookie's. */
  lemma RewrittenLookup(ms: seq<Member>, d: string, key: string)
    ensures var out := Replaced(Replaced(Canonical(ms), "domain", d), "portal", d);
            && Unique(out)
            && Lookup(out, key)
               == (if key in {"domain", "portal"} && HasKey(ms, key) then Some(Str(d)) else Lookup(ms, key))
            && forall n :: n in out ==> n in ms || n == Member("domain", Str(d)) || n == Member("portal", Str(d))
  {
    hide Lookup, Put, Canonical;
    var c := Canonical(ms);
    CanonicalKeeps(ms, key);
    CanonicalKeeps(ms, "domain");
    CanonicalKeeps(ms, "portal");
    NotFound(ms, "domain");
    NotFound(ms, "portal");
    NotFound(c, "domain");
    NotFound(c, "portal");
    var c1 := Replaced(c, "domain", d);
    PutLookup(c, Member("domain", Str(d)), key);
    PutLookup(c, Member("domain", Str(d)), "portal");
    PutUnique(c, Member("domain", Str(d)));
    NotFound(c1, "portal");
    PutLookup(c1, Member("portal", Str(d)), key);
    PutUnique(c1, Member("portal", Str(d)));
    assert "domain"[0] != "portal"[0];
  }

  /** What the handler reads in the rewritten body under a name spelled in one way. */
  lemma RewrittenField(ms: seq<Member>, d: string, name: string, key: string)
    requires SpelledAs(ms, name, key) && SameName(key, name)
    requires key == "domain" || !SameName("domain", name)
    requires !SameName("portal", name) && key != "portal"
    ensures FieldText(Replaced(Replaced(Canonical(ms), "domain", d), "portal", d), name)
         == if key == "domain" && HasKey(ms, key) then d else TextOf(Lookup(ms, key))
  {
    hide Lookup, Put, Canonical, FieldText, Unique, Replaced, SameName, HasKey;
    var out := Replaced(Replaced(Canonical(ms), "domain", d), "portal", d);
    RewrittenLookup(ms, d, key);
    SpelledInSubset(out, ms, name, key);
    FieldIsLookup(out, name, key);
  }

  /** Where the two read alike, the handler acts on the session the middleware saw, and on the domain
      of the cookie or none. */
  lemma AlikeMeansSeen(b: Body, d: string, names: set<string>)
    requires ReadAlike(b) && {"domain", "session_jid"} <= names && Decode(Handed(b, d), names).Some?
    ensures var f := Decode(Handed(b, d), names).value;
            f.sessionJid == Seen(b, "session_jid") && f.domain in {"", d}
  {
    hide Lookup, Put, Canonical, FieldText, FieldInt, DecoderOf, Contains, SpelledAs, Unique, Replaced,
         WellTyped, HasKey;
    var ms := b.json.value;
    DifferentNames();
    RewrittenField(ms, d, "session_jid", "session_jid");
    RewrittenField(ms, d, "domain", "domain");
    NotFound(ms, "domain");
  }

  lemma DifferentNames()
    ensures !SameName("domain", "session_jid") && !SameName("portal", "session_jid") && !SameName("portal", "domain")
    ensures SameName("domain", "domain") && SameName("session_jid", "session_jid") && "domain" != "session_jid"
    ensures "portal" != "session_jid" && "portal" != "domain"
  {
    assert |"domain"| == 6 && |"portal"| == 6 && |"session_jid"| == 11;
    assert "domain"[0] == 'd' && "portal"[0] == 'p';
  }

  // ----- content types -------------------------------------------------------------------------

  lemma {:induction false} ContainsCharacters(s: string, part: string, c: char)
    requires Contains(s, part) && c in part
    ensures c in s
  {
    if !(part <= s) {
      ContainsCharacters(s[1..], part, c);
    }
  }

  lemma PlainType(t: string)
    requires '+' !in t && ';' !in t && ToLower(t) == t
    ensures DecoderOf(t) == if HasSuffix(t, "json") then Json
                            else if HasPrefix(t, "application/x-www-form-urlencoded")
                                    || HasPrefix(t, "multipart/form-data")
                                    || HasPrefix(t, "text/xml") || HasPrefix(t, "application/xml") then FormOrXml
                            else NoDecoder
  {
  }

  const FORM_TYPE := "application/x-www-form-urlencoded"
  const JSON_TYPE := "application/json"

  lemma KnownTypes()
    ensures DecoderOf(FORM_TYPE).FormOrXml? && !Contains(FORM_TYPE, JSON_TYPE)
    ensures DecoderOf(JSON_TYPE).Json? && Contains(JSON_TYPE, JSON_TYPE)
  {
    hide DecoderOf, Contains, ToLower;
    FormLetters();
    JsonLetters();
    if Contains(FORM_TYPE, JSON_TYPE) {
      ContainsCharacters(FORM_TYPE, JSON_TYPE, 'j');
    }
    PlainType(FORM_TYPE);
    PlainType(JSON_TYPE);
    ContainsItself(JSON_TYPE);
  }

  lemma ContainsItself(s: string)
    ensures Contains(s, s)
  {
  }

  predicate Lower(s: string) {
    forall k :: 0 <= k < |s| ==> !('A' <= s[k] <= 'Z')
  }

  lemma LowerStays(s: string)
    requires Lower(s)
    ensures ToLower(s) == s
  {
  }

  lemma FormLetters()
    ensures '+' !in FORM_TYPE && ';' !in FORM_TYPE && 'j' !in FORM_TYPE && ToLower(FORM_TYPE) == FORM_TYPE
    ensures !HasSuffix(FORM_TYPE, "json") && HasPrefix(FORM_TYPE, "application/x-www-form-urlencoded")
  {
    hide ToLower, Lower;
    FormPlain('+');
    FormPlain(';');
    FormPlain('j');
    FormLower();
    LowerStays(FORM_TYPE);
    assert FORM_TYPE[|FORM_TYPE| - 1] == 'd' && "json"[3] == 'n';
  }

  lemma FormPlain(c: char)
    requires c in {'+', ';', 'j'}
    ensures c !in FORM_TYPE
  {
  }

  lemma FormLower()
    ensures Lower(FORM_TYPE)
  {
  }

  lemma JsonLetters()
    ensures '+' !in JSON_TYPE && ';' !in JSON_TYPE && 'j' in JSON_TYPE && ToLower(JSON_TYPE) == JSON_TYPE
    ensures HasSuffix(JSON_TYPE, "json")
  {
    hide ToLower;
    assert Lower(JSON_TYPE);
    LowerStays(JSON_TYPE);
    assert JSON_TYPE[12] == 'j' && JSON_TYPE[12..] == "json";
  }

  // ----- content types -------------------------------------------------------------------------

  /** A vendor's name before the '+' does not count, nor what follows a ';'. */
  lemma VendorDropped(kind: string, vendor: string, suffix: string, params: string)
    requires forall c :: c in "+;/" ==> c !in kind
    requires '+' !in vendor && ';' !in vendor && ';' !in suffix
    ensures WithoutVendor(kind + "/" + (vendor + "+" + suffix)) == kind + "/" + suffix
    ensures WithoutVendor(kind + "/" + (vendor + "+" + (suffix + ";" + params))) == kind + "/" + suffix
  {
    CharactersOf();
    VendorCut(kind, vendor, suffix, "");
    VendorCut(kind, vendor, suffix, ";" + params);
    assert suffix + "" == suffix && suffix + ";" + params == suffix + (";" + params);
  }

  /** Without a '+' there is no vendor; nor is there one where the '+' stands among the parameters, or
      before any '/'. */
  lemma NoVendor(kind: string, rest: string)
    requires '+' !in kind && ';' !in kind
    ensures WithoutVendor(kind) == kind
    ensures '+' in rest ==> WithoutVendor(kind + ";" + rest) == kind
    ensures '/' !in kind && ';' !in rest ==> WithoutVendor(kind + "+" + rest) == kind + "+" + rest
  {
    hide IndexOf;
    NoSeparator(kind, '+');
    FirstSeparator(kind, ';', rest);
    FirstSeparator(kind, '+', rest);
    var s, t := kind + ";" + rest, kind + "+" + rest;
    assert s[..|kind|] == kind;
    if '+' in rest {
      var k :| 0 <= k < |rest| && rest[k] == '+';
      assert s[|kind| + 1 + k] == '+';
      SeparatorBehind(s, '+', |kind|);
    }
    if '/' !in kind && ';' !in rest {
      NoSeparator(t, ';');
      SeparatorBehind(t, '/', |kind|);
    }
  }

  lemma SeparatorBehind(s: string, c: char, n: nat)
    requires n <= |s| && c !in s[..n]
    ensures c in s ==> IndexOf(s, c) >= n
    ensures IndexOf(s, c) < 0 || IndexOf(s, c) >= n
  {
    forall k | 0 <= k < n ensures s[k] != c {
      assert s[k] in s[..n];
    }
  }

  lemma CharactersOf()
    ensures '+' in "+;/" && ';' in "+;/" && '/' in "+;/"
  {
    assert "+;/"[0] == '+' && "+;/"[1] == ';' && "+;/"[2] == '/';
  }

  lemma VendorCut(kind: string, vendor: string, suffix: string, rest: string)
    requires '+' !in kind && ';' !in kind && '/' !in kind
    requires '+' !in vendor && ';' !in vendor && ';' !in suffix && (rest == "" || rest[0] == ';')
    ensures WithoutVendor(kind + "/" + (vendor + "+" + (suffix + rest))) == kind + "/" + suffix
  {
    hide IndexOf;
    var s := kind + "/" + (vendor + "+" + (suffix + rest));
    var front := kind + "/" + vendor;
    FirstSeparator(kind, '/', vendor + "+" + (suffix + rest));
    FirstSeparator(front, '+', suffix + rest);
    assert s == front + "+" + (suffix + rest);
    var whole := front + "+" + suffix;
    assert s == whole + rest;
    if rest == "" {
      assert ';' !in whole && s == whole;
      NoSeparator(whole, ';');
    } else {
      FirstSeparator(whole, ';', rest[1..]);
      assert s == whole + ";" + rest[1..];
    }
    assert s[..|kind| + 1] == kind + "/";
    assert s[|front| + 1..|whole|] == suffix;
  }

  lemma NoSeparator(s: string, c: char)
    requires c !in s
    ensures IndexOf(s, c) == -1
  {
  }

  /** Parameters do not decide, nor does the case of letters. */
  lemma TypeDecides(kind: string, params: string)
    requires '+' !in kind && ';' !in kind && '+' !in params
    ensures DecoderOf(kind + ";" + params) == DecoderOf(kind) == DecoderOf(ToLower(kind))
  {
    hide HasSuffix, HasPrefix;
    var lower, more := ToLower(kind), ToLower(params);
    LowerHasNot(kind, '+');
    LowerHasNot(kind, ';');
    LowerHasNot(params, '+');
    LowerStays(lower);
    assert ToLower(kind + ";" + params) == lower + ";" + more;
    NoSeparator(lower, '+');
    NoSeparator(lower + ";" + more, '+');
    NoSeparator(lower, ';');
    FirstSeparator(lower, ';', more);
    assert (lower + ";" + more)[..|lower|] == lower;
  }

  lemma LowerHasNot(s: string, c: char)
    requires c !in s && !('a' <= c <= 'z')
    ensures c !in ToLower(s)
  {
    forall k | 0 <= k < |s| ensures ToLower(s)[k] != c {
      assert s[k] in s;
    }
  }

  // ----- the order of names --------------------------------------------------------------------

  /** In the order of characters, as a dictionary has it. */
  ghost predicate Earlier(a: string, b: string) {
    exists n :: DiffersAt(a, b, n)
  }

  predicate DiffersAt(a: string, b: string, n: int) {
    0 <= n <= |a| && n < |b| && a[..n] == b[..n] && (n == |a| || a[n] < b[n])
  }

  lemma {:induction false} LessIsEarlier(a: string, b: string)
    ensures Less(a, b) <==> Earlier(a, b)
    decreases |a|
  {
    if a == "" {
      assert b != "" ==> DiffersAt(a, b, 0);
    } else if b != "" {
      if a[0] < b[0] {
        assert DiffersAt(a, b, 0);
      } else if a[0] == b[0] {
        LessIsEarlier(a[1..], b[1..]);
        if n :| DiffersAt(a[1..], b[1..], n) {
          assert a[..n + 1] == [a[0]] + a[1..][..n] && b[..n + 1] == [b[0]] + b[1..][..n];
          assert DiffersAt(a, b, n + 1);
        }
        if n :| DiffersAt(a, b, n) {
          assert n > 0;
          assert a[1..][..n - 1] == a[..n][1..] && b[1..][..n - 1] == b[..n][1..];
          assert DiffersAt(a[1..], b[1..], n - 1);
        }
      } else {
        forall n ensures !DiffersAt(a, b, n) {
          if 0 < n <= |a| && n < |b| {
            assert a[..n][0] == a[0];
            assert b[..n][0] == b[0];
          }
        }
      }
    }
  }

  lemma {:induction false} LessIsTotal(a: string, b: string)
    ensures a == b || Less(a, b) || Less(b, a)
    decreases |a|
  {
    if a != "" && b != "" && a[0] == b[0] {
      LessIsTotal(a[1..], b[1..]);
      assert a == [a[0]] + a[1..] && b == [b[0]] + b[1..];
    }
  }

  lemma {:induction false} LessFollows(a: string, b: string, c: string)
    requires Less(a, b) && Less(b, c)
    ensures Less(a, c)
    decreases |a|
  {
    if a != "" && a[0] == b[0] && b[0] == c[0] {
      LessFollows(a[1..], b[1..], c[1..]);
    }
  }

  ghost predicate InOrder(ms: seq<Member>) {
    forall i, j :: 0 <= i < j < |ms| ==> Less(ms[i].key, ms[j].key)
  }

  lemma {:induction false} InsertKeepsOrder(ms: seq<Member>, m: Member)
    requires InOrder(ms) && !HasKey(ms, m.key)
    ensures InOrder(Insert(ms, m))
    ensures forall n :: n in Insert(ms, m) ==> n in ms || n == m
  {
    hide Less;
    if ms != [] {
      var n := |ms| - 1;
      LessIsTotal(ms[n].key, m.key);
      if Less(ms[n].key, m.key) {
        forall i | 0 <= i < n ensures Less(ms[i].key, m.key) {
          LessFollows(ms[i].key, ms[n].key, m.key);
        }
      } else {
        InsertKeepsOrder(ms[..n], m);
        assert forall i :: 0 <= i < n ==> Less(ms[i].key, ms[n].key);
        assert forall k :: k in ms[..n] ==> Less(k.key, ms[n].key);
      }
    }
  }

  lemma {:induction false} CanonicalInOrder(ms: seq<Member>)
    ensures InOrder(Canonical(ms))
  {
    hide Less, Insert;
    if ms != [] {
      var front, last := Canonical(ms[..|ms| - 1]), ms[|ms| - 1];
      CanonicalInOrder(ms[..|ms| - 1]);
      if !HasKey(front, last.key) {
        InsertKeepsOrder(front, last);
      }
    }
  }

  /** The rewritten body has each name once, in the order of characters; of several spellings of a field's
      name its handler takes the last in that order. */
  lemma RewrittenInOrder(ms: seq<Member>, i: nat, j: nat)
    requires i < j < |Canonical(ms)|
    ensures Earlier(Canonical(ms)[i].key, Canonical(ms)[j].key)
  {
    hide Canonical, Less, Earlier;
    CanonicalInOrder(ms);
    LessIsEarlier(Canonical(ms)[i].key, Canonical(ms)[j].key);
  }

  /** Two characters are taken for each other exactly when they are the same letter in either case, or one
      is an s or a k and the other the long s or the Kelvin sign. */
  lemma FoldsExactly(c: char, d: char)
    requires d < '\U{0080}'
    ensures FoldChar(c) == FoldChar(d) <==>
            (c == d || ('A' <= d <= 'Z' && c as int == d as int + 32) || ('a' <= d <= 'z' && c as int == d as int - 32)
             || (d in {'s', 'S'} && c == '\U{017F}') || (d in {'k', 'K'} && c == '\U{212A}'))
  {
  }
}
