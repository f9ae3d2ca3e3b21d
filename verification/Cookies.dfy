/** The three signed cookies: tenant, panel administrator and Bitrix user.

    The HMAC with its hexadecimal printing is a parameter, `mac`. Nothing is assumed about it except
    that it prints hexadecimal digits (`HexTags`) and that where a verifier finds the tag it computes
    itself, the server issued a tag for that very message (`Unforgeable`). */
module Cookies {
  import opened Text
  import Base64

  type Mac = string -> string
  type Bytes = seq<Base64.Byte>

  const ROLE_ADMIN := "superadmin"

  // ----- signing ---------------------------------------------------------------------------

  function SignTenant(mac: Mac, domain: string, exp: int): string {
    var payload := FormatInt(exp) + "|" + domain;
    payload + "|" + mac("v2:" + payload)
  }

  function SignAdmin(mac: Mac, email: string, role: string, exp: int): string {
    var payload := FormatInt(exp) + "|" + email + "|" + role;
    payload + "|" + mac(payload)
  }

  function SignUser(mac: Mac, domain: string, userId: string, name: Bytes, exp: int): string {
    var payload := FormatInt(exp) + "|" + domain + "|" + userId + "|" + Base64.Encode(Base64.RawUrl, name);
    payload + "|" + mac("user-v2:" + payload)
  }

  // ----- verifying -------------------------------------------------------------------------

  /** The expiry test both formats share: parses, and is not in the past. */
  predicate Alive(exp: string, now: int) {
    ParseInt(exp).Some? && now <= ParseInt(exp).value
  }

  /** The text before the first '|', between the first and the last, and after the last. */
  function CutEnds(raw: string): (r: Option<(string, string, string)>)
    ensures r.Some? ==> raw == r.value.0 + "|" + r.value.1 + "|" + r.value.2
    ensures r.Some? ==> '|' !in r.value.0 && '|' !in r.value.2
  {
    var i1 := IndexOf(raw, '|');
    var i2 := LastIndexOf(raw, '|');
    if i1 < 0 || i2 <= i1 then None else Some((raw[..i1], raw[i1 + 1..i2], raw[i2 + 1..]))
  }

  lemma CutEndsOf(exp: string, middle: string, tag: string)
    requires '|' !in exp && '|' !in tag
    ensures CutEnds(exp + "|" + middle + "|" + tag) == Some((exp, middle, tag))
  {
    var raw := exp + "|" + middle + "|" + tag;
    assert raw == exp + "|" + (middle + "|" + tag);
    FirstSeparator(exp, '|', middle + "|" + tag);
    LastSeparator(exp + "|" + middle, '|', tag);
    var i1, i2 := |exp|, |exp| + 1 + |middle|;
    assert raw[..i1] == exp && raw[i1 + 1..i2] == middle && raw[i2 + 1..] == tag;
  }

  /** The text before and after the last '|'. */
  function CutLast(raw: string): (r: Option<(string, string)>)
    ensures r.Some? ==> raw == r.value.0 + "|" + r.value.1 && r.value.0 != ""
  {
    var i := LastIndexOf(raw, '|');
    if i <= 0 then None else Some((raw[..i], raw[i + 1..]))
  }

  lemma CutLastOf(payload: string, tag: string)
    requires '|' !in tag && payload != ""
    ensures CutLast(payload + "|" + tag) == Some((payload, tag))
  {
    LastSeparator(payload, '|', tag);
    var raw := payload + "|" + tag;
    assert raw[..|payload|] == payload && raw[|payload| + 1..] == tag;
  }

  function VerifyTenant(mac: Mac, now: int, raw: string): Option<string> {
    if raw == "" then None
    else if '|' in raw then
      match CutEnds(raw)
      case None => None
      case Some((exp, domain, got)) =>
        if !Alive(exp, now) then None
        else if got != mac("v2:" + (exp + "|" + domain)) then None
        else Some(domain)
    else
      var parts := SplitN(raw, '.', 3);
      if |parts| != 3 || !Alive(parts[0], now) then None
      else if parts[2] != mac(parts[0] + "." + parts[1]) then None
      else Some(parts[1])
  }

  function VerifyAdmin(mac: Mac, now: int, raw: string): Option<(string, string)> {
    if raw == "" then None
    else if '|' !in raw then
      var parts := SplitN(raw, '.', 2);
      if |parts| != 2 || !Alive(parts[0], now) then None
      else if parts[1] != mac(parts[0]) then None
      else Some(("", ROLE_ADMIN))
    else
      match CutLast(raw)
      case None => None
      case Some((payload, sig)) =>
        if sig != mac(payload) then None
        else
          var fields := Split(payload, '|');
          if |fields| != 3 || !Alive(fields[0], now) then None
          else Some((fields[1], fields[2]))
  }

  function VerifyUser(mac: Mac, now: int, raw: string): Option<(string, string, Bytes)> {
    var parts := Split(raw, '|');
    if |parts| != 5 || !Alive(parts[0], now) then None
    else if parts[4] != mac("user-v2:" + Join(parts[..4], '|')) then None
    else if parts[1] == "" || parts[2] == "" then None
    else
      match Base64.Decode(Base64.RawUrl, parts[3])
      case None => None
      case Some(name) => Some((parts[1], parts[2], name))
  }

  // ----- what was issued -------------------------------------------------------------------

  /** One call of a signer. The expiry is a 64-bit Unix time, as in the program. */
  datatype Cookie =
    | Tenant(exp: int, domain: string)
    | Admin(exp: int, email: string, role: string)
    | User(exp: int, domain: string, userId: string, name: Bytes)

  /** The message whose HMAC a signer computes. */
  function Preimage(c: Cookie): string {
    match c
    case Tenant(exp, domain) => "v2:" + (FormatInt(exp) + "|" + domain)
    case Admin(exp, email, role) => FormatInt(exp) + "|" + email + "|" + role
    case User(exp, domain, userId, name) =>
      "user-v2:" + (FormatInt(exp) + "|" + domain + "|" + userId + "|" + Base64.Encode(Base64.RawUrl, name))
  }

  predicate PipeFree(s: string) {
    '|' !in s
  }

  /** The fields a cookie of this kind can carry through its own format. */
  predicate Carries(c: Cookie) {
    match c
    case Tenant(_, _) => true
    case Admin(_, email, role) => PipeFree(email) && PipeFree(role)
    case User(_, domain, userId, _) =>
      domain != "" && userId != "" && PipeFree(domain) && PipeFree(userId)
  }

  predicate IsHexDigit(c: char) {
    '0' <= c <= '9' || 'a' <= c <= 'f'
  }

  ghost predicate HexTags(mac: Mac) {
    forall p: string, k: nat :: k < |mac(p)| ==> IsHexDigit(mac(p)[k])
  }

  ghost predicate IssuedMessage(issued: set<Cookie>, p: string) {
    exists c :: c in issued && Preimage(c) == p
  }

  /** The message each branch of each verifier computes the tag of, with the tag it finds. */
  function Checked(raw: string): set<(string, string)> {
    var dotted, words := SplitN(raw, '.', 3), SplitN(raw, '.', 2);
    var fields := Split(raw, '|');
    (match CutEnds(raw) case Some((exp, domain, tag)) => {("v2:" + (exp + "|" + domain), tag)} case None => {})
    + (match CutLast(raw) case Some((payload, tag)) => {(payload, tag)} case None => {})
    + (if |fields| == 5 then {("user-v2:" + Join(fields[..4], '|'), fields[4])} else {})
    + (if |dotted| == 3 then {(dotted[0] + "." + dotted[1], dotted[2])} else {})
    + (if |words| == 2 then {(words[0], words[1])} else {})
  }

  /** A message whose tag a verifier recomputes and finds in `raw` is one the server issued a tag for. */
  ghost predicate Unforgeable(mac: Mac, issued: set<Cookie>, raw: string) {
    forall p: string, tag: string :: (p, tag) in Checked(raw) && tag == mac(p) ==> IssuedMessage(issued, p)
  }

  ghost predicate ValidExpiries(issued: set<Cookie>) {
    forall c :: c in issued ==> IsInt64(c.exp)
  }

  // ----- unambiguous formats ---------------------------------------------------------------

  lemma TagHasNoSeparator(mac: Mac, p: string)
    requires HexTags(mac)
    ensures '|' !in mac(p) && '.' !in mac(p)
  {
  }

  lemma DecimalHasNoSeparator(n: int)
    ensures '|' !in FormatInt(n) && '.' !in FormatInt(n)
  {
    FormatShape(n);
  }

  lemma ParsedHasNoSeparator(s: string)
    requires ParseInt(s).Some?
    ensures '|' !in s && '.' !in s && s != "" && s[0] != 'v' && s[0] != 'u'
  {
    ParsedShape(s);
  }

  lemma AdminPayload(exp: int, email: string, role: string)
    ensures FormatInt(exp) + "|" + email + "|" + role == Join([FormatInt(exp), email, role], '|')
  {
    assert Join([email, role], '|') == email + "|" + role;
    assert [FormatInt(exp), email, role][1..] == [email, role];
  }

  lemma UserPayload(exp: string, domain: string, userId: string, name: string)
    ensures exp + "|" + domain + "|" + userId + "|" + name == Join([exp, domain, userId, name], '|')
  {
    assert Join([userId, name], '|') == userId + "|" + name;
    assert [domain, userId, name][1..] == [userId, name];
    assert Join([domain, userId, name], '|') == domain + "|" + userId + "|" + name;
    assert [exp, domain, userId, name][1..] == [domain, userId, name];
  }

  /** Every message ever signed holds a '|' and starts by its kind: 'v', 'u', or a decimal. */
  lemma PreimageShape(c: Cookie)
    ensures '|' in Preimage(c)
    ensures c.Tenant? ==> Preimage(c)[0] == 'v'
    ensures c.User? ==> Preimage(c)[0] == 'u'
    ensures c.Admin? ==> Preimage(c)[0] == '-' || IsDigit(Preimage(c)[0])
  {
    FormatShape(c.exp);
    var e := FormatInt(c.exp);
    match c
    case Tenant(_, d) =>
      assert Preimage(c)[3 + |e|] == '|';
    case Admin(_, _, _) =>
      assert Preimage(c)[|e|] == '|';
      assert Preimage(c)[0] == e[0];
    case User(_, _, _, _) =>
      assert Preimage(c)[8 + |e|] == '|';
  }

  lemma SameKind(c: Cookie, c': Cookie)
    requires Preimage(c) == Preimage(c')
    ensures c.Tenant? == c'.Tenant? && c.Admin? == c'.Admin?
  {
    hide Preimage;
    PreimageShape(c);
    PreimageShape(c');
  }

  lemma SameTenant(c: Cookie, c': Cookie)
    requires c.Tenant? && c'.Tenant? && Preimage(c) == Preimage(c') && IsInt64(c.exp) && IsInt64(c'.exp)
    ensures c == c'
  {
    hide FormatInt, ParseInt;
    ParseFormat(c.exp);
    ParseFormat(c'.exp);
    DecimalHasNoSeparator(c.exp);
    DecimalHasNoSeparator(c'.exp);
    assert Preimage(c)[3..] == FormatInt(c.exp) + "|" + c.domain;
    assert Preimage(c')[3..] == FormatInt(c'.exp) + "|" + c'.domain;
    FirstFieldUnique(FormatInt(c.exp), c.domain, FormatInt(c'.exp), c'.domain, '|');
  }

  lemma SameAdmin(c: Cookie, c': Cookie)
    requires c.Admin? && c'.Admin? && Preimage(c) == Preimage(c') && IsInt64(c.exp) && IsInt64(c'.exp)
    requires Carries(c) && Carries(c')
    ensures c == c'
  {
    hide FormatInt, ParseInt, Split, Join;
    ParseFormat(c.exp);
    ParseFormat(c'.exp);
    DecimalHasNoSeparator(c.exp);
    DecimalHasNoSeparator(c'.exp);
    AdminPayload(c.exp, c.email, c.role);
    AdminPayload(c'.exp, c'.email, c'.role);
    var fields, fields' := [FormatInt(c.exp), c.email, c.role], [FormatInt(c'.exp), c'.email, c'.role];
    SplitJoin(fields, '|');
    SplitJoin(fields', '|');
    assert fields == fields';
    assert fields[0] == fields'[0] && fields[1] == fields'[1] && fields[2] == fields'[2];
  }

  lemma SameUser(c: Cookie, c': Cookie)
    requires c.User? && c'.User? && Preimage(c) == Preimage(c') && IsInt64(c.exp) && IsInt64(c'.exp)
    requires Carries(c) && Carries(c')
    ensures c == c'
  {
    hide FormatInt, ParseInt, Split, Base64.Encode, Base64.Decode;
    ParseFormat(c.exp);
    ParseFormat(c'.exp);
    UserFields(c);
    UserFields(c');
    Base64.RoundTrip(Base64.RawUrl, c.name);
    Base64.RoundTrip(Base64.RawUrl, c'.name);
    var fields := Split(Preimage(c)[8..], '|');
    assert fields[0] == FormatInt(c.exp) == FormatInt(c'.exp);
    assert fields[1] == c.domain == c'.domain && fields[2] == c.userId == c'.userId;
    assert fields[3] == Base64.Encode(Base64.RawUrl, c.name) == Base64.Encode(Base64.RawUrl, c'.name);
  }

  /** The signed messages of different kinds never coincide, and within a kind a message determines
      the cookie, as long as its fields fit the format. */
  lemma PreimagesDisjoint(c: Cookie, c': Cookie)
    requires ValidExpiries({c, c'}) && (c.Tenant? || Carries(c)) && (c'.Tenant? || Carries(c'))
    ensures Preimage(c) == Preimage(c') ==> c == c'
  {
    hide Preimage, Carries;
    assert c in {c, c'} && c' in {c, c'};
    if Preimage(c) == Preimage(c') {
      SameKind(c, c');
      match c
      case Tenant(_, _) => SameTenant(c, c');
      case Admin(_, _, _) => SameAdmin(c, c');
      case User(_, _, _, _) => SameUser(c, c');
    }
  }

  lemma UserFields(c: Cookie)
    requires c.User? && Carries(c)
    ensures Split(Preimage(c)[8..], '|')
         == [FormatInt(c.exp), c.domain, c.userId, Base64.Encode(Base64.RawUrl, c.name)]
  {
    var b := Base64.Encode(Base64.RawUrl, c.name);
    DecimalHasNoSeparator(c.exp);
    Base64.EncodedCharacters(Base64.RawUrl, c.name);
    UserPayload(FormatInt(c.exp), c.domain, c.userId, b);
    SplitJoin([FormatInt(c.exp), c.domain, c.userId, b], '|');
    assert Preimage(c)[8..] == FormatInt(c.exp) + "|" + c.domain + "|" + c.userId + "|" + b;
  }

  // ----- round trips -----------------------------------------------------------------------

  /** A tenant cookie is accepted until it expires and gives back its domain, whatever the domain. */
  lemma TenantRoundTrip(mac: Mac, now: int, domain: string, exp: int)
    requires HexTags(mac) && IsInt64(exp)
    ensures VerifyTenant(mac, now, SignTenant(mac, domain, exp))
         == if now <= exp then Some(domain) else None
  {
    var e := FormatInt(exp);
    var tag := mac("v2:" + (e + "|" + domain));
    var raw := SignTenant(mac, domain, exp);
    DecimalHasNoSeparator(exp);
    TagHasNoSeparator(mac, "v2:" + (e + "|" + domain));
    ParseFormat(exp);
    CutEndsOf(e, domain, tag);
    assert raw == e + "|" + domain + "|" + tag;
    assert raw[|e|] == '|';
  }

  /** An administrator cookie is accepted until it expires, exactly when neither field holds '|'. */
  lemma AdminRoundTrip(mac: Mac, now: int, email: string, role: string, exp: int)
    requires HexTags(mac) && IsInt64(exp)
    ensures VerifyAdmin(mac, now, SignAdmin(mac, email, role, exp))
         == if PipeFree(email) && PipeFree(role) && now <= exp then Some((email, role)) else None
  {
    var payload := FormatInt(exp) + "|" + email + "|" + role;
    AdminFields(exp, email, role);
    TagHasNoSeparator(mac, payload);
    ParseFormat(exp);
    FormatShape(exp);
    CutLastOf(payload, mac(payload));
    assert SignAdmin(mac, email, role, exp)[|payload|] == '|';
  }

  lemma AdminFields(exp: int, email: string, role: string)
    ensures var parts := Split(FormatInt(exp) + "|" + email + "|" + role, '|');
            if PipeFree(email) && PipeFree(role) then parts == [FormatInt(exp), email, role] else |parts| > 3
  {
    var fields := [FormatInt(exp), email, role];
    AdminPayload(exp, email, role);
    DecimalHasNoSeparator(exp);
    SplitJoin(fields, '|');
    assert fields[1] == email && fields[2] == role;
  }

  /** A user cookie is accepted until it expires, exactly when domain and id are non-empty and hold
      no '|'. The name may be any byte sequence. */
  lemma UserRoundTrip(mac: Mac, now: int, domain: string, userId: string, name: Bytes, exp: int)
    requires HexTags(mac) && IsInt64(exp)
    ensures VerifyUser(mac, now, SignUser(mac, domain, userId, name, exp))
         == if domain != "" && userId != "" && PipeFree(domain) && PipeFree(userId) && now <= exp
            then Some((domain, userId, name)) else None
  {
    var b := Base64.Encode(Base64.RawUrl, name);
    var payload := FormatInt(exp) + "|" + domain + "|" + userId + "|" + b;
    var tag := mac("user-v2:" + payload);
    TagHasNoSeparator(mac, "user-v2:" + payload);
    SignedUserFields(FormatInt(exp), domain, userId, b, tag) by {
      DecimalHasNoSeparator(exp);
      Base64.EncodedCharacters(Base64.RawUrl, name);
    }
    ParseFormat(exp);
    UserPayload(FormatInt(exp), domain, userId, b);
    Base64.RoundTrip(Base64.RawUrl, name);
    assert [FormatInt(exp), domain, userId, b, tag][..4] == [FormatInt(exp), domain, userId, b];
  }

  lemma SignedUserFields(exp: string, domain: string, userId: string, b: string, tag: string)
    requires PipeFree(exp) && PipeFree(b) && PipeFree(tag)
    ensures var parts := Split(exp + "|" + domain + "|" + userId + "|" + b + "|" + tag, '|');
            if PipeFree(domain) && PipeFree(userId) then parts == [exp, domain, userId, b, tag] else |parts| > 5
  {
    var fields, all := [exp, domain, userId, b], [exp, domain, userId, b, tag];
    UserPayload(exp, domain, userId, b);
    assert all == fields + [tag];
    JoinLast(fields, tag, '|');
    SplitJoin(all, '|');
    assert all[1] == domain && all[2] == userId;
  }

  lemma {:induction false} JoinLast(parts: seq<string>, last: string, c: char)
    requires |parts| >= 1
    ensures Join(parts + [last], c) == Join(parts, c) + [c] + last
  {
    if |parts| > 1 {
      JoinLast(parts[1..], last, c);
      assert (parts + [last])[1..] == parts[1..] + [last];
    }
  }

  // ----- authenticity ----------------------------------------------------------------------

  /** The legacy dotted formats accept nothing: no message with a tag in circulation lacks a '|'. */
  lemma LegacyAcceptsNothing(mac: Mac, issued: set<Cookie>, now: int, raw: string)
    requires Unforgeable(mac, issued, raw) && '|' !in raw
    ensures VerifyTenant(mac, now, raw).None? && VerifyAdmin(mac, now, raw).None?
  {
    hide ParseInt, CutEnds, CutLast, Split, Checked;
    if VerifyTenant(mac, now, raw).Some? {
      var parts := SplitN(raw, '.', 3);
      JoinSplitN(raw, '.', 3);
      assert parts == [parts[0]] + [parts[1], parts[2]];
      JoinStep(parts[0], [parts[1], parts[2]], '.');
      assert raw == (parts[0] + "." + parts[1]) + "." + parts[2];
      DottedChecked(raw);
      IssuedHasPipe(mac, issued, raw, parts[0] + "." + parts[1], parts[2]);
    }
    if VerifyAdmin(mac, now, raw).Some? {
      var parts := SplitN(raw, '.', 2);
      JoinSplitN(raw, '.', 2);
      DottedChecked(raw);
      IssuedHasPipe(mac, issued, raw, parts[0], parts[1]);
    }
  }

  lemma ThreeParts(a: string, b: string, c: string)
    requires '.' !in a && '.' !in b
    ensures SplitN(a + "." + (b + "." + c), '.', 3) == [a, b, c]
    ensures '.' !in c ==> SplitN(a + "." + c, '.', 2) == [a, c]
  {
    FirstSeparator(a, '.', b + "." + c);
    FirstSeparator(a, '.', c);
    FirstSeparator(b, '.', c);
    var s := a + "." + (b + "." + c);
    assert s[|a| + 1..] == b + "." + c && s[..|a|] == a;
    assert (b + "." + c)[|b| + 1..] == c && (b + "." + c)[..|b|] == b;
    assert (a + "." + c)[|a| + 1..] == c && (a + "." + c)[..|a|] == a;
  }

  /** What the dotted branches would accept: three parts of a tenant cookie, two of an administrator's,
      unexpired, with the tag of what comes before it; the administrator gets the highest role. */
  lemma LegacyExactly(mac: Mac, now: int, exp: string, domain: string, tag: string)
    requires forall s :: s in {exp, domain, tag} ==> '|' !in s && '.' !in s
    ensures var alive := ParseInt(exp).Some? && now <= ParseInt(exp).value;
            && VerifyTenant(mac, now, exp + "." + (domain + "." + tag))
               == (if alive && tag == mac(exp + "." + domain) then Some(domain) else None)
            && VerifyTenant(mac, now, exp + "." + tag) == None
            && VerifyAdmin(mac, now, exp + "." + tag)
               == (if alive && tag == mac(exp) then Some(("", "superadmin")) else None)
  {
    hide ParseInt, CutEnds, CutLast, Split, SplitN;
    var tenant, admin := exp + "." + (domain + "." + tag), exp + "." + tag;
    assert exp in {exp, domain, tag} && domain in {exp, domain, tag} && tag in {exp, domain, tag};
    ThreeParts(exp, domain, tag);
    TwoParts(exp, tag);
    assert '|' !in tenant && '|' !in admin;
    assert tenant != "" && admin != "";
  }

  lemma TwoParts(a: string, b: string)
    requires '.' !in a && '.' !in b
    ensures SplitN(a + "." + b, '.', 3) == [a, b]
  {
    FirstSeparator(a, '.', b);
    assert (a + "." + b)[|a| + 1..] == b && (a + "." + b)[..|a|] == a;
  }

  lemma DottedChecked(raw: string)
    ensures var parts := SplitN(raw, '.', 3);
            |parts| == 3 ==> (parts[0] + "." + parts[1], parts[2]) in Checked(raw)
    ensures var parts := SplitN(raw, '.', 2); |parts| == 2 ==> (parts[0], parts[1]) in Checked(raw)
  {
    hide CutEnds, CutLast, Split, SplitN, Join;
  }

  lemma PipedChecked(raw: string)
    ensures CutEnds(raw).Some? ==>
              ("v2:" + (CutEnds(raw).value.0 + "|" + CutEnds(raw).value.1), CutEnds(raw).value.2) in Checked(raw)
    ensures CutLast(raw).Some? ==> CutLast(raw).value in Checked(raw)
    ensures var fields := Split(raw, '|');
            |fields| == 5 ==> ("user-v2:" + Join(fields[..4], '|'), fields[4]) in Checked(raw)
  {
    hide CutEnds, CutLast, Split, SplitN, Join;
  }

  lemma IssuedHasPipe(mac: Mac, issued: set<Cookie>, raw: string, p: string, tag: string)
    requires Unforgeable(mac, issued, raw) && (p, tag) in Checked(raw) && tag == mac(p)
    ensures '|' in p && IssuedMessage(issued, p)
  {
    hide Checked;
    var c :| c in issued && Preimage(c) == p;
    PreimageShape(c);
  }

  /** The tenant verifier accepts exactly the unexpired tenant cookies that were issued, and returns
      the domain they were issued for. */
  lemma TenantAuthentic(mac: Mac, issued: set<Cookie>, now: int, raw: string, domain: string)
    requires HexTags(mac) && Unforgeable(mac, issued, raw) && ValidExpiries(issued)
    ensures VerifyTenant(mac, now, raw) == Some(domain) <==>
            exists exp :: Tenant(exp, domain) in issued && raw == SignTenant(mac, domain, exp) && now <= exp
  {
    hide FormatInt, ParseInt, Checked, CutLast;
    if exp :| Tenant(exp, domain) in issued && raw == SignTenant(mac, domain, exp) && now <= exp {
      TenantRoundTrip(mac, now, domain, exp);
    }
    if VerifyTenant(mac, now, raw) == Some(domain) {
      if '|' !in raw {
        LegacyAcceptsNothing(mac, issued, now, raw);
      } else {
        var (exp, _, tag) := CutEnds(raw).value;
        var p := "v2:" + (exp + "|" + domain);
        PipedChecked(raw);
        IssuedHasPipe(mac, issued, raw, p, tag);
        var c :| c in issued && Preimage(c) == p;
        TenantAccepted(c, exp, domain);
        ParseFormat(c.exp);
        assert c == Tenant(c.exp, domain);
      }
    }
  }

  lemma TenantAccepted(c: Cookie, exp: string, domain: string)
    requires '|' !in exp && Preimage(c) == "v2:" + (exp + "|" + domain)
    ensures c.Tenant? && exp == FormatInt(c.exp) && domain == c.domain
  {
    PreimageShape(c);
    assert Preimage(c)[0] == 'v';
    DecimalHasNoSeparator(c.exp);
    assert Preimage(c)[3..] == exp + "|" + domain;
    assert Preimage(c)[3..] == FormatInt(c.exp) + "|" + c.domain;
    FirstFieldUnique(exp, domain, FormatInt(c.exp), c.domain, '|');
  }

  lemma AdminAccepted(c: Cookie, payload: string)
    requires Preimage(c) == payload && |Split(payload, '|')| == 3
    requires ParseInt(Split(payload, '|')[0]).Some?
    ensures c.Admin? && Split(payload, '|') == [FormatInt(c.exp), c.email, c.role]
    ensures PipeFree(c.email) && PipeFree(c.role)
  {
    var fields := Split(payload, '|');
    JoinSplit(payload, '|');
    ParsedHasNoSeparator(fields[0]);
    assert payload[0] == fields[0][0];
    PreimageShape(c);
    AdminPayload(c.exp, c.email, c.role);
    SplitJoin([FormatInt(c.exp), c.email, c.role], '|');
    assert PipeFree(fields[1]) && PipeFree(fields[2]);
  }

  lemma AdminForward(mac: Mac, issued: set<Cookie>, now: int, raw: string, email: string, role: string)
    requires HexTags(mac) && Unforgeable(mac, issued, raw) && ValidExpiries(issued)
    requires '|' in raw && VerifyAdmin(mac, now, raw) == Some((email, role))
    ensures exists exp :: Admin(exp, email, role) in issued && raw == SignAdmin(mac, email, role, exp)
                       && PipeFree(email) && PipeFree(role) && now <= exp
  {
    hide FormatInt, ParseInt, Checked, CutEnds;
    var (payload, tag) := CutLast(raw).value;
    PipedChecked(raw);
    IssuedHasPipe(mac, issued, raw, payload, tag);
    var c :| c in issued && Preimage(c) == payload;
    AdminAccepted(c, payload);
    ParseFormat(c.exp);
    assert c == Admin(c.exp, email, role);
  }

  /** The administrator verifier accepts exactly the unexpired administrator cookies that were
      issued for '|'-free fields, and returns those fields. */
  lemma AdminAuthentic(mac: Mac, issued: set<Cookie>, now: int, raw: string, email: string, role: string)
    requires HexTags(mac) && Unforgeable(mac, issued, raw) && ValidExpiries(issued)
    ensures VerifyAdmin(mac, now, raw) == Some((email, role)) <==>
            exists exp :: Admin(exp, email, role) in issued && raw == SignAdmin(mac, email, role, exp)
                       && PipeFree(email) && PipeFree(role) && now <= exp
  {
    if exp :| (Admin(exp, email, role) in issued && raw == SignAdmin(mac, email, role, exp)
               && PipeFree(email) && PipeFree(role) && now <= exp) {
      AdminRoundTrip(mac, now, email, role, exp);
    }
    if VerifyAdmin(mac, now, raw) == Some((email, role)) {
      if '|' !in raw {
        LegacyAcceptsNothing(mac, issued, now, raw);
      } else {
        AdminForward(mac, issued, now, raw, email, role);
      }
    }
  }

  lemma UserForward(mac: Mac, issued: set<Cookie>, now: int, raw: string, domain: string, userId: string, name: Bytes)
    requires HexTags(mac) && Unforgeable(mac, issued, raw) && ValidExpiries(issued)
    requires VerifyUser(mac, now, raw) == Some((domain, userId, name))
    ensures exists exp :: User(exp, domain, userId, name) in issued
                       && raw == SignUser(mac, domain, userId, name, exp)
                       && domain != "" && userId != "" && PipeFree(domain) && PipeFree(userId) && now <= exp
  {
    hide FormatInt, ParseInt, Checked, CutEnds, CutLast, Base64.Decode;
    var parts := Split(raw, '|');
    JoinSplit(raw, '|');
    var fields, tag := parts[..4], parts[4];
    var payload := Join(fields, '|');
    JoinLast(fields, tag, '|');
    assert parts == fields + [tag];
    PipedChecked(raw);
    IssuedHasPipe(mac, issued, raw, "user-v2:" + payload, tag);
    var c :| c in issued && Preimage(c) == "user-v2:" + payload;
    UserAccepted(c, fields, payload);
    ParseFormat(c.exp);
    Base64.RoundTrip(Base64.RawUrl, c.name);
    assert c == User(c.exp, domain, userId, name);
  }

  /** The user verifier accepts exactly the unexpired user cookies that were issued with usable
      fields, and returns domain, id and name as issued. */
  lemma UserAuthentic(mac: Mac, issued: set<Cookie>, now: int, raw: string, domain: string, userId: string, name: Bytes)
    requires HexTags(mac) && Unforgeable(mac, issued, raw) && ValidExpiries(issued)
    ensures VerifyUser(mac, now, raw) == Some((domain, userId, name)) <==>
            exists exp :: User(exp, domain, userId, name) in issued
                       && raw == SignUser(mac, domain, userId, name, exp)
                       && domain != "" && userId != "" && PipeFree(domain) && PipeFree(userId) && now <= exp
  {
    if exp :| (User(exp, domain, userId, name) in issued && raw == SignUser(mac, domain, userId, name, exp)
               && domain != "" && userId != "" && PipeFree(domain) && PipeFree(userId) && now <= exp) {
      UserRoundTrip(mac, now, domain, userId, name, exp);
    }
    if VerifyUser(mac, now, raw) == Some((domain, userId, name)) {
      UserForward(mac, issued, now, raw, domain, userId, name);
    }
  }

  lemma UserAccepted(c: Cookie, fields: seq<string>, payload: string)
    requires |fields| == 4 && AllFree(fields, '|') && payload == Join(fields, '|')
    requires Preimage(c) == "user-v2:" + payload
    ensures c.User? && fields == [FormatInt(c.exp), c.domain, c.userId, Base64.Encode(Base64.RawUrl, c.name)]
    ensures payload == FormatInt(c.exp) + "|" + c.domain + "|" + c.userId + "|" + Base64.Encode(Base64.RawUrl, c.name)
  {
    PreimageShape(c);
    assert Preimage(c)[0] == 'u';
    var b := Base64.Encode(Base64.RawUrl, c.name);
    assert Preimage(c)[8..] == payload;
    assert Preimage(c)[8..] == FormatInt(c.exp) + "|" + c.domain + "|" + c.userId + "|" + b;
    UserPayload(FormatInt(c.exp), c.domain, c.userId, b);
    SplitJoin(fields, '|');
    SplitJoin([FormatInt(c.exp), c.domain, c.userId, b], '|');
  }

  /** The usual reading of HMAC security gives `Unforgeable`: tags have one fixed length, the tag that
      ends `raw` was issued, and none of the messages recomputed from `raw` shares its tag with
      another message that was issued. */
  lemma CollisionFreeIsUnforgeable(mac: Mac, issued: set<Cookie>, raw: string, tagLength: nat, c: Cookie)
    requires forall p: string :: |mac(p)| == tagLength
    requires forall p: string, tag: string, q ::
               (p, tag) in Checked(raw) && q in issued && mac(p) == mac(Preimage(q)) ==> p == Preimage(q)
    requires tagLength <= |raw| && c in issued && raw[|raw| - tagLength..] == mac(Preimage(c))
    ensures Unforgeable(mac, issued, raw)
  {
    hide Checked;
    forall p: string, tag: string | (p, tag) in Checked(raw) && tag == mac(p) ensures IssuedMessage(issued, p) {
      TagEndsRaw(raw, p, tag);
      assert |tag| == tagLength;
      assert mac(p) == mac(Preimage(c));
    }
  }

  ghost predicate Ends(raw: string, tag: string) {
    |tag| <= |raw| && raw[|raw| - |tag|..] == tag
  }

  lemma TagEndsRaw(raw: string, p: string, tag: string)
    requires (p, tag) in Checked(raw)
    ensures Ends(raw, tag)
  {
    hide CutEnds, CutLast, Split, SplitN, Join, Ends;
    CutsEnd(raw);
    FieldsEnd(raw, Split(raw, '|'), '|') by { JoinSplit(raw, '|'); }
    FieldsEnd(raw, SplitN(raw, '.', 3), '.') by { JoinSplitN(raw, '.', 3); }
    FieldsEnd(raw, SplitN(raw, '.', 2), '.') by { JoinSplitN(raw, '.', 2); }
  }

  lemma CutsEnd(raw: string)
    ensures CutEnds(raw).Some? ==> Ends(raw, CutEnds(raw).value.2)
    ensures CutLast(raw).Some? ==> Ends(raw, CutLast(raw).value.1)
  {
    hide IndexOf, LastIndexOf;
  }

  lemma FieldsEnd(raw: string, parts: seq<string>, c: char)
    requires parts != [] && Join(parts, c) == raw
    ensures Ends(raw, parts[|parts| - 1])
  {
    LastFieldEnds(parts, c);
  }

  lemma {:induction false} LastFieldEnds(parts: seq<string>, c: char)
    requires parts != []
    ensures var last, whole := parts[|parts| - 1], Join(parts, c);
            |last| <= |whole| && whole[|whole| - |last|..] == last
  {
    if |parts| > 1 {
      LastFieldEnds(parts[1..], c);
    }
  }
}
