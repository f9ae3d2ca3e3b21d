/** The functions that reduce a WhatsApp session id (JID) to the part that survives re-pairing. Each
    lives in another file of the program; they have to agree. */
module Jid {
  import opened Text

  /** The text before the first `c`, when something stands before it. */
  function Before(s: string, c: char): string {
    var i := IndexOf(s, c);
    if i > 0 then s[..i] else s
  }

  /** PostgreSQL's SPLIT_PART(s, c, 1). */
  function SplitPart1(s: string, c: char): string {
    var i := IndexOf(s, c);
    if i >= 0 then s[..i] else s
  }

  function NumeroBase(jid: string): string {
    KeyOfUser(Before(TrimSpace(jid), '@'))
  }

  function KeyOfUser(user: string): string {
    if HasPrefix(user, "cloud:") then "cloud:" + TrimSpace(user[6..])
    else TrimPrefix(Before(user, ':'), "+")
  }

  function StripDeviceSuffix(jid: string): string {
    if HasPrefix(jid, "cloud:") then jid
    else
      var at := IndexOf(jid, '@');
      if at < 0 then jid
      else
        var colon := IndexOf(jid[..at], ':');
        if colon < 0 then jid else jid[..colon] + jid[at..]
  }

  function SanitizeJid(jid: string): string {
    var colon := IndexOf(jid, ':');
    if colon < 0 then jid
    else
      var at := IndexOf(jid, '@');
      jid[..colon] + if at < 0 then "" else jid[at..]
  }

  function NormalizeQRChatId(jid: string): string {
    var colon, at := IndexOf(jid, ':'), IndexOf(jid, '@');
    if colon >= 0 && at >= 0 then jid[..colon] + jid[at..] else jid
  }

  function SomenteNumero(jid: string): string {
    Before(Before(jid, '@'), ':')
  }

  /** `cloudPhoneId` is what the session row of a Cloud API session holds, if there is one. */
  function ConnectorDaSessao(jid: string, cloudPhoneId: Option<string>): Option<string> {
    if HasPrefix(jid, "cloud:") then
      if cloudPhoneId.None? || cloudPhoneId.value == "" then None else Some("wa_cloud_" + cloudPhoneId.value)
    else
      var phone := Before(Before(jid, '@'), ':');
      if phone == "" then None else Some("wa_qr_" + phone)
  }

  function ClassifySessionJid(jid: string): (string, string) {
    if jid == "" then ("", "")
    else if HasPrefix(jid, "cloud:") then ("cloud", SplitPart1(jid[6..], '@'))
    else if HasPrefix(jid, "cloud@") then ("cloud", "")
    else if IndexOf(jid, '@') < 0 then ("qr", jid)
    else ("qr", SplitPart1(SplitPart1(jid, '@'), ':'))
  }

  /** The expression the account queries compare QR sessions by. */
  function SqlNumber(jid: string): string {
    SplitPart1(SplitPart1(jid, '@'), ':')
  }

  // ----- the JIDs in circulation -------------------------------------------------------------

  predicate IsServer(s: string) {
    s != "" && forall k :: 0 <= k < |s| ==> 'a' <= s[k] <= 'z' || s[k] == '.'
  }

  predicate IsNumber(s: string) {
    s != "" && AllDigits(s)
  }

  /** A paired phone, with or without its device, or a Cloud API number. */
  datatype Session =
    | Qr(user: string, device: Option<string>, server: string)
    | Cloud(id: string, server: string)
  {
    predicate Valid() {
      match this
      case Qr(user, device, server) => IsNumber(user) && (device.Some? ==> IsNumber(device.value)) && IsServer(server)
      case Cloud(id, server) => IsNumber(id) && IsServer(server)
    }

    /** What re-pairing keeps: the kind, and the number or id. */
    function Identity(): (bool, string) {
      if Qr? then (true, user) else (false, id)
    }

    function Print(): string {
      match this
      case Qr(user, None, server) => user + "@" + server
      case Qr(user, Some(device), server) => user + ":" + device + "@" + server
      case Cloud(id, server) => "cloud:" + id + "@" + server
    }
  }

  lemma NumberFree(s: string)
    requires IsNumber(s)
    ensures '@' !in s && ':' !in s && '+' !in s && Trimmed(s)
    ensures s[0] != 'c'
  {
  }

  lemma ServerFree(s: string)
    requires IsServer(s)
    ensures '@' !in s && ':' !in s && Trimmed(s)
  {
  }

  lemma CutBefore(a: string, c: char, b: string)
    requires c !in a && a != ""
    ensures Before(a + [c] + b, c) == a && SplitPart1(a + [c] + b, c) == a
    ensures Before(a, c) == a && SplitPart1(a, c) == a
  {
    FirstSeparator(a, c, b);
    assert (a + [c] + b)[..|a|] == a;
  }

  /** The user part of a QR session: digits, with the device if there is one. */
  function UserPart(s: Session): string
    requires s.Qr?
  {
    if s.device.None? then s.user else s.user + ":" + s.device.value
  }

  lemma QrShape(s: Session)
    requires s.Valid() && s.Qr?
    ensures s.Print() == UserPart(s) + "@" + s.server && '@' !in UserPart(s) && UserPart(s) != ""
    ensures Trimmed(s.Print()) && !HasPrefix(s.Print(), "cloud:") && !HasPrefix(s.Print(), "cloud@")
    ensures !HasPrefix(UserPart(s), "cloud:")
    ensures Before(UserPart(s), ':') == s.user && SplitPart1(UserPart(s), ':') == s.user
    ensures Before(s.Print(), '@') == UserPart(s) && SplitPart1(s.Print(), '@') == UserPart(s)
  {
    NumberFree(s.user);
    ServerFree(s.server);
    if s.device.Some? {
      NumberFree(s.device.value);
      CutBefore(s.user, ':', s.device.value);
    } else {
      CutBefore(s.user, ':', "");
    }
    CutBefore(UserPart(s), '@', s.server);
    var p := s.Print();
    assert p[0] == s.user[0] && p[|p| - 1] == s.server[|s.server| - 1];
    assert "cloud:"[0] == 'c' && "cloud@"[0] == 'c';
  }

  /** On every paired phone all normalisers drop exactly the device. */
  lemma QrAgree(s: Session)
    requires s.Valid() && s.Qr?
    ensures NumeroBase(s.Print()) == SomenteNumero(s.Print()) == SqlNumber(s.Print()) == s.user
    ensures ClassifySessionJid(s.Print()) == ("qr", s.user)
    ensures ConnectorDaSessao(s.Print(), None) == Some("wa_qr_" + s.user)
  {
    QrShape(s);
    TrimSpaceTrims(s.Print());
    NumberFree(s.user);
    assert s.Print()[|UserPart(s)|] == '@';
    assert s.user[0] in s.user;
  }

  lemma WithDevice(user: string, device: string, server: string)
    requires '@' !in user && ':' !in user && '@' !in device
    ensures var jid := user + ":" + device + "@" + server;
            && IndexOf(jid, ':') == |user| && IndexOf(jid, '@') == |user| + 1 + |device|
            && jid[..|user|] == user && jid[|user| + 1 + |device|..] == "@" + server
            && IndexOf(jid[..|user| + 1 + |device|], ':') == |user|
  {
    var jid, front := user + ":" + device + "@" + server, user + ":" + device;
    FirstSeparator(front, '@', server);
    FirstSeparator(user, ':', device);
    FirstSeparator(user, ':', device + "@" + server);
    assert jid == user + ":" + (device + "@" + server) && jid[..|front|] == front;
  }

  lemma WithoutDevice(user: string, server: string)
    requires IsNumber(user) && IsServer(server)
    ensures var jid := user + "@" + server;
            ':' !in jid && IndexOf(jid, '@') == |user| && ':' !in jid[..|user|]
  {
    NumberFree(user);
    ServerFree(server);
    FirstSeparator(user, '@', server);
    assert (user + "@" + server)[..|user|] == user;
  }

  lemma NotOfTheCloud(user: string, rest: string)
    requires ':' !in user && user != "cloud"
    ensures !HasPrefix(user + ":" + rest, "cloud:")
  {
    var jid := user + ":" + rest;
    FirstSeparator(user, ':', rest);
    assert jid[..|user|] == user;
    if "cloud:" <= jid {
      assert jid[..5] == "cloud" && jid == "cloud" + ":" + jid[6..];
      FirstSeparator("cloud", ':', jid[6..]);
    }
  }

  /** Whatever stands between the first ':' and the first '@' goes, on any JID that is not of the cloud. */
  lemma DropsDevice(user: string, device: string, server: string)
    requires '@' !in user && ':' !in user && '@' !in device && user != "cloud"
    ensures var jid := user + ":" + device + "@" + server;
            StripDeviceSuffix(jid) == SanitizeJid(jid) == NormalizeQRChatId(jid) == user + "@" + server
  {
    hide IndexOf, HasPrefix;
    WithDevice(user, device, server);
    var jid := user + ":" + device + "@" + server;
    NotOfTheCloud(user, device + "@" + server);
    assert jid == user + ":" + (device + "@" + server);
    assert user + ("@" + server) == user + "@" + server;
  }

  lemma KeepsPlain(user: string, server: string)
    requires IsNumber(user) && IsServer(server)
    ensures var jid := user + "@" + server;
            StripDeviceSuffix(jid) == SanitizeJid(jid) == NormalizeQRChatId(jid) == jid
  {
    WithoutDevice(user, server);
    assert (user + "@" + server)[0] == user[0];
  }

  /** ... and those that keep the server give the session without its device. */
  lemma QrServerAgree(s: Session)
    requires s.Valid() && s.Qr?
    ensures StripDeviceSuffix(s.Print()) == SanitizeJid(s.Print()) == NormalizeQRChatId(s.Print())
            == s.(device := None).Print()
  {
    NumberFree(s.user);
    if s.device.Some? {
      NumberFree(s.device.value);
      DropsDevice(s.user, s.device.value, s.server);
    } else {
      KeepsPlain(s.user, s.server);
    }
  }

  lemma CloudShape(s: Session)
    requires s.Valid() && s.Cloud?
    ensures s.Print() == "cloud:" + s.id + "@" + s.server && Trimmed(s.Print()) && HasPrefix(s.Print(), "cloud:")
    ensures Before(s.Print(), '@') == "cloud:" + s.id && s.Print()[6..] == s.id + "@" + s.server
    ensures SplitPart1(s.id + "@" + s.server, '@') == s.id
    ensures IndexOf(s.Print(), ':') == 5 && IndexOf(s.Print(), '@') == 6 + |s.id|
  {
    var p, user := s.Print(), "cloud:" + s.id;
    NumberFree(s.id);
    ServerFree(s.server);
    CutBefore(user, '@', s.server);
    FirstSeparator(user, '@', s.server);
    CutBefore(s.id, '@', s.server);
    FirstSeparator("cloud", ':', s.id + "@" + s.server);
    assert p == "cloud" + ":" + (s.id + "@" + s.server);
    assert p[|p| - 1] == s.server[|s.server| - 1] && p[..6] == "cloud:";
  }

  /** On a Cloud API session every key keeps the id ... */
  lemma CloudAgree(s: Session)
    requires s.Valid() && s.Cloud?
    ensures NumeroBase(s.Print()) == "cloud:" + s.id
    ensures StripDeviceSuffix(s.Print()) == s.Print()
    ensures ClassifySessionJid(s.Print()) == ("cloud", s.id)
    ensures ConnectorDaSessao(s.Print(), Some(s.id)) == Some("wa_cloud_" + s.id)
    ensures ConnectorDaSessao(s.Print(), None) == ConnectorDaSessao(s.Print(), Some("")) == None
  {
    CloudShape(s);
    CloudKey(s);
  }

  /** Ids without a number: none has a connector, and the classifier says so much of each. */
  lemma NoNumber(server: string, cloudPhoneId: Option<string>)
    ensures ClassifySessionJid("") == ("", "") && ConnectorDaSessao("", cloudPhoneId) == None
    ensures ClassifySessionJid("@" + server) == ("qr", "")
    ensures ClassifySessionJid("cloud@" + server) == ("cloud", "")
    ensures ClassifySessionJid(":1@" + server) == ("qr", "")
  {
    assert ("@" + server)[0] == '@';
    var cloud := "cloud@" + server;
    assert cloud[0] == 'c' && cloud[5] == '@' && "cloud:"[5] == ':' && cloud[..6] == "cloud@";
    var device := ":1@" + server;
    assert device[0] == ':' && device[1] == '1' && device[2] == '@';
    FirstSeparator(":1", '@', server);
    assert device == ":1" + "@" + server && device[..2] == ":1";
    FirstSeparator("", ':', "1");
    assert ":1" == "" + ":" + "1";
  }

  /** ... while the two chat normalisers, which are meant for QR chats, lose it. */
  lemma CloudChatLosesId(s: Session)
    requires s.Valid() && s.Cloud?
    ensures SanitizeJid(s.Print()) == NormalizeQRChatId(s.Print()) == "cloud@" + s.server
  {
    CloudShape(s);
    var p := s.Print();
    assert p[..5] == "cloud" && p[6 + |s.id|..] == "@" + s.server;
    assert "cloud" + ("@" + s.server) == "cloud@" + s.server;
  }

  lemma CloudKey(s: Session)
    requires s.Valid() && s.Cloud?
    ensures NumeroBase(s.Print()) == "cloud:" + s.id
  {
    CloudShape(s);
    TrimSpaceTrims(s.Print());
    var user := "cloud:" + s.id;
    assert user[..6] == "cloud:" && user[6..] == s.id;
    NumberFree(s.id);
    TrimSpaceTrims(s.id);
  }

  /** Two sessions have the same key exactly when they are the same kind and the same number: a
      device never splits a number in two, and no two numbers, of either kind, share a key. */
  lemma KeyIsIdentity(a: Session, b: Session)
    requires a.Valid() && b.Valid()
    ensures NumeroBase(a.Print()) == NumeroBase(b.Print()) <==> a.Identity() == b.Identity()
  {
    KeyOf(a);
    KeyOf(b);
    if a.Cloud? && b.Cloud? {
      assert ("cloud:" + a.id)[6..] == a.id && ("cloud:" + b.id)[6..] == b.id;
    }
  }

  lemma KeyOf(s: Session)
    requires s.Valid()
    ensures NumeroBase(s.Print()) == if s.Qr? then s.user else "cloud:" + s.id
    ensures s.Qr? ==> s.user[0] != 'c'
  {
    if s.Qr? {
      QrAgree(s);
      NumberFree(s.user);
    } else {
      CloudAgree(s);
    }
  }
}
