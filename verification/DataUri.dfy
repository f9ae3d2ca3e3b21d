/** The file an operator sends from the CRM tab: the upload embeds its bytes in the job as a data
    URI (section 3 of RFC 2397), the worker takes them out again. */
module DataUri {
  import opened Text
  import opened Base64

  /** What bitrixCRMUpload stores in the job. */
  function Build(mime: string, data: seq<Byte>): string {
    "data:" + mime + ";base64," + Encode(Std, data)
  }

  /** decodeDataURI; nil bytes and empty bytes are the same value here. */
  function Parse(uri: string): (seq<Byte>, string) {
    if !HasPrefix(uri, "data:") then ([], "")
    else
      var parts := SplitN(TrimPrefix(uri, "data:"), ',', 2);
      if |parts| != 2 then ([], "")
      else
        match Decode(Std, parts[1])
        case None => ([], "")
        case Some(data) => (data, TrimSuffix(parts[0], ";base64"))
  }

  /** A character outside the alphabet that is no newline and no padding spoils the whole payload. */
  predicate Foreign(c: char) {
    Index(Std, c).None? && c != '=' && c != '\r' && c != '\n'
  }

  lemma {:induction false} ForeignStays(s: string, c: char)
    requires c in s && c != '\r' && c != '\n'
    ensures c in SkipNewlines(s)
  {
    if s[0] != c {
      ForeignStays(s[1..], c);
    }
  }

  lemma {:induction false} ForeignSpoils(s: string, c: char)
    requires c in s && Foreign(c)
    ensures DecodeClean(Std, s) == None
    decreases |s|
  {
    if |s| >= 4 {
      if c in s[4..] {
        ForeignSpoils(s[4..], c);
      }
      assert s == s[..4] + s[4..];
      assert s[..4] == [s[0], s[1], s[2], s[3]];
    }
  }

  /** The payload of a URI whose media type holds a comma starts inside the media type. */
  lemma CutAtComma(mime: string, rest: string)
    ensures var i := IndexOf(mime, ',');
            SplitN(mime + ";base64," + rest, ',', 2)
            == if i < 0 then [mime + ";base64", rest] else [mime[..i], mime[i + 1..] + ";base64," + rest]
  {
    var i := IndexOf(mime, ',');
    var s := mime + ";base64," + rest;
    if i < 0 {
      FirstSeparator(mime + ";base64", ',', rest);
      assert s == mime + ";base64" + [','] + rest;
      CutTwo(mime + ";base64", rest);
    } else {
      var tail := mime[i + 1..] + ";base64," + rest;
      assert s == mime[..i] + [','] + tail;
      CutTwo(mime[..i], tail);
    }
  }

  lemma CutTwo(a: string, b: string)
    requires ',' !in a
    ensures SplitN(a + [','] + b, ',', 2) == [a, b]
  {
    var s := a + [','] + b;
    FirstSeparator(a, ',', b);
    assert s[..|a|] == a && s[|a| + 1..] == b;
    assert SplitN(b, ',', 1) == [b];
  }

  lemma SuffixGone(mime: string)
    ensures TrimSuffix(mime + ";base64", ";base64") == mime
  {
    var s := mime + ";base64";
    assert s[|mime|..] == ";base64";
    assert s[..|mime|] == mime;
  }

  /** The worker gets back exactly the bytes and the media type that were uploaded if and only if the
      media type has no comma; with one, it gets no bytes at all. */
  lemma RoundTripIff(mime: string, data: seq<Byte>)
    ensures Parse(Build(mime, data)) == (data, mime) <==> ',' !in mime
    ensures ',' in mime ==> Parse(Build(mime, data)) == ([], "")
  {
    hide Encode, Decode, TrimSuffix, SplitN;
    var payload := Encode(Std, data);
    var uri, after := Build(mime, data), mime + ";base64," + payload;
    assert uri == "data:" + after;
    assert TrimPrefix(uri, "data:") == after;
    CutAtComma(mime, payload);
    var i := IndexOf(mime, ',');
    if i < 0 {
      RoundTrip(Std, data);
      SuffixGone(mime);
    } else {
      var broken := mime[i + 1..] + ";base64," + payload;
      SpoiltByMarker(mime[i + 1..], payload);
    }
  }

  lemma SpoiltByMarker(a: string, b: string)
    ensures Decode(Std, a + ";base64," + b) == None
  {
    var s := a + ";base64," + b;
    assert s[|a|] == ';';
    ForeignStays(s, ';');
    ForeignSpoils(SkipNewlines(s), ';');
  }

  lemma CutOnce(s: string)
    requires |SplitN(s, ',', 2)| == 2
    ensures var parts := SplitN(s, ',', 2); s == parts[0] + "," + parts[1] && ',' !in parts[0]
  {
    var i := IndexOf(s, ',');
    assert SplitN(s, ',', 2) == [s[..i]] + SplitN(s[i + 1..], ',', 1);
  }

  lemma SuffixOrNot(meta: string)
    ensures TrimSuffix(meta, ";base64") == meta || TrimSuffix(meta, ";base64") + ";base64" == meta
  {
  }

  /** Whatever the worker sends was spelled out in the URI: a result with bytes comes from a data URI
      whose text after the first comma decodes to them. */
  lemma NothingInvented(uri: string) returns (meta: string, payload: string)
    requires Parse(uri).0 != []
    ensures uri == "data:" + (meta + "," + payload) && ',' !in meta
    ensures Decode(Std, payload) == Some(Parse(uri).0)
    ensures Parse(uri).1 == meta || Parse(uri).1 + ";base64" == meta
  {
    hide Decode, SplitN, TrimSuffix;
    var after := TrimPrefix(uri, "data:");
    CutOnce(after);
    meta, payload := SplitN(after, ',', 2)[0], SplitN(after, ',', 2)[1];
    SuffixOrNot(meta);
  }
}
