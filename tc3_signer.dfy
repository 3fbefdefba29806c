/**
 * `generateTC3Signature`: the Tencent Cloud TC3-HMAC-SHA256 signature of a
 * TextTranslate request, and the seven request headers that carry it.
 *
 * SHA-256 and HMAC-SHA256 are not computed here: they are supplied as total
 * functions whose results are 32-byte digests, so every statement below holds
 * for any such pair of functions, the real ones included. JSON string
 * escaping is supplied the same way.
 */
module Tc3Signer {
  import opened Encoding
  import opened JsonBody
  import opened Calendar
  import opened ConfigManager

  type Digest = s: seq<byte> | |s| == 32 witness seq(32, i => 0 as byte)

  /** The primitives the signer calls into (CommonCrypto and the JSON writer's string escaping). */
  datatype Primitives = Primitives(
    sha256: seq<byte> -> Digest,
    hmacSha256: (seq<byte>, seq<byte>) -> Digest,  // (key, message)
    jsonEscape: string -> string)

  const Endpoint: string := "tmt.tencentcloudapi.com"
  const Service: string := "tmt"
  const Version: string := "2018-03-21"
  const Action: string := "TextTranslate"
  const ProjectId: int := 0
  const ContentType: string := "application/json; charset=utf-8"
  const SignedHeaderNames: string := "content-type;host;x-tc-action"
  const Algorithm: string := "TC3-HMAC-SHA256"
  const RequestScope: string := "tc3_request"

  // ---------------------------------------------------------------------
  // Request body
  // ---------------------------------------------------------------------

  /** The four request parameters, in the order the dictionary literal lists them. */
  function Parameters(text: string, source: string, target: string): (ps: seq<Member>)
    ensures DistinctKeys(ps)
  {
    [Member("SourceText", Str(text)), Member("Source", Str(source)),
     Member("Target", Str(target)), Member("ProjectId", Int(ProjectId))]
  }

  /** The request body bytes: the parameters as compact JSON with sorted keys, UTF-8 encoded. */
  function RequestBody(p: Primitives, parameters: seq<Member>): seq<byte>
    requires DistinctKeys(parameters)
  {
    Utf8(Serialize(parameters, p.jsonEscape))
  }

  lemma KeysAscending()
    ensures Less("ProjectId", "Source") && Less("Source", "SourceText") && Less("SourceText", "Target")
  {
    assert Less("Source", "SourceText") by {
      assert "Source"[1..] == "ource" && "SourceText"[1..] == "ourceText";
      assert "ource"[1..] == "urce" && "ourceText"[1..] == "urceText";
      assert "urce"[1..] == "rce" && "urceText"[1..] == "rceText";
      assert "rce"[1..] == "ce" && "rceText"[1..] == "ceText";
      assert "ce"[1..] == "e" && "ceText"[1..] == "eText";
      assert "e"[1..] == "" && "eText"[1..] == "Text";
    }
  }

  /**
   * The four keys ascend in the same order when case is ignored, so the
   * order does not depend on whether keys are compared by character code or
   * case-insensitively.
   */
  lemma KeysAscendingIgnoringCase()
    ensures LessIgnoringCase("ProjectId", "Source")
    ensures LessIgnoringCase("Source", "SourceText")
    ensures LessIgnoringCase("SourceText", "Target")
  {
    LessIgnoringCaseByInitial("ProjectId", "Source");
    LessIgnoringCaseByInitial("SourceText", "Target");
    assert "SourceText" == "Source" + "Text";
    LessIgnoringCasePrefix("Source", "Text");
  }

  /** The sorted key order is ProjectId, Source, SourceText, Target. */
  lemma ParametersSortedOrder(text: string, source: string, target: string)
    ensures SortByKey(Parameters(text, source, target)) ==
      [Member("ProjectId", Int(0)), Member("Source", Str(source)),
       Member("SourceText", Str(text)), Member("Target", Str(target))]
  {
    var a, b, c, d := Member("ProjectId", Int(0)), Member("Source", Str(source)),
                      Member("SourceText", Str(text)), Member("Target", Str(target));
    KeysAscending();
    SortedFour(a, b, c, d);
    var ps := Parameters(text, source, target);
    assert ps == [c, b, d, a];
    SameFour(a, b, c, d);
    SortedUnique(SortByKey(ps), [a, b, c, d]);
  }

  /** Four members whose keys ascend one to the next are strictly sorted. */
  lemma SortedFour(a: Member, b: Member, c: Member, d: Member)
    requires Less(a.key, b.key) && Less(b.key, c.key) && Less(c.key, d.key)
    ensures StrictlySorted([a, b, c, d])
  {
    LessTransitive(a.key, b.key, c.key);
    LessTransitive(a.key, c.key, d.key);
    LessTransitive(b.key, c.key, d.key);
  }

  /** The dictionary literal's order and the sorted order hold the same members. */
  lemma SameFour(a: Member, b: Member, c: Member, d: Member)
    ensures multiset([c, b, d, a]) == multiset([a, b, c, d])
  {
  }

  lemma FourMembersText(e: string -> string, a: Member, b: Member, c: Member, d: Member)
    ensures MembersText([a, b, c, d], e) ==
      MemberText(a, e) + "," + (MemberText(b, e) + "," + (MemberText(c, e) + "," + MemberText(d, e)))
  {
    var s4, s3, s2, s1 := [a, b, c, d], [b, c, d], [c, d], [d];
    assert s4[1..] == s3 && s3[1..] == s2 && s2[1..] == s1;
    assert MembersText(s1, e) == MemberText(d, e);
    assert MembersText(s2, e) == MemberText(c, e) + "," + MembersText(s1, e);
    assert MembersText(s3, e) == MemberText(b, e) + "," + MembersText(s2, e);
  }

  lemma ProjectIdText(e: string -> string)
    ensures MemberText(Member("ProjectId", Int(0)), e) == "\"ProjectId\":0"
  {
    assert IntToDecimal(0) == "0";
  }

  lemma StringMemberText(e: string -> string, key: string, v: string)
    ensures MemberText(Member(key, Str(v)), e) == "\"" + key + "\":" + Quoted(e(v))
  {
  }

  /** The four sorted members, each written out. */
  lemma SortedMembersText(e: string -> string, text: string, source: string, target: string)
    ensures MembersText([Member("ProjectId", Int(0)), Member("Source", Str(source)),
                         Member("SourceText", Str(text)), Member("Target", Str(target))], e) ==
      "\"ProjectId\":0" + "," +
      ("\"Source\":" + Quoted(e(source)) + "," +
      ("\"SourceText\":" + Quoted(e(text)) + "," +
      ("\"Target\":" + Quoted(e(target)))))
  {
    FourMembersText(e, Member("ProjectId", Int(0)), Member("Source", Str(source)),
                    Member("SourceText", Str(text)), Member("Target", Str(target)));
    ProjectIdText(e);
    StringMemberText(e, "Source", source);
    assert "\"" + "Source" + "\":" == "\"Source\":";
    StringMemberText(e, "SourceText", text);
    assert "\"" + "SourceText" + "\":" == "\"SourceText\":";
    StringMemberText(e, "Target", target);
    assert "\"" + "Target" + "\":" == "\"Target\":";
  }

  /**
   * The exact JSON text of the body: compact, keys ascending, ProjectId as
   * the number 0, each string value quoted after escaping.
   */
  lemma RequestBodyText(p: Primitives, text: string, source: string, target: string)
    ensures Serialize(Parameters(text, source, target), p.jsonEscape) ==
      "{" +
      ("\"ProjectId\":0" + "," +
      ("\"Source\":" + Quoted(p.jsonEscape(source)) + "," +
      ("\"SourceText\":" + Quoted(p.jsonEscape(text)) + "," +
      ("\"Target\":" + Quoted(p.jsonEscape(target)))))) +
      "}"
  {
    ParametersSortedOrder(text, source, target);
    SortedMembersText(p.jsonEscape, text, source, target);
  }

  // ---------------------------------------------------------------------
  // Canonical request and string to sign
  // ---------------------------------------------------------------------

  /** The canonical header block: one "name:value\n" line per signed header. */
  function CanonicalHeaders(): string {
    "content-type:" + ContentType + "\n" + "host:" + Endpoint + "\n" + "x-tc-action:" + AsciiLower(Action) + "\n"
  }

  /** Method, URI, empty query, headers, signed header names and the hex SHA-256 of the body, one per line. */
  function CanonicalRequest(p: Primitives, body: seq<byte>): string {
    "POST" + "\n" + "/" + "\n" + "" + "\n" + CanonicalHeaders() + "\n" + SignedHeaderNames + "\n"
      + Hex(p.sha256(body))
  }

  lemma ActionLowered()
    ensures AsciiLower(Action) == "texttranslate"
  {
    var s := "TextTranslate";
    var r := AsciiLower(s);
    assert |r| == 13;
    assert s[0] == 'T' && s[1] == 'e' && s[2] == 'x' && s[3] == 't' && s[4] == 'T' && s[5] == 'r' && s[6] == 'a';
    assert s[7] == 'n' && s[8] == 's' && s[9] == 'l' && s[10] == 'a' && s[11] == 't' && s[12] == 'e';
    assert r == "texttranslate";
  }

  /** The header block ends in a newline and the action name is lower-cased. */
  lemma CanonicalHeadersText()
    ensures CanonicalHeaders() ==
      "content-type:" + "application/json; charset=utf-8" + "\n" +
      "host:" + "tmt.tencentcloudapi.com" + "\n" +
      "x-tc-action:" + "texttranslate" + "\n"
  {
    ActionLowered();
  }

  /**
   * The canonical request, line by line: "POST", "/", an empty query, the
   * three header lines, a blank line (the header block's own newline), the
   * signed header names, and 64 lowercase hex digits of SHA-256(body).
   */
  lemma CanonicalRequestText(p: Primitives, body: seq<byte>)
    ensures CanonicalRequest(p, body) ==
      "POST" + "\n" + "/" + "\n" + "" + "\n" +
      ("content-type:" + "application/json; charset=utf-8" + "\n" +
       "host:" + "tmt.tencentcloudapi.com" + "\n" +
       "x-tc-action:" + "texttranslate" + "\n") +
      "\n" + "content-type;host;x-tc-action" + "\n" + Hex(p.sha256(body))
    ensures |Hex(p.sha256(body))| == 64 && IsLowerHex(Hex(p.sha256(body)))
  {
    CanonicalHeadersText();
  }

  /** The canonical request commits to the body hash: equal requests mean equal body digests. */
  lemma CanonicalRequestCommitsToBody(p: Primitives, b1: seq<byte>, b2: seq<byte>)
    requires CanonicalRequest(p, b1) == CanonicalRequest(p, b2)
    ensures p.sha256(b1) == p.sha256(b2)
  {
    var prefix := "POST" + "\n" + "/" + "\n" + "" + "\n" + CanonicalHeaders() + "\n" + SignedHeaderNames + "\n";
    assert CanonicalRequest(p, b1) == prefix + Hex(p.sha256(b1));
    assert CanonicalRequest(p, b2) == prefix + Hex(p.sha256(b2));
    assert Hex(p.sha256(b1)) == CanonicalRequest(p, b1)[|prefix|..];
    assert Hex(p.sha256(b2)) == CanonicalRequest(p, b2)[|prefix|..];
    HexInjective(p.sha256(b1), p.sha256(b2));
  }

  /** "date/tmt/tc3_request". */
  function CredentialScope(date: string): string {
    date + "/" + Service + "/" + RequestScope
  }

  function StringToSign(p: Primitives, timestamp: nat, date: string, canonicalRequest: string): string {
    Algorithm + "\n" + NatToDecimal(timestamp) + "\n" + CredentialScope(date) + "\n"
      + Hex(p.sha256(Utf8(canonicalRequest)))
  }

  /** The text between two parts of a concatenation is the middle part. */
  lemma {:induction false} MiddleOfThree(x: string, y: string, z: string)
    ensures (x + y + z)[|x|..|x| + |y|] == y
  {
  }

  /** The timestamp line of the string to sign reads back as the timestamp. */
  lemma {:induction false} StringToSignTimestamp(p: Primitives, timestamp: nat, date: string, canonicalRequest: string)
    ensures var s := StringToSign(p, timestamp, date, canonicalRequest);
      var d := NatToDecimal(timestamp);
      |s| >= 16 + |d| && s[16..16 + |d|] == d && ParseNat(s[16..16 + |d|]) == timestamp
  {
    var d := NatToDecimal(timestamp);
    var prefix := Algorithm + "\n";
    var rest := "\n" + CredentialScope(date) + "\n" + Hex(p.sha256(Utf8(canonicalRequest)));
    assert |prefix| == 16;
    assert StringToSign(p, timestamp, date, canonicalRequest) == prefix + d + rest;
    MiddleOfThree(prefix, d, rest);
    ParseNatToDecimal(timestamp);
  }

  // ---------------------------------------------------------------------
  // Key derivation and signature
  // ---------------------------------------------------------------------

  /** HMAC("TC3" + secretKey, date), then "tmt", then "tc3_request"; every key stays a raw digest. */
  function SigningKey(p: Primitives, secretKey: string, date: string): Digest {
    var secretDate := p.hmacSha256(Utf8("TC3" + secretKey), Utf8(date));
    var secretService := p.hmacSha256(secretDate, Utf8(Service));
    p.hmacSha256(secretService, Utf8(RequestScope))
  }

  /** The final HMAC over the string to sign, as lowercase hex. */
  function Signature(p: Primitives, secretKey: string, date: string, stringToSign: string): (sig: string)
    ensures |sig| == 64 && IsLowerHex(sig)
  {
    Hex(p.hmacSha256(SigningKey(p, secretKey, date), Utf8(stringToSign)))
  }

  /**
   * Only the last tag is rendered as hex: the signature decodes to exactly
   * the 32 raw bytes of the fourth HMAC, which is keyed with the raw bytes of
   * the third, and so on back to "TC3" + secretKey.
   */
  lemma SignatureChain(p: Primitives, secretKey: string, date: string, stringToSign: string)
    ensures UnHex(Signature(p, secretKey, date, stringToSign)) ==
      p.hmacSha256(
        p.hmacSha256(
          p.hmacSha256(
            p.hmacSha256(Utf8("TC3" + secretKey), Utf8(date)),
            Utf8("tmt")),
          Utf8("tc3_request")),
        Utf8(stringToSign))
  {
    UnHexHex(p.hmacSha256(SigningKey(p, secretKey, date), Utf8(stringToSign)));
  }

  function Authorization(secretId: string, date: string, signature: string): string {
    Algorithm + " Credential=" + secretId + "/" + CredentialScope(date)
      + ", SignedHeaders=" + SignedHeaderNames + ", Signature=" + signature
  }

  // ---------------------------------------------------------------------
  // Headers
  // ---------------------------------------------------------------------

  const HeaderNames: set<string> :=
    {"Authorization", "Content-Type", "Host", "X-TC-Action", "X-TC-Timestamp", "X-TC-Version", "X-TC-Region"}

  /** The signature of one request and the headers that carry it. */
  function GenerateTc3Signature(p: Primitives, creds: Credentials, timestamp: nat, parameters: seq<Member>)
    : (headers: map<string, string>)
    requires DistinctKeys(parameters)
    ensures headers.Keys == HeaderNames
  {
    var date := DateString(timestamp);
    var canonicalRequest := CanonicalRequest(p, RequestBody(p, parameters));
    var stringToSign := StringToSign(p, timestamp, date, canonicalRequest);
    var signature := Signature(p, creds.secretKey, date, stringToSign);
    Headers(Authorization(creds.secretId, date, signature), NatToDecimal(timestamp), creds.region)
  }

  /** The header dictionary of a request. */
  function Headers(authorization: string, timestamp: string, region: string): (h: map<string, string>)
    ensures h.Keys == HeaderNames
  {
    map[
      "Authorization" := authorization,
      "Content-Type" := ContentType,
      "Host" := Endpoint,
      "X-TC-Action" := Action,
      "X-TC-Timestamp" := timestamp,
      "X-TC-Version" := Version,
      "X-TC-Region" := region
    ]
  }

  /** The header names differ in length, but for two pairs that differ in one character. */
  lemma HeaderNamesDiffer()
    ensures |"Authorization"| == 13 && |"Content-Type"| == 12 && |"Host"| == 4 && |"X-TC-Action"| == 11
    ensures |"X-TC-Timestamp"| == 14 && |"X-TC-Version"| == 12 && |"X-TC-Region"| == 11
    ensures "Content-Type" != "X-TC-Version" && "X-TC-Action" != "X-TC-Region"
  {
    assert "Content-Type"[0] != "X-TC-Version"[0];
    assert "X-TC-Action"[5] != "X-TC-Region"[5];
  }

  /** Seven names with those lengths and those two pairs distinct are seven distinct names. */
  lemma SevenNames(a: string, b: string, c: string, d: string, e: string, f: string, g: string)
    requires |a| == 13 && |b| == 12 && |c| == 4 && |d| == 11 && |e| == 14 && |f| == 12 && |g| == 11
    requires b != f && d != g
    ensures |{a, b, c, d, e, f, g}| == 7
  {
  }

  lemma HeaderNamesCount()
    ensures |HeaderNames| == 7
  {
    HeaderNamesDiffer();
    SevenNames("Authorization", "Content-Type", "Host", "X-TC-Action", "X-TC-Timestamp", "X-TC-Version", "X-TC-Region");
  }

  /** Exactly seven headers, four of them fixed, the other three as given. */
  lemma HeadersShape(authorization: string, timestamp: string, region: string)
    ensures var h := Headers(authorization, timestamp, region);
      && h.Keys == HeaderNames && |h| == 7
      && h["Authorization"] == authorization
      && h["Content-Type"] == "application/json; charset=utf-8"
      && h["Host"] == "tmt.tencentcloudapi.com"
      && h["X-TC-Action"] == "TextTranslate"
      && h["X-TC-Timestamp"] == timestamp
      && h["X-TC-Version"] == "2018-03-21"
      && h["X-TC-Region"] == region
  {
    HeaderNamesDiffer();
    HeaderNamesCount();
  }

  /** "date/tmt/tc3_request". */
  lemma CredentialScopeText(date: string)
    ensures CredentialScope(date) == date + "/tmt/tc3_request"
  {
    assert "/" + Service + "/" + RequestScope == "/tmt/tc3_request";
  }

  /** The Authorization value names the key id, the scope, the signed headers and the signature. */
  lemma AuthorizationText(secretId: string, date: string, signature: string)
    ensures Authorization(secretId, date, signature) ==
      "TC3-HMAC-SHA256" + " Credential=" + secretId + "/" + (date + "/tmt/tc3_request")
      + ", SignedHeaders=" + "content-type;host;x-tc-action" + ", Signature=" + signature
  {
    CredentialScopeText(date);
  }

  /**
   * Of the signed request's seven headers: the timestamp header reads back
   * as the timestamp the string to sign was built with (StringToSignTimestamp
   * puts the same text on its second line), the Authorization value is built from the secret id,
   * the timestamp's UTC date and the signature of that string to sign, and
   * the region is the configured one.
   */
  lemma SignedHeaders(p: Primitives, creds: Credentials, timestamp: nat, parameters: seq<Member>)
    requires DistinctKeys(parameters)
    ensures var h := GenerateTc3Signature(p, creds, timestamp, parameters);
      var date := DateString(timestamp);
      var sts := StringToSign(p, timestamp, date, CanonicalRequest(p, RequestBody(p, parameters)));
      var t := NatToDecimal(timestamp);
      && h.Keys == HeaderNames && |h| == 7
      && h["X-TC-Timestamp"] == t && ParseNat(t) == timestamp
      && h["X-TC-Region"] == creds.region
      && h["Authorization"] == Authorization(creds.secretId, date, Signature(p, creds.secretKey, date, sts))
  {
    var date := DateString(timestamp);
    var cr := CanonicalRequest(p, RequestBody(p, parameters));
    var sts := StringToSign(p, timestamp, date, cr);
    var auth := Authorization(creds.secretId, date, Signature(p, creds.secretKey, date, sts));
    var t := NatToDecimal(timestamp);
    var h := GenerateTc3Signature(p, creds, timestamp, parameters);
    assert h == Headers(auth, t, creds.region);
    HeadersShape(auth, t, creds.region);
    assert h["X-TC-Timestamp"] == t;
    ParseNatToDecimal(timestamp);
  }

  /** The headers do not depend on the order in which the parameter dictionary is iterated. */
  lemma SignatureIgnoresParameterOrder(p: Primitives, creds: Credentials, timestamp: nat,
                                        a: seq<Member>, b: seq<Member>)
    requires DistinctKeys(a) && DistinctKeys(b)
    requires multiset(a) == multiset(b)
    ensures GenerateTc3Signature(p, creds, timestamp, a) == GenerateTc3Signature(p, creds, timestamp, b)
  {
    SerializeIgnoresOrder(a, b, p.jsonEscape);
  }
}
