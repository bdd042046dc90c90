/** Editor tokens: minted and verified by the gateway (api-gateway/gateway/flow_token.py), verified again
    by the flow editor (flow/admin-token.js). HMAC and JSON are parameters of the model. */
module FlowToken {
  import opened Basics
  import opened Base64Url

  const VERSION := "v1"

  datatype Payload = Payload(sub: string, role: string, exp: int)

  datatype Error = NoSecret | Malformed | BadSignature | Expired

  datatype Result = Ok(payload: Payload) | Err(error: Error)

  datatype Permissions = All | Read

  datatype User = User(username: string, permissions: Permissions)

  /** The digest, and the payload's JSON text as bytes with each side's parser, which gives nothing for
      a text that is no object with an integer expiry. */
  datatype Codec = Codec(digest: (string, string) -> Bytes, dumps: Payload -> Bytes,
                         loads: Bytes -> Option<Payload>, parse: Bytes -> Option<Payload>)

  /** Both parsers read back what the gateway writes. */
  ghost predicate Faithful(codec: Codec) {
    forall p: Payload :: codec.loads(codec.dumps(p)) == Some(p) && codec.parse(codec.dumps(p)) == Some(p)
  }

  // ── splitting at dots ──────────────────────────────────────────────────────

  function Split(text: string): (parts: seq<string>)
    ensures parts != []
  {
    if text == "" then [""]
    else
      var rest := Split(text[1..]);
      if text[0] == '.' then [""] + rest else [[text[0]] + rest[0]] + rest[1..]
  }

  function Joined(parts: seq<string>): string
    requires parts != []
  {
    if |parts| == 1 then parts[0] else parts[0] + "." + Joined(parts[1..])
  }

  lemma JoinedThree(parts: seq<string>)
    requires |parts| == 3
    ensures Joined(parts) == parts[0] + "." + parts[1] + "." + parts[2]
  {
    assert Joined(parts[1..][1..]) == parts[2];
    assert Joined(parts[1..]) == parts[1] + "." + parts[2];
  }

  predicate Dotless(text: string) {
    '.' !in text
  }

  lemma {:induction false} SplitJoins(text: string)
    ensures Joined(Split(text)) == text
    ensures forall k :: 0 <= k < |Split(text)| ==> Dotless(Split(text)[k])
  {
    if text != "" {
      SplitJoins(text[1..]);
      var rest := Split(text[1..]);
      if text[0] == '.' {
        assert ([""] + rest)[1..] == rest;
        assert "" + "." + Joined(rest) == text;
      } else {
        var parts := [[text[0]] + rest[0]] + rest[1..];
        assert parts[1..] == rest[1..];
        assert Joined(parts) == [text[0]] + Joined(rest);
      }
    }
  }

  lemma {:induction false} SplitFirst(head: string, tail: string)
    requires Dotless(head)
    ensures Split(head + "." + tail) == [head] + Split(tail)
  {
    var text := head + "." + tail;
    if head == "" {
      assert text[1..] == tail;
    } else {
      assert text[1..] == head[1..] + "." + tail;
      SplitFirst(head[1..], tail);
      assert [text[0]] + head[1..] == head;
    }
  }

  lemma {:induction false} SplitLast(text: string)
    requires Dotless(text)
    ensures Split(text) == [text]
  {
    if text != "" {
      SplitLast(text[1..]);
      assert [text[0]] + text[1..] == text;
    }
  }

  /** Three dotless parts and nothing else split into three. */
  lemma SplitThree(a: string, b: string, c: string)
    requires Dotless(a) && Dotless(b) && Dotless(c)
    ensures Split(a + "." + b + "." + c) == [a, b, c]
  {
    assert a + "." + b + "." + c == a + "." + (b + "." + c);
    SplitFirst(a, b + "." + c);
    SplitFirst(b, c);
    SplitLast(c);
    assert [a] + ([b] + [c]) == [a, b, c];
  }

  lemma EncodedDotless(data: Bytes)
    ensures Dotless(Encode(data))
  {
    EncodedAlphabet(data);
  }

  // ── minting and verifying ──────────────────────────────────────────────────────

  /** Conversion to an integer cuts towards zero. */
  function Truncated(x: real): int {
    if x >= 0.0 then x.Floor else -(-x).Floor
  }

  function Signature(codec: Codec, secret: string, signedPart: string): string {
    Encode(codec.digest(secret, signedPart))
  }

  function Signed(codec: Codec, secret: string, body: string): string {
    var signedPart := VERSION + "." + body;
    signedPart + "." + Signature(codec, secret, signedPart)
  }

  function Expiry(issued: real, ttl: real): int {
    Truncated(issued + ttl)
  }

  function Mint(codec: Codec, username: string, role: string, secret: string, ttl: real, issued: real): Option<string> {
    if secret == "" then None
    else Some(Signed(codec, secret, Encode(codec.dumps(Payload(username, role, Expiry(issued, ttl))))))
  }

  function Verify(codec: Codec, token: string, secret: string, now: real): Result {
    if secret == "" then Err(NoSecret)
    else
      var parts := Split(token);
      if |parts| != 3 || parts[0] != VERSION then Err(Malformed)
      else if Signature(codec, secret, parts[0] + "." + parts[1]) != parts[2] then Err(BadSignature)
      else
        var data := Decode(parts[1]);
        if data.None? then Err(Malformed)
        else
          var payload := codec.loads(data.value);
          if payload.None? then Err(Malformed)
          else if payload.value.exp as real <= now then Err(Expired)
          else Ok(payload.value)
  }

  function PermissionsFor(role: string): Option<Permissions> {
    if role == "owner" || role == "admin" then Some(All)
    else if role == "user" then Some(Read)
    else None
  }

  /** The editor's verifier compares digests as bytes and knows three roles. */
  function EditorVerify(codec: Codec, token: string, secret: string, now: real): Option<User> {
    var parts := Split(token);
    if secret == "" || |parts| != 3 || parts[0] != VERSION then None
    else if BufferDecode(parts[2]) != codec.digest(secret, parts[0] + "." + parts[1]) then None
    else
      var payload := codec.parse(BufferDecode(parts[1]));
      if payload.None? || payload.value.exp as real <= now then None
      else
        var permissions := PermissionsFor(payload.value.role);
        if permissions.None? then None else Some(User(payload.value.sub, permissions.value))
  }

  // ── what verification means ────────────────────────────────────────────────────

  lemma SignedSplits(codec: Codec, secret: string, body: string)
    requires Dotless(body)
    ensures Split(Signed(codec, secret, body))
            == [VERSION, body, Signature(codec, secret, VERSION + "." + body)]
  {
    EncodedDotless(codec.digest(secret, VERSION + "." + body));
    SplitThree(VERSION, body, Signature(codec, secret, VERSION + "." + body));
  }

  /** The integer a moment is cut to, towards zero. */
  predicate CutTo(x: real, e: int) {
    if x >= 0.0 then e as real <= x < e as real + 1.0 else e as real - 1.0 < x <= e as real
  }

  lemma CutOnce(x: real, e: int)
    ensures CutTo(x, e) <==> e == Truncated(x)
  {
  }

  /** A minted token always has three parts and decodes back to its payload on both sides: user, role, and
      the end of its life cut to a whole second. */
  lemma MintedParts(codec: Codec, username: string, role: string, secret: string, ttl: real, issued: real, exp: int)
    requires Faithful(codec) && secret != "" && CutTo(issued + ttl, exp)
    ensures Mint(codec, username, role, secret, ttl, issued).Some?
    ensures var token := Mint(codec, username, role, secret, ttl, issued).value;
            var payload := Payload(username, role, exp);
            && |Split(token)| == 3 && Split(token)[0] == "v1"
            && BufferDecode(Split(token)[2]) == codec.digest(secret, "v1." + Split(token)[1])
            && Decode(Split(token)[1]) == Some(codec.dumps(payload))
            && BufferDecode(Split(token)[1]) == codec.dumps(payload)
  {
    CutOnce(issued + ttl, exp);
    var data := codec.dumps(Payload(username, role, Expiry(issued, ttl)));
    EncodedDotless(data);
    SignedSplits(codec, secret, Encode(data));
    GatewayRoundTrip(data);
    EditorRoundTrip(data);
    assert VERSION + "." == "v1.";
    EditorRoundTrip(codec.digest(secret, "v1." + Encode(data)));
  }

  /** Without a secret nothing is minted and nothing accepted. */
  lemma NothingWithoutSecret(codec: Codec, username: string, role: string, ttl: real, token: string, now: real)
    ensures Mint(codec, username, role, "", ttl, now) == None
    ensures Verify(codec, token, "", now) == Err(NoSecret) && EditorVerify(codec, token, "", now) == None
  {
  }

  /** The gateway accepts a minted token exactly before the end of its life cut to a whole second. */
  lemma GatewayAcceptsUntilExpiry(codec: Codec, username: string, role: string, secret: string, ttl: real,
                                  issued: real, now: real, exp: int)
    requires Faithful(codec) && secret != "" && CutTo(issued + ttl, exp)
    ensures Verify(codec, Mint(codec, username, role, secret, ttl, issued).value, secret, now)
            == if now < exp as real then Ok(Payload(username, role, exp)) else Err(Expired)
  {
    CutOnce(issued + ttl, exp);
    var data := codec.dumps(Payload(username, role, Expiry(issued, ttl)));
    EncodedDotless(data);
    SignedSplits(codec, secret, Encode(data));
    GatewayRoundTrip(data);
  }

  /** So it is accepted to within a second of its time to live, and not beyond. */
  lemma AcceptedForItsLife(codec: Codec, username: string, role: string, secret: string, ttl: real, issued: real, now: real)
    requires Faithful(codec) && secret != "" && issued + ttl >= 0.0
    ensures var r := Verify(codec, Mint(codec, username, role, secret, ttl, issued).value, secret, now);
      (now <= issued + ttl - 1.0 ==> r.Ok? && r.payload.sub == username && r.payload.role == role)
      && (now >= issued + ttl ==> r == Err(Expired))
  {
    GatewayAcceptsUntilExpiry(codec, username, role, secret, ttl, issued, now, Truncated(issued + ttl));
  }

  /** The editor accepts it exactly when the gateway does and the role is one of its three, and then
      gives the user that role's permissions. */
  lemma EditorAgrees(codec: Codec, username: string, role: string, secret: string, ttl: real, issued: real, now: real)
    requires Faithful(codec) && secret != ""
    ensures var token := Mint(codec, username, role, secret, ttl, issued).value;
            EditorVerify(codec, token, secret, now)
            == if Verify(codec, token, secret, now).Ok? && role in {"owner", "admin", "user"} then
                 Some(User(username, if role == "user" then Read else All))
               else None
  {
    var data := codec.dumps(Payload(username, role, Expiry(issued, ttl)));
    var body := Encode(data);
    EncodedDotless(data);
    SignedSplits(codec, secret, body);
    EditorRoundTrip(data);
    EditorRoundTrip(codec.digest(secret, VERSION + "." + body));
    GatewayAcceptsUntilExpiry(codec, username, role, secret, ttl, issued, now, Truncated(issued + ttl));
  }

  /** The text of a token with this body and this signature. */
  ghost predicate Spells(token: string, body: string, signature: string) {
    Dotless(body) && Dotless(signature) && token == "v1." + body + "." + signature
  }

  /** The spelling is what splitting finds. */
  lemma SpelledAsSplit(token: string, body: string, signature: string)
    ensures Spells(token, body, signature) <==> Split(token) == [VERSION, body, signature]
  {
    if Dotless(body) && Dotless(signature) {
      SplitThree("v1", body, signature);
      assert "v1" + "." + body + "." + signature == "v1." + body + "." + signature;
    }
    if Split(token) == [VERSION, body, signature] {
      SplitJoins(token);
      JoinedThree(Split(token));
      assert Split(token)[1] == body && Split(token)[2] == signature;
    }
  }

  /** Of all strings, the gateway accepts exactly the signed ones with a readable, unexpired payload. */
  lemma GatewayAcceptsExactly(codec: Codec, token: string, secret: string, now: real, payload: Payload)
    requires secret != ""
    ensures Verify(codec, token, secret, now) == Ok(payload) <==>
            exists body :: && Spells(token, body, Encode(codec.digest(secret, "v1." + body)))
                           && Decode(body).Some? && codec.loads(Decode(body).value) == Some(payload)
                           && now < payload.exp as real
  {
    var parts := Split(token);
    assert VERSION + "." == "v1.";
    if Verify(codec, token, secret, now) == Ok(payload) {
      assert parts == [VERSION, parts[1], parts[2]];
      SpelledAsSplit(token, parts[1], parts[2]);
    }
    if body :| Spells(token, body, Encode(codec.digest(secret, "v1." + body)))
               && Decode(body).Some? && codec.loads(Decode(body).value) == Some(payload)
               && now < payload.exp as real {
      SpelledAsSplit(token, body, Encode(codec.digest(secret, "v1." + body)));
    }
  }

  /** The body holds a payload that lasts beyond now and names this user with the rights of the role. */
  ghost predicate EditorReads(codec: Codec, body: string, now: real, user: User) {
    exists payload :: && codec.parse(BufferDecode(body)) == Some(payload) && now < payload.exp as real
                      && user.username == payload.sub && payload.role in {"owner", "admin", "user"}
                      && user.permissions == if payload.role == "user" then Read else All
  }

  /** The editor compares bytes instead of text: it accepts exactly the strings whose signature, however
      it is spelled, decodes to the digest, with a readable, unexpired payload of a known role. */
  lemma EditorAcceptsExactly(codec: Codec, token: string, secret: string, now: real, user: User)
    requires secret != ""
    ensures EditorVerify(codec, token, secret, now) == Some(user) <==>
            exists body, signature ::
              && Spells(token, body, signature)
              && BufferDecode(signature) == codec.digest(secret, "v1." + body)
              && EditorReads(codec, body, now, user)
  {
    var parts := Split(token);
    assert VERSION + "." == "v1.";
    if EditorVerify(codec, token, secret, now) == Some(user) {
      assert parts == [VERSION, parts[1], parts[2]];
      SpelledAsSplit(token, parts[1], parts[2]);
      assert EditorReads(codec, parts[1], now, user);
    }
    if body, signature :| Spells(token, body, signature)
                          && BufferDecode(signature) == codec.digest(secret, "v1." + body)
                          && EditorReads(codec, body, now, user) {
      SpelledAsSplit(token, body, signature);
    }
  }
}
