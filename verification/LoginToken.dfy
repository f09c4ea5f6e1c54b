/** Login tokens: printed as user, issue time, expiry and nonce, with a message authentication code behind them. */
module LoginToken {
  import opened Common
  import opened Decimal

  /** The code under one secret; nothing is assumed about it. */
  type Mac = string -> seq<byte>

  datatype Claims = Claims(userID: nat, issuedAt: int, expiresAt: int)

  datatype TokenError = BadFormat | BadSignature | BadUserID | BadIssuedAt | BadExpiresAt | Expired

  predicate Printable(c: Claims) {
    c.userID < 0x1_0000_0000_0000_0000 && IsInt64(c.issuedAt) && IsInt64(c.expiresAt)
  }

  function Payload(c: Claims, nonce: seq<byte>): string {
    FormatNat(c.userID) + "." + FormatInt(c.issuedAt) + "." + FormatInt(c.expiresAt) + "." + Hex(nonce)
  }

  function GenerateToken(c: Claims, nonce: seq<byte>, mac: Mac): string {
    var payload := Payload(c, nonce);
    payload + "." + Hex(mac(payload))
  }

  function ValidateToken(token: string, mac: Mac, now: int): Result<Claims, TokenError> {
    var parts := Split(token);
    if |parts| != 5 then Err(BadFormat)
    else if Hex(mac(Join(parts[..4]))) != parts[4] then Err(BadSignature)
    else
      match ParseUint64(parts[0])
      case None => Err(BadUserID)
      case Some(userID) =>
        match ParseInt64(parts[1])
        case None => Err(BadIssuedAt)
        case Some(issuedAt) =>
          match ParseInt64(parts[2])
          case None => Err(BadExpiresAt)
          case Some(expiresAt) =>
            if now > expiresAt then Err(Expired) else Ok(Claims(userID, issuedAt, expiresAt))
  }

  function Fields(c: Claims, nonce: seq<byte>): seq<string> {
    [FormatInt(c.userID), FormatInt(c.issuedAt), FormatInt(c.expiresAt), Hex(nonce)]
  }

  lemma PayloadIsJoin(c: Claims, nonce: seq<byte>)
    ensures Payload(c, nonce) == Join(Fields(c, nonce))
    ensures forall i :: 0 <= i < 4 ==> '.' !in Fields(c, nonce)[i]
  {
    var f := Fields(c, nonce);
    assert f[1..] == [f[1], f[2], f[3]] && [f[1], f[2], f[3]][1..] == [f[2], f[3]] && [f[2], f[3]][1..] == [f[3]];
    assert Join([f[3]]) == f[3];
    assert Join([f[2], f[3]]) == f[2] + "." + f[3];
    assert Join([f[1], f[2], f[3]]) == f[1] + "." + (f[2] + "." + f[3]);
    NoDotInInt(c.userID);
    NoDotInInt(c.issuedAt);
    NoDotInInt(c.expiresAt);
    NoDotInHex(nonce);
  }

  lemma {:induction false} JoinGrows(parts: seq<string>, last: string)
    requires parts != []
    ensures Join(parts + [last]) == Join(parts) + "." + last
  {
    var all := parts + [last];
    if |parts| == 1 {
      assert all[1..] == [last];
    } else {
      assert all[1..] == parts[1..] + [last];
      JoinGrows(parts[1..], last);
    }
  }

  /** A generated token splits into the fields it was made of and its code. */
  lemma TokenSplits(c: Claims, nonce: seq<byte>, mac: Mac)
    ensures Split(GenerateToken(c, nonce, mac)) == Fields(c, nonce) + [Hex(mac(Payload(c, nonce)))]
  {
    var f, code := Fields(c, nonce), Hex(mac(Payload(c, nonce)));
    PayloadIsJoin(c, nonce);
    JoinGrows(f, code);
    NoDotInHex(mac(Payload(c, nonce)));
    SplitOfJoin(f + [code]);
  }

  /**
   Round trip. A generated token is validated to exactly the claims it was made from, if and only if the
   codes of the two secrets agree on its payload (as they do under one secret) and the time is at most the
   expiry; the only other answers are a bad signature and an expired token.
   */
  lemma ValidationOfGenerated(c: Claims, nonce: seq<byte>, mac: Mac, mac': Mac, now: int)
    requires Printable(c)
    ensures ValidateToken(GenerateToken(c, nonce, mac), mac', now)
            == (if mac'(Payload(c, nonce)) != mac(Payload(c, nonce)) then Err(BadSignature)
                else if now > c.expiresAt then Err(Expired)
                else Ok(c))
  {
    var f, payload := Fields(c, nonce), Payload(c, nonce);
    var parts := f + [Hex(mac(payload))];
    TokenSplits(c, nonce, mac);
    PayloadIsJoin(c, nonce);
    assert parts[..4] == f;
    if Hex(mac'(payload)) == Hex(mac(payload)) {
      HexIsInjective(mac'(payload), mac(payload));
    }
    ParseOfFormat(c.userID);
    ParseOfFormatInt(c.issuedAt);
    ParseOfFormatInt(c.expiresAt);
  }

  /** Under one secret: the claims come back exactly while the token has not expired. */
  lemma SameSecretRoundTrip(c: Claims, nonce: seq<byte>, mac: Mac, now: int)
    requires Printable(c)
    ensures ValidateToken(GenerateToken(c, nonce, mac), mac, now) == Ok(c) <==> now <= c.expiresAt
  {
    ValidationOfGenerated(c, nonce, mac, mac, now);
  }

  /** Different claims or nonces print to different payloads. */
  lemma PayloadIsInjective(c: Claims, nonce: seq<byte>, c': Claims, nonce': seq<byte>)
    requires Payload(c, nonce) == Payload(c', nonce')
    ensures c == c' && nonce == nonce'
  {
    var f, f' := Fields(c, nonce), Fields(c', nonce');
    PayloadIsJoin(c, nonce);
    PayloadIsJoin(c', nonce');
    SplitOfJoin(f);
    SplitOfJoin(f');
    assert f == f';
    assert f[0] == f'[0] && f[1] == f'[1] && f[2] == f'[2] && f[3] == f'[3];
    FormatIntIsInjective(c.userID, c'.userID);
    FormatIntIsInjective(c.issuedAt, c'.issuedAt);
    FormatIntIsInjective(c.expiresAt, c'.expiresAt);
    HexIsInjective(nonce, nonce');
  }

  /** Nothing is accepted that does not end in the code of what stands before it, or that has expired. */
  lemma AcceptedIsSigned(token: string, mac: Mac, now: int)
    requires ValidateToken(token, mac, now).Ok?
    ensures exists payload ::
              && token == payload + "." + Hex(mac(payload))
              && |Split(payload)| == 4
              && var c := ValidateToken(token, mac, now).value;
                 && ParseUint64(Split(payload)[0]) == Some(c.userID) && ParseInt64(Split(payload)[1]) == Some(c.issuedAt)
                 && ParseInt64(Split(payload)[2]) == Some(c.expiresAt) && now <= c.expiresAt
  {
    var parts := Split(token);
    var payload := Join(parts[..4]);
    assert parts == parts[..4] + [parts[4]];
    JoinGrows(parts[..4], parts[4]);
    JoinOfSplit(token);
    PartsHaveNoDots(token);
    SplitOfJoin(parts[..4]);
  }

  lemma {:induction false} PartsHaveNoDots(s: string)
    ensures forall i :: 0 <= i < |Split(s)| ==> '.' !in Split(s)[i]
  {
    if s != "" {
      PartsHaveNoDots(s[1..]);
    }
  }
}
