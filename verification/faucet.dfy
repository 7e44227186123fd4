/**
 * The HTTP routes that gate a drip: shape checks on the request fields, then
 * the signer match, challenge validation, the rate limit, the transfer and
 * finally the usage record, each step reached only when every earlier one
 * passed. Signature recovery is an opaque function parameter and the node's
 * answers for the transfer are an input.
 */
module Faucet {
  import opened Wrappers
  import opened Text
  import opened Challenges
  import opened UsageWindow
  import opened RateLimit
  import opened Wallet

  /** Hex digits after "0x" in an address and in a signature. */
  const ADDRESS_HEX_DIGITS: nat := 40
  const SIGNATURE_HEX_DIGITS: nat := 130
  const MAX_CHALLENGE_LEN: nat := 256
  /** `${config.dripAmount} iKAS`. */
  const DRIP_AMOUNT_TEXT: string := "1.0 iKAS"
  const DRIP_FAILED: string := "Transaction failed. Try again later."

  predicate IsHexDigit(c: char)
  {
    '0' <= c <= '9' || 'a' <= c <= 'f' || 'A' <= c <= 'F'
  }

  /** The pattern /^0x[a-fA-F0-9]{n}$/. */
  predicate IsHexPrefixed(s: string, n: nat)
  {
    |s| == n + 2 && s[0] == '0' && s[1] == 'x' && forall i :: 2 <= i < |s| ==> IsHexDigit(s[i])
  }

  /** ADDRESS_RE. */
  predicate IsAddress(s: string)
  {
    IsHexPrefixed(s, ADDRESS_HEX_DIGITS)
  }

  /** SIG_RE. */
  predicate IsSignature(s: string)
  {
    IsHexPrefixed(s, SIGNATURE_HEX_DIGITS)
  }

  /** The length bounds on a submitted challenge, in UTF-16 code units as `challenge.length` counts. */
  predicate IsChallengeShaped(s: string)
  {
    0 < Utf16Length(s) <= MAX_CHALLENGE_LEN
  }

  /**
   * A challenge of 129 astral characters has 258 UTF-16 code units and so is
   * refused by the length check, though it holds only 129 characters.
   */
  lemma AstralChallengeRefused(s: string)
    requires |s| == 129 && forall i :: 0 <= i < |s| ==> IsAstral(s[i])
    ensures !IsChallengeShaped(s)
  {
    Utf16LengthAstral(s);
  }

  /** A string of hex digits only. */
  ghost predicate AllHex(h: string)
  {
    forall i :: 0 <= i < |h| ==> IsHexDigit(h[i])
  }

  /** The pattern matches exactly "0x" followed by n hex digits. */
  lemma HexPrefixedIff(s: string, n: nat)
    ensures IsHexPrefixed(s, n) <==> exists h :: |h| == n && AllHex(h) && s == "0x" + h
  {
    if IsHexPrefixed(s, n) {
      var h := s[2..];
      assert AllHex(h) by {
        forall i | 0 <= i < |h| ensures IsHexDigit(h[i]) {
          assert h[i] == s[i + 2];
        }
      }
      assert s == "0x" + h;
    }
    if h :| |h| == n && AllHex(h) && s == "0x" + h {
      forall i | 2 <= i < |s| ensures IsHexDigit(s[i]) {
        assert s[i] == h[i - 2];
      }
    }
  }

  /** An accepted address holds no ':' and so cannot shift the fields of a challenge. */
  lemma AddressIsColonFree(s: string)
    requires IsAddress(s)
    ensures ':' !in s
  {
    forall i | 0 <= i < |s| ensures s[i] != ':' {
      if i >= 2 {
        assert IsHexDigit(s[i]);
      }
    }
  }

  /** Lowercasing an accepted address gives an accepted address. */
  lemma LowercaseAddressAccepted(s: string)
    requires IsAddress(s)
    ensures IsAddress(ToLower(s))
  {
    var l := ToLower(s);
    forall i | 2 <= i < |l| ensures IsHexDigit(l[i]) {
      assert IsHexDigit(s[i]);
    }
  }

  /**
   * Every challenge the faucet issues for an accepted address, with a
   * 36-character token and a timestamp of at most 20 digits, passes the
   * length check of the drip route.
   */
  lemma IssuedChallengeFits(timestamp: nat, token: string, address: string)
    requires IsAddress(address) && |token| == 36
    requires timestamp < Pow10(20)
    ensures IsChallengeShaped(Encode(timestamp, token, address))
  {
    EncodeSpelledOut(timestamp, token, address);
    NatToDecimalLength(timestamp, 20);
    assert |Encode(timestamp, token, address)| <= 117;
  }

  /**
   * End to end: a challenge issued by the challenge route for an accepted
   * address, under a colon-free token, is accepted by validation for the same
   * address in any letter case until its expiry, and then consumes that token.
   */
  lemma ChallengeRoundTrip(reg: Registry, address: string, issuedAt: int, token: string, claimed: string, now: int)
    requires IsAddress(address) && ':' !in token
    requires ToLower(claimed) == ToLower(address)
    requires now <= issuedAt + CHALLENGE_TTL * 1000
    ensures Check(reg[token := Issued(address, issuedAt)], Encode(issuedAt / 1000, token, address), claimed, now) == Valid
    ensures AfterCheck(reg[token := Issued(address, issuedAt)], Encode(issuedAt / 1000, token, address), claimed, now)
            == reg[token := Issued(address, issuedAt)] - {token}
  {
    AddressIsColonFree(address);
    IssueThenValidate(reg, address, issuedAt, token, claimed, now);
  }

  /** The first shape check a drip request fails, with its message; None when all pass. */
  function FormatError(address: Option<string>, signature: Option<string>, challenge: Option<string>): (e: Option<string>)
    ensures e.None? <==>
      && address.Some? && IsAddress(address.value)
      && signature.Some? && IsSignature(signature.value)
      && challenge.Some? && IsChallengeShaped(challenge.value)
    ensures address.None? || !IsAddress(address.value) ==> e == Some("Invalid address format")
    ensures address.Some? && IsAddress(address.value) && (signature.None? || !IsSignature(signature.value)) ==>
      e == Some("Invalid signature format")
    ensures address.Some? && IsAddress(address.value) && signature.Some? && IsSignature(signature.value)
            && (challenge.None? || !IsChallengeShaped(challenge.value)) ==>
      e == Some("Invalid challenge format")
  {
    if address.None? || !IsAddress(address.value) then Some("Invalid address format")
    else if signature.None? || !IsSignature(signature.value) then Some("Invalid signature format")
    else if challenge.None? || Utf16Length(challenge.value) > MAX_CHALLENGE_LEN || Utf16Length(challenge.value) == 0 then
      Some("Invalid challenge format")
    else None
  }

  datatype Body =
    | ChallengeIssued(challenge: string, expiresIn: int)
    | Error(error: string)
    | RateLimited(error: string, dailyRemaining: int)
    | Dripped(txHash: string, amount: string, dailyRemaining: int)

  datatype Response = Response(status: int, body: Body)

  /** The signer recovered from a well-shaped request matches the claimed address, ignoring case. */
  predicate SignerMatches(recover: (string, string) -> Option<string>, address: string, signature: string, challenge: string)
  {
    var r := recover(challenge, signature);
    r.Some? && ToLower(r.value) == ToLower(address)
  }

  /**
   * POST /challenge: a missing or badly shaped address is refused with 400
   * and registers nothing; otherwise a challenge is issued at `now` under
   * the fresh token `uuid`.
   */
  method HandleChallenge(limiter: RateLimitState, address: Option<string>, now: int, uuid: string) returns (resp: Response)
    requires limiter.Valid()
    modifies limiter`challenges
    ensures limiter.Valid()
    ensures address.None? || !IsAddress(address.value) ==>
      resp == Response(400, Error("Invalid address format")) && unchanged(limiter)
    ensures address.Some? && IsAddress(address.value) ==>
      && resp == Response(200, ChallengeIssued(Encode(now / 1000, uuid, address.value), CHALLENGE_TTL))
      && limiter.challenges == old(limiter.challenges)[uuid := Issued(address.value, now)]
  {
    if address.None? || !IsAddress(address.value) {
      return Response(400, Error("Invalid address format"));
    }
    var challenge, expiresIn := limiter.GenerateChallenge(address.value, now, uuid);
    resp := Response(200, ChallengeIssued(challenge, expiresIn));
  }

  /**
   * The last stage of POST /drip, reached once the challenge is accepted:
   * the rate-limit check at `now`, then the transfer through the wallet's
   * chain, then, only if it went through, the usage record at `doneAt`.
   */
  method Dispense(limiter: RateLimitState, wallet: Dispatcher, address: string, now: int, attempt: Attempt, doneAt: int)
    returns (resp: Response)
    modifies limiter`usage, wallet
    ensures |Window(old(limiter.usage), address, now)| >= DAILY_LIMIT ==>
      && resp == Response(429, RateLimited(LIMIT_MESSAGE, 0))
      && limiter.usage == old(limiter.usage)[ToLower(address) := Window(old(limiter.usage), address, now)]
      && unchanged(wallet)
    ensures |Window(old(limiter.usage), address, now)| < DAILY_LIMIT ==>
      var step := SendStep(Serve(old(wallet.nextNonce), old(wallet.txQueue)).0, address, attempt);
      var window := Window(old(limiter.usage), address, now);
      && wallet.nextNonce == step.cache && wallet.txQueue == []
      && (step.receipt.Sent? ==>
            && resp == Response(200, Dripped(step.receipt.hash, DRIP_AMOUNT_TEXT, DAILY_LIMIT - |window| - 1))
            && limiter.usage == old(limiter.usage)[ToLower(address) := window + [doneAt]])
      && (step.receipt.Rejected? ==>
            && resp == Response(500, Error(DRIP_FAILED))
            && limiter.usage == old(limiter.usage)[ToLower(address) := window])
  {
    var allowed, remaining := limiter.CheckRateLimit(address, now);
    if !allowed {
      return Response(429, RateLimited(LIMIT_MESSAGE, 0));
    }

    var receipt := wallet.SendAndAwait(address, attempt);
    if receipt.Rejected? {
      return Response(500, Error(DRIP_FAILED));
    }
    limiter.RecordUsage(address, doneAt);
    resp := Response(200, Dripped(receipt.hash, DRIP_AMOUNT_TEXT, remaining - 1));
  }

  /**
   * POST /drip. The synchronous steps read the clock once (`now`); the usage
   * record happens after the transfer, at `doneAt`. `recover` stands for
   * signature recovery (None: it throws) and `attempt` for the node's
   * answers to the transfer. The transfer is appended to the wallet's chain
   * and awaited, so every link already pending runs before it.
   */
  method HandleDrip(limiter: RateLimitState, wallet: Dispatcher,
                    address: Option<string>, signature: Option<string>, challenge: Option<string>,
                    recover: (string, string) -> Option<string>, now: int, attempt: Attempt, doneAt: int)
    returns (resp: Response)
    requires limiter.Valid()
    modifies limiter, wallet
    ensures limiter.Valid()
    // 400: a shape check fails; nothing else runs.
    ensures FormatError(address, signature, challenge).Some? ==>
      && resp == Response(400, Error(FormatError(address, signature, challenge).value))
      && unchanged(limiter) && unchanged(wallet)
    // 401: recovery throws, or the signer is someone else; nothing else runs.
    ensures FormatError(address, signature, challenge).None? && recover(challenge.value, signature.value).None? ==>
      && resp == Response(401, Error("Invalid signature"))
      && unchanged(limiter) && unchanged(wallet)
    ensures FormatError(address, signature, challenge).None? && recover(challenge.value, signature.value).Some?
            && !SignerMatches(recover, address.value, signature.value, challenge.value) ==>
      && resp == Response(401, Error("Signature does not match address"))
      && unchanged(limiter) && unchanged(wallet)
    // 401: the challenge is refused; the registry and everything else stay as they were.
    ensures FormatError(address, signature, challenge).None?
            && SignerMatches(recover, address.value, signature.value, challenge.value)
            && Check(old(limiter.challenges), challenge.value, address.value, now) != Valid ==>
      && resp == Response(401, Error(Reason(Check(old(limiter.challenges), challenge.value, address.value, now).error)))
      && unchanged(limiter) && unchanged(wallet)
    // Once the challenge is accepted its token is consumed, whatever happens next.
    ensures FormatError(address, signature, challenge).None?
            && SignerMatches(recover, address.value, signature.value, challenge.value)
            && Check(old(limiter.challenges), challenge.value, address.value, now) == Valid ==>
      limiter.challenges == old(limiter.challenges) - {TokenOf(challenge.value)}
    // 429: the quota is spent; the ledger is only pruned and no transfer starts.
    ensures FormatError(address, signature, challenge).None?
            && SignerMatches(recover, address.value, signature.value, challenge.value)
            && Check(old(limiter.challenges), challenge.value, address.value, now) == Valid
            && |Window(old(limiter.usage), address.value, now)| >= DAILY_LIMIT ==>
      && resp == Response(429, RateLimited(LIMIT_MESSAGE, 0))
      && limiter.usage == old(limiter.usage)[ToLower(address.value) := Window(old(limiter.usage), address.value, now)]
      && unchanged(wallet)
    // 200 or 500: the transfer runs; usage is recorded only if it went through.
    ensures FormatError(address, signature, challenge).None?
            && SignerMatches(recover, address.value, signature.value, challenge.value)
            && Check(old(limiter.challenges), challenge.value, address.value, now) == Valid
            && |Window(old(limiter.usage), address.value, now)| < DAILY_LIMIT ==>
      var step := SendStep(Serve(old(wallet.nextNonce), old(wallet.txQueue)).0, address.value, attempt);
      var window := Window(old(limiter.usage), address.value, now);
      && wallet.nextNonce == step.cache && wallet.txQueue == []
      && (step.receipt.Sent? ==>
            && resp == Response(200, Dripped(step.receipt.hash, DRIP_AMOUNT_TEXT, DAILY_LIMIT - |window| - 1))
            && limiter.usage == old(limiter.usage)[ToLower(address.value) := window + [doneAt]])
      && (step.receipt.Rejected? ==>
            && resp == Response(500, Error(DRIP_FAILED))
            && limiter.usage == old(limiter.usage)[ToLower(address.value) := window])
    // Only a successful drip adds a grant, and it reports 0 to DAILY_LIMIT - 1 drips left.
    ensures resp.status != 200 ==>
      limiter.usage == old(limiter.usage)
      || limiter.usage == old(limiter.usage)[ToLower(address.value) := Window(old(limiter.usage), address.value, now)]
    ensures resp.status == 200 ==> resp.body.Dripped? && 0 <= resp.body.dailyRemaining < DAILY_LIMIT
  {
    var formatError := FormatError(address, signature, challenge);
    if formatError.Some? {
      return Response(400, Error(formatError.value));
    }
    var addr, sig, text := address.value, signature.value, challenge.value;

    var recovered := recover(text, sig);
    if recovered.None? {
      return Response(401, Error("Invalid signature"));
    }
    if ToLower(recovered.value) != ToLower(addr) {
      return Response(401, Error("Signature does not match address"));
    }

    var verdict := limiter.ValidateChallenge(text, addr, now);
    if verdict.Invalid? {
      return Response(401, Error(Reason(verdict.error)));
    }

    resp := Dispense(limiter, wallet, addr, now, attempt, doneAt);
  }
}
