/**
 * The challenge protocol of the faucet as pure functions: the colon-delimited
 * wire format `domain:timestamp:token:action:address`, the registry entry
 * recorded at issuance, the ordered chain of rejection checks run by
 * validation, and the reaper that drops expired entries.
 */
module Challenges {
  import opened Text

  /** `config.domain`. */
  const DOMAIN: string := "igra-faucet"
  /** The only action tag validation accepts. */
  const DRIP_ACTION: string := "drip"
  /** `config.challengeTTL`, in seconds. */
  const CHALLENGE_TTL: nat := 120

  /** What the registry keeps for an outstanding token. */
  datatype Stored = Stored(address: string, expiresAt: int)

  /** The in-memory registry: token to entry. */
  type Registry = map<string, Stored>

  /**
   * The challenge string issued for `address` at `timestamp` (unix seconds).
   * With a colon-free token and address it splits back into its five fields.
   */
  function Encode(timestamp: int, token: string, address: string): (c: string)
    ensures ':' !in token && ':' !in address ==>
      Split(c, ':') == [DOMAIN, IntToDecimal(timestamp), token, DRIP_ACTION, address]
  {
    var f := [DOMAIN, IntToDecimal(timestamp), token, DRIP_ACTION, address];
    if ':' !in token && ':' !in address then
      assert ':' !in f[1];
      SplitJoin(f, ':');
      Join(f, ':')
    else
      Join(f, ':')
  }

  /** The encoding written out as the template literal that builds it. */
  lemma EncodeSpelledOut(timestamp: int, token: string, address: string)
    ensures Encode(timestamp, token, address)
      == DOMAIN + ":" + IntToDecimal(timestamp) + ":" + token + ":" + DRIP_ACTION + ":" + address
  {
    var ts := IntToDecimal(timestamp);
    var f := [DOMAIN, ts, token, DRIP_ACTION, address];
    var j4 := Join([address], ':');
    var j3 := Join([DRIP_ACTION, address], ':');
    var j2 := Join([token, DRIP_ACTION, address], ':');
    var j1 := Join([ts, token, DRIP_ACTION, address], ':');
    assert j4 == address;
    assert [DRIP_ACTION, address][1..] == [address];
    assert j3 == DRIP_ACTION + ":" + address;
    assert [token, DRIP_ACTION, address][1..] == [DRIP_ACTION, address];
    assert j2 == token + ":" + j3;
    assert [ts, token, DRIP_ACTION, address][1..] == [token, DRIP_ACTION, address];
    assert j1 == ts + ":" + j2;
    assert f[1..] == [ts, token, DRIP_ACTION, address];
    assert Join(f, ':') == DOMAIN + ":" + j1;
  }

  /** The registry entry written when a challenge is issued at `now` (ms). */
  function Issued(address: string, now: int): (e: Stored)
    ensures e.address == ToLower(address)
    ensures e.expiresAt - now == CHALLENGE_TTL * 1000
  {
    Stored(ToLower(address), now + CHALLENGE_TTL * 1000)
  }

  datatype Rejection =
    | Malformed
    | WrongDomain
    | WrongAction
    | AddressMismatch
    | NotFound
    | Expired

  /** The reason string a rejection is reported with. */
  function Reason(r: Rejection): string
  {
    match r
    case Malformed => "Malformed challenge"
    case WrongDomain => "Wrong domain"
    case WrongAction => "Wrong action"
    case AddressMismatch => "Address mismatch"
    case NotFound => "Challenge not found or expired"
    case Expired => "Challenge expired"
  }

  datatype Validation = Valid | Invalid(error: Rejection)

  /** The token field of a challenge string, when it has five fields. */
  function TokenOf(challenge: string): string
  {
    var parts := Split(challenge, ':');
    if |parts| == 5 then parts[2] else ""
  }

  /**
   * The verdict of validating `challenge` for `address` at `now` against the
   * registry: the checks run in the order domain, action, encoded address,
   * token present, stored expiry, stored address, and the first that fails
   * decides. The timestamp field is never looked at.
   */
  function Check(reg: Registry, challenge: string, address: string, now: int): (v: Validation)
    ensures v == Valid ==>
      var t := TokenOf(challenge);
      t in reg && now <= reg[t].expiresAt && reg[t].address == ToLower(address)
  {
    Verdict(reg, Split(challenge, ':'), address, now)
  }

  /** The ordered chain of checks on the colon-separated fields of a challenge. */
  function Verdict(reg: Registry, parts: seq<string>, address: string, now: int): Validation
  {
    if |parts| != 5 then Invalid(Malformed)
    else if parts[0] != DOMAIN then Invalid(WrongDomain)
    else if parts[3] != DRIP_ACTION then Invalid(WrongAction)
    else if ToLower(parts[4]) != ToLower(address) then Invalid(AddressMismatch)
    else if parts[2] !in reg then Invalid(NotFound)
    else if reg[parts[2]].expiresAt < now then Invalid(Expired)
    else if reg[parts[2]].address != ToLower(address) then Invalid(AddressMismatch)
    else Valid
  }

  /**
   * The registry after a validation: the challenge's token is gone exactly
   * when the challenge was accepted, and no other entry is removed or altered.
   */
  function AfterCheck(reg: Registry, challenge: string, address: string, now: int): (r: Registry)
    ensures r.Keys <= reg.Keys && reg.Keys - r.Keys <= {TokenOf(challenge)}
    ensures forall t :: t in r ==> r[t] == reg[t]
    ensures Check(reg, challenge, address, now) == Valid <==> TokenOf(challenge) in reg && TokenOf(challenge) !in r
  {
    if Check(reg, challenge, address, now) == Valid then reg - {TokenOf(challenge)} else reg
  }

  /** The registry after the reaper runs at `now`: entries with `expiresAt < now` are dropped. */
  function Unexpired(reg: Registry, now: int): (r: Registry)
    ensures forall t :: t in r <==> t in reg && reg[t].expiresAt >= now
    ensures forall t :: t in r ==> r[t] == reg[t]
  {
    map t | t in reg && !(reg[t].expiresAt < now) :: reg[t]
  }

  /** The five fields a well-formed challenge string is made of. */
  ghost predicate Fields(f: seq<string>)
  {
    |f| == 5 && forall i :: 0 <= i < 5 ==> ':' !in f[i]
  }

  /** Fields that validation accepts for `address` at `now`; the timestamp field f[1] is free. */
  ghost predicate AcceptedFields(reg: Registry, f: seq<string>, address: string, now: int)
  {
    && Fields(f)
    && f[0] == DOMAIN && f[3] == DRIP_ACTION && ToLower(f[4]) == ToLower(address)
    && f[2] in reg && now <= reg[f[2]].expiresAt && reg[f[2]].address == ToLower(address)
  }

  /**
   * Validation accepts exactly the joins of five colon-free fields whose
   * domain and action are right, whose address field equals the claimed
   * address up to case, and whose token is stored, unexpired and bound to
   * the claimed address. Nothing is required of the timestamp field.
   */
  lemma AcceptedIff(reg: Registry, challenge: string, address: string, now: int)
    ensures Check(reg, challenge, address, now) == Valid <==>
      exists f :: AcceptedFields(reg, f, address, now) && challenge == Join(f, ':')
  {
    var parts := Split(challenge, ':');
    if Check(reg, challenge, address, now) == Valid {
      JoinSplit(challenge, ':');
      assert AcceptedFields(reg, parts, address, now) && challenge == Join(parts, ':');
    }
    if f :| AcceptedFields(reg, f, address, now) && challenge == Join(f, ':') {
      SplitJoin(f, ':');
    }
  }

  /** A challenge is malformed exactly when it does not hold four colons. */
  lemma MalformedIffColonCount(reg: Registry, challenge: string, address: string, now: int)
    ensures Check(reg, challenge, address, now) == Invalid(Malformed) <==> multiset(challenge)[':'] != 4
  {
    SplitCount(challenge, ':');
  }

  /** Replacing the timestamp field by any other colon-free text never changes the verdict. */
  lemma TimestampIgnored(reg: Registry, f: seq<string>, ts: string, address: string, now: int)
    requires Fields(f) && ':' !in ts
    ensures Check(reg, Join(f, ':'), address, now) == Check(reg, Join(f[1 := ts], ':'), address, now)
  {
    var g := f[1 := ts];
    assert Fields(g) by {
      forall i | 0 <= i < 5 ensures ':' !in g[i] {
        if i != 1 {
          assert g[i] == f[i];
        }
      }
    }
    SplitJoin(f, ':');
    SplitJoin(g, ':');
    VerdictIgnoresTimestamp(reg, f, g, address, now);
  }

  /** The verdict on five fields reads every field but the timestamp. */
  lemma VerdictIgnoresTimestamp(reg: Registry, f: seq<string>, g: seq<string>, address: string, now: int)
    requires |f| == 5 && |g| == 5
    requires f[0] == g[0] && f[2] == g[2] && f[3] == g[3] && f[4] == g[4]
    ensures Verdict(reg, f, address, now) == Verdict(reg, g, address, now)
  {
  }

  /**
   * Round trip: a challenge issued for `address` at `issuedAt`, with a
   * colon-free token and address, is accepted for any spelling of the same
   * address up to case, at any time up to and including its expiry.
   */
  lemma IssueThenValidate(reg: Registry, address: string, issuedAt: int, token: string, claimed: string, now: int)
    requires ':' !in token && ':' !in address
    requires ToLower(claimed) == ToLower(address)
    requires now <= issuedAt + CHALLENGE_TTL * 1000
    ensures Check(reg[token := Issued(address, issuedAt)], Encode(issuedAt / 1000, token, address), claimed, now) == Valid
    ensures TokenOf(Encode(issuedAt / 1000, token, address)) == token
  {
    var f := [DOMAIN, IntToDecimal(issuedAt / 1000), token, DRIP_ACTION, address];
    assert ':' !in f[1];
    SplitJoin(f, ':');
  }

  /** Strict expiry: one millisecond after `expiresAt` an issued challenge is refused as expired. */
  lemma ExpiredAfterDeadline(reg: Registry, address: string, issuedAt: int, token: string, claimed: string)
    requires ':' !in token && ':' !in address
    requires ToLower(claimed) == ToLower(address)
    ensures Check(reg[token := Issued(address, issuedAt)], Encode(issuedAt / 1000, token, address), claimed,
                  issuedAt + CHALLENGE_TTL * 1000 + 1) == Invalid(Expired)
  {
    var f := [DOMAIN, IntToDecimal(issuedAt / 1000), token, DRIP_ACTION, address];
    assert ':' !in f[1];
    SplitJoin(f, ':');
  }

  /**
   * Single use: once a challenge has been accepted and its token removed, it
   * is never accepted again, and for the same address (in any case) it is
   * refused as not found.
   */
  lemma SingleUse(reg: Registry, challenge: string, address: string, now: int, again: string, later: int)
    requires Check(reg, challenge, address, now) == Valid
    ensures Check(AfterCheck(reg, challenge, address, now), challenge, again, later) != Valid
    ensures ToLower(again) == ToLower(address) ==>
      Check(AfterCheck(reg, challenge, address, now), challenge, again, later) == Invalid(NotFound)
  {
  }

  /** A failed validation leaves the registry as it was. */
  lemma RejectionKeepsRegistry(reg: Registry, challenge: string, address: string, now: int)
    requires Check(reg, challenge, address, now) != Valid
    ensures AfterCheck(reg, challenge, address, now) == reg
  {
  }

  /**
   * The reaper never changes whether a later validation succeeds: an entry
   * it drops could only have been refused as expired.
   */
  lemma ReapKeepsVerdict(reg: Registry, reapAt: int, challenge: string, address: string, now: int)
    requires reapAt <= now
    ensures Check(Unexpired(reg, reapAt), challenge, address, now) == Valid <==> Check(reg, challenge, address, now) == Valid
  {
  }
}
