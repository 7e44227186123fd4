/**
 * The rate-limit service: the module-level challenge map and usage ledger as
 * the fields of one object, and the operations that read and update them in
 * place. Each method is proved against the pure definitions of the
 * Challenges and UsageWindow modules.
 */
module RateLimit {
  import opened Text
  import opened Challenges
  import opened UsageWindow

  /** The denial message of the rate limiter (`config.dailyLimit` is 10). */
  const LIMIT_MESSAGE: string := "Daily limit reached (10 iKAS). Try again later."

  /** What the state loader finds on disk. */
  datatype Snapshot = NoFile | Unreadable | Parsed(usage: map<string, seq<int>>)

  /** The grants of `address` (by its lowercase key) that count at `now`. */
  function Window(usage: map<string, seq<int>>, address: string, now: int): seq<int>
  {
    Prune(Entries(usage, ToLower(address)), now)
  }

  class RateLimitState {
    /** Outstanding challenges by token. */
    var challenges: Registry
    /** Grant times (ms) by lowercase address. */
    var usage: map<string, seq<int>>

    /**
     * Every stored challenge is bound to a lowercase address. Each method
     * keeps it; it documents the registry's shape, and no verdict depends on it.
     */
    ghost predicate Valid()
      reads this
    {
      forall t :: t in challenges ==> ToLower(challenges[t].address) == challenges[t].address
    }

    constructor ()
      ensures Valid()
      ensures challenges == map[] && usage == map[]
    {
      challenges := map[];
      usage := map[];
    }

    /**
     * Startup load: a missing file keeps the empty ledger, a file that does
     * not parse resets it to empty, a parsed file replaces it.
     */
    method LoadState(snapshot: Snapshot)
      modifies this`usage
      ensures snapshot.NoFile? ==> usage == old(usage)
      ensures snapshot.Unreadable? ==> usage == map[]
      ensures snapshot.Parsed? ==> usage == snapshot.usage
    {
      match snapshot
      case NoFile =>
      case Unreadable => usage := map[];
      case Parsed(u) => usage := u;
    }

    /**
     * Issues a challenge for `address` at `now` (ms) under the fresh token
     * `uuid`: returns its string and lifetime in seconds and registers the
     * token, bound to the lowercased address, until now + TTL.
     */
    method GenerateChallenge(address: string, now: int, uuid: string) returns (challenge: string, expiresIn: int)
      requires Valid()
      modifies this`challenges
      ensures Valid()
      ensures challenge == Encode(now / 1000, uuid, address)
      ensures expiresIn == CHALLENGE_TTL
      ensures challenges == old(challenges)[uuid := Issued(address, now)]
      ensures uuid !in old(challenges) ==> forall t :: t in old(challenges) ==> t in challenges && challenges[t] == old(challenges)[t]
    {
      var timestamp := now / 1000;
      challenge := DOMAIN + ":" + IntToDecimal(timestamp) + ":" + uuid + ":" + DRIP_ACTION + ":" + address;
      EncodeSpelledOut(timestamp, uuid, address);
      ToLowerIdempotent(address);
      challenges := challenges[uuid := Stored(ToLower(address), now + CHALLENGE_TTL * 1000)];
      expiresIn := CHALLENGE_TTL;
    }

    /**
     * Validates `challenge` for `address` at `now`: the verdict is Check's,
     * and the token is deleted exactly when the challenge is accepted.
     */
    method ValidateChallenge(challenge: string, address: string, now: int) returns (v: Validation)
      requires Valid()
      modifies this`challenges
      ensures Valid()
      ensures v == Check(old(challenges), challenge, address, now)
      ensures challenges == AfterCheck(old(challenges), challenge, address, now)
    {
      var parts := Split(challenge, ':');
      if |parts| != 5 {
        return Invalid(Malformed);
      }
      var domain, uuid, action, challengeAddr := parts[0], parts[2], parts[3], parts[4];
      if domain != DOMAIN {
        return Invalid(WrongDomain);
      }
      if action != DRIP_ACTION {
        return Invalid(WrongAction);
      }
      if ToLower(challengeAddr) != ToLower(address) {
        return Invalid(AddressMismatch);
      }
      if uuid !in challenges {
        return Invalid(NotFound);
      }
      var stored := challenges[uuid];
      if stored.expiresAt < now {
        return Invalid(Expired);
      }
      if stored.address != ToLower(address) {
        return Invalid(AddressMismatch);
      }
      challenges := challenges - {uuid};
      v := Validation.Valid;
    }

    /**
     * Checks the quota of `address` at `now`. It creates the ledger entry if
     * missing and prunes it to the trailing day in place; the request is
     * allowed iff fewer than DAILY_LIMIT grants count, and `remaining` is
     * DAILY_LIMIT minus that count when allowed, 0 when denied.
     */
    method CheckRateLimit(address: string, now: int) returns (allowed: bool, remaining: int)
      modifies this`usage
      ensures usage == old(usage)[ToLower(address) := Window(old(usage), address, now)]
      ensures allowed <==> |Window(old(usage), address, now)| < DAILY_LIMIT
      ensures allowed ==> remaining == DAILY_LIMIT - |Window(old(usage), address, now)|
      ensures !allowed ==> remaining == 0
      ensures 0 <= remaining <= DAILY_LIMIT
    {
      var key := ToLower(address);
      if key !in usage {
        usage := usage[key := []];
      }
      usage := usage[key := Prune(usage[key], now)];
      var used := |usage[key]|;
      remaining := DAILY_LIMIT - used;
      if remaining <= 0 {
        return false, 0;
      }
      allowed := true;
    }

    /** Appends one grant at `now` to the ledger of `address`; no other address changes. */
    method RecordUsage(address: string, now: int)
      modifies this`usage
      ensures usage == old(usage)[ToLower(address) := Entries(old(usage), ToLower(address)) + [now]]
    {
      var key := ToLower(address);
      if key !in usage {
        usage := usage[key := []];
      }
      usage := usage[key := usage[key] + [now]];
    }

    /** The reaper tick: deletes exactly the challenges with `expiresAt < now`. */
    method CleanupExpired(now: int)
      requires Valid()
      modifies this`challenges
      ensures Valid()
      ensures challenges == Unexpired(old(challenges), now)
    {
      var pending := challenges.Keys;
      while pending != {}
        invariant pending <= old(challenges).Keys
        invariant challenges.Keys <= old(challenges).Keys
        invariant forall t :: t in challenges ==> challenges[t] == old(challenges)[t]
        invariant forall t :: t in pending ==> t in challenges
        invariant forall t :: t in old(challenges) && t !in pending ==>
                    (t in challenges <==> old(challenges)[t].expiresAt >= now)
        decreases pending
      {
        var t :| t in pending;
        if challenges[t].expiresAt < now {
          challenges := challenges - {t};
        }
        pending := pending - {t};
      }
      assert challenges.Keys == Unexpired(old(challenges), now).Keys;
    }
  }
}
