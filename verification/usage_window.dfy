/**
 * The per-address usage ledger of the rate limiter: a list of grant times in
 * milliseconds, pruned to the trailing 24 hours and compared against the
 * daily limit.
 */
module UsageWindow {

  /** 24 hours in milliseconds. */
  const DAY_MS: int := 24 * 60 * 60 * 1000
  /** `config.dailyLimit`. */
  const DAILY_LIMIT: int := 10

  /** A grant at `ts` still counts at `now`. */
  predicate InWindow(ts: int, now: int)
  {
    now - ts < DAY_MS
  }

  /** `list.filter((ts) => now - ts < dayMs)`: the grants that still count, in order. */
  function Prune(s: seq<int>, now: int): (r: seq<int>)
    ensures |r| <= |s|
    decreases |s|
  {
    if s == [] then []
    else
      var last := s[|s| - 1];
      Prune(s[..|s| - 1], now) + (if InWindow(last, now) then [last] else [])
  }

  /**
   * The pruned ledger holds exactly the grants that still count, each as
   * many times as it was recorded.
   */
  lemma {:induction false} PruneMembers(s: seq<int>, now: int)
    ensures forall t :: t in Prune(s, now) <==> t in s && InWindow(t, now)
    ensures forall t :: multiset(Prune(s, now))[t] == if InWindow(t, now) then multiset(s)[t] else 0
    decreases |s|
  {
    if s != [] {
      var init, last := s[..|s| - 1], s[|s| - 1];
      PruneMembers(init, now);
      assert s == init + [last];
      assert multiset(s) == multiset(init) + multiset{last};
      if InWindow(last, now) {
        assert multiset(Prune(s, now)) == multiset(Prune(init, now)) + multiset{last};
      } else {
        assert Prune(s, now) == Prune(init, now);
      }
    }
  }

  /** Appending a grant extends the pruned list by that grant when it still counts. */
  lemma PruneAppend(s: seq<int>, t: int, now: int)
    ensures Prune(s + [t], now) == Prune(s, now) + (if InWindow(t, now) then [t] else [])
  {
    assert (s + [t])[..|s|] == s;
  }

  /** A ledger all of whose grants still count is left as it is. */
  lemma {:induction false} PruneKeepsRecent(s: seq<int>, now: int)
    requires forall i :: 0 <= i < |s| ==> InWindow(s[i], now)
    ensures Prune(s, now) == s
    decreases |s|
  {
    if s != [] {
      var init := s[..|s| - 1];
      PruneKeepsRecent(init, now);
      assert s == init + [s[|s| - 1]];
    }
  }

  /**
   * Pruning at an earlier time never loses a grant that a later prune would
   * keep: the ledger pruned at `now` and then at `later` is the ledger
   * pruned at `later`.
   */
  lemma {:induction false} PruneLater(s: seq<int>, now: int, later: int)
    requires now <= later
    ensures Prune(Prune(s, now), later) == Prune(s, later)
    decreases |s|
  {
    if s != [] {
      var init, last := s[..|s| - 1], s[|s| - 1];
      PruneLater(init, now, later);
      assert Prune(s, later) == Prune(init, later) + (if InWindow(last, later) then [last] else []);
      if InWindow(last, now) {
        assert Prune(s, now) == Prune(init, now) + [last];
        PruneAppend(Prune(init, now), last, later);
      } else {
        assert Prune(s, now) == Prune(init, now);
      }
    }
  }

  /** The number of grants that count never grows as time passes. */
  lemma WindowShrinks(s: seq<int>, now: int, later: int)
    requires now <= later
    ensures |Prune(s, later)| <= |Prune(s, now)|
  {
    PruneLater(s, now, later);
  }

  /**
   * Capacity reopens: once a grant that counted at `now` has aged out by
   * `later`, strictly fewer grants count at `later`.
   */
  lemma {:induction false} AgedOutFreesSlot(s: seq<int>, now: int, later: int, t: int)
    requires now <= later
    requires t in Prune(s, now) && !InWindow(t, later)
    ensures |Prune(s, later)| < |Prune(s, now)|
    decreases |s|
  {
    var init, last := s[..|s| - 1], s[|s| - 1];
    WindowShrinks(init, now, later);
    if t in Prune(init, now) {
      AgedOutFreesSlot(init, now, later, t);
    }
  }

  /** Grants recorded for `key`, or none. */
  function Entries(usage: map<string, seq<int>>, key: string): seq<int>
  {
    if key in usage then usage[key] else []
  }

  /**
   * The quota invariant under sequential requests: if a check at `now`
   * allowed the request (fewer than DAILY_LIMIT grants counted) and the grant
   * is then recorded at any time `at`, then at no time from `now` on do more
   * than DAILY_LIMIT grants count.
   */
  lemma GrantKeepsQuota(s: seq<int>, now: int, at: int, later: int)
    requires |Prune(s, now)| < DAILY_LIMIT
    requires now <= later
    ensures |Prune(Prune(s, now) + [at], later)| <= DAILY_LIMIT
  {
    PruneAppend(Prune(s, now), at, later);
    PruneLater(s, now, later);
  }

  /**
   * The ledger of one address after drip requests at `times`, one after the
   * other and each transfer going through: every request prunes the ledger
   * at its own time and, when allowed, records a grant at that time.
   */
  function Drips(ledger: seq<int>, times: seq<int>): seq<int>
    decreases |times|
  {
    if times == [] then ledger
    else
      var t := times[|times| - 1];
      var w := Prune(Drips(ledger, times[..|times| - 1]), t);
      if |w| < DAILY_LIMIT then w + [t] else w
  }

  /** Request times in order, all within one day of the first. */
  predicate WithinOneDay(times: seq<int>)
  {
    && (forall i, j :: 0 <= i <= j < |times| ==> times[i] <= times[j])
    && (forall i :: 0 <= i < |times| ==> times[i] - times[0] < DAY_MS)
  }

  /** Up to DAILY_LIMIT requests within one day are all granted and all recorded. */
  lemma {:induction false} DripsAllGranted(times: seq<int>)
    requires |times| <= DAILY_LIMIT && WithinOneDay(times)
    ensures Drips([], times) == times
    decreases |times|
  {
    if times != [] {
      var n := |times|;
      var init, t := times[..n - 1], times[n - 1];
      assert WithinOneDay(init) by {
        forall i | 0 <= i < |init| ensures init[i] - init[0] < DAY_MS {
          assert init[i] == times[i];
        }
      }
      DripsAllGranted(init);
      forall i | 0 <= i < |init| ensures InWindow(init[i], t) {
        assert init[i] == times[i] && times[0] <= times[i];
      }
      PruneKeepsRecent(init, t);
      assert times == init + [t];
    }
  }

  /**
   * The daily quota from a fresh ledger: the i-th of DAILY_LIMIT requests
   * within one day sees i earlier grants, so it is allowed and reports
   * DAILY_LIMIT - i - 1 drips left (9, 8, ..., 0); a further request before
   * the first grant ages out sees DAILY_LIMIT grants and is refused.
   */
  lemma TenThenRefused(times: seq<int>, next: int)
    requires |times| == DAILY_LIMIT && WithinOneDay(times)
    requires times[|times| - 1] <= next && next - times[0] < DAY_MS
    ensures forall i :: 0 <= i < |times| ==> |Prune(Drips([], times[..i]), times[i])| == i
    ensures |Prune(Drips([], times), next)| == DAILY_LIMIT
  {
    forall i | 0 <= i < |times|
      ensures |Prune(Drips([], times[..i]), times[i])| == i
    {
      var p := times[..i];
      assert WithinOneDay(p) by {
        forall k | 0 <= k < |p| ensures p[k] - p[0] < DAY_MS {
          assert p[k] == times[k];
        }
      }
      DripsAllGranted(p);
      forall k | 0 <= k < |p| ensures InWindow(p[k], times[i]) {
        assert p[k] == times[k] && times[0] <= times[k];
      }
      PruneKeepsRecent(p, times[i]);
    }
    DripsAllGranted(times);
    forall k | 0 <= k < |times| ensures InWindow(times[k], next) {
      assert times[0] <= times[k];
    }
    PruneKeepsRecent(times, next);
  }

  /**
   * Within one day of every grant, each recorded grant lowers the count of a
   * later check by exactly one: so ten drips in a row report 9, 8, ..., 0
   * remaining and the eleventh is refused.
   */
  lemma GrantCountsOnce(s: seq<int>, now: int, at: int, later: int)
    requires forall i :: 0 <= i < |s| ==> InWindow(s[i], later)
    requires InWindow(at, later) && now <= later
    ensures |Prune(Prune(s, now) + [at], later)| == |Prune(s, now)| + 1
  {
    PruneKeepsRecent(s, later);
    PruneLater(s, now, later);
    PruneAppend(Prune(s, now), at, later);
  }
}
