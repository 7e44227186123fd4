# iKAS faucet request gating, modelled in Dafny

The faucet sends a fixed amount of test-network tokens to an address. Before
it does, the caller must prove control of the address by signing a short-lived,
single-use challenge string. Each address gets at most `dailyLimit` (10) drips
in any rolling 24 hours. Outbound transfers run one at a time, and a cached
nonce is dropped after any failure.

This project models the request-gating core of the faucet:

- `text.dfy` (`Text`): JavaScript's `split` on one character, `join`,
  `toLowerCase` and the decimal rendering of integers. It proves that split and
  join are inverses.
- `challenges.dfy` (`Challenges`): the challenge string
  `domain:timestamp:token:drip:address`, the registry entry written when a
  challenge is issued, and the verdict of validation (`Check`), whose checks run
  in a fixed order. It also holds the reaper's filter (`Unexpired`).
- `usage_window.dfy` (`UsageWindow`): the per-address list of grant times,
  pruned to a sliding 24-hour window, and the quota lemmas.
- `rate_limit.dfy` (`RateLimit`): the service's module-level `challenges` map
  and `state.usage` ledger become the fields of the class `RateLimitState`.
  Its methods update those fields in place and are proved against the pure
  definitions above.
- `wallet.dfy` (`Wallet`): the class `Dispatcher` holds the nonce cache
  `nextNonce` and the pending links of the transfer chain `txQueue`. The node's
  answers for each send are inputs.
- `telegram.dfy` (`Telegram`): the class `Bot` holds `lastAlertAt` and
  `lastUpdateId`. The module also covers the low-balance alert cooldown, command
  normalisation and the admin-chat filter.
- `faucet.dfy` (`Faucet`): the address and signature patterns, the challenge
  length bound, and the `/challenge` and `/drip` handlers. The handlers are
  methods over a `RateLimitState` and a `Dispatcher`.

Clock readings (`Date.now()`), the random token (`crypto.randomUUID()`),
signature recovery (`verifyMessage`) and the node's replies are parameters.
In `HandleDrip`, signature recovery is a function parameter that returns the
recovered address, or `None` where the library throws. A transfer's fee lookup,
pending-nonce query and submission outcomes form one `Attempt` value. The
chat service's replies to a poll are one `Option<seq<Update>>`.

Three points of the code's behaviour are easy to get wrong, and the model
keeps to the code on each:

- Expiry is judged only by the registry entry's `expiresAt`. The timestamp
  encoded in the challenge string is never checked: the destructuring at
  `src/services/rateLimit.ts:56` skips that field. `Challenges.Check` ignores
  it too, and `Challenges.TimestampIgnored` proves that changing it never
  changes the verdict.
- The quota check is not read-only. `checkRateLimit` creates the ledger entry
  and prunes it in place (`src/services/rateLimit.ts:85-88`), and
  `RateLimitState.CheckRateLimit` does the same.
- A token that was never issued and a token the reaper already removed get the
  same answer, "Challenge not found or expired"
  (`src/services/rateLimit.ts:62-63`), and the model does the same.

## Model

| member | source | states |
|---|---|---|
| `Text.Split` | src/services/rateLimit.ts:53 | `split(":")` yields at least one field and no field contains the separator |
| `Text.SplitJoin` | src/services/rateLimit.ts:41-53 | splitting the join of separator-free fields returns exactly those fields |
| `Text.JoinSplit` | src/services/rateLimit.ts:53 | joining the fields of a split rebuilds the original string |
| `Text.SplitCount` | src/services/rateLimit.ts:53-54 | a string splits into one more field than it has separators |
| `Text.ToLower` | src/services/rateLimit.ts:43 | the result has the same length and no uppercase ASCII letter; every other character is kept, and each uppercase letter becomes its lowercase partner |
| `Text.ToLowerIdempotent` | src/services/rateLimit.ts:43 | lowercasing an already lowercased address changes nothing, so stored addresses stay lowercase |
| `Text.IntToDecimal` | src/services/rateLimit.ts:39-41 | the rendered timestamp is non-empty and uses only digits and '-', so it holds no ':' |
| `Text.NatToDecimal` | src/services/rateLimit.ts:41 | the rendering of a natural number is non-empty and uses only digits |
| `Text.Utf16Length` | src/routes/faucet.ts:63-64 | `challenge.length` counts UTF-16 code units: at least one per character and at most two |
| `Text.Utf16LengthBmp` | src/routes/faucet.ts:63-64 | without astral characters the UTF-16 length is the number of characters |
| `Text.Utf16LengthAstral` | src/routes/faucet.ts:63-64 | a string of astral characters only has twice as many UTF-16 code units as characters |
| `Text.NatToDecimalLength` | src/services/rateLimit.ts:41 | a number below 10^k renders in at most k digits |
| `Challenges.EncodeSpelledOut` | src/services/rateLimit.ts:41 | the five-field join equals the template literal `domain:timestamp:uuid:drip:address` |
| `Challenges.Encode` | src/services/rateLimit.ts:41 | with a colon-free token and address, the challenge string splits back into exactly its five fields: domain, timestamp, token, `drip`, address |
| `Challenges.Check` | src/services/rateLimit.ts:53-67 | an accepted challenge's token field names a stored entry that is unexpired at `now` and bound to the lowercased claimed address |
| `Challenges.AfterCheck` | src/services/rateLimit.ts:62-70 | validation removes the challenge's token exactly when it accepts, and removes or alters no other entry |
| `Challenges.AcceptedIff` | src/services/rateLimit.ts:53-73 | validation succeeds iff the string is the join of five colon-free fields with the right domain and action, an address field equal to the claimed one up to case, and a token that is stored, unexpired at `now` and bound to the lowercased claimed address; the timestamp field is unconstrained |
| `Challenges.MalformedIffColonCount` | src/services/rateLimit.ts:53-54 | "Malformed challenge" is returned exactly when the string does not contain four colons |
| `Challenges.VerdictIgnoresTimestamp` | src/services/rateLimit.ts:56-67 | two five-field challenges that differ only in the timestamp field get the same verdict |
| `Challenges.TimestampIgnored` | src/services/rateLimit.ts:56 | changing the timestamp field to any other colon-free text never changes the verdict |
| `Challenges.IssueThenValidate` | src/services/rateLimit.ts:39-73 | round trip: a challenge issued with a colon-free token and address validates for that address in any case, up to and including `expiresAt`, and its token field is the stored token |
| `Challenges.ExpiredAfterDeadline` | src/services/rateLimit.ts:64-65 | expiry is strict: one millisecond after `expiresAt` the same challenge is refused with "Challenge expired" |
| `Challenges.SingleUse` | src/services/rateLimit.ts:62-70 | after a successful validation deletes the token, the same string is never accepted again; for the same address it is refused as not found |
| `Challenges.RejectionKeepsRegistry` | src/services/rateLimit.ts:53-67 | a failed validation leaves the registry unchanged |
| `Challenges.Unexpired` | src/services/rateLimit.ts:112-115 | the reaper keeps exactly the entries with `expiresAt >= now`, and keeps their values unchanged |
| `Challenges.ReapKeepsVerdict` | src/services/rateLimit.ts:111-115 | reaping at time t never changes whether a validation at a time ≥ t succeeds |
| `UsageWindow.Prune` | src/services/rateLimit.ts:88 | the pruned list is never longer than the stored one |
| `UsageWindow.PruneMembers` | src/services/rateLimit.ts:88 | the pruned list holds exactly the stored grants with `now - ts < 24h`, each as many times as it was recorded, so the count is the number of grants in the window |
| `UsageWindow.PruneAppend` | src/services/rateLimit.ts:88-107 | pruning the list after one appended grant gives the pruned old list, plus that grant if it is still in the window |
| `UsageWindow.PruneKeepsRecent` | src/services/rateLimit.ts:88 | a list whose grants all fall in the window is left unchanged |
| `UsageWindow.PruneLater` | src/services/rateLimit.ts:85-88 | pruning the stored list in place never loses a grant that a later check would count |
| `UsageWindow.WindowShrinks` | src/services/rateLimit.ts:88-90 | the number of counted grants never grows as time passes |
| `UsageWindow.AgedOutFreesSlot` | src/services/rateLimit.ts:88-91 | once a counted grant ages past 24 h, strictly fewer grants count, so capacity reopens |
| `UsageWindow.GrantKeepsQuota` | src/routes/faucet.ts:92-100 | when requests run one after another, a grant recorded after an allowed check never brings the window above `dailyLimit` at any later time |
| `UsageWindow.GrantCountsOnce` | src/routes/faucet.ts:92-105 | within one day of every grant, each recorded drip raises the next check's count by exactly one |
| `UsageWindow.DripsAllGranted` | src/routes/faucet.ts:92-100 | from a fresh ledger, up to `dailyLimit` successful drip requests in order within one day are all allowed and all recorded |
| `UsageWindow.TenThenRefused` | src/routes/faucet.ts:92-105 | from a fresh ledger, the i-th of `dailyLimit` requests within one day sees i earlier grants, so it reports `dailyRemaining` 9, 8, …, 0; one more request before the first grant ages out sees `dailyLimit` grants and is refused |
| `RateLimit.RateLimitState.constructor` | src/services/rateLimit.ts:11-12 | the service starts with an empty challenge map and an empty ledger, and every stored address is lowercase |
| `RateLimit.RateLimitState.LoadState` | src/services/rateLimit.ts:14-23 | a missing state file keeps the ledger; an unreadable one resets it to empty; a parsed one replaces it |
| `RateLimit.RateLimitState.GenerateChallenge` | src/services/rateLimit.ts:35-47 | returns the encoded challenge and the TTL in seconds; registers the token with the lowercased address and `now + TTL·1000`; with a fresh token every other challenge is kept |
| `RateLimit.RateLimitState.ValidateChallenge` | src/services/rateLimit.ts:49-74 | returns `Check`'s verdict on the old registry and deletes the token exactly when the challenge is accepted |
| `RateLimit.RateLimitState.CheckRateLimit` | src/services/rateLimit.ts:76-102 | replaces the address's ledger entry with its pruned window; allows iff fewer than `dailyLimit` grants count; `remaining` is `dailyLimit - count` when allowed and 0 when denied, always in `0..dailyLimit` |
| `RateLimit.RateLimitState.RecordUsage` | src/services/rateLimit.ts:104-108 | appends exactly `now` to the lowercased address's list; every other address is unchanged |
| `RateLimit.RateLimitState.CleanupExpired` | src/services/rateLimit.ts:111-116 | the loop over the map deletes exactly the entries with `expiresAt < now` |
| `Wallet.SendStep` | src/services/wallet.ts:30-51 | a send succeeds iff fees, a nonce (cached, or fetched when the cache is null) and the submission all succeed; it uses the cached or fetched nonce and leaves `nonce + 1`; any failure leaves `null` |
| `Wallet.CachedNonceSkipsNode` | src/services/wallet.ts:33-35 | with a cached nonce, the node's pending-nonce answer has no effect |
| `Wallet.Serve` | src/services/wallet.ts:29-51 | the chain gives one receipt per call |
| `Wallet.ServeRecipients` | src/services/wallet.ts:27-51 | the i-th receipt is addressed to the i-th call's recipient |
| `Wallet.ServePrefix` | src/services/wallet.ts:29-51 | the first j calls settle exactly as they do within the whole chain, so later calls never change earlier outcomes |
| `Wallet.ServeAt` | src/services/wallet.ts:29-51 | FIFO: the i-th call settles as its own send does with the cache left by the calls before it |
| `Wallet.ConsecutiveNonces` | src/services/wallet.ts:33-37 | sends with no failure use nonces n, n+1, n+2, …, and the cache ends one past the last nonce used |
| `Wallet.RequeryAfterFailure` | src/services/wallet.ts:47-50 | after a failed call the cache is null; the next call re-queries the node and goes through iff its own steps succeed |
| `Wallet.Dispatcher.constructor` | src/services/wallet.ts:12-13 | the nonce cache starts null and the chain starts empty |
| `Wallet.Dispatcher.SendDrip` | src/services/wallet.ts:30-51 | one chain link: the new cache and the receipt are `SendStep`'s |
| `Wallet.Dispatcher.Enqueue` | src/services/wallet.ts:27-29 | a call appends its link to the end of the chain |
| `Wallet.Dispatcher.SendAndAwait` | src/services/wallet.ts:27-53 | an awaited call joins the end of the chain and settles after every link already pending, with the cache those links leave; the chain is then empty |
| `Wallet.Dispatcher.Drain` | src/services/wallet.ts:29-51 | the chain runs every pending link, oldest first, one at a time; receipts and the final cache are `Serve`'s |
| `Telegram.AlertsSpaced` | src/services/telegram.ts:29-31 | any two alerts are at least 3,600,000 ms apart, and so is the first alert from the previous `lastAlertAt` |
| `Telegram.NoAlertsWhenDisabled` | src/services/telegram.ts:26 | with no bot token or chat id, no alert is ever sent |
| `Telegram.Bot.constructor` | src/services/telegram.ts:4-6 | `lastAlertAt` and `lastUpdateId` start at 0 |
| `Telegram.Bot.CheckAndAlertLowBalance` | src/services/telegram.ts:25-42 | alerts iff the bot is configured, the balance is under the threshold (any balance when no threshold is set, since `balance >= undefined` is false) and the cooldown has passed; `lastAlertAt` becomes `now` before delivery and is otherwise unchanged |
| `Telegram.HandleCommand` | src/services/telegram.ts:44-71 | replies only when `String(chatId)` equals the configured chat id and the command is one of `/balance`, `/address`, `/start`, `/help`; otherwise no message |
| `Telegram.StartIsHelp` | src/services/telegram.ts:63-70 | `/start` gets the same reply as `/help`, and from the admin chat that reply is the help text |
| `Telegram.CommandEnd` | src/services/telegram.ts:85 | the command word ends at the first space or '@', or at the end of the text |
| `Telegram.CommandWordSplit` | src/services/telegram.ts:85 | the first '@'-field of the first space-field is the text before the first space or '@' |
| `Telegram.Normalise` | src/services/telegram.ts:85 | the normalised command is the lowercased text before the first space or '@' |
| `Telegram.ReplyTo` | src/services/telegram.ts:83-87 | an update gets at most one reply, to its own chat, and gets one exactly when its text is a slash command from the admin chat whose normalised word is one of the four commands |
| `Telegram.Replies` | src/services/telegram.ts:81-88 | a batch produces at most one reply per update, and every reply goes to the configured admin chat |
| `Telegram.OnlyCommandsAnswered` | src/services/telegram.ts:84 | updates without text that starts with '/' get no reply |
| `Telegram.Bot.PollUpdates` | src/services/telegram.ts:73-92 | a failed or empty poll changes nothing; otherwise `lastUpdateId` becomes the last update's id (so the next offset is that id + 1) and the replies are `Replies`' |
| `Faucet.HexPrefixedIff` | src/routes/faucet.ts:14-15 | the address and signature patterns accept exactly "0x" followed by n hex digits (40 and 130) |
| `Faucet.AddressIsColonFree` | src/routes/faucet.ts:14 | an accepted address contains no ':', so it cannot shift the challenge's fields |
| `Faucet.LowercaseAddressAccepted` | src/routes/faucet.ts:14 | the lowercased form of an accepted address is accepted too |
| `Faucet.IssuedChallengeFits` | src/routes/faucet.ts:16 | every challenge issued for an accepted address, with a 36-character token and a timestamp below 10^20, is 1 to 256 UTF-16 code units long: it has at most 117 characters, each one or two units |
| `Faucet.AstralChallengeRefused` | src/routes/faucet.ts:61-67 | a challenge of 129 astral characters is 258 code units long and fails the length check |
| `Faucet.ChallengeRoundTrip` | src/routes/faucet.ts:38-89 | a challenge from `/challenge` for an accepted address validates in `/drip` for that address in any case until expiry, and validation removes its token |
| `Faucet.FormatError` | src/routes/faucet.ts:53-68 | no format error iff the address and signature match their patterns and the challenge has 1 to 256 UTF-16 code units; otherwise the message of the first failing check, in the order address, signature, challenge |
| `Faucet.HandleChallenge` | src/routes/faucet.ts:38-46 | an invalid address gets 400 and creates no challenge; otherwise the issued challenge and TTL are returned and registered |
| `Faucet.Dispense` | src/routes/faucet.ts:92-107 | a spent quota gets 429 with the ledger only pruned and no transfer; otherwise the transfer runs through the chain, a rejected one gets 500 with the ledger only pruned, and a sent one gets 200 with its hash and `dailyLimit - count - 1` drips left, and its grant recorded at `doneAt` |
| `Faucet.HandleDrip` | src/routes/faucet.ts:48-117 | steps run in order (format 400, signer 401, challenge 401, rate limit 429, send 500/200), and the first failure returns with nothing later executed; the challenge is consumed before the rate-limit check, so a 429 still uses it up; the transfer joins the end of the wallet's chain, so it runs with the nonce cache left by every link already pending; usage is recorded only after a successful send; a 200 reports `dailyRemaining = remaining - 1`, in `0..dailyLimit-1` |

## Left out

- JSON persistence: `flushState` and `startPeriodicFlush` write files on a timer, which is I/O. `loadState` is modelled only by what it finds (`LoadState`).
- `usedChallenges`: the code writes it and never reads it, so it affects nothing.
- Timers: the 60-second reaper interval and the 5-second poll interval are not modelled; their tick bodies are `CleanupExpired` and `PollUpdates`, which take `now` or the poll's reply as inputs.
- `RateLimit.RateLimitState.GenerateChallenge` reads the clock twice in the source (the timestamp and `expiresAt`); the model reads it once, so both come from one `now`.
- `Faucet.HandleDrip`: the validation and the rate-limit check each read the clock in the source; the model uses one `now` for both. `recordUsage` reads the clock after the transfer's await, modelled as `doneAt`.
- Concurrency: interleaving of concurrent `/drip` requests at the `await` on the transfer is not modelled. So is the accepted over-grant race when one address floods requests. The model runs requests one after another. `HandleDrip` appends its link to the chain and runs the chain to completion, so links pending from earlier calls settle first.
- `Text.ToLower`: JavaScript's `toLowerCase` maps all of Unicode; the model maps only A-Z. Every address that reaches the ledger or the registry through the routes matches the hex pattern, so it is ASCII.
- Signature recovery (`verifyMessage`) is an opaque function from challenge and signature to an optional address; the elliptic-curve arithmetic is not modelled.
- The ethers provider and wallet (fee lookup, pending-nonce query, `sendTransaction`, `getBalance`) are network calls; their outcomes are the `Attempt` inputs. A `getWallet()` failure inside a chain link counts as a failed fee lookup, since both fail before a nonce is chosen.
- `getFaucetBalance` and every floating-point value: balances and the alert threshold are integers.
- The low-balance check that `/drip` fires after responding is not part of `HandleDrip`. It never affects the response and is modelled on its own as `Bot.CheckAndAlertLowBalance`.
- The `/status` route, the explorer URL and all message texts of the bot are presentation only. The bot's replies are modelled as `Reply` values, not strings.
- Telegram HTTP calls: `sendMessage` swallows every error, so delivery is not modelled. A `/balance` lookup's outcome is an input. An exception that escapes `handleCommand` (an uninitialised wallet) would abort the rest of a poll batch; the model assumes the wallet is initialised.
- Express setup (`src/index.ts`: helmet, CORS, body size limits) is framework plumbing.
- `src/config.ts` is not part of this model as a file; its values are constants (`DOMAIN`, `CHALLENGE_TTL`, `DAILY_LIMIT`, drip amount). That file does not define the bot token, chat id or low-balance threshold. They form a `BotConfig` parameter: the empty string stands for an unset token or chat id, and `None` for an unset threshold.
