/**
 * The operator bot: a low-balance alert gated by a one-hour cooldown, and the
 * polling of chat updates, which tracks the last update id seen and answers
 * slash commands from the configured admin chat only. HTTP calls to the chat
 * service are left out; what the bot would send is returned instead.
 */
module Telegram {
  import opened Wrappers
  import opened Text

  /** One hour in milliseconds. */
  const ALERT_COOLDOWN: int := 60 * 60 * 1000

  /**
   * The bot settings; the empty string stands for an unset token or chat id,
   * and None for an unset threshold.
   */
  datatype BotConfig = BotConfig(botToken: string, chatId: string, lowBalanceThreshold: Option<int>)

  predicate Enabled(cfg: BotConfig)
  {
    cfg.botToken != "" && cfg.chatId != ""
  }

  /**
   * The balance does not pass `balance >= threshold`. An unset threshold
   * compares as false against every balance, so every balance counts as low.
   */
  predicate IsLow(cfg: BotConfig, balance: int)
  {
    cfg.lowBalanceThreshold.None? || balance < cfg.lowBalanceThreshold.value
  }

  /** A low-balance alert is due: bot configured, balance low, cooldown elapsed. */
  predicate AlertDue(cfg: BotConfig, lastAlertAt: int, balance: int, now: int)
  {
    Enabled(cfg) && IsLow(cfg, balance) && now - lastAlertAt >= ALERT_COOLDOWN
  }

  datatype Reply = BalanceReport | BalanceUnavailable | WalletAddress | Help

  /** A message the bot sends: an alert to the configured chat, or a reply to a command's chat. */
  datatype Outgoing = LowBalanceAlert(adminChat: string, balance: int) | CommandReply(chatId: int, reply: Reply)

  datatype Message = Message(chatId: int, text: Option<string>)
  datatype Update = Update(updateId: int, message: Option<Message>)

  /** A balance reading offered to the alert gate at time `at`. */
  datatype Reading = Reading(balance: int, at: int)

  /** The times at which alerts go out for a series of readings, starting from `lastAlertAt`. */
  function AlertTimes(cfg: BotConfig, lastAlertAt: int, readings: seq<Reading>): seq<int>
    decreases |readings|
  {
    if readings == [] then []
    else
      var r := readings[0];
      if AlertDue(cfg, lastAlertAt, r.balance, r.at) then [r.at] + AlertTimes(cfg, r.at, readings[1..])
      else AlertTimes(cfg, lastAlertAt, readings[1..])
  }

  /** Any two alerts are at least ALERT_COOLDOWN apart, and the first one too from `lastAlertAt`. */
  lemma {:induction false} AlertsSpaced(cfg: BotConfig, lastAlertAt: int, readings: seq<Reading>)
    ensures var ts := AlertTimes(cfg, lastAlertAt, readings);
      && (|ts| > 0 ==> ts[0] - lastAlertAt >= ALERT_COOLDOWN)
      && forall i :: 0 <= i < |ts| - 1 ==> ts[i + 1] - ts[i] >= ALERT_COOLDOWN
    decreases |readings|
  {
    if readings != [] {
      var r := readings[0];
      if AlertDue(cfg, lastAlertAt, r.balance, r.at) {
        AlertsSpaced(cfg, r.at, readings[1..]);
      } else {
        AlertsSpaced(cfg, lastAlertAt, readings[1..]);
      }
    }
  }

  /** With the bot unconfigured no alert ever goes out. */
  lemma {:induction false} NoAlertsWhenDisabled(cfg: BotConfig, lastAlertAt: int, readings: seq<Reading>)
    requires !Enabled(cfg)
    ensures AlertTimes(cfg, lastAlertAt, readings) == []
    decreases |readings|
  {
    if readings != [] {
      NoAlertsWhenDisabled(cfg, lastAlertAt, readings[1..]);
    }
  }

  /** The reply to `command` from chat `chatId`; `balanceOk` says whether the balance lookup succeeds. */
  function HandleCommand(cfg: BotConfig, chatId: int, command: string, balanceOk: bool): (r: Option<Reply>)
    ensures r.Some? ==> IntToDecimal(chatId) == cfg.chatId
    ensures r.Some? <==> IntToDecimal(chatId) == cfg.chatId
                         && (command == "/balance" || command == "/address" || command == "/start" || command == "/help")
  {
    if IntToDecimal(chatId) != cfg.chatId then None
    else if command == "/balance" then Some(if balanceOk then BalanceReport else BalanceUnavailable)
    else if command == "/address" then Some(WalletAddress)
    else if command == "/start" || command == "/help" then Some(Help)
    else None
  }

  /** `/start` is answered exactly like `/help`. */
  lemma StartIsHelp(cfg: BotConfig, chatId: int, balanceOk: bool)
    ensures HandleCommand(cfg, chatId, "/start", balanceOk) == HandleCommand(cfg, chatId, "/help", balanceOk)
    ensures IntToDecimal(chatId) == cfg.chatId ==> HandleCommand(cfg, chatId, "/help", balanceOk) == Some(Help)
  {
  }

  /** Where the command word ends: the first space or '@', or the end of the text. */
  function CommandEnd(text: string): (k: nat)
    ensures k <= |text|
    ensures forall i :: 0 <= i < k ==> text[i] != ' ' && text[i] != '@'
    ensures k < |text| ==> text[k] == ' ' || text[k] == '@'
    decreases |text|
  {
    if text == [] || text[0] == ' ' || text[0] == '@' then 0 else 1 + CommandEnd(text[1..])
  }

  /** The first field of a split is the prefix up to any point that ends at a separator or the end. */
  lemma FirstField(s: string, sep: char, m: nat)
    requires m <= |s|
    requires sep !in s[..m]
    requires m == |s| || s[m] == sep
    ensures Split(s, sep)[0] == s[..m]
  {
    SplitHead(s, sep);
    forall x | 0 <= x < m
      ensures s[x] != sep
    {
      assert s[x] == s[..m][x];
    }
    if sep in s {
      var i := FirstIndex(s, sep);
      forall x | 0 <= x < i
        ensures s[x] != sep
      {
        assert s[x] == s[..i][x];
      }
    } else {
      forall x | 0 <= x < |s|
        ensures s[x] != sep
      {
        assert s[x] in s;
      }
    }
  }

  /**
   * `text.split(" ")[0].split("@")[0].toLowerCase()`: the lowercased text
   * before the first space or '@'.
   */
  function Normalise(text: string): (command: string)
    ensures command == ToLower(text[..CommandEnd(text)])
  {
    CommandWordSplit(text);
    ToLower(Split(Split(text, ' ')[0], '@')[0])
  }

  /** The first '@'-field of the first space-field is the text before the first space or '@'. */
  lemma CommandWordSplit(text: string)
    ensures Split(Split(text, ' ')[0], '@')[0] == text[..CommandEnd(text)]
  {
    var k := CommandEnd(text);
    var j := if ' ' in text then FirstIndex(text, ' ') else |text|;
    SplitHead(text, ' ');
    forall x | 0 <= x < j
      ensures text[x] != ' '
    {
      if ' ' in text {
        assert text[x] == text[..j][x];
      } else {
        assert text[x] in text;
      }
    }
    var p := text[..j];
    assert Split(text, ' ')[0] == p;
    assert p[..k] == text[..k];
    FirstField(p, '@', k);
  }

  /** The update text is a slash command (`startsWith("/")`). */
  predicate IsCommand(text: string)
  {
    |text| > 0 && text[0] == '/'
  }

  /**
   * What the bot sends in answer to one update; `balanceOk` is the balance
   * lookup's outcome by update id. It answers, once and to the sending chat,
   * exactly a slash command whose normalised word is one of the four known
   * commands, sent from the admin chat.
   */
  function ReplyTo(cfg: BotConfig, u: Update, balanceOk: int -> bool): (out: seq<Outgoing>)
    ensures |out| <= 1
    ensures out != [] <==>
      && u.message.Some? && u.message.value.text.Some? && IsCommand(u.message.value.text.value)
      && IntToDecimal(u.message.value.chatId) == cfg.chatId
      && Normalise(u.message.value.text.value) in {"/balance", "/address", "/start", "/help"}
    ensures out != [] ==> out[0].CommandReply? && out[0].chatId == u.message.value.chatId
  {
    match u.message
    case None => []
    case Some(m) =>
      match m.text
      case None => []
      case Some(t) =>
        if !IsCommand(t) then []
        else
          match HandleCommand(cfg, m.chatId, Normalise(t), balanceOk(u.updateId))
          case None => []
          case Some(r) => [CommandReply(m.chatId, r)]
  }

  /** Everything the bot sends for a batch of updates, in order. */
  function Replies(cfg: BotConfig, updates: seq<Update>, balanceOk: int -> bool): (out: seq<Outgoing>)
    ensures |out| <= |updates|
    ensures forall i :: 0 <= i < |out| ==> out[i].CommandReply? && IntToDecimal(out[i].chatId) == cfg.chatId
    decreases |updates|
  {
    if updates == [] then []
    else Replies(cfg, updates[..|updates| - 1], balanceOk) + ReplyTo(cfg, updates[|updates| - 1], balanceOk)
  }

  /** The replies to a batch extended by one update are the earlier replies followed by that update's. */
  lemma RepliesStep(cfg: BotConfig, updates: seq<Update>, i: nat, balanceOk: int -> bool)
    requires i < |updates|
    ensures Replies(cfg, updates[..i + 1], balanceOk) == Replies(cfg, updates[..i], balanceOk) + ReplyTo(cfg, updates[i], balanceOk)
  {
    assert updates[..i + 1][..i] == updates[..i];
  }

  /** No update whose text is not a slash command gets an answer. */
  lemma {:induction false} OnlyCommandsAnswered(cfg: BotConfig, updates: seq<Update>, balanceOk: int -> bool)
    requires forall i :: 0 <= i < |updates| ==>
      updates[i].message.None? || updates[i].message.value.text.None? || !IsCommand(updates[i].message.value.text.value)
    ensures Replies(cfg, updates, balanceOk) == []
    decreases |updates|
  {
    if updates != [] {
      OnlyCommandsAnswered(cfg, updates[..|updates| - 1], balanceOk);
    }
  }

  class Bot {
    var lastAlertAt: int
    var lastUpdateId: int

    constructor ()
      ensures lastAlertAt == 0 && lastUpdateId == 0
    {
      lastAlertAt := 0;
      lastUpdateId := 0;
    }

    /**
     * The low-balance check at `now`: when an alert is due the cooldown
     * restarts at `now`, before (and whatever the outcome of) delivery;
     * otherwise nothing happens.
     */
    method CheckAndAlertLowBalance(cfg: BotConfig, balance: int, now: int) returns (alert: Option<Outgoing>)
      modifies this`lastAlertAt
      ensures AlertDue(cfg, old(lastAlertAt), balance, now) ==>
        lastAlertAt == now && alert == Some(LowBalanceAlert(cfg.chatId, balance))
      ensures !AlertDue(cfg, old(lastAlertAt), balance, now) ==>
        lastAlertAt == old(lastAlertAt) && alert == None
    {
      if cfg.botToken == "" || cfg.chatId == "" {
        return None;
      }
      if cfg.lowBalanceThreshold.Some? && balance >= cfg.lowBalanceThreshold.value {
        return None;
      }
      if now - lastAlertAt < ALERT_COOLDOWN {
        return None;
      }
      lastAlertAt := now;
      alert := Some(LowBalanceAlert(cfg.chatId, balance));
    }

    /** The offset the next poll asks for. */
    function NextOffset(): int
      reads this
    {
      lastUpdateId + 1
    }

    /**
     * One poll: `response` is the batch of updates (None when the request or
     * its decoding fails). Each update moves `lastUpdateId` to its id, and
     * slash commands are answered in order.
     */
    method PollUpdates(cfg: BotConfig, response: Option<seq<Update>>, balanceOk: int -> bool) returns (sent: seq<Outgoing>)
      modifies this`lastUpdateId
      ensures response.None? ==> sent == [] && lastUpdateId == old(lastUpdateId)
      ensures response.Some? ==> sent == Replies(cfg, response.value, balanceOk)
      ensures response.Some? && response.value == [] ==> lastUpdateId == old(lastUpdateId)
      ensures response.Some? && response.value != [] ==>
        lastUpdateId == response.value[|response.value| - 1].updateId
    {
      sent := [];
      if response.None? || response.value == [] {
        return;
      }
      var updates := response.value;
      for i := 0 to |updates|
        invariant sent == Replies(cfg, updates[..i], balanceOk)
        invariant i == 0 ==> lastUpdateId == old(lastUpdateId)
        invariant i > 0 ==> lastUpdateId == updates[i - 1].updateId
      {
        var update := updates[i];
        lastUpdateId := update.updateId;
        var answer: seq<Outgoing> := [];
        if update.message.Some? && update.message.value.text.Some? && IsCommand(update.message.value.text.value) {
          var msg := update.message.value;
          var command := Normalise(msg.text.value);
          var reply := HandleCommand(cfg, msg.chatId, command, balanceOk(update.updateId));
          if reply.Some? {
            answer := [CommandReply(msg.chatId, reply.value)];
          }
        }
        assert answer == ReplyTo(cfg, update, balanceOk);
        RepliesStep(cfg, updates, i, balanceOk);
        sent := sent + answer;
      }
      assert updates[..|updates|] == updates;
    }
  }
}
