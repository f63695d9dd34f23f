/**
 * The chat side of the bot: which channel it joins, how a command is cut
 * out of a chat line, and the order of decisions between a chat line and a
 * reply. The IRC client, the lock and the template formatter are abstracted:
 * each message carries the record snapshot it would see and whether sending
 * its reply would succeed, and the formatter is a parameter.
 */
module TwitchThread {
  import opened Wrappers
  import opened Primitives
  import opened Data
  import Ratelimit

  /** The bot's configuration: account, credential, cool-down seconds, optional channel, command templates. */
  datatype Config = Config(
    username: string,
    token: string,
    timeout: u64,
    channel: Option<string>,
    templates: map<string, string>)

  /** `Config::get_template(command)`. */
  function GetTemplate(c: Config, command: string): Option<string> {
    if command in c.templates then Some(c.templates[command]) else None
  }

  /** The channel joined: the configured one, or the account's own name. */
  function JoinedChannel(c: Config): (ch: string)
    ensures c.channel.Some? ==> ch == c.channel.value
    ensures c.channel.None? ==> ch == c.username
  {
    c.channel.GetOr(c.username)
  }

  /** `char::is_whitespace`: the Unicode White_Space property. */
  predicate IsWhitespace(c: char) {
    var n := c as int;
    || 0x09 <= n <= 0x0D || n == 0x20 || n == 0x85 || n == 0xA0 || n == 0x1680
    || 0x2000 <= n <= 0x200A || n == 0x2028 || n == 0x2029 || n == 0x202F
    || n == 0x205F || n == 0x3000
  }

  /**
   * The separators include tab, line feed, the no-break and ideographic
   * spaces; letters, `!` and the zero-width space (not White_Space) are not.
   */
  lemma WhitespaceSamples()
    ensures IsWhitespace(' ') && IsWhitespace('\t') && IsWhitespace('\n') && IsWhitespace('\r')
    ensures IsWhitespace('\U{A0}') && IsWhitespace('\U{2003}') && IsWhitespace('\U{3000}')
    ensures !IsWhitespace('a') && !IsWhitespace('!') && !IsWhitespace('_') && !IsWhitespace('\U{200B}')
  {
  }

  /** The first index at or after `i` that is not whitespace (or the end). */
  function SkipWhitespace(s: string, i: nat): (j: nat)
    requires i <= |s|
    ensures i <= j <= |s|
    ensures forall k :: i <= k < j ==> IsWhitespace(s[k])
    ensures j < |s| ==> !IsWhitespace(s[j])
    decreases |s| - i
  {
    if i < |s| && IsWhitespace(s[i]) then SkipWhitespace(s, i + 1) else i
  }

  /** The first index at or after `i` that is whitespace (or the end). */
  function SkipWord(s: string, i: nat): (j: nat)
    requires i <= |s|
    ensures i <= j <= |s|
    ensures forall k :: i <= k < j ==> !IsWhitespace(s[k])
    ensures j < |s| ==> IsWhitespace(s[j])
    decreases |s| - i
  {
    if i < |s| && !IsWhitespace(s[i]) then SkipWord(s, i + 1) else i
  }

  /** `s.split_whitespace().next()`. */
  function FirstWord(s: string): (w: Option<string>)
    ensures w.None? <==> forall k :: 0 <= k < |s| ==> IsWhitespace(s[k])
    ensures w.Some? ==> |w.value| > 0 && forall k :: 0 <= k < |w.value| ==> !IsWhitespace(w.value[k])
  {
    var i := SkipWhitespace(s, 0);
    if i == |s| then None else Some(s[i..SkipWord(s, i)])
  }

  /** Leading whitespace is skipped and the word ends at the first whitespace after it. */
  lemma FirstWordOf(lead: string, w: string, rest: string)
    requires forall k :: 0 <= k < |lead| ==> IsWhitespace(lead[k])
    requires |w| > 0 && forall k :: 0 <= k < |w| ==> !IsWhitespace(w[k])
    requires |rest| == 0 || IsWhitespace(rest[0])
    ensures FirstWord(lead + w + rest) == Some(w)
  {
    var s := lead + w + rest;
    var i := SkipWhitespace(s, 0);
    assert s[|lead|] == w[0];
    assert i == |lead|;
    assert forall k :: |lead| <= k < |lead| + |w| ==> s[k] == w[k - |lead|];
    assert |rest| > 0 ==> s[|lead| + |w|] == rest[0];
    var j := SkipWord(s, i);
    assert j == |lead| + |w|;
    assert s[i..j] == w;
  }

  /** The command of a chat line: the first word after a leading `!`. */
  function ExtractCommand(text: string): (cmd: Option<string>)
    ensures (|text| == 0 || text[0] != '!') ==> cmd.None?
    ensures cmd.Some? ==> |cmd.value| > 0 && forall k :: 0 <= k < |cmd.value| ==> !IsWhitespace(cmd.value[k])
    ensures |text| > 0 && text[0] == '!' ==>
      (cmd.None? <==> forall k :: 1 <= k < |text| ==> IsWhitespace(text[k]))
  {
    if |text| > 0 && text[0] == '!' then
      var w := FirstWord(text[1..]);
      assert forall k :: 1 <= k < |text| ==> text[k] == text[1..][k - 1];
      w
    else None
  }

  /** `"!np"`, `"!np please"` and `"!  np"` all name the command `np`. */
  lemma CommandOf(lead: string, w: string, rest: string)
    requires forall k :: 0 <= k < |lead| ==> IsWhitespace(lead[k])
    requires |w| > 0 && forall k :: 0 <= k < |w| ==> !IsWhitespace(w[k])
    requires |rest| == 0 || IsWhitespace(rest[0])
    ensures ExtractCommand("!" + lead + w + rest) == Some(w)
  {
    var text := "!" + lead + w + rest;
    assert text[0] == '!' && text[1..] == lead + w + rest;
    FirstWordOf(lead, w, rest);
  }

  /**
   * A message from the chat server. For a chat line: its text, the clock
   * reading when it is handled, the record as the handler would read it under
   * the lock, and whether sending a reply to it would succeed.
   */
  datatype ServerMessage =
    | Privmsg(text: string, at: nat, snapshot: GameData, sendSucceeds: bool)
    | OtherMessage

  /** What handling one server message led to. */
  datatype Outcome =
    | Skipped                               // not a chat line
    | NotACommand                           // no `!`, or nothing after it
    | RateLimited(command: string)
    | NoTemplate(command: string)
    | FormatFailed(command: string, error: string)
    | Replied(command: string, reply: string)
    | ReplyFailed(command: string, reply: string)

  datatype Handled = Handled(limiter: Ratelimit.Ratelimiter, outcome: Outcome)

  /**
   * The body of the `while let Some(server_message)` loop. `format` stands for
   * `GameData::get_formatted_string`.
   */
  function HandleMessage(c: Config, rl: Ratelimit.Ratelimiter, msg: ServerMessage,
                         format: (string, GameData) -> Result<string, string>): (h: Handled)
    ensures msg.OtherMessage? ==> h == Handled(rl, Skipped)
    ensures msg.Privmsg? && ExtractCommand(msg.text).None? ==> h == Handled(rl, NotACommand)
    ensures msg.Privmsg? && ExtractCommand(msg.text).Some? ==>
      var cmd := ExtractCommand(msg.text).value;
      var t := Ratelimit.Trigger(rl, cmd, msg.at);
      && h.limiter == t.limiter
      && (h.outcome == RateLimited(cmd) <==> !t.allowed)
      && (h.outcome == NoTemplate(cmd) <==> t.allowed && GetTemplate(c, cmd).None?)
      && (h.outcome.Replied? || h.outcome.ReplyFailed? <==>
            t.allowed && GetTemplate(c, cmd).Some? && format(GetTemplate(c, cmd).value, msg.snapshot).Ok?)
      && (h.outcome.Replied? ==>
            h.outcome == Replied(cmd, format(GetTemplate(c, cmd).value, msg.snapshot).value) && msg.sendSucceeds)
      && (h.outcome.ReplyFailed? ==>
            h.outcome == ReplyFailed(cmd, format(GetTemplate(c, cmd).value, msg.snapshot).value) && !msg.sendSucceeds)
      && (t.allowed && GetTemplate(c, cmd).Some? && format(GetTemplate(c, cmd).value, msg.snapshot).Err? ==>
            h.outcome == FormatFailed(cmd, format(GetTemplate(c, cmd).value, msg.snapshot).error))
  {
    match msg
    case OtherMessage => Handled(rl, Skipped)
    case Privmsg(text, at, snapshot, sendSucceeds) =>
      match ExtractCommand(text)
      case None => Handled(rl, NotACommand)
      case Some(cmd) =>
        var t := Ratelimit.Trigger(rl, cmd, at);
        if !t.allowed then Handled(t.limiter, RateLimited(cmd))
        else
          match GetTemplate(c, cmd)
          case None => Handled(t.limiter, NoTemplate(cmd))
          case Some(template) =>
            match format(template, snapshot)
            case Err(e) => Handled(t.limiter, FormatFailed(cmd, e))
            case Ok(reply) =>
              if sendSucceeds then Handled(t.limiter, Replied(cmd, reply))
              else Handled(t.limiter, ReplyFailed(cmd, reply))
  }

  /** A whole chat session: every message is handled in turn; no outcome stops the loop. */
  datatype SessionLog = SessionLog(limiter: Ratelimit.Ratelimiter, outcomes: seq<Outcome>)

  function Session(c: Config, rl: Ratelimit.Ratelimiter, msgs: seq<ServerMessage>,
                   format: (string, GameData) -> Result<string, string>): (log: SessionLog)
    ensures |log.outcomes| == |msgs|
    decreases |msgs|
  {
    if |msgs| == 0 then SessionLog(rl, [])
    else
      var h := HandleMessage(c, rl, msgs[0], format);
      var rest := Session(c, h.limiter, msgs[1..], format);
      SessionLog(rest.limiter, [h.outcome] + rest.outcomes)
  }

  /** Handling a message never ends the session: the log of `a + b` continues the log of `a`. */
  lemma {:induction false} SessionAppend(c: Config, rl: Ratelimit.Ratelimiter, a: seq<ServerMessage>,
                                         b: seq<ServerMessage>, format: (string, GameData) -> Result<string, string>)
    ensures var la := Session(c, rl, a, format);
      var lb := Session(c, la.limiter, b, format);
      Session(c, rl, a + b, format) == SessionLog(lb.limiter, la.outcomes + lb.outcomes)
    decreases |a|
  {
    if |a| == 0 {
      assert a + b == b;
    } else {
      var h := HandleMessage(c, rl, a[0], format);
      assert (a + b)[0] == a[0];
      assert (a + b)[1..] == a[1..] + b;
      SessionAppend(c, h.limiter, a[1..], b, format);
    }
  }

  /** Outcome k of a session is the handler's outcome for message k under the limiter the earlier messages left. */
  lemma SessionOutcomeAt(c: Config, rl: Ratelimit.Ratelimiter, msgs: seq<ServerMessage>, k: nat,
                            format: (string, GameData) -> Result<string, string>)
    requires k < |msgs|
    ensures var before := Session(c, rl, msgs[..k], format);
      var h := HandleMessage(c, before.limiter, msgs[k], format);
      && Session(c, rl, msgs, format).outcomes[k] == h.outcome
      && Session(c, rl, msgs[..k + 1], format).limiter == h.limiter
  {
    var before := Session(c, rl, msgs[..k], format);
    SessionAppend(c, rl, msgs[..k], msgs[k..], format);
    assert msgs[..k] + msgs[k..] == msgs;
    assert msgs[k..][0] == msgs[k];
    SessionAppend(c, rl, msgs[..k], [msgs[k]], format);
    assert msgs[..k] + [msgs[k]] == msgs[..k + 1];
    assert [msgs[k]][1..] == [];
  }

  /** The message is a chat line naming command `cmd`. */
  predicate NamesCommand(m: ServerMessage, cmd: string) {
    m.Privmsg? && ExtractCommand(m.text) == Some(cmd)
  }

  /** A session in which no message names `cmd` leaves `cmd` without a limiter entry. */
  lemma {:induction false} SessionKeepsAbsent(c: Config, rl: Ratelimit.Ratelimiter, msgs: seq<ServerMessage>, cmd: string,
                                              format: (string, GameData) -> Result<string, string>)
    requires cmd !in rl.limits
    requires forall j :: 0 <= j < |msgs| ==> !NamesCommand(msgs[j], cmd)
    ensures cmd !in Session(c, rl, msgs, format).limiter.limits
    decreases |msgs|
  {
    if |msgs| > 0 {
      var h := HandleMessage(c, rl, msgs[0], format);
      assert !NamesCommand(msgs[0], cmd);
      assert cmd !in h.limiter.limits;
      assert forall j :: 0 <= j < |msgs[1..]| ==> msgs[1..][j] == msgs[j + 1];
      SessionKeepsAbsent(c, h.limiter, msgs[1..], cmd, format);
    }
  }

  /**
   * One iteration of the outer `loop`: if joining fails nothing is read;
   * otherwise a fresh rate limiter handles the whole message stream.
   */
  function Connection(c: Config, joinSucceeds: bool, msgs: seq<ServerMessage>,
                      format: (string, GameData) -> Result<string, string>): (outcomes: seq<Outcome>)
    ensures !joinSucceeds ==> outcomes == []
    ensures joinSucceeds ==> outcomes == Session(c, Ratelimit.New(c.timeout), msgs, format).outcomes
    ensures |outcomes| == (if joinSucceeds then |msgs| else 0)
    ensures joinSucceeds && |msgs| > 0 ==> !outcomes[0].RateLimited?
  {
    if joinSucceeds then Session(c, Ratelimit.New(c.timeout), msgs, format).outcomes else []
  }

  /** Cool-downs do not survive a reconnect: the first command of a connection is never rate limited. */
  lemma FreshLimiterPerConnection(c: Config, msgs: seq<ServerMessage>,
                                  format: (string, GameData) -> Result<string, string>)
    requires |msgs| > 0
    ensures !Connection(c, true, msgs, format)[0].RateLimited?
  {
  }

  /**
   * Since each connection starts a fresh limiter, the first message of a
   * connection that names a command is never rate limited, whatever came before.
   */
  lemma FirstUseNeverLimited(c: Config, msgs: seq<ServerMessage>, k: nat, cmd: string,
                             format: (string, GameData) -> Result<string, string>)
    requires k < |msgs| && NamesCommand(msgs[k], cmd)
    requires forall j :: 0 <= j < k ==> !NamesCommand(msgs[j], cmd)
    ensures !Connection(c, true, msgs, format)[k].RateLimited?
  {
    var rl := Ratelimit.New(c.timeout);
    SessionOutcomeAt(c, rl, msgs, k, format);
    SessionKeepsAbsent(c, rl, msgs[..k], cmd, format);
  }

  /**
   * The limiter is consulted before the template: a command without a
   * template still uses up its slot, so repeating it at once is rate limited.
   */
  lemma UnknownCommandUsesSlot(c: Config, rl: Ratelimit.Ratelimiter, cmd: string, at: nat, g: GameData,
                               ok: bool, format: (string, GameData) -> Result<string, string>)
    requires |cmd| > 0 && forall k :: 0 <= k < |cmd| ==> !IsWhitespace(cmd[k])
    requires cmd !in rl.limits && cmd !in c.templates
    ensures var m := Privmsg("!" + cmd, at, g, ok);
      var h1 := HandleMessage(c, rl, m, format);
      && h1.outcome == NoTemplate(cmd)
      && cmd in h1.limiter.limits
      && HandleMessage(c, h1.limiter, m, format).outcome == RateLimited(cmd)
  {
    CommandOf("", cmd, "");
    assert "!" + "" + cmd + "" == "!" + cmd;
  }

  /** A failed format or send produces no delivered reply, and the next message is still handled. */
  lemma FailuresDoNotStopSession(c: Config, rl: Ratelimit.Ratelimiter, m: ServerMessage, next: ServerMessage,
                                 format: (string, GameData) -> Result<string, string>)
    requires var o := HandleMessage(c, rl, m, format).outcome; o.FormatFailed? || o.ReplyFailed?
    ensures var log := Session(c, rl, [m, next], format);
      && !log.outcomes[0].Replied?
      && log.outcomes[1] == HandleMessage(c, HandleMessage(c, rl, m, format).limiter, next, format).outcome
  {
    assert [m, next][1..] == [next];
  }
}
