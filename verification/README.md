# rosu-np core, modelled in Dafny

rosu-np is a Twitch chat bot for osu! players. It keeps one "now playing"
record (`GameData`), fed by partial updates from the tosu websocket, and
answers chat commands such as `!np` by formatting that record through a
per-command template, with a per-command cool-down.

This project models the pure logic of that core:

- `patch.dfy` (module `Patch`): the patchable record. A record is the
  sequence of its field values in declaration order. A partial record is the
  sequence of optional values for the same fields. `Apply` is the merge rule.
  `Update` is the in-order statement list that `generate_structs!` and
  `partial_struct!` generate for `update`.
- `data.dfy` (module `Data`): `GameMode` and its `u8` code table, an `f32`
  seen only through IEEE equality (`Float`), and `GameData` /
  `PartialGameData`. The concrete `Update` is proved to be the generic merge.
- `views.dfy` (module `Views`): `get_mods`, `get_beatmap_string`,
  `get_pp_string`, `get_game_mode` and `get_skin`. It also defines the decimal
  rendering of the map id and `str::split`, which those views need.
- `macros.dfy` (module `Macros`): the `partial_struct!` input parser over an
  abstract token list, the expansion (partial struct name, partial fields,
  update order) and `get_keys`.
- `ratelimit.dfy` (module `Ratelimit`): `Ratelimiter::new` and `trigger`,
  with time as an explicit clock reading in nanoseconds.
- `twitch_thread.dfy` (module `TwitchThread`): the channel fallback, command
  extraction, and the order of decisions from a chat line to a reply. It also
  covers the session loop and the fresh limiter on each connection.
- `tosu.dfy` (module `Tosu`): the `TosuData → PartialGameData` mapping and what
  a websocket frame does to the record. It also holds the reconnect loop's
  `reconnecting` log flag.
- `wrappers.dfy` (modules `Wrappers`, `Primitives`): `Option`, `Result` and the
  `u8`/`u32`/`u64` subset types.

Abstracted as parameters: the template formatter `get_formatted_string` (a
function returning `Result`), the `{:.1}` rendering of pp values (a
`Float -> string` function), and the clock. Each chat message carries two
further inputs: the record snapshot the handler reads under the lock, and
whether sending its reply succeeds.

Behaviour of the code that the model keeps as written:

- A tosu text frame that fails to decode is not skipped. It is `unwrap()`ed
  (src/source/tosu.rs:145), which panics and ends the tosu task, so later
  frames are never merged. `Tosu.PanicStopsStream` states this.
- The rate limiter is triggered before the template lookup
  (src/twitch_thread.rs:52-59). An unknown `!command` therefore still uses up
  a cool-down slot (`TwitchThread.UnknownCommandUsesSlot`).
- `Instant::elapsed` saturates at zero, so `Ratelimit.Elapsed` of a timestamp
  later than the clock reading is 0.
- An out-of-range mode code is `unreachable!()` (src/data.rs:17). The table is
  given `requires code < 4`, and a tosu frame carrying such a code counts as a
  panic.
- `GameData` is the union of the fields declared at src/data.rs:59-79 and the
  fields written at src/source/tosu.rs:89-109. Those extra fields are
  `artist_unicode`, `title_unicode`, `stars`, `cs`, `ar`, `od`, `hp` and
  `pp_95`..`pp_97`. `Config` gets the optional `channel` and the template map
  that src/twitch_thread.rs:20,57 use; src/config.rs:4-8 does not declare them.

## Model

| member | source | states |
|---|---|---|
| Patch.Apply | src/data.rs:41-47 | every field present in the partial takes its value, every absent field keeps the old value, and the field count is kept |
| Patch.Update | rosu-np-macros/src/lib.rs:129-131 | running the generated `if let Some(value)` statements one field at a time, in order, produces exactly the merge `Apply` |
| Patch.ApplyNoneIsIdentity | src/data.rs:50-55 | merging the default (all-`None`) partial leaves the record unchanged |
| Patch.ApplyIdempotent | src/data.rs:41-47 | merging the same partial twice equals merging it once |
| Patch.ApplyThen | src/data.rs:41-47 | two merges in a row equal one merge of the combined partial in which the later partial's present fields win (field-level last writer wins) |
| Data.ModeFromCode | src/data.rs:10-20 | codes 0..3 decode to a mode whose code is the input; codes of 4 or more are outside the precondition |
| Data.ModeToCode | src/data.rs:22-31 | every mode encodes to a code below 4 |
| Data.ModeCodeRoundTrip | src/data.rs:10-31 | mode → code → mode is the identity, code → mode → code is the identity on 0..3, and the two tables agree pairwise |
| Data.FloatEqLaws | src/data.rs:95 | the `f32` equality used by the pp line is symmetric, fails only on NaN when comparing a value with itself, and implies identity |
| Data.NoUpdateHasNoField | src/data.rs:50-55 | `PartialGameData::default()` has every field absent |
| Data.FieldOfUpdate | src/data.rs:43-45 | field i of the updated record is the partial's field i when present, else the old field i |
| Data.UpdateIsPatch | src/data.rs:33-57 | the concrete `GameData::update` is the generic merge over the declared field list |
| Data.UpdateNoneIsIdentity | src/data.rs:41-55 | `update` with the default partial leaves `GameData` unchanged |
| Data.UpdateIdempotent | src/data.rs:41-47 | applying the same `PartialGameData` twice equals applying it once |
| Views.Decimal | src/data.rs:88 | the map id is rendered as non-empty decimal digits without a leading zero whose value is the id |
| Views.DecimalUnique | src/data.rs:88 | any canonical decimal spelling of n is the rendering of n |
| Views.Split | src/data.rs:83 | `split(',')` yields at least one piece and no piece contains the separator |
| Views.SplitJoin | src/data.rs:83 | joining the pieces of a split with the separator gives back the input |
| Views.ConcatSplit | src/data.rs:83 | concatenating the pieces of a split deletes exactly the separators |
| Views.GetMods | src/data.rs:82-84 | the modifier string contains no comma and is the stored string with every comma deleted |
| Views.GetBeatmapString | src/data.rs:86-92 | the line starts with "artist - title [version] by creator"; it is exactly that iff map_id is 0; otherwise it continues with " https://osu.ppy.sh/b/" and the decimal map id |
| Views.GetPpString | src/data.rs:94-100 | the line starts with the 98/99/100 values; it is exactly that iff pp_ss equals pp_mods_ss; otherwise it continues with " +" and the comma-free modifier string |
| Views.PpFormIgnores98And99 | src/data.rs:95 | changing the 98 and 99 values (plain or with mods) never changes which form the pp line takes |
| Views.AccessorsReadLatest | src/data.rs:102-108 | after any merge, `get_game_mode` and `get_skin` return the partial's value when present, else the old one |
| Views.DefaultViews | src/data.rs:1-8 | the default record is in `Osu` mode (code 0) with an empty skin, renders the link-free beatmap line " -  [] by ", and renders the plain pp line |
| Ratelimit.New | src/ratelimit.rs:9-14 | a new limiter has no entries and a period of the given seconds |
| Ratelimit.Elapsed | src/ratelimit.rs:19 | the time since t at clock reading now is now - t, and 0 when t is later than now |
| Ratelimit.Trigger | src/ratelimit.rs:16-31 | allowed iff the key is unseen or strictly more than the period has elapsed; when allowed the key's entry becomes now; when denied nothing changes |
| Ratelimit.FirstTriggerAllowed | src/ratelimit.rs:26-29 | a never-seen key is allowed and its entry becomes now |
| Ratelimit.ExactPeriodDenied | src/ratelimit.rs:19-24 | elapsed time equal to the period is denied and one more nanosecond is allowed |
| Ratelimit.TriggerIsLocal | src/ratelimit.rs:16-31 | a trigger leaves every other key's presence and timestamp, and the period, unchanged |
| Ratelimit.NoDoubleFire | src/ratelimit.rs:19-27 | after an allowed trigger, the same key at the same instant is denied for any period |
| Ratelimit.ReplayKeys | src/ratelimit.rs:20-27 | after any sequence of triggers the key set is the old keys plus every key requested; no entry is removed |
| Ratelimit.CooldownHolds | src/ratelimit.rs:19-24 | once a key has fired at t, every later request for it up to t + period is denied, whatever other keys do meanwhile |
| Ratelimit.FiveSecondScenario | src/ratelimit.rs:16-31 | with a 5 s period: "np" fires, is denied, is still denied at exactly 5 s, fires again just after; "pp" is unaffected |
| Macros.ParseMembers | rosu-np-macros/src/lib.rs:69-96 | the member loop pushes full and partial members in lockstep (same length, same names and types) and leaves an unparsed suffix of its input |
| Macros.ParseInput | rosu-np-macros/src/lib.rs:61-103 | a successful parse starts with the struct name and a comma and yields lockstep member lists |
| Macros.NameNeedsComma | rosu-np-macros/src/lib.rs:67 | input without a comma after the struct name is rejected |
| Macros.ParseDeclStep | rosu-np-macros/src/lib.rs:70-95 | one `name: Type ["wire"]` member is read; the loop stops after it unless a comma follows |
| Macros.ParseMembersOfDecls | rosu-np-macros/src/lib.rs:69-96 | a well-formed comma-separated member list, with one-identifier or longer types, with or without a trailing comma, parses to its declarations in order and consumes all tokens |
| Macros.MembersConverse | rosu-np-macros/src/lib.rs:69-96 | a token list the member loop consumes completely, with nothing extra in any bracket, is exactly the written form of some field list, and the members parsed are that list's members |
| Macros.InputConverse | rosu-np-macros/src/lib.rs:61-103 | every successful parse comes from a written input: the tokens are exactly the struct name, a comma and a written field list, and the result is that name with that list's members; with the round trip, the parser accepts exactly the written inputs |
| Macros.ParseMembersStopsAfterComma | rosu-np-macros/src/lib.rs:69-96 | a non-empty member list with a trailing comma, followed by tokens that do not start with an identifier, parses to its declarations and leaves exactly those tokens unparsed |
| Macros.NonIdentifierAfterCommaRejected | rosu-np-macros/src/lib.rs:69-73 | for any non-empty member list, tokens after its trailing comma that do not start with an identifier stop the field loop and make the input fail with the unexpected-token error |
| Macros.ParseInputRoundTrip | rosu-np-macros/src/lib.rs:61-103 | the input written from a struct name and a field list parses back to exactly that name and those members |
| Macros.ParseMembersStopsAtJunk | rosu-np-macros/src/lib.rs:69-96 | a non-empty member list without a trailing comma, followed by tokens that do not start with a comma, parses to its declarations and leaves exactly those tokens unparsed |
| Macros.MissingCommaRejected | rosu-np-macros/src/lib.rs:93-95 | for any non-empty member list, tokens after its last member that do not start with a comma make the input fail with the unexpected-token error |
| Macros.GetKeys | rosu-np-macros/src/lib.rs:114 | one key per partial member, each the member's wire name, in order |
| Macros.Expand | rosu-np-macros/src/lib.rs:107-137 | the full struct is named as the input and has field k = (name, type) of member k; the partial struct is named "Partial" + name and its field k carries partial member k's name, type `Option<T>` and serde rename; update order k is member k's name and key k its wire name; under the parser's lockstep guarantee each partial field matches the full field of the same index |
| Macros.KeysAreWireNames | rosu-np-macros/src/lib.rs:133-135 | for any written input, `get_keys` returns exactly the bracketed wire names in declaration order |
| TwitchThread.JoinedChannel | src/twitch_thread.rs:20-23 | the joined channel is the configured channel when present, else the username |
| TwitchThread.WhitespaceSamples | src/twitch_thread.rs:48 | `split_whitespace` separates on Unicode White_Space: space, tab, line feed, carriage return, no-break, em and ideographic spaces are separators; letters, `!`, `_` and the zero-width space are not |
| TwitchThread.FirstWord | src/twitch_thread.rs:48 | there is no word iff the text is all whitespace; a word is non-empty and contains no whitespace |
| TwitchThread.FirstWordOf | src/twitch_thread.rs:48-50 | after leading whitespace, the word runs to the first whitespace character |
| TwitchThread.ExtractCommand | src/twitch_thread.rs:44-50 | no leading `!` means no command; `!` followed only by whitespace means no command; a command is non-empty with no whitespace |
| TwitchThread.CommandOf | src/twitch_thread.rs:44-50 | "!" + whitespace + word + (whitespace ...) yields that word as the command |
| TwitchThread.HandleMessage | src/twitch_thread.rs:41-70 | non-commands leave the limiter alone; a command always triggers the limiter; rate-limited means no template, format or reply; otherwise a missing template gives NoTemplate, a format error gives FormatFailed with that error, and a formatted text gives Replied or ReplyFailed carrying that text, Replied iff the send succeeds |
| TwitchThread.Session | src/twitch_thread.rs:40-72 | every incoming message yields exactly one outcome |
| TwitchThread.SessionOutcomeAt | src/twitch_thread.rs:40-72 | outcome k of a session is the handler's outcome for message k under the limiter left by messages 0..k-1, and handling it leaves the limiter of the session over 0..k |
| TwitchThread.SessionKeepsAbsent | src/ratelimit.rs:16-31 | a session in which no message names a command never creates a limiter entry for it |
| TwitchThread.SessionAppend | src/twitch_thread.rs:40-72 | the session over a + b is the session over a continued over b, so no outcome ends the loop |
| TwitchThread.Connection | src/twitch_thread.rs:25-37 | a failed join handles no message; a successful join yields one outcome per message and its first message is never rate limited, because the limiter is created fresh after the join |
| TwitchThread.FreshLimiterPerConnection | src/twitch_thread.rs:37 | the first message of a connection is never rate limited |
| TwitchThread.FirstUseNeverLimited | src/twitch_thread.rs:37-54 | cool-downs do not survive a reconnect: in a connection, the first message naming a command is never rate limited, whatever other commands came before it |
| TwitchThread.UnknownCommandUsesSlot | src/twitch_thread.rs:52-59 | a command with no template reports no template, yet records a limiter entry, so repeating it at once is rate limited |
| TwitchThread.FailuresDoNotStopSession | src/twitch_thread.rs:61-70 | a format error or failed send delivers no reply and the next message is handled as usual |
| Tosu.ToPartial | src/source/tosu.rs:86-112 | every field except pp_mods_* is set from the message with its rename (artist_original → artist_unicode, difficulty → version, mapper → creator, bm.id → map_id, sr → stars, CS/AR/OD/HP → cs/ar/od/hp, "95".."99" → pp_95..pp_99, "100" → pp_ss, skin folder → skin), mods verbatim, mode by the code table; pp_mods_* are absent |
| Tosu.ToPartialPresence | src/source/tosu.rs:88-110 | exactly the three pp_mods_* fields are absent from a tosu partial |
| Tosu.MergeKeepsOnlyModsPp | src/source/tosu.rs:86-112 | after merging a tosu update the record is determined by the message except for the pp_mods_* fields, which keep their old values |
| Tosu.MergeViews | src/source/tosu.rs:89-109 | after a tosu merge the skin, the mode code and the comma-free modifier string come from the message, and the beatmap line carries a link iff the message's id is non-zero |
| Tosu.FrameOutcomes | src/source/tosu.rs:143-148 | a text frame that fails to decode panics, one whose mode code is 4 or more panics (src/data.rs:17), and any other is merged as `update(data.into())` |
| Tosu.Step | src/source/tosu.rs:143-149 | frames other than text leave the record unchanged |
| Tosu.Consume | src/source/tosu.rs:143-149 | the task panics iff some frame fails to decode or has a mode code of 4 or more, and then at the first such frame |
| Tosu.ConsumeAppend | src/source/tosu.rs:143-149 | frames are merged in stream order: after a prefix without panics the rest continues from the record the prefix produced, and a later panic is reported at its position in the whole stream |
| Tosu.PanicMergesNothing | src/source/tosu.rs:144-148 | a panicking frame merges nothing: the record is what the frames before it produced |
| Tosu.PanicStopsStream | src/source/tosu.rs:145 | after a panicking frame no later frame is merged |
| Tosu.NonTextIsIgnored | src/source/tosu.rs:144 | a stream of non-text frames and read errors changes nothing |
| Tosu.OnEvent | src/source/tosu.rs:121-155 | a connect failure prints a notice iff the flag was clear; a disconnect always prints "Reconnecting..."; a successful connect prints no "Reconnecting..." notice; the flag is set after anything but a successful connect |
| Tosu.FailureNoticeIff | src/source/tosu.rs:126-139 | a connect failure is reported iff it is the first event or directly follows a successful connect |
| Tosu.ConnectFailureReportedOnlyFirst | src/source/tosu.rs:123-139 | in any loop trace a connect failure is reported iff it is the very first event: after a connection ends, the disconnect has set the flag and later failures stay silent |
| Tosu.OneNoticePerEpisode | src/source/tosu.rs:123-155 | in any loop trace, between two "Reconnecting..." notices there is a successful connect |

## Left out

- Data.ModeFromCode: the `unreachable!()` branch for codes of 4 or more is a precondition, not a modelled panic. The tosu stream model treats such a frame as a panic.
- Views.GetPpString: the `{:.1}` rendering of `f32` is the `show` parameter. Only the shape of the line and the choice of form are stated.
- Data.FloatEqLaws: `f32` rounding and the distinction between +0 and -0 are not modelled. Values are reals plus the infinities and NaN.
- Macros.ParseInput: a type is one abstract token: an identifier, or an already-grouped type expression. `syn`'s type grammar is not modelled, and neither is the bracket syntax of array types. Keywords that `Ident` parsing rejects are not distinguished from identifiers.
- Macros.ParseInput: extra tokens inside a wire-name bracket are reported as syn's end-of-input "unexpected token" error. This assumes syn's shared unexpected-token check.
- The wire names of `GameData`'s own fields are not modelled: src/data.rs:59-79 declares none, so `get_keys` is modelled generically in `Macros`.
- `get_formatted_string` and `Config::get_template` are not shown in the source. The formatter is a function parameter; templates are a map from command to template.
- The `Arc<Mutex<GameData>>` sharing and the interleaving of the chat task with the stream tasks are concurrency. Each chat message carries the snapshot it would read; merges are single sequential calls.
- Sockets, sleeps and prints: websocket connect/read, the IRC client, the 2-second back-off and log lines. These are I/O. The tosu reconnect loop appears only as its event trace and log flag.
- serde JSON decoding itself: a text frame carries its decode result.
- src/sc_thread.rs (StreamCompanion consumer), src/source/mod.rs (task spawning; `Rosu` is `unimplemented!`), src/main.rs (older entry point), src/twitch_login.rs (OAuth flow) and src/updates.rs (release check via `semver`) are not part of this model. They are I/O or superseded.
