/**
 * The tosu data source: the decoded websocket message, its translation into a
 * partial record, what one websocket message does to the shared record, and
 * the "log once per failure episode" flag of the reconnect loop.
 */
module Tosu {
  import opened Wrappers
  import opened Primitives
  import opened Data
  import Views

  datatype Folders = Folders(skin: string)
  datatype Settings = Settings(folders: Folders)
  datatype Metadata = Metadata(
    artist: string, artistOriginal: string, title: string, titleOriginal: string,
    mapper: string, difficulty: string)
  datatype Stats = Stats(sr: Float, cs: Float, ar: Float, od: Float, hp: Float)
  datatype Beatmap = Beatmap(id: u32, metadata: Metadata, stats: Stats)
  /** `mods.num` is decoded but never read. */
  datatype Mods = Mods(num: u64, str: string)
  /** The pp values keyed "95" to "100" on the wire. */
  datatype Pp = Pp(pp95: Float, pp96: Float, pp97: Float, pp98: Float, pp99: Float, pp100: Float)
  datatype Menu = Menu(gameMode: u8, bm: Beatmap, mods: Mods, pp: Pp)
  /** `TosuData`: one decoded websocket message. */
  datatype TosuData = TosuData(settings: Settings, menu: Menu)

  /** `impl Into<PartialGameData> for TosuData`; a mode code of 4 or more hits `unreachable!()`. */
  function ToPartial(t: TosuData): (p: PartialGameData)
    requires t.menu.gameMode < 4
    ensures p.artist == Some(t.menu.bm.metadata.artist)
    ensures p.artistUnicode == Some(t.menu.bm.metadata.artistOriginal)
    ensures p.title == Some(t.menu.bm.metadata.title)
    ensures p.titleUnicode == Some(t.menu.bm.metadata.titleOriginal)
    ensures p.version == Some(t.menu.bm.metadata.difficulty)
    ensures p.creator == Some(t.menu.bm.metadata.mapper)
    ensures p.mods == Some(t.menu.mods.str)
    ensures p.skin == Some(t.settings.folders.skin)
    ensures p.mapId == Some(t.menu.bm.id)
    ensures p.stars == Some(t.menu.bm.stats.sr)
    ensures p.cs == Some(t.menu.bm.stats.cs) && p.ar == Some(t.menu.bm.stats.ar)
    ensures p.od == Some(t.menu.bm.stats.od) && p.hp == Some(t.menu.bm.stats.hp)
    ensures p.pp95 == Some(t.menu.pp.pp95) && p.pp96 == Some(t.menu.pp.pp96) && p.pp97 == Some(t.menu.pp.pp97)
    ensures p.pp98 == Some(t.menu.pp.pp98) && p.pp99 == Some(t.menu.pp.pp99)
    ensures p.ppSs == Some(t.menu.pp.pp100)
    ensures p.gamemode.Some? && ModeToCode(p.gamemode.value) == t.menu.gameMode
    ensures p.ppMods98.None? && p.ppMods99.None? && p.ppModsSs.None?
  {
    var md := t.menu.bm.metadata;
    var st := t.menu.bm.stats;
    var pp := t.menu.pp;
    NoUpdate.(
      artist := Some(md.artist),
      artistUnicode := Some(md.artistOriginal),
      title := Some(md.title),
      titleUnicode := Some(md.titleOriginal),
      version := Some(md.difficulty),
      creator := Some(md.mapper),
      mods := Some(t.menu.mods.str),
      skin := Some(t.settings.folders.skin),
      mapId := Some(t.menu.bm.id),
      stars := Some(st.sr),
      cs := Some(st.cs),
      ar := Some(st.ar),
      od := Some(st.od),
      hp := Some(st.hp),
      pp95 := Some(pp.pp95),
      pp96 := Some(pp.pp96),
      pp97 := Some(pp.pp97),
      pp98 := Some(pp.pp98),
      pp99 := Some(pp.pp99),
      ppSs := Some(pp.pp100),
      gamemode := Some(ModeFromCode(t.menu.gameMode)))
  }

  /** Exactly the three `pp_mods_*` fields are absent from a tosu update. */
  lemma ToPartialPresence(t: TosuData, i: nat)
    requires t.menu.gameMode < 4 && i < FieldCount
    ensures PartialField(ToPartial(t), i).None? <==> i in {20, 21, 22}
  {
  }

  /**
   * Merging a tosu update overwrites everything but the `pp_mods_*` fields,
   * which are the only state that survives it.
   */
  lemma MergeKeepsOnlyModsPp(s: GameData, t: TosuData)
    requires t.menu.gameMode < 4
    ensures Update(s, ToPartial(t))
         == Update(DefaultGameData, ToPartial(t)).(ppMods98 := s.ppMods98, ppMods99 := s.ppMods99, ppModsSs := s.ppModsSs)
  {
  }

  /** After a tosu merge the accessors report the message's skin, mode and modifier string. */
  lemma MergeViews(s: GameData, t: TosuData)
    requires t.menu.gameMode < 4
    ensures var g := Update(s, ToPartial(t));
      && Views.GetSkin(g) == t.settings.folders.skin
      && ModeToCode(Views.GetGameMode(g)) == t.menu.gameMode
      && Views.GetMods(g) == Views.Without(t.menu.mods.str, ',')
      && (t.menu.bm.id == 0 <==> Views.GetBeatmapString(g) == Views.BeatmapTitle(g))
  {
  }

  /** What a websocket read yields. A text frame carries the decode result of its payload. */
  datatype WsMessage =
    | TextFrame(decoded: Option<TosuData>)
    | OtherFrame
    | ReadError

  /** The frame makes the reading task panic: a decode failure (`unwrap`) or an out-of-range mode. */
  predicate Panics(m: WsMessage) {
    m.TextFrame? && (m.decoded.None? || m.decoded.value.menu.gameMode >= 4)
  }

  /** One iteration of the `for_each` over the websocket stream, for a frame that does not panic. */
  function Step(g: GameData, m: WsMessage): (r: GameData)
    requires !Panics(m)
    ensures !m.TextFrame? ==> r == g
  {
    match m
    case TextFrame(d) => Update(g, ToPartial(d.value))
    case _ => g
  }

  /** The record after a stream of frames, and the index of the frame that panicked the task, if any. */
  datatype Run = Run(state: GameData, panicAt: Option<nat>)

  function Consume(g: GameData, msgs: seq<WsMessage>): (r: Run)
    ensures r.panicAt.None? <==> forall k :: 0 <= k < |msgs| ==> !Panics(msgs[k])
    ensures r.panicAt.Some? ==>
      && r.panicAt.value < |msgs| && Panics(msgs[r.panicAt.value])
      && forall k :: 0 <= k < r.panicAt.value ==> !Panics(msgs[k])
    decreases |msgs|
  {
    if |msgs| == 0 then Run(g, None)
    else if Panics(msgs[0]) then Run(g, Some(0))
    else
      var rest := Consume(Step(g, msgs[0]), msgs[1..]);
      assert forall k :: 1 <= k < |msgs| ==> msgs[k] == msgs[1..][k - 1];
      match rest.panicAt
      case None => Run(rest.state, None)
      case Some(k) => Run(rest.state, Some(k + 1))
  }

  /**
   * A frame that panics reaches no merge: the record is exactly what the
   * frames before it made of it.
   */
  lemma {:induction false} PanicMergesNothing(g: GameData, msgs: seq<WsMessage>)
    requires Consume(g, msgs).panicAt.Some?
    ensures var k := Consume(g, msgs).panicAt.value;
      Consume(g, msgs[..k]) == Run(Consume(g, msgs).state, None)
    decreases |msgs|
  {
    if !Panics(msgs[0]) {
      PanicMergesNothing(Step(g, msgs[0]), msgs[1..]);
      var k := Consume(g, msgs).panicAt.value;
      assert msgs[..k][1..] == msgs[1..][..k - 1];
    }
  }

  /**
   * What a single text frame does: a payload that fails to decode panics at
   * `unwrap`, a mode code of 4 or more panics in the code table, and any
   * other payload is merged.
   */
  lemma FrameOutcomes(g: GameData, t: TosuData)
    ensures Consume(g, [TextFrame(None)]) == Run(g, Some(0))
    ensures t.menu.gameMode >= 4 ==> Consume(g, [TextFrame(Some(t))]) == Run(g, Some(0))
    ensures t.menu.gameMode < 4 ==> Consume(g, [TextFrame(Some(t))]) == Run(Update(g, ToPartial(t)), None)
  {
  }

  /**
   * Frames are merged in stream order: after a prefix without panics, the
   * rest of the stream continues from the record that prefix produced, and a
   * later panic is reported at its position in the whole stream.
   */
  lemma {:induction false} ConsumeAppend(g: GameData, a: seq<WsMessage>, b: seq<WsMessage>)
    requires forall k :: 0 <= k < |a| ==> !Panics(a[k])
    ensures var r := Consume(Consume(g, a).state, b);
      Consume(g, a + b) == Run(r.state, if r.panicAt.Some? then Some(|a| + r.panicAt.value) else None)
    decreases |a|
  {
    if |a| == 0 {
      assert a + b == b;
    } else {
      assert (a + b)[0] == a[0];
      assert (a + b)[1..] == a[1..] + b;
      assert forall k :: 0 <= k < |a[1..]| ==> a[1..][k] == a[k + 1];
      ConsumeAppend(Step(g, a[0]), a[1..], b);
    }
  }

  /** As written, a panic ends the stream task: no later frame is merged, however well formed. */
  lemma PanicStopsStream(g: GameData, bad: WsMessage, later: seq<WsMessage>)
    requires Panics(bad)
    ensures Consume(g, [bad] + later) == Run(g, Some(0))
  {
  }

  /** Frames other than text change nothing. */
  lemma {:induction false} NonTextIsIgnored(g: GameData, msgs: seq<WsMessage>)
    requires forall k :: 0 <= k < |msgs| ==> !msgs[k].TextFrame?
    ensures Consume(g, msgs) == Run(g, None)
    decreases |msgs|
  {
    if |msgs| > 0 {
      NonTextIsIgnored(g, msgs[1..]);
    }
  }

  /** The reconnect loop's observable events. */
  datatype ConnEvent = ConnectFailed | Connected | Disconnected

  /** The `reconnecting` flag after an event, and whether a "Reconnecting..." notice is printed. */
  datatype FlagStep = FlagStep(reconnecting: bool, notice: bool)

  function OnEvent(reconnecting: bool, e: ConnEvent): (r: FlagStep)
    ensures e.ConnectFailed? ==> r.notice == !reconnecting
    ensures e.Disconnected? ==> r.notice
    ensures e.Connected? ==> !r.notice
    ensures r.reconnecting <==> !e.Connected?
  {
    match e
    case ConnectFailed => FlagStep(true, !reconnecting)
    case Connected => FlagStep(false, false)
    case Disconnected => FlagStep(true, true)
  }

  /** The flag after a sequence of events, starting from `false`. */
  function FlagAfter(events: seq<ConnEvent>): bool {
    if |events| == 0 then false
    else OnEvent(FlagAfter(events[..|events| - 1]), events[|events| - 1]).reconnecting
  }

  /** Whether event `k` prints a "Reconnecting..." notice. */
  function NoticeAt(events: seq<ConnEvent>, k: nat): bool
    requires k < |events|
  {
    OnEvent(FlagAfter(events[..k]), events[k]).notice
  }

  /** A connect failure is reported exactly when it is the first event or follows a successful connect. */
  lemma FailureNoticeIff(events: seq<ConnEvent>, k: nat)
    requires k < |events| && events[k] == ConnectFailed
    ensures NoticeAt(events, k) <==> k == 0 || events[k - 1] == Connected
  {
    if k > 0 {
      assert events[..k][..k - 1] == events[..k - 1];
    }
  }

  /**
   * The shape of the loop: every disconnect directly follows a successful
   * connect, and a successful connect is followed by its disconnect unless
   * the trace ends while the stream is still being read.
   */
  predicate LoopTrace(events: seq<ConnEvent>) {
    && (forall k :: 0 <= k < |events| && events[k] == Disconnected ==> k > 0 && events[k - 1] == Connected)
    && (forall k :: 0 <= k < |events| - 1 && events[k] == Connected ==> events[k + 1] == Disconnected)
  }

  /**
   * The "Unable to connect" report can only come from the very first event:
   * once a connection has ended, the disconnect has already set the flag and
   * later connect failures stay silent.
   */
  lemma ConnectFailureReportedOnlyFirst(events: seq<ConnEvent>, k: nat)
    requires LoopTrace(events)
    requires k < |events| && events[k] == ConnectFailed
    ensures NoticeAt(events, k) <==> k == 0
  {
    FailureNoticeIff(events, k);
  }

  /** One notice per failure episode: between two notices there is always a successful connect. */
  lemma OneNoticePerEpisode(events: seq<ConnEvent>, i: nat, j: nat)
    requires LoopTrace(events)
    requires i < j < |events| && NoticeAt(events, i) && NoticeAt(events, j)
    ensures exists k :: i < k < j && events[k] == Connected
  {
    match events[j]
    case ConnectFailed =>
      ConnectFailureReportedOnlyFirst(events, j);
    case Disconnected =>
      assert events[j - 1] == Connected;
      assert i != j - 1;
    case Connected =>
  }
}
