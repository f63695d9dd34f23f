/**
 * The derived read-only views of `GameData`: the modifier list, the beatmap
 * line, the performance line, and the plain accessors.
 */
module Views {
  import opened Data

  predicate IsDigit(c: char) {
    '0' <= c <= '9'
  }

  predicate AllDigits(ds: string) {
    forall k :: 0 <= k < |ds| ==> IsDigit(ds[k])
  }

  /** The number a string of decimal digits denotes, most significant digit first. */
  function DecimalValue(ds: string): nat
    requires AllDigits(ds)
  {
    if |ds| == 0 then 0
    else DecimalValue(ds[..|ds| - 1]) * 10 + (ds[|ds| - 1] as int - '0' as int)
  }

  /** `ds` is the canonical decimal spelling of `n`: digits only, non-empty, no leading zero. */
  predicate IsDecimalOf(ds: string, n: nat) {
    && |ds| > 0
    && AllDigits(ds)
    && (ds[0] == '0' ==> |ds| == 1)
    && DecimalValue(ds) == n
  }

  /** Rust's `Display` of an unsigned integer (the `{}` in `format!`). */
  function Decimal(n: nat): (ds: string)
    ensures IsDecimalOf(ds, n)
    decreases n
  {
    if n < 10 then [('0' as int + n) as char]
    else
      var ds := Decimal(n / 10) + [('0' as int + n % 10) as char];
      assert ds[..|ds| - 1] == Decimal(n / 10);
      ds
  }

  /** A non-empty digit string without a leading zero denotes a positive number. */
  lemma {:induction false} LeadingDigitPositive(ds: string)
    requires |ds| > 0 && AllDigits(ds) && ds[0] != '0'
    ensures DecimalValue(ds) >= 1
  {
    if |ds| > 1 {
      LeadingDigitPositive(ds[..|ds| - 1]);
    }
  }

  /** The canonical decimal spelling is unique, so `Decimal` is its only producer. */
  lemma {:induction false} DecimalUnique(ds: string, n: nat)
    requires IsDecimalOf(ds, n)
    ensures ds == Decimal(n)
  {
    if |ds| > 1 {
      var front := ds[..|ds| - 1];
      LeadingDigitPositive(front);
      assert IsDecimalOf(front, n / 10);
      DecimalUnique(front, n / 10);
      assert ds == front + [ds[|ds| - 1]];
    }
  }

  /** `str::split(sep)`: the pieces between separators; never empty, even for "". */
  function Split(s: string, sep: char): (pieces: seq<string>)
    ensures |pieces| >= 1
    ensures forall k :: 0 <= k < |pieces| ==> sep !in pieces[k]
    decreases |s|
  {
    if |s| == 0 then [""]
    else
      var rest := Split(s[1..], sep);
      if s[0] == sep then [""] + rest
      else [[s[0]] + rest[0]] + rest[1..]
  }

  /** `pieces.join(sep)`. */
  function Join(pieces: seq<string>, sep: char): string {
    if |pieces| == 0 then ""
    else if |pieces| == 1 then pieces[0]
    else pieces[0] + [sep] + Join(pieces[1..], sep)
  }

  /** `collect::<String>()` over string pieces. */
  function Concat(pieces: seq<string>): string {
    if |pieces| == 0 then "" else pieces[0] + Concat(pieces[1..])
  }

  /** `s` with every occurrence of `c` deleted. */
  function Without(s: string, c: char): (r: string)
    ensures c !in r
  {
    if |s| == 0 then ""
    else if s[0] == c then Without(s[1..], c)
    else [s[0]] + Without(s[1..], c)
  }

  /** Joining the pieces of a split with the same separator restores the string. */
  lemma {:induction false} SplitJoin(s: string, sep: char)
    ensures Join(Split(s, sep), sep) == s
    decreases |s|
  {
    if |s| > 0 {
      var rest := Split(s[1..], sep);
      SplitJoin(s[1..], sep);
      if s[0] == sep {
        assert Split(s, sep) == [""] + rest;
      } else {
        var pieces := Split(s, sep);
        assert pieces == [[s[0]] + rest[0]] + rest[1..];
        if |rest| == 1 {
          assert Join(pieces, sep) == [s[0]] + rest[0];
        } else {
          assert pieces[1..] == rest[1..];
          assert Join(pieces, sep) == [s[0]] + (rest[0] + [sep] + Join(rest[1..], sep));
        }
        assert s == [s[0]] + s[1..];
      }
    }
  }

  /** Concatenating the pieces of a split deletes exactly the separators. */
  lemma {:induction false} ConcatSplit(s: string, sep: char)
    ensures Concat(Split(s, sep)) == Without(s, sep)
    decreases |s|
  {
    if |s| > 0 {
      var rest := Split(s[1..], sep);
      ConcatSplit(s[1..], sep);
      if s[0] != sep {
        var pieces := Split(s, sep);
        assert pieces[1..] == rest[1..];
        assert Concat(rest) == rest[0] + Concat(rest[1..]);
        assert Concat(pieces) == [s[0]] + rest[0] + Concat(rest[1..]);
      }
    }
  }

  /** `GameData::get_mods`: `mods.split(',').collect::<String>()`. */
  function GetMods(g: GameData): (r: string)
    ensures ',' !in r
    ensures r == Without(g.mods, ',')
  {
    ConcatSplit(g.mods, ',');
    Concat(Split(g.mods, ','))
  }

  /** The beatmap link prefix; the map id follows it. */
  const LinkBase := " https://osu.ppy.sh/b/"

  /** The shared `"{artist} - {title} [{version}] by {creator}"` part of the beatmap line. */
  function BeatmapTitle(g: GameData): string {
    g.artist + " - " + g.title + " [" + g.version + "] by " + g.creator
  }

  /** `GameData::get_beatmap_string`. */
  function GetBeatmapString(g: GameData): (r: string)
    ensures |BeatmapTitle(g)| <= |r| && r[..|BeatmapTitle(g)|] == BeatmapTitle(g)
    ensures r == BeatmapTitle(g) <==> g.mapId == 0
    ensures g.mapId != 0 ==>
      var link := r[|BeatmapTitle(g)|..];
      |LinkBase| < |link| && link[..|LinkBase|] == LinkBase && IsDecimalOf(link[|LinkBase|..], g.mapId)
  {
    var title := BeatmapTitle(g);
    if g.mapId != 0 then
      var r := title + LinkBase + Decimal(g.mapId);
      assert r[|title|..] == LinkBase + Decimal(g.mapId);
      assert r[|title|..][|LinkBase|..] == Decimal(g.mapId);
      r
    else title
  }

  /** The `"PP (98/99/100): a/b/c"` part of the performance line. */
  function PpHead(g: GameData, show: Float -> string): string {
    "PP (98/99/100): " + show(g.pp98) + "/" + show(g.pp99) + "/" + show(g.ppSs)
  }

  /**
   * `GameData::get_pp_string`, with `show` standing for the `{:.1}` rendering:
   * the `+mods` part is appended exactly when the SS values differ.
   */
  function GetPpString(g: GameData, show: Float -> string): (r: string)
    ensures |PpHead(g, show)| <= |r| && r[..|PpHead(g, show)|] == PpHead(g, show)
    ensures r == PpHead(g, show) <==> FloatEq(g.ppSs, g.ppModsSs)
    ensures !FloatEq(g.ppSs, g.ppModsSs) ==>
      var tail := r[|PpHead(g, show)|..];
      2 + |GetMods(g)| <= |tail| && tail[..2] == " +" && tail[2..2 + |GetMods(g)|] == GetMods(g)
  {
    var head := PpHead(g, show);
    if FloatEq(g.ppSs, g.ppModsSs) then head
    else
      var tail := " +" + GetMods(g) + " " + show(g.ppMods98) + "/" + show(g.ppMods99) + "/" + show(g.ppModsSs);
      assert (head + tail)[|head|..] == tail;
      head + tail
  }

  /** The choice of form depends on the SS values only, never on the 98 or 99 ones. */
  lemma PpFormIgnores98And99(g: GameData, show: Float -> string, a: Float, b: Float, c: Float, d: Float)
    ensures var h := g.(pp98 := a, pp99 := b, ppMods98 := c, ppMods99 := d);
      (GetPpString(h, show) == PpHead(h, show)) == (GetPpString(g, show) == PpHead(g, show))
  {
  }

  /** `GameData::get_game_mode`. */
  function GetGameMode(g: GameData): GameMode {
    g.gamemode
  }

  /** `GameData::get_skin`. */
  function GetSkin(g: GameData): string {
    g.skin
  }

  /** The accessors read the latest merged value: the partial's when present, else the old one. */
  lemma AccessorsReadLatest(s: GameData, p: PartialGameData)
    ensures GetGameMode(Update(s, p)) == p.gamemode.GetOr(GetGameMode(s))
    ensures GetSkin(Update(s, p)) == p.skin.GetOr(GetSkin(s))
  {
  }

  /** The default record plays osu! and renders the link-free beatmap line and the plain pp line. */
  lemma DefaultViews(show: Float -> string)
    ensures GetGameMode(DefaultGameData) == Osu
    ensures ModeToCode(GetGameMode(DefaultGameData)) == 0
    ensures GetBeatmapString(DefaultGameData) == " -  [] by "
    ensures GetPpString(DefaultGameData, show) == PpHead(DefaultGameData, show)
    ensures GetSkin(DefaultGameData) == ""
  {
  }
}
