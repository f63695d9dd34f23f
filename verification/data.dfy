/**
 * The shared "now playing" record of the overlay bot, its partial-update
 * counterpart, the game-mode code table and the derived text views.
 */
module Data {
  import opened Wrappers
  import opened Primitives
  import Patch

  /** The four osu! rulesets; `Osu` is the `#[default]` variant. */
  datatype GameMode = Osu | Taiko | Catch | Mania

  /** `impl Into<GameMode> for u8`: codes 0..3, anything else is `unreachable!()`. */
  function ModeFromCode(code: u8): (m: GameMode)
    requires code < 4
    ensures ModeToCode(m) == code
  {
    match code
    case 0 => Osu
    case 1 => Taiko
    case 2 => Catch
    case 3 => Mania
  }

  /** `impl Into<u8> for GameMode`. */
  function ModeToCode(m: GameMode): (code: u8)
    ensures code < 4
  {
    match m
    case Osu => 0
    case Taiko => 1
    case Catch => 2
    case Mania => 3
  }

  /** The two conversions are inverse to each other on the whole table. */
  lemma ModeCodeRoundTrip(m: GameMode, code: u8)
    ensures ModeFromCode(ModeToCode(m)) == m
    ensures code < 4 ==> ModeToCode(ModeFromCode(code)) == code
    ensures code < 4 ==> (ModeFromCode(code) == m <==> ModeToCode(m) == code)
  {
  }

  /**
   * An `f32` seen only through IEEE equality (the comparison the source makes);
   * rounding to 32 bits and the distinction between +0 and -0 are not modelled.
   */
  datatype Float = Finite(value: real) | PosInf | NegInf | NaN

  /** Rust's `==` on `f32`: NaN is unequal to everything, itself included. */
  predicate FloatEq(a: Float, b: Float) {
    match a
    case Finite(x) => b.Finite? && b.value == x
    case PosInf => b.PosInf?
    case NegInf => b.NegInf?
    case NaN => false
  }

  /** `FloatEq` is reflexive exactly off NaN, and symmetric. */
  lemma FloatEqLaws(a: Float, b: Float)
    ensures FloatEq(a, a) <==> !a.NaN?
    ensures FloatEq(a, b) <==> FloatEq(b, a)
    ensures FloatEq(a, b) ==> a == b
  {
  }

  /** `f32::default()`. */
  const Zero: Float := Finite(0.0)

  /**
   * `GameData`: the union of the fields declared in src/data.rs and the fields
   * the tosu translation writes. The extra fields are interleaved with the
   * declared ones (`artistUnicode` after `artist`, `stars`..`hp` after
   * `mapId`, `pp95`..`pp97` before `pp98`), and "field order" below means
   * the order of this datatype.
   */
  datatype GameData = GameData(
    artist: string,
    artistUnicode: string,
    title: string,
    titleUnicode: string,
    version: string,
    creator: string,
    mods: string,
    skin: string,
    mapId: u32,
    stars: Float,
    cs: Float,
    ar: Float,
    od: Float,
    hp: Float,
    pp95: Float,
    pp96: Float,
    pp97: Float,
    pp98: Float,
    pp99: Float,
    ppSs: Float,
    ppMods98: Float,
    ppMods99: Float,
    ppModsSs: Float,
    gamemode: GameMode
  )

  /** `PartialGameData`: the same fields, each wrapped in `Option`. */
  datatype PartialGameData = PartialGameData(
    artist: Option<string>,
    artistUnicode: Option<string>,
    title: Option<string>,
    titleUnicode: Option<string>,
    version: Option<string>,
    creator: Option<string>,
    mods: Option<string>,
    skin: Option<string>,
    mapId: Option<u32>,
    stars: Option<Float>,
    cs: Option<Float>,
    ar: Option<Float>,
    od: Option<Float>,
    hp: Option<Float>,
    pp95: Option<Float>,
    pp96: Option<Float>,
    pp97: Option<Float>,
    pp98: Option<Float>,
    pp99: Option<Float>,
    ppSs: Option<Float>,
    ppMods98: Option<Float>,
    ppMods99: Option<Float>,
    ppModsSs: Option<Float>,
    gamemode: Option<GameMode>
  )

  /** Number of declared fields. */
  const FieldCount := 24

  /** A field value of any of the record's field types. */
  datatype Value = Text(s: string) | Id(n: u32) | Number(f: Float) | Mode(m: GameMode)

  /** Field `i` of the record, in the order of the `GameData` datatype. */
  function Field(g: GameData, i: nat): Value
    requires i < FieldCount
  {
    match i
    case 0 => Text(g.artist)
    case 1 => Text(g.artistUnicode)
    case 2 => Text(g.title)
    case 3 => Text(g.titleUnicode)
    case 4 => Text(g.version)
    case 5 => Text(g.creator)
    case 6 => Text(g.mods)
    case 7 => Text(g.skin)
    case 8 => Id(g.mapId)
    case 9 => Number(g.stars)
    case 10 => Number(g.cs)
    case 11 => Number(g.ar)
    case 12 => Number(g.od)
    case 13 => Number(g.hp)
    case 14 => Number(g.pp95)
    case 15 => Number(g.pp96)
    case 16 => Number(g.pp97)
    case 17 => Number(g.pp98)
    case 18 => Number(g.pp99)
    case 19 => Number(g.ppSs)
    case 20 => Number(g.ppMods98)
    case 21 => Number(g.ppMods99)
    case 22 => Number(g.ppModsSs)
    case 23 => Mode(g.gamemode)
  }

  /** Field `i` of the partial record, in the order of the `GameData` datatype. */
  function PartialField(p: PartialGameData, i: nat): Option<Value>
    requires i < FieldCount
  {
    match i
    case 0 => (match p.artist case Some(v) => Some(Text(v)) case None => None)
    case 1 => (match p.artistUnicode case Some(v) => Some(Text(v)) case None => None)
    case 2 => (match p.title case Some(v) => Some(Text(v)) case None => None)
    case 3 => (match p.titleUnicode case Some(v) => Some(Text(v)) case None => None)
    case 4 => (match p.version case Some(v) => Some(Text(v)) case None => None)
    case 5 => (match p.creator case Some(v) => Some(Text(v)) case None => None)
    case 6 => (match p.mods case Some(v) => Some(Text(v)) case None => None)
    case 7 => (match p.skin case Some(v) => Some(Text(v)) case None => None)
    case 8 => (match p.mapId case Some(v) => Some(Id(v)) case None => None)
    case 9 => (match p.stars case Some(v) => Some(Number(v)) case None => None)
    case 10 => (match p.cs case Some(v) => Some(Number(v)) case None => None)
    case 11 => (match p.ar case Some(v) => Some(Number(v)) case None => None)
    case 12 => (match p.od case Some(v) => Some(Number(v)) case None => None)
    case 13 => (match p.hp case Some(v) => Some(Number(v)) case None => None)
    case 14 => (match p.pp95 case Some(v) => Some(Number(v)) case None => None)
    case 15 => (match p.pp96 case Some(v) => Some(Number(v)) case None => None)
    case 16 => (match p.pp97 case Some(v) => Some(Number(v)) case None => None)
    case 17 => (match p.pp98 case Some(v) => Some(Number(v)) case None => None)
    case 18 => (match p.pp99 case Some(v) => Some(Number(v)) case None => None)
    case 19 => (match p.ppSs case Some(v) => Some(Number(v)) case None => None)
    case 20 => (match p.ppMods98 case Some(v) => Some(Number(v)) case None => None)
    case 21 => (match p.ppMods99 case Some(v) => Some(Number(v)) case None => None)
    case 22 => (match p.ppModsSs case Some(v) => Some(Number(v)) case None => None)
    case 23 => (match p.gamemode case Some(v) => Some(Mode(v)) case None => None)
  }

  /** The record as its field values in field order. */
  function Fields(g: GameData): (vs: seq<Value>)
    ensures |vs| == FieldCount
    ensures forall i :: 0 <= i < FieldCount ==> vs[i] == Field(g, i)
  {
    seq(FieldCount, i requires 0 <= i < FieldCount => Field(g, i))
  }

  /** The partial record as optional field values in field order. */
  function PartialFields(p: PartialGameData): (os: seq<Option<Value>>)
    ensures |os| == FieldCount
    ensures forall i :: 0 <= i < FieldCount ==> os[i] == PartialField(p, i)
  {
    seq(FieldCount, i requires 0 <= i < FieldCount => PartialField(p, i))
  }

  /** Two records with the same field values are the same record. */
  lemma FieldsInjective(a: GameData, b: GameData)
    ensures Fields(a) == Fields(b) ==> a == b
  {
    if Fields(a) == Fields(b) {
      forall i | 0 <= i < FieldCount ensures Field(a, i) == Field(b, i) {
        assert Fields(a)[i] == Fields(b)[i];
      }
      assert Field(a, 0) == Field(b, 0);
      assert Field(a, 1) == Field(b, 1);
      assert Field(a, 2) == Field(b, 2);
      assert Field(a, 3) == Field(b, 3);
      assert Field(a, 4) == Field(b, 4);
      assert Field(a, 5) == Field(b, 5);
      assert Field(a, 6) == Field(b, 6);
      assert Field(a, 7) == Field(b, 7);
      assert Field(a, 8) == Field(b, 8);
      assert Field(a, 9) == Field(b, 9);
      assert Field(a, 10) == Field(b, 10);
      assert Field(a, 11) == Field(b, 11);
      assert Field(a, 12) == Field(b, 12);
      assert Field(a, 13) == Field(b, 13);
      assert Field(a, 14) == Field(b, 14);
      assert Field(a, 15) == Field(b, 15);
      assert Field(a, 16) == Field(b, 16);
      assert Field(a, 17) == Field(b, 17);
      assert Field(a, 18) == Field(b, 18);
      assert Field(a, 19) == Field(b, 19);
      assert Field(a, 20) == Field(b, 20);
      assert Field(a, 21) == Field(b, 21);
      assert Field(a, 22) == Field(b, 22);
      assert Field(a, 23) == Field(b, 23);
    }
  }

  /** `GameData::default()`: empty strings, zero numbers, `Osu`. */
  const DefaultGameData: GameData :=
    GameData("", "", "", "", "", "", "", "", 0,
             Zero, Zero, Zero, Zero, Zero, Zero, Zero, Zero, Zero, Zero, Zero, Zero, Zero, Zero,
             Osu)

  /** `PartialGameData::default()`: every field `None`. */
  const NoUpdate: PartialGameData :=
    PartialGameData(None, None, None, None, None, None, None, None, None,
                    None, None, None, None, None, None, None, None, None, None, None, None, None, None,
                    None)

  /** The default partial is the all-absent partial of the generic merge. */
  lemma NoUpdateHasNoField()
    ensures PartialFields(NoUpdate) == Patch.NoneOf(FieldCount)
  {
  }

  /** `GameData::update`: the generated field-by-field overwrite. */
  function Update(s: GameData, p: PartialGameData): GameData {
    GameData(
      p.artist.GetOr(s.artist), p.artistUnicode.GetOr(s.artistUnicode),
      p.title.GetOr(s.title), p.titleUnicode.GetOr(s.titleUnicode),
      p.version.GetOr(s.version), p.creator.GetOr(s.creator),
      p.mods.GetOr(s.mods), p.skin.GetOr(s.skin), p.mapId.GetOr(s.mapId),
      p.stars.GetOr(s.stars), p.cs.GetOr(s.cs), p.ar.GetOr(s.ar), p.od.GetOr(s.od), p.hp.GetOr(s.hp),
      p.pp95.GetOr(s.pp95), p.pp96.GetOr(s.pp96), p.pp97.GetOr(s.pp97),
      p.pp98.GetOr(s.pp98), p.pp99.GetOr(s.pp99), p.ppSs.GetOr(s.ppSs),
      p.ppMods98.GetOr(s.ppMods98), p.ppMods99.GetOr(s.ppMods99), p.ppModsSs.GetOr(s.ppModsSs),
      p.gamemode.GetOr(s.gamemode))
  }

  /**
   * `update` is the generic merge over the declared field list: every field
   * present in the partial is overwritten with its value, every absent field
   * keeps the value it had.
   */
  lemma UpdateIsPatch(s: GameData, p: PartialGameData)
    ensures Fields(Update(s, p)) == Patch.Apply(Fields(s), PartialFields(p))
  {
    var r := Update(s, p);
    forall i | 0 <= i < FieldCount
      ensures Field(r, i) == PartialField(p, i).GetOr(Field(s, i))
    {
      FieldOfUpdate(s, p, i);
    }
    Patch.ApplyPointwise(Fields(s), PartialFields(p), Fields(r));
  }

  /** Field `i` of a merged record is the partial's field `i` when present, else the old one. */
  lemma FieldOfUpdate(s: GameData, p: PartialGameData, i: nat)
    requires i < FieldCount
    ensures Field(Update(s, p), i) == PartialField(p, i).GetOr(Field(s, i))
  {
  }

  /** Merging the default partial is the identity. */
  lemma UpdateNoneIsIdentity(s: GameData)
    ensures Update(s, NoUpdate) == s
  {
    NoUpdateHasNoField();
    UpdateIsPatch(s, NoUpdate);
    Patch.ApplyNoneIsIdentity(Fields(s));
    FieldsInjective(Update(s, NoUpdate), s);
  }

  /** Merging the same partial twice equals merging it once. */
  lemma UpdateIdempotent(s: GameData, p: PartialGameData)
    ensures Update(Update(s, p), p) == Update(s, p)
  {
    UpdateIsPatch(s, p);
    UpdateIsPatch(Update(s, p), p);
    Patch.ApplyIdempotent(Fields(s), PartialFields(p));
    FieldsInjective(Update(Update(s, p), p), Update(s, p));
  }
}
