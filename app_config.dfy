/** The patcher's configuration: the font table the text editors use, the
    string comparison for text, logging settings and the address where
    appended data starts. Each setting not given takes its default. */
module AppConfig {
  import opened Wrappers

  /** One font index and the strings it stands for; the first is the one
      printed. */
  datatype FontEntry = FontEntry(key: int, alternatives: seq<string>)

  /** A font table, in the order its dictionary enumerates. */
  type FontTable = seq<FontEntry>

  datatype StringComparison =
    | CurrentCulture | CurrentCultureIgnoreCase
    | InvariantCulture | InvariantCultureIgnoreCase
    | Ordinal | OrdinalIgnoreCase

  datatype Config = Config(
    fontTable: FontTable,
    textStringComparison: StringComparison,
    serializerLogPath: Option<string>,
    useFileLogging: bool,
    logLevel: Option<string>,
    romEndPointer: int)

  const DefaultRomEndPointer: int := 0x08FD5440

  /** The constructor: every absent argument takes its default, and the log
      path and level are kept as given. */
  function NewConfig(fontTable: Option<FontTable>, textStringComparison: Option<StringComparison>,
                     serializerLogPath: Option<string>, useFileLogging: Option<bool>,
                     logLevel: Option<string>, romEndPointer: Option<int>): (c: Config)
    ensures c.fontTable == (if fontTable.Some? then fontTable.value else BuiltInFontTable)
    ensures c.textStringComparison == (if textStringComparison.Some? then textStringComparison.value else InvariantCultureIgnoreCase)
    ensures c.useFileLogging == (useFileLogging.None? || useFileLogging.value)
    ensures c.romEndPointer == (if romEndPointer.Some? then romEndPointer.value else DefaultRomEndPointer)
    ensures c.serializerLogPath == serializerLogPath && c.logLevel == logLevel
  {
    Config(
      fontTable.GetOr(BuiltInFontTable),
      textStringComparison.GetOr(InvariantCultureIgnoreCase),
      serializerLogPath,
      useFileLogging.GetOr(true),
      logLevel,
      romEndPointer.GetOr(DefaultRomEndPointer))
  }

  /** The default configuration: the constructor with every argument absent. */
  function Default(): Config {
    NewConfig(None, None, None, None, None, None)
  }

  /** The defaults: the built-in font table, invariant-culture comparison
      ignoring case, file logging on, no log path or level, and appending
      from 0x08FD5440. */
  lemma DefaultSettings()
    ensures Default().fontTable == BuiltInFontTable
    ensures Default().textStringComparison == InvariantCultureIgnoreCase
    ensures Default().useFileLogging
    ensures Default().serializerLogPath.None? && Default().logLevel.None?
    ensures Default().romEndPointer == 0x08FD5440
  {
  }

  /** The alternatives of a key: those of its first entry. */
  function Lookup(t: FontTable, key: int): (r: Option<seq<string>>)
    ensures r.Some? <==> exists i :: 0 <= i < |t| && t[i].key == key
    ensures r.Some? ==> exists i :: 0 <= i < |t| && t[i].key == key && t[i].alternatives == r.value
  {
    if t == [] then None
    else if t[0].key == key then Some(t[0].alternatives)
    else
      var r := Lookup(t[1..], key);
      assert r.Some? ==> exists i :: 0 <= i < |t[1..]| && t[1..][i].key == key && t[1..][i].alternatives == r.value;
      r
  }

  /** The entries of n consecutive keys from base, in increasing order. */
  function Numbered(base: int, n: nat): (t: FontTable)
    ensures |t| == n
    ensures forall i :: 0 <= i < n ==> t[i].key == base + i
    ensures forall i :: 0 <= i < n ==> t[i].alternatives == BuiltIn(base + i)
  {
    seq(n, i requires 0 <= i < n => FontEntry(base + i, BuiltIn(base + i)))
  }

  /** The built-in font table: keys 0x000 to 0x0EC, then 0x100 to 0x17A,
      in the order they are listed. */
  const BuiltInFontTable: FontTable := Numbered(0x000, 0x0ED) + Numbered(0x100, 0x07B)

  /** The alternatives of each key of the built-in table; keys the table
      leaves out have none. */
  function BuiltIn(key: int): seq<string> {
    match key / 16
    case 0x00 => Row00(key % 16)
    case 0x01 => Row01(key % 16)
    case 0x02 => Row02(key % 16)
    case 0x03 => Row03(key % 16)
    case 0x04 => Row04(key % 16)
    case 0x05 => Row05(key % 16)
    case 0x06 => Row06(key % 16)
    case 0x07 => Row07(key % 16)
    case 0x08 => Row08(key % 16)
    case 0x09 => Row09(key % 16)
    case 0x0A => Row0A(key % 16)
    case 0x0B => Row0B(key % 16)
    case 0x0C => Row0C(key % 16)
    case 0x0D => Row0D(key % 16)
    case 0x0E => Row0E(key % 16)
    case 0x10 => Row10(key % 16)
    case 0x11 => Row11(key % 16)
    case 0x12 => Row12(key % 16)
    case 0x13 => Row13(key % 16)
    case 0x14 => Row14(key % 16)
    case 0x15 => Row15(key % 16)
    case 0x16 => Row16(key % 16)
    case 0x17 => Row17(key % 16)
    case _ => []
  }

  /** Keys 0x000 to 0x00F. */
  function Row00(i: int): seq<string> {
    match i
    case 0 => ["あ"]  // 0x000
    case 1 => ["い"]  // 0x001
    case 2 => ["う"]  // 0x002
    case 3 => ["え"]  // 0x003
    case 4 => ["お"]  // 0x004
    case 5 => ["か"]  // 0x005
    case 6 => ["き"]  // 0x006
    case 7 => ["く"]  // 0x007
    case 8 => ["け"]  // 0x008
    case 9 => ["こ"]  // 0x009
    case 10 => ["さ"]  // 0x00A
    case 11 => ["し"]  // 0x00B
    case 12 => ["す"]  // 0x00C
    case 13 => ["せ"]  // 0x00D
    case 14 => ["そ"]  // 0x00E
    case 15 => ["た"]  // 0x00F
    case _ => []
  }

  /** Keys 0x010 to 0x01F. */
  function Row01(i: int): seq<string> {
    match i
    case 0 => ["ち"]  // 0x010
    case 1 => ["つ"]  // 0x011
    case 2 => ["て"]  // 0x012
    case 3 => ["と"]  // 0x013
    case 4 => ["な"]  // 0x014
    case 5 => ["に"]  // 0x015
    case 6 => ["ぬ"]  // 0x016
    case 7 => ["ね"]  // 0x017
    case 8 => ["の"]  // 0x018
    case 9 => ["は"]  // 0x019
    case 10 => ["ひ"]  // 0x01A
    case 11 => ["ふ"]  // 0x01B
    case 12 => ["へ"]  // 0x01C
    case 13 => ["ほ"]  // 0x01D
    case 14 => ["ま"]  // 0x01E
    case 15 => ["み"]  // 0x01F
    case _ => []
  }

  /** Keys 0x020 to 0x02F. */
  function Row02(i: int): seq<string> {
    match i
    case 0 => ["む"]  // 0x020
    case 1 => ["め"]  // 0x021
    case 2 => ["も"]  // 0x022
    case 3 => ["や"]  // 0x023
    case 4 => ["ゆ"]  // 0x024
    case 5 => ["よ"]  // 0x025
    case 6 => ["ら"]  // 0x026
    case 7 => ["り"]  // 0x027
    case 8 => ["る"]  // 0x028
    case 9 => ["れ"]  // 0x029
    case 10 => ["ろ"]  // 0x02A
    case 11 => ["わ"]  // 0x02B
    case 12 => ["を"]  // 0x02C
    case 13 => ["ん"]  // 0x02D
    case 14 => ["が"]  // 0x02E
    case 15 => ["ぎ"]  // 0x02F
    case _ => []
  }

  /** Keys 0x030 to 0x03F. */
  function Row03(i: int): seq<string> {
    match i
    case 0 => ["ぐ"]  // 0x030
    case 1 => ["げ"]  // 0x031
    case 2 => ["ご"]  // 0x032
    case 3 => ["ざ"]  // 0x033
    case 4 => ["じ"]  // 0x034
    case 5 => ["ず"]  // 0x035
    case 6 => ["ぜ"]  // 0x036
    case 7 => ["ぞ"]  // 0x037
    case 8 => ["だ"]  // 0x038
    case 9 => ["ぢ"]  // 0x039
    case 10 => ["づ"]  // 0x03A
    case 11 => ["で"]  // 0x03B
    case 12 => ["ど"]  // 0x03C
    case 13 => ["ば"]  // 0x03D
    case 14 => ["び"]  // 0x03E
    case 15 => ["ぶ"]  // 0x03F
    case _ => []
  }

  /** Keys 0x040 to 0x04F. */
  function Row04(i: int): seq<string> {
    match i
    case 0 => ["ベ"]  // 0x040
    case 1 => ["ぼ"]  // 0x041
    case 2 => ["ぱ"]  // 0x042
    case 3 => ["ぴ"]  // 0x043
    case 4 => ["ぷ"]  // 0x044
    case 5 => ["ぺ"]  // 0x045
    case 6 => ["ぽ"]  // 0x046
    case 7 => ["ぁ"]  // 0x047
    case 8 => ["ぃ"]  // 0x048
    case 9 => ["ぅ"]  // 0x049
    case 10 => ["ぇ"]  // 0x04A
    case 11 => ["ぉ"]  // 0x04B
    case 12 => ["っ"]  // 0x04C
    case 13 => ["ゃ"]  // 0x04D
    case 14 => ["ゅ"]  // 0x04E
    case 15 => ["ょ"]  // 0x04F
    case _ => []
  }

  /** Keys 0x050 to 0x05F. */
  function Row05(i: int): seq<string> {
    match i
    case 0 => ["ア"]  // 0x050
    case 1 => ["イ"]  // 0x051
    case 2 => ["ウ"]  // 0x052
    case 3 => ["エ"]  // 0x053
    case 4 => ["オ"]  // 0x054
    case 5 => ["カ"]  // 0x055
    case 6 => ["キ"]  // 0x056
    case 7 => ["ク"]  // 0x057
    case 8 => ["ケ"]  // 0x058
    case 9 => ["コ"]  // 0x059
    case 10 => ["サ"]  // 0x05A
    case 11 => ["シ"]  // 0x05B
    case 12 => ["ス"]  // 0x05C
    case 13 => ["セ"]  // 0x05D
    case 14 => ["ソ"]  // 0x05E
    case 15 => ["タ"]  // 0x05F
    case _ => []
  }

  /** Keys 0x060 to 0x06F. */
  function Row06(i: int): seq<string> {
    match i
    case 0 => ["チ"]  // 0x060
    case 1 => ["ツ"]  // 0x061
    case 2 => ["テ"]  // 0x062
    case 3 => ["ト"]  // 0x063
    case 4 => ["ナ"]  // 0x064
    case 5 => ["ニ"]  // 0x065
    case 6 => ["ヌ"]  // 0x066
    case 7 => ["ネ"]  // 0x067
    case 8 => ["ノ"]  // 0x068
    case 9 => ["ハ"]  // 0x069
    case 10 => ["ヒ"]  // 0x06A
    case 11 => ["フ"]  // 0x06B
    case 12 => ["ヘ"]  // 0x06C
    case 13 => ["ホ"]  // 0x06D
    case 14 => ["マ"]  // 0x06E
    case 15 => ["ミ"]  // 0x06F
    case _ => []
  }

  /** Keys 0x070 to 0x07F. */
  function Row07(i: int): seq<string> {
    match i
    case 0 => ["ム"]  // 0x070
    case 1 => ["メ"]  // 0x071
    case 2 => ["モ"]  // 0x072
    case 3 => ["ヤ"]  // 0x073
    case 4 => ["ユ"]  // 0x074
    case 5 => ["ヨ"]  // 0x075
    case 6 => ["ラ"]  // 0x076
    case 7 => ["リ"]  // 0x077
    case 8 => ["ル"]  // 0x078
    case 9 => ["レ"]  // 0x079
    case 10 => ["ロ"]  // 0x07A
    case 11 => ["ワ"]  // 0x07B
    case 12 => ["ヲ"]  // 0x07C
    case 13 => ["ン"]  // 0x07D
    case 14 => ["ガ"]  // 0x07E
    case 15 => ["ギ"]  // 0x07F
    case _ => []
  }

  /** Keys 0x080 to 0x08F. */
  function Row08(i: int): seq<string> {
    match i
    case 0 => ["グ"]  // 0x080
    case 1 => ["ゲ"]  // 0x081
    case 2 => ["ゴ"]  // 0x082
    case 3 => ["ザ"]  // 0x083
    case 4 => ["ジ"]  // 0x084
    case 5 => ["ズ"]  // 0x085
    case 6 => ["ゼ"]  // 0x086
    case 7 => ["ゾ"]  // 0x087
    case 8 => ["ダ"]  // 0x088
    case 9 => ["ヂ"]  // 0x089
    case 10 => ["ヅ"]  // 0x08A
    case 11 => ["デ"]  // 0x08B
    case 12 => ["ド"]  // 0x08C
    case 13 => ["バ"]  // 0x08D
    case 14 => ["ビ"]  // 0x08E
    case 15 => ["ブ"]  // 0x08F
    case _ => []
  }

  /** Keys 0x090 to 0x09F. */
  function Row09(i: int): seq<string> {
    match i
    case 0 => ["ベ"]  // 0x090
    case 1 => ["ボ"]  // 0x091
    case 2 => ["パ"]  // 0x092
    case 3 => ["ピ"]  // 0x093
    case 4 => ["プ"]  // 0x094
    case 5 => ["ぺ"]  // 0x095
    case 6 => ["ポ"]  // 0x096
    case 7 => ["ァ"]  // 0x097
    case 8 => ["ィ"]  // 0x098
    case 9 => ["ゥ"]  // 0x099
    case 10 => ["ェ"]  // 0x09A
    case 11 => ["ォ"]  // 0x09B
    case 12 => ["ッ"]  // 0x09C
    case 13 => ["ャ"]  // 0x09D
    case 14 => ["ュ"]  // 0x09E
    case 15 => ["ョ"]  // 0x09F
    case _ => []
  }

  /** Keys 0x0A0 to 0x0AF. */
  function Row0A(i: int): seq<string> {
    match i
    case 0 => ["　", " "]  // 0x0A0
    case 1 => ["ヴ"]  // 0x0A1
    case 2 => ["０", "0"]  // 0x0A2
    case 3 => ["１", "1"]  // 0x0A3
    case 4 => ["２", "2"]  // 0x0A4
    case 5 => ["３", "3"]  // 0x0A5
    case 6 => ["４", "4"]  // 0x0A6
    case 7 => ["５", "5"]  // 0x0A7
    case 8 => ["６", "6"]  // 0x0A8
    case 9 => ["７", "7"]  // 0x0A9
    case 10 => ["８", "8"]  // 0x0AA
    case 11 => ["９", "9"]  // 0x0AB
    case 12 => ["ー", "—"]  // 0x0AC
    case 13 => ["、", ","]  // 0x0AD
    case 14 => ["。", "."]  // 0x0AE
    case 15 => ["！", "!"]  // 0x0AF
    case _ => []
  }

  /** Keys 0x0B0 to 0x0BF. */
  function Row0B(i: int): seq<string> {
    match i
    case 0 => ["？", "?"]  // 0x0B0
    case 1 => ["＋", "+"]  // 0x0B1
    case 2 => ["－", "-"]  // 0x0B2
    case 3 => ["×"]  // 0x0B3
    case 4 => ["％", "%"]  // 0x0B4
    case 5 => ["／", "/"]  // 0x0B5
    case 6 => ["～", "~"]  // 0x0B6
    case 7 => ["＆", "&"]  // 0x0B7
    case 8 => ["「"]  // 0x0B8
    case 9 => ["」"]  // 0x0B9
    case 10 => ["♡"]  // 0x0BA
    case 11 => ["♪"]  // 0x0BB
    case 12 => ["ゐ"]  // 0x0BC
    case 13 => ["ヰ"]  // 0x0BD
    case 14 => ["ヱ"]  // 0x0BE
    case 15 => ["＊"]  // 0x0BF
    case _ => []
  }

  /** Keys 0x0C0 to 0x0CF. */
  function Row0C(i: int): seq<string> {
    match i
    case 0 => ["ゔ"]  // 0x0C0
    case 1 => ["Ａ", "A"]  // 0x0C1
    case 2 => ["Ｂ", "B"]  // 0x0C2
    case 3 => ["Ｃ", "C"]  // 0x0C3
    case 4 => ["Ｄ", "D"]  // 0x0C4
    case 5 => ["Ｅ", "E"]  // 0x0C5
    case 6 => ["Ｆ", "F"]  // 0x0C6
    case 7 => ["Ｇ", "G"]  // 0x0C7
    case 8 => ["Ｈ", "H"]  // 0x0C8
    case 9 => ["Ｉ", "I"]  // 0x0C9
    case 10 => ["Ｊ", "J"]  // 0x0CA
    case 11 => ["Ｋ", "K"]  // 0x0CB
    case 12 => ["Ｌ", "L"]  // 0x0CC
    case 13 => ["Ｍ", "M"]  // 0x0CD
    case 14 => ["Ｎ", "N"]  // 0x0CE
    case 15 => ["Ｏ", "O"]  // 0x0CF
    case _ => []
  }

  /** Keys 0x0D0 to 0x0DF. */
  function Row0D(i: int): seq<string> {
    match i
    case 0 => ["Ｐ", "P"]  // 0x0D0
    case 1 => ["Ｑ", "Q"]  // 0x0D1
    case 2 => ["Ｒ", "R"]  // 0x0D2
    case 3 => ["Ｓ", "S"]  // 0x0D3
    case 4 => ["Ｔ", "T"]  // 0x0D4
    case 5 => ["Ｕ", "U"]  // 0x0D5
    case 6 => ["Ｖ", "V"]  // 0x0D6
    case 7 => ["Ｗ", "W"]  // 0x0D7
    case 8 => ["Ｘ", "X"]  // 0x0D8
    case 9 => ["Ｙ", "Y"]  // 0x0D9
    case 10 => ["Ｚ", "Z"]  // 0x0DA
    case 11 => ["：", ":"]  // 0x0DB
    case 12 => ["…"]  // 0x0DC
    case 13 => ["＜", "<"]  // 0x0DD
    case 14 => ["＞", ">"]  // 0x0DE
    case 15 => ["．"]  // 0x0DF
    case _ => []
  }

  /** Keys 0x0E0 to 0x0EF. */
  function Row0E(i: int): seq<string> {
    match i
    case 0 => ["（", "("]  // 0x0E0
    case 1 => ["）", ")"]  // 0x0E1
    case 2 => ["・"]  // 0x0E2
    case 3 => ["『"]  // 0x0E3
    case 4 => ["』"]  // 0x0E4
    case 5 => ["【"]  // 0x0E5
    case 6 => ["】"]  // 0x0E6
    case 7 => ["T'"]  // 0x0E7
    case 8 => ["'L"]  // 0x0E8
    case 9 => ["㈱"]  // 0x0E9
    case 10 => ["㈱"]  // 0x0EA
    case 11 => ["＇"]  // 0x0EB
    case 12 => ["＂"]  // 0x0EC
    case _ => []
  }

  /** Keys 0x100 to 0x10F. */
  function Row10(i: int): seq<string> {
    match i
    case 0 => ["月"]  // 0x100
    case 1 => ["夢"]  // 0x101
    case 2 => ["日"]  // 0x102
    case 3 => ["晴"]  // 0x103
    case 4 => ["春"]  // 0x104
    case 5 => ["年"]  // 0x105
    case 6 => ["幸"]  // 0x106
    case 7 => ["古"]  // 0x107
    case 8 => ["信"]  // 0x108
    case 9 => ["夕"]  // 0x109
    case 10 => ["村"]  // 0x10A
    case 11 => ["寺"]  // 0x10B
    case 12 => ["天"]  // 0x10C
    case 13 => ["空"]  // 0x10D
    case 14 => ["院"]  // 0x10E
    case 15 => ["今"]  // 0x10F
    case _ => []
  }

  /** Keys 0x110 to 0x11F. */
  function Row11(i: int): seq<string> {
    match i
    case 0 => ["丘"]  // 0x110
    case 1 => ["安"]  // 0x111
    case 2 => ["心"]  // 0x112
    case 3 => ["立"]  // 0x113
    case 4 => ["入"]  // 0x114
    case 5 => ["金"]  // 0x115
    case 6 => ["色"]  // 0x116
    case 7 => ["光"]  // 0x117
    case 8 => ["花"]  // 0x118
    case 9 => ["実"]  // 0x119
    case 10 => ["力"]  // 0x11A
    case 11 => ["強"]  // 0x11B
    case 12 => ["方"]  // 0x11C
    case 13 => ["法"]  // 0x11D
    case 14 => ["目"]  // 0x11E
    case 15 => ["前"]  // 0x11F
    case _ => []
  }

  /** Keys 0x120 to 0x12F. */
  function Row12(i: int): seq<string> {
    match i
    case 0 => ["気"]  // 0x120
    case 1 => ["合"]  // 0x121
    case 2 => ["場"]  // 0x122
    case 3 => ["負"]  // 0x123
    case 4 => ["名"]  // 0x124
    case 5 => ["明"]  // 0x125
    case 6 => ["朝"]  // 0x126
    case 7 => ["決"]  // 0x127
    case 8 => ["先"]  // 0x128
    case 9 => ["大"]  // 0x129
    case 10 => ["欠"]  // 0x12A
    case 11 => ["点"]  // 0x12B
    case 12 => ["面"]  // 0x12C
    case 13 => ["岩"]  // 0x12D
    case 14 => ["人"]  // 0x12E
    case 15 => ["正"]  // 0x12F
    case _ => []
  }

  /** Keys 0x130 to 0x13F. */
  function Row13(i: int): seq<string> {
    match i
    case 0 => ["所"]  // 0x130
    case 1 => ["上"]  // 0x131
    case 2 => ["世"]  // 0x132
    case 3 => ["界"]  // 0x133
    case 4 => ["原"]  // 0x134
    case 5 => ["固"]  // 0x135
    case 6 => ["小"]  // 0x136
    case 7 => ["予"]  // 0x137
    case 8 => ["想"]  // 0x138
    case 9 => ["行"]  // 0x139
    case 10 => ["不"]  // 0x13A
    case 11 => ["近"]  // 0x13B
    case 12 => ["中"]  // 0x13C
    case 13 => ["口"]  // 0x13D
    case 14 => ["者"]  // 0x13E
    case 15 => ["穴"]  // 0x13F
    case _ => []
  }

  /** Keys 0x140 to 0x14F. */
  function Row14(i: int): seq<string> {
    match i
    case 0 => ["外"]  // 0x140
    case 1 => ["悪"]  // 0x141
    case 2 => ["送"]  // 0x142
    case 3 => ["追"]  // 0x143
    case 4 => ["本"]  // 0x144
    case 5 => ["々"]  // 0x145
    case 6 => ["消"]  // 0x146
    case 7 => ["間"]  // 0x147
    case 8 => ["赤"]  // 0x148
    case 9 => ["水"]  // 0x149
    case 10 => ["初"]  // 0x14A
    case 11 => ["会"]  // 0x14B
    case 12 => ["少"]  // 0x14C
    case 13 => ["空"]  // 0x14D
    case 14 => ["足"]  // 0x14E
    case 15 => ["元"]  // 0x14F
    case _ => []
  }

  /** Keys 0x150 to 0x15F. */
  function Row15(i: int): seq<string> {
    match i
    case 0 => ["宇"]  // 0x150
    case 1 => ["宙"]  // 0x151
    case 2 => ["作"]  // 0x152
    case 3 => ["伝"]  // 0x153
    case 4 => ["説"]  // 0x154
    case 5 => ["臣"]  // 0x155
    case 6 => ["化"]  // 0x156
    case 7 => ["自"]  // 0x157
    case 8 => ["信"]  // 0x158
    case 9 => ["差"]  // 0x159
    case 10 => ["一"]  // 0x15A
    case 11 => ["歩"]  // 0x15B
    case 12 => ["工"]  // 0x15C
    case 13 => ["業"]  // 0x15D
    case 14 => ["都"]  // 0x15E
    case 15 => ["市"]  // 0x15F
    case _ => []
  }

  /** Keys 0x160 to 0x16F. */
  function Row16(i: int): seq<string> {
    match i
    case 0 => ["先"]  // 0x160
    case 1 => ["生"]  // 0x161
    case 2 => ["見"]  // 0x162
    case 3 => ["三"]  // 0x163
    case 4 => ["二"]  // 0x164
    case 5 => ["打"]  // 0x165
    case 6 => ["発"]  // 0x166
    case 7 => ["急"]  // 0x167
    case 8 => ["火"]  // 0x168
    case 9 => ["全"]  // 0x169
    case 10 => ["国"]  // 0x16A
    case 11 => ["出"]  // 0x16B
    case 12 => ["回"]  // 0x16C
    case 13 => ["倍"]  // 0x16D
    case 14 => ["木"]  // 0x16E
    case 15 => ["代"]  // 0x16F
    case _ => []
  }

  /** Keys 0x170 to 0x17F. */
  function Row17(i: int): seq<string> {
    match i
    case 0 => ["的"]  // 0x170
    case 1 => ["令"]  // 0x171
    case 2 => ["当"]  // 0x172
    case 3 => ["了"]  // 0x173
    case 4 => ["時"]  // 0x174
    case 5 => ["話"]  // 0x175
    case 6 => ["高"]  // 0x176
    case 7 => ["声"]  // 0x177
    case 8 => ["男"]  // 0x178
    case 9 => ["川"]  // 0x179
    case 10 => ["分"]  // 0x17A
    case _ => []
  }

  /** The built-in table defines exactly the keys 0x000 to 0x0EC and 0x100
      to 0x17A, each once, in increasing order, so that a lookup finds an
      entry exactly for those keys. */
  lemma BuiltInKeys(key: int)
    ensures Lookup(BuiltInFontTable, key).Some? <==> 0x000 <= key <= 0x0EC || 0x100 <= key <= 0x17A
    ensures forall i, j :: 0 <= i < j < |BuiltInFontTable| ==> BuiltInFontTable[i].key < BuiltInFontTable[j].key
  {
    var t := BuiltInFontTable;
    assert forall i :: 0 <= i < 0x0ED ==> t[i].key == i;
    assert forall i :: 0x0ED <= i < |t| ==> t[i].key == i - 0x0ED + 0x100;
    if 0x000 <= key <= 0x0EC {
      assert t[key].key == key;
    } else if 0x100 <= key <= 0x17A {
      assert t[key - 0x100 + 0x0ED].key == key;
    }
  }

  /** A lookup in the built-in table gives the key's listed alternatives. */
  lemma BuiltInLookup(key: int)
    requires 0x000 <= key <= 0x0EC || 0x100 <= key <= 0x17A
    ensures Lookup(BuiltInFontTable, key) == Some(BuiltIn(key))
  {
    var t := BuiltInFontTable;
    var k := if key <= 0x0EC then key else key - 0x100 + 0x0ED;
    assert t[k] == FontEntry(key, BuiltIn(key));
    assert forall i :: 0 <= i < k ==> t[i].key != key;
    LookupFirst(t, key, k);
  }

  /** A lookup finds the first entry with the key. */
  lemma {:induction false} LookupFirst(t: FontTable, key: int, k: nat)
    requires k < |t| && t[k].key == key
    requires forall i :: 0 <= i < k ==> t[i].key != key
    ensures Lookup(t, key) == Some(t[k].alternatives)
    decreases k
  {
    if k > 0 {
      LookupFirst(t[1..], key, k - 1);
    }
  }

  /** Different keys of the built-in table print the same glyph, so a font
      index is not determined by the string printed for it. */
  lemma BuiltInSharesGlyphs()
    ensures BuiltIn(0x040) == BuiltIn(0x090) == ["ベ"]
    ensures BuiltIn(0x045) == BuiltIn(0x095) == ["ぺ"]
    ensures BuiltIn(0x0E9) == BuiltIn(0x0EA) == ["㈱"]
    ensures BuiltIn(0x108) == BuiltIn(0x158) == ["信"]
    ensures BuiltIn(0x10D) == BuiltIn(0x14D) == ["空"]
    ensures BuiltIn(0x128) == BuiltIn(0x160) == ["先"]
  {
  }

  /** A key lists a full-width form first and its ASCII form second. */
  predicate FullWidthThenAscii(key: int, ascii: char)
    requires '!' <= ascii <= '~'
  {
    BuiltIn(key) == [[(ascii as int + 0xFEE0) as char], [ascii]]
  }

  /** Digits list their full-width form first and the ASCII digit second. */
  lemma DigitsAreFullWidthFirst(d: nat)
    requires d < 10
    ensures FullWidthThenAscii(0x0A2 + d, ('0' as int + d) as char)
  {
    if d == 0 {
    } else if d == 1 {
    } else if d == 2 {
    } else if d == 3 {
    } else if d == 4 {
    } else if d == 5 {
    } else if d == 6 {
    } else if d == 7 {
    } else if d == 8 {
    } else {
      assert d == 9;
    }
  }

  /** Latin capitals list their full-width form first and the ASCII letter
      second. */
  lemma LettersAreFullWidthFirst(d: nat)
    requires d < 26
    ensures FullWidthThenAscii(0x0C1 + d, ('A' as int + d) as char)
  {
    if d == 0 {
    } else if d == 1 {
    } else if d == 2 {
    } else if d == 3 {
    } else if d == 4 {
    } else if d == 5 {
    } else if d == 6 {
    } else if d == 7 {
    } else if d == 8 {
    } else if d == 9 {
    } else if d == 10 {
    } else if d == 11 {
    } else if d == 12 {
    } else if d == 13 {
    } else if d == 14 {
    } else if d == 15 {
    } else if d == 16 {
    } else if d == 17 {
    } else if d == 18 {
    } else if d == 19 {
    } else if d == 20 {
    } else if d == 21 {
    } else if d == 22 {
    } else if d == 23 {
    } else if d == 24 {
    } else {
      assert d == 25;
    }
  }
}
