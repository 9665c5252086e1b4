/** The text editors' codec. The text of a file is edited as characters of
    the font table and bracketed commands; applying the edit parses it into
    text commands, all or nothing, and loading prints the commands back. */
module TextCodec {
  import opened Wrappers
  import opened AppConfig
  import NavigationCommon

  /** A 16-bit signed value. */
  type short = x: int | -0x8000 <= x < 0x8000

  /** A text command of a file: a font index, or a command type encoded in
      the font index, with its argument. */
  datatype TextCommand = TextCommand(fontIndex: short, commandArgument: short)

  /** A command type of the serializer library's text commands: its name,
      the font index that encodes it, and whether it takes an argument. */
  datatype CommandType = CommandType(name: string, code: short, hasArgument: bool)

  /** The command types the library defines, apart from None. */
  type CommandSet = seq<CommandType>

  /** What the codec works with: the configured font table and string
      comparison, and the library's command types. */
  datatype Codec = Codec(table: FontTable, comparison: StringComparison, commands: CommandSet)

  /** Which multi-character fallback the parser runs: the one as written,
      whose substring length is the entry's number of alternatives, or the
      corrected one, whose substring length is the alternative's. */
  datatype Fallback = AsWritten | Corrected

  // ---------------------------------------------------------------------
  // Library text operations

  /** The (short) cast: the low 16 bits, as a signed value. */
  function ToShort(v: int): (r: short)
    ensures -0x8000 <= v < 0x8000 ==> r == v
    ensures (r - v) % 0x10000 == 0
  {
    var u := v % 0x10000;
    if u >= 0x8000 then u - 0x10000 else u
  }

  /** IndexOf(ch): the first position of ch. */
  function IndexOf(s: string, ch: char): (r: Option<nat>)
    ensures r.Some? ==> r.value < |s| && s[r.value] == ch && ch !in s[..r.value]
    ensures r.None? ==> ch !in s
  {
    if s == [] then None
    else if s[0] == ch then Some(0)
    else
      var r := IndexOf(s[1..], ch);
      if r.None? then None
      else
        assert s[..r.value + 1] == [s[0]] + s[1..][..r.value];
        Some(r.value + 1)
  }

  /** IndexOf(ch, start): the first position of ch from start on, or -1. */
  function IndexOfFrom(s: string, ch: char, start: nat): (r: int)
    requires start <= |s|
    ensures r == -1 || start <= r < |s|
  {
    var k := IndexOf(s[start..], ch);
    if k.None? then -1 else start + k.value
  }

  predicate StartsWith(s: string, prefix: string) {
    |prefix| <= |s| && s[..|prefix|] == prefix
  }

  /** White space as char.IsWhiteSpace and Trim see it: tab, line feed,
      vertical tab, form feed, carriage return, next line, the line and
      paragraph separators, and the Unicode space separators (space,
      no-break space, ogham space mark, the spaces from en quad to hair
      space, narrow no-break space, medium mathematical space and
      ideographic space). */
  predicate IsWhiteSpace(ch: char) {
    '\t' <= ch <= '\r' || ch == ' ' || ch == '\U{0085}' || ch == '\U{00A0}' || ch == '\U{1680}' ||
    '\U{2000}' <= ch <= '\U{200A}' || ch == '\U{2028}' || ch == '\U{2029}' || ch == '\U{202F}' ||
    ch == '\U{205F}' || ch == '\U{3000}'
  }

  function TrimStart(s: string): (r: string)
    ensures |r| <= |s| && (|r| > 0 ==> !IsWhiteSpace(r[0]))
  {
    if |s| > 0 && IsWhiteSpace(s[0]) then TrimStart(s[1..]) else s
  }

  function TrimEnd(s: string): (r: string)
    ensures |r| <= |s| && (|r| > 0 ==> !IsWhiteSpace(r[|r| - 1]))
  {
    if |s| > 0 && IsWhiteSpace(s[|s| - 1]) then TrimEnd(s[..|s| - 1]) else s
  }

  function Trim(s: string): string {
    TrimEnd(TrimStart(s))
  }

  /** TrimStart removes exactly the leading white space: what it keeps is a
      suffix, and every character it drops is white space. */
  lemma {:induction false} TrimStartDrops(s: string)
    ensures var r := TrimStart(s);
      r == s[|s| - |r|..] && forall i :: 0 <= i < |s| - |r| ==> IsWhiteSpace(s[i])
  {
    if |s| > 0 && IsWhiteSpace(s[0]) {
      TrimStartDrops(s[1..]);
    }
  }

  /** TrimEnd removes exactly the trailing white space. */
  lemma {:induction false} TrimEndDrops(s: string)
    ensures var r := TrimEnd(s);
      r == s[..|r|] && forall i :: |r| <= i < |s| ==> IsWhiteSpace(s[i])
  {
    if |s| > 0 && IsWhiteSpace(s[|s| - 1]) {
      TrimEndDrops(s[..|s| - 1]);
    }
  }

  predicate IgnoresCase(cmp: StringComparison) {
    cmp.CurrentCultureIgnoreCase? || cmp.InvariantCultureIgnoreCase? || cmp.OrdinalIgnoreCase?
  }

  /** Equals(a, b, cmp): equal, up to ASCII letter case when the comparison
      ignores case. */
  predicate TextEquals(a: string, b: string, cmp: StringComparison) {
    if IgnoresCase(cmp) then NavigationCommon.Upper(a) == NavigationCommon.Upper(b) else a == b
  }

  predicate IsHexDigit(ch: char) {
    '0' <= ch <= '9' || 'A' <= ch <= 'F' || 'a' <= ch <= 'f'
  }

  function HexDigitValue(ch: char): (v: nat)
    ensures v < 16
  {
    if '0' <= ch <= '9' then ch as int - '0' as int
    else if 'A' <= ch <= 'F' then ch as int - 'A' as int + 10
    else if 'a' <= ch <= 'f' then ch as int - 'a' as int + 10
    else 0
  }

  /** The value of a string of hexadecimal digits. */
  function HexValue(s: string): nat {
    if s == [] then 0 else HexValue(s[..|s| - 1]) * 16 + HexDigitValue(s[|s| - 1])
  }

  /** The digits of a base-16 conversion: an optional plus sign, then an
      optional 0x or 0X prefix, is dropped. */
  function HexBody(s: string): (d: string)
    ensures |s| > 0 && s[0] != '+' && s[0] != '0' ==> d == s
    ensures |s| - 3 <= |d| <= |s| && d == s[|s| - |d|..]
  {
    var u := if |s| > 0 && s[0] == '+' then s[1..] else s;
    if |u| >= 2 && u[0] == '0' && (u[1] == 'x' || u[1] == 'X') then u[2..] else u
  }

  /** Every character is a hexadecimal digit. */
  predicate AllHexDigits(d: string) {
    d == [] || (AllHexDigits(d[..|d| - 1]) && IsHexDigit(d[|d| - 1]))
  }

  /** The unsigned value of a base-16 conversion; None where it throws:
      no digits, a character that is not a digit, or a value not below
      limit. */
  function ParseHex(s: string, limit: nat): (r: Option<nat>)
    ensures r.Some? ==> r.value < limit
  {
    var d := HexBody(s);
    if d == [] || !AllHexDigits(d) then None
    else if HexValue(d) >= limit then None
    else Some(HexValue(d))
  }

  /** Convert.ToInt32(s, 16): 32 bits read as a signed value. */
  function ParseInt32Hex(s: string): Option<int> {
    var v := ParseHex(s, 0x1_0000_0000);
    if v.None? then None
    else Some(if v.value >= 0x8000_0000 then v.value - 0x1_0000_0000 else v.value)
  }

  /** Convert.ToInt16(s, 16): 16 bits read as a signed value. */
  function ParseInt16Hex(s: string): Option<short> {
    var v := ParseHex(s, 0x10000);
    if v.None? then None else Some(ToShort(v.value))
  }

  /** An upper-case hexadecimal digit. */
  function HexChar(d: nat): (ch: char)
    requires d < 16
    ensures IsHexDigit(ch) && ('0' <= ch <= '9' || 'A' <= ch <= 'F') && HexDigitValue(ch) == d
  {
    if d < 10 then ('0' as int + d) as char else ('A' as int + d - 10) as char
  }

  /** n in upper-case hexadecimal, with leading zeros up to width digits. */
  function HexText(n: nat, width: nat): (s: string)
    ensures |s| >= 1 && |s| >= width && AllHexDigits(s)
    decreases n + width
  {
    var init := if n >= 16 || width > 1 then HexText(n / 16, if width > 0 then width - 1 else 0) else [];
    var s := init + [HexChar(n % 16)];
    assert s[..|s| - 1] == init;
    s
  }

  /** Only digits and upper-case letters A to F. */
  predicate UpperHex(s: string) {
    forall k :: 0 <= k < |s| ==> '0' <= s[k] <= '9' || 'A' <= s[k] <= 'F'
  }

  /** Hexadecimal text holds only digits and upper-case letters A to F. */
  lemma {:induction false} HexTextDigits(n: nat, width: nat)
    ensures UpperHex(HexText(n, width))
    decreases n + width
  {
    var init := if n >= 16 || width > 1 then HexText(n / 16, if width > 0 then width - 1 else 0) else [];
    var last := [HexChar(n % 16)];
    assert HexText(n, width) == init + last;
    if n >= 16 || width > 1 {
      HexTextDigits(n / 16, if width > 0 then width - 1 else 0);
    }
    assert UpperHex(last);
    UpperHexConcat(init, last);
  }

  lemma UpperHexConcat(a: string, b: string)
    requires UpperHex(a) && UpperHex(b)
    ensures UpperHex(a + b)
  {
    forall k | 0 <= k < |a + b|
      ensures '0' <= (a + b)[k] <= '9' || 'A' <= (a + b)[k] <= 'F'
    {
      if k < |a| {
        assert (a + b)[k] == a[k];
      } else {
        assert (a + b)[k] == b[k - |a|];
      }
    }
  }

  /** The format X4 of an int: a negative value prints its 32-bit two's
      complement. */
  function IntX4(v: int): string
    requires -0x8000_0000 <= v < 0x8000_0000
  {
    HexText(if v >= 0 then v else v + 0x1_0000_0000, 4)
  }

  /** The format X4 of a short: a negative value prints its 16-bit two's
      complement. */
  function ShortX4(v: short): string {
    HexText(if v >= 0 then v else v + 0x10000, 4)
  }

  // ---------------------------------------------------------------------
  // Command types

  /** IsCommand and Command: the type whose code is the font index. */
  function CommandOf(cs: CommandSet, fontIndex: int): (r: Option<CommandType>)
    ensures r.Some? ==> r.value in cs && r.value.code == fontIndex
    ensures r.None? ==> forall t :: t in cs ==> t.code != fontIndex
  {
    if cs == [] then None
    else if cs[0].code == fontIndex then Some(cs[0])
    else CommandOf(cs[1..], fontIndex)
  }

  /** Enum.TryParse ignoring case: the type whose name is the given one up
      to letter case. */
  function TypeNamed(cs: CommandSet, name: string): (r: Option<CommandType>)
    ensures r.Some? ==> r.value in cs
  {
    if cs == [] then None
    else if NavigationCommon.Upper(cs[0].name) == NavigationCommon.Upper(name) then Some(cs[0])
    else TypeNamed(cs[1..], name)
  }

  /** CLEAR and LINEBREAK are printed with a line break after them. */
  predicate BreaksLine(t: CommandType) {
    NavigationCommon.Upper(t.name) == "CLEAR" || NavigationCommon.Upper(t.name) == "LINEBREAK"
  }

  /** What printing and parsing commands requires of the library's types:
      names that can stand inside brackets before a colon, and distinct
      codes and names, names distinct up to case. */
  predicate WellFormed(cs: CommandSet) {
    (forall k :: 0 <= k < |cs| ==> |cs[k].name| > 0 && ':' !in cs[k].name && ']' !in cs[k].name) &&
    (forall k, l :: 0 <= k < l < |cs| ==>
      cs[k].code != cs[l].code && NavigationCommon.Upper(cs[k].name) != NavigationCommon.Upper(cs[l].name))
  }

  // ---------------------------------------------------------------------
  // Parsing

  /** The alternatives include one equal to s. */
  predicate AnyEquals(alternatives: seq<string>, s: string, cmp: StringComparison) {
    exists j :: 0 <= j < |alternatives| && TextEquals(alternatives[j], s, cmp)
  }

  /** The key of the first entry from k on with an alternative equal to s. */
  function FirstWithAlternative(t: FontTable, s: string, cmp: StringComparison, k: nat): Option<int>
    decreases |t| - k
  {
    if k >= |t| then None
    else if AnyEquals(t[k].alternatives, s, cmp) then Some(t[k].key)
    else FirstWithAlternative(t, s, cmp, k + 1)
  }

  /** The one-character lookup finds a key exactly when some entry from k
      on has an alternative equal to s, and the key it finds is the first
      such entry's. */
  lemma {:induction false} FirstWithAlternativeFinds(t: FontTable, s: string, cmp: StringComparison, k: nat)
    ensures var r := FirstWithAlternative(t, s, cmp, k);
      r.Some? <==> exists l :: k <= l < |t| && AnyEquals(t[l].alternatives, s, cmp)
    ensures var r := FirstWithAlternative(t, s, cmp, k);
      r.Some? ==>
        exists l :: k <= l < |t| && AnyEquals(t[l].alternatives, s, cmp) && t[l].key == r.value &&
          forall m :: k <= m < l ==> !AnyEquals(t[m].alternatives, s, cmp)
    decreases |t| - k
  {
    if k < |t| {
      FirstWithAlternativeFinds(t, s, cmp, k + 1);
      if !AnyEquals(t[k].alternatives, s, cmp) && FirstWithAlternative(t, s, cmp, k).Some? {
        var l :| k + 1 <= l < |t| && AnyEquals(t[l].alternatives, s, cmp) && t[l].key == FirstWithAlternative(t, s, cmp, k).value &&
          forall m :: k + 1 <= m < l ==> !AnyEquals(t[m].alternatives, s, cmp);
        assert forall m :: k <= m < l ==> !AnyEquals(t[m].alternatives, s, cmp);
      }
    }
  }

  /** The outcome of the multi-character fallback. */
  datatype Match = NoMatch | Matched(key: int, width: nat) | Threw

  /** The fallback over alternative j on of entry e, at the text s from the
      current character on. */
  function AlternativesFrom(e: FontEntry, s: string, cmp: StringComparison, fallback: Fallback, j: nat): (m: Match)
    ensures m.Matched? ==> m.key == e.key && 0 < m.width <= |s|
    decreases |e.alternatives| - j
  {
    if j >= |e.alternatives| then NoMatch
    else
      var a := e.alternatives[j];
      if |a| <= 1 then AlternativesFrom(e, s, cmp, fallback, j + 1)
      else
        var n := if fallback == AsWritten then |e.alternatives| else |a|;
        if n > |s| then
          if fallback == AsWritten then Threw else AlternativesFrom(e, s, cmp, fallback, j + 1)
        else if TextEquals(s[..n], a, cmp) then Matched(e.key, n)
        else AlternativesFrom(e, s, cmp, fallback, j + 1)
  }

  /** The fallback over entry k on. */
  function MultiFrom(t: FontTable, s: string, cmp: StringComparison, fallback: Fallback, k: nat): (m: Match)
    ensures m.Matched? ==> 0 < m.width <= |s|
    decreases |t| - k
  {
    if k >= |t| then NoMatch
    else
      var m := AlternativesFrom(t[k], s, cmp, fallback, 0);
      if m.NoMatch? then MultiFrom(t, s, cmp, fallback, k + 1) else m
  }

  /** The command a bracket holds: a font index after 0x, else a command
      type by name, with its hexadecimal argument after a colon when the
      type takes one. None where the parser rejects the text. */
  function BracketCommand(c: Codec, cmdStr: string): (r: Option<TextCommand>)
    ensures r.Some? && StartsWith(cmdStr, "0x") ==> r.value.commandArgument == 0
    ensures r.Some? && !StartsWith(cmdStr, "0x") ==> CommandOf(c.commands, r.value.fontIndex).Some?
  {
    if StartsWith(cmdStr, "0x") then
      var v := ParseInt32Hex(cmdStr[2..]);
      if v.None? then None else Some(TextCommand(ToShort(v.value), 0))
    else
      var sep := IndexOf(cmdStr, ':');
      var name := if sep.None? then cmdStr else cmdStr[..sep.value];
      var t := TypeNamed(c.commands, name);
      if t.None? then None
      else if !t.value.hasArgument then Some(TextCommand(t.value.code, 0))
      else if sep.None? then None
      else
        var arg := ParseInt16Hex(Trim(cmdStr[sep.value + 1..]));
        if arg.None? then None else Some(TextCommand(t.value.code, arg.value))
  }

  /** What the parser does at the start of s: skip a line break, reject
      the text, or read one command from the first width characters. */
  datatype Step = Skip | Reject | Emit(cmd: TextCommand, width: nat)

  function Token(c: Codec, fallback: Fallback, s: string): (r: Step)
    requires |s| > 0
    ensures r.Emit? ==> 0 < r.width <= |s|
  {
    if s[0] == '\n' || s[0] == '\r' then Skip
    else if s[0] == '[' then
      var e := IndexOf(s, ']');
      if e.None? then Reject
      else
        var cmd := BracketCommand(c, s[1..e.value]);
        if cmd.None? then Reject else Emit(cmd.value, e.value + 1)
    else
      var key := FirstWithAlternative(c.table, [s[0]], c.comparison, 0);
      if key.Some? then Emit(TextCommand(ToShort(key.value), 0), 1)
      else
        var m := MultiFrom(c.table, s, c.comparison, fallback, 0);
        if m.Matched? then Emit(TextCommand(ToShort(m.key), 0), m.width) else Reject
  }

  function Prepend(cmds: seq<TextCommand>, r: Option<seq<TextCommand>>): (p: Option<seq<TextCommand>>)
    ensures cmds == [] ==> p == r
    ensures r == Some([]) ==> p == Some(cmds)
  {
    if r.None? then None
    else
      assert cmds == [] ==> cmds + r.value == r.value;
      assert r.value == [] ==> cmds + r.value == cmds;
      Some(cmds + r.value)
  }

  lemma PrependTwice(a: seq<TextCommand>, b: seq<TextCommand>, r: Option<seq<TextCommand>>)
    ensures Prepend(a, Prepend(b, r)) == Prepend(a + b, r)
  {
    if r.Some? {
      assert a + (b + r.value) == (a + b) + r.value;
    }
  }

  /** The commands a text parses into, or None when it is rejected. */
  function Parse(c: Codec, fallback: Fallback, s: string): (r: Option<seq<TextCommand>>)
    ensures r.Some? ==> |r.value| <= |s|
    decreases |s|
  {
    if s == [] then Some([])
    else
      var step := Token(c, fallback, s);
      match step
      case Skip => Parse(c, fallback, s[1..])
      case Reject => None
      case Emit(cmd, width) => Prepend([cmd], Parse(c, fallback, s[width..]))
  }

  /** The loop over the table for a one-character match. */
  method FindSingle(t: FontTable, s: string, cmp: StringComparison) returns (key: Option<int>)
    ensures key == FirstWithAlternative(t, s, cmp, 0)
  {
    var k := 0;
    while k < |t|
      invariant 0 <= k <= |t|
      invariant FirstWithAlternative(t, s, cmp, 0) == FirstWithAlternative(t, s, cmp, k)
    {
      if AnyEquals(t[k].alternatives, s, cmp) {
        return Some(t[k].key);
      }
      k := k + 1;
    }
    return None;
  }

  /** The nested loops of the multi-character fallback at position i. As
      written, the substring taken is as long as the entry's list of
      alternatives, and taking it past the end of the text throws; the
      corrected loop takes as many characters as the alternative has and
      skips an alternative longer than the rest of the text. */
  method FindMulti(t: FontTable, text: string, i: nat, cmp: StringComparison, fallback: Fallback) returns (m: Match)
    requires i < |text|
    ensures m == MultiFrom(t, text[i..], cmp, fallback, 0)
  {
    ghost var s := text[i..];
    var k := 0;
    while k < |t|
      invariant 0 <= k <= |t|
      invariant MultiFrom(t, s, cmp, fallback, 0) == MultiFrom(t, s, cmp, fallback, k)
    {
      var f := t[k];
      var j := 0;
      while j < |f.alternatives|
        invariant 0 <= j <= |f.alternatives|
        invariant AlternativesFrom(f, s, cmp, fallback, 0) == AlternativesFrom(f, s, cmp, fallback, j)
      {
        var a := f.alternatives[j];
        if |a| > 1 {
          var n := if fallback == AsWritten then |f.alternatives| else |a|;
          if i + n > |text| {
            if fallback == AsWritten {
              return Threw;
            }
          } else {
            var check := text[i..i + n];
            assert check == s[..n];
            if TextEquals(check, a, cmp) {
              return Matched(f.key, n);
            }
          }
        }
        j := j + 1;
      }
      k := k + 1;
    }
    return NoMatch;
  }

  // ---------------------------------------------------------------------
  // Printing

  /** AppendLine's line break. */
  const NewLine: string := "\r\n"

  /** GetFontChar: the index's first alternative, or the index in hex in
      brackets when the table has none. */
  function GetFontChar(t: FontTable, index: int): (r: string)
    requires -0x8000_0000 <= index < 0x8000_0000
    ensures var a := Lookup(t, index); a.Some? && |a.value| > 0 ==> r == a.value[0]
  {
    var a := Lookup(t, index);
    if a.Some? && |a.value| > 0 then a.value[0] else "[0x" + IntX4(index) + "]"
  }

  /** What RefreshText appends for one command. */
  function PrintCommand(c: Codec, cmd: TextCommand): (r: string)
    ensures var t := CommandOf(c.commands, cmd.fontIndex);
      t.Some? ==> |r| >= 2 && r[0] == '[' && (r[|r| - 1] == ']' <==> !BreaksLine(t.value))
  {
    var t := CommandOf(c.commands, cmd.fontIndex);
    if t.Some? then
      "[" + CommandText(t.value, cmd.commandArgument) + "]" + (if BreaksLine(t.value) then NewLine else "")
    else GetFontChar(c.table, cmd.fontIndex)
  }

  /** What a command prints inside its brackets: the type's name in upper
      case, and its argument in hexadecimal after a colon when it takes one. */
  function CommandText(t: CommandType, arg: short): (r: string)
    ensures !t.hasArgument ==> |r| == |t.name|
    ensures t.hasArgument ==> |r| >= |t.name| + 6 && r[|t.name|..|t.name| + 2] == ": "
  {
    NavigationCommon.Upper(t.name) + (if t.hasArgument then ": " + ShortX4(arg) else "")
  }

  /** The text RefreshText builds. */
  function Print(c: Codec, cmds: seq<TextCommand>): (r: string)
    ensures (forall k :: 0 <= k < |cmds| ==> CommandOf(c.commands, cmds[k].fontIndex).Some?) ==> |r| >= 2 * |cmds|
  {
    PrintLength(c, cmds);
    Joined(Printer(c), cmds)
  }

  /** Every command of a type prints at least its two brackets. */
  lemma {:induction false} PrintLength(c: Codec, cmds: seq<TextCommand>)
    ensures (forall k :: 0 <= k < |cmds| ==> CommandOf(c.commands, cmds[k].fontIndex).Some?) ==>
      |Joined(Printer(c), cmds)| >= 2 * |cmds|
  {
    if cmds != [] {
      PrintLength(c, cmds[..|cmds| - 1]);
      var last := cmds[|cmds| - 1];
      assert Printer(c)(last) == PrintCommand(c, last);
    }
  }

  /** PrintCommand as a function value. */
  function Printer(c: Codec): TextCommand -> string {
    cmd => PrintCommand(c, cmd)
  }

  /** The pieces of the commands, one after another. */
  function Joined(piece: TextCommand -> string, cmds: seq<TextCommand>): string {
    if cmds == [] then "" else Joined(piece, cmds[..|cmds| - 1]) + piece(cmds[|cmds| - 1])
  }

  // ---------------------------------------------------------------------
  // Printing then parsing

  /** One more command appends its piece. */
  lemma JoinedSnoc(piece: TextCommand -> string, cmds: seq<TextCommand>, y: TextCommand)
    ensures Joined(piece, cmds + [y]) == Joined(piece, cmds) + piece(y)
  {
    assert (cmds + [y])[..|cmds|] == cmds;
  }

  /** The pieces joined from the front. */
  lemma {:induction false} JoinedCons(piece: TextCommand -> string, x: TextCommand, rest: seq<TextCommand>)
    ensures Joined(piece, [x] + rest) == piece(x) + Joined(piece, rest)
    decreases |rest|
  {
    if rest == [] {
      JoinedSnoc(piece, [], x);
      assert [] + [x] == [x] + rest;
    } else {
      var init := rest[..|rest| - 1];
      var last := rest[|rest| - 1];
      assert [x] + rest == ([x] + init) + [last];
      assert rest == init + [last];
      JoinedSnoc(piece, [x] + init, last);
      JoinedSnoc(piece, init, last);
      JoinedCons(piece, x, init);
    }
  }

  /** Printing is one command's text after another. */
  lemma PrintCons(c: Codec, x: TextCommand, rest: seq<TextCommand>)
    ensures Print(c, [x] + rest) == PrintCommand(c, x) + Print(c, rest)
  {
    JoinedCons(Printer(c), x, rest);
  }

  /** Hexadecimal text reads back as the number printed. */
  lemma {:induction false} HexTextValue(n: nat, width: nat)
    ensures HexValue(HexText(n, width)) == n
    decreases n + width
  {
    var s := HexText(n, width);
    var w := if width > 0 then width - 1 else 0;
    var init := if n >= 16 || width > 1 then HexText(n / 16, w) else [];
    assert s == init + [HexChar(n % 16)];
    assert s[..|s| - 1] == init;
    assert HexValue(s) == HexValue(init) * 16 + n % 16;
    if n >= 16 || width > 1 {
      HexTextValue(n / 16, w);
      assert HexValue(init) * 16 == (n / 16) * 16;
    } else {
      assert HexValue(init) == 0 && n % 16 == n;
    }
  }

  /** The X4 text of a short holds only digits and letters A to F. */
  lemma ShortX4Digits(v: short)
    ensures UpperHex(ShortX4(v))
  {
    var s := HexText(if v >= 0 then v else v + 0x10000, 4);
    HexTextDigits(if v >= 0 then v else v + 0x10000, 4);
    assert ShortX4(v) == s;
  }

  /** The X4 text of an int holds only digits and letters A to F. */
  lemma IntX4Digits(v: int)
    requires -0x8000_0000 <= v < 0x8000_0000
    ensures UpperHex(IntX4(v))
  {
    var s := HexText(if v >= 0 then v else v + 0x1_0000_0000, 4);
    HexTextDigits(if v >= 0 then v else v + 0x1_0000_0000, 4);
    assert IntX4(v) == s;
  }

  lemma ParseHexText(n: nat, width: nat, limit: nat)
    requires n < limit
    ensures ParseHex(HexText(n, width), limit) == Some(n)
  {
    var s := HexText(n, width);
    HexTextValue(n, width);
    HexTextDigits(n, width);
    assert HexBody(s) == s by {
      if |s| >= 2 {
        assert s[1] != 'x' && s[1] != 'X';
      }
    }
    assert HexValue(s) < limit;
  }

  /** A short printed with X4 reads back with Convert.ToInt16. */
  lemma ShortX4ReadsBack(v: short)
    ensures ParseInt16Hex(ShortX4(v)) == Some(v)
  {
    ParseHexText(if v >= 0 then v else v + 0x10000, 4, 0x10000);
  }

  /** An int printed with X4 reads back with Convert.ToInt32. */
  lemma IntX4ReadsBack(v: int)
    requires -0x8000_0000 <= v < 0x8000_0000
    ensures ParseInt32Hex(IntX4(v)) == Some(v)
  {
    ParseHexText(if v >= 0 then v else v + 0x1_0000_0000, 4, 0x1_0000_0000);
  }

  /** Trim removes a leading space before text that neither starts nor
      ends with white space. */
  lemma TrimSpaced(h: string)
    requires |h| > 0 && !IsWhiteSpace(h[0]) && !IsWhiteSpace(h[|h| - 1])
    ensures Trim(" " + h) == h
  {
    assert (" " + h)[1..] == h;
    assert TrimStart(" " + h) == TrimStart(h) == h;
    assert TrimEnd(h) == h;
  }

  /** IndexOf finds the first occurrence. */
  lemma {:induction false} IndexOfAt(a: string, ch: char, b: string)
    requires ch !in a
    ensures IndexOf(a + [ch] + b, ch) == Some(|a|)
  {
    if a != [] {
      assert (a + [ch] + b)[1..] == a[1..] + [ch] + b;
      IndexOfAt(a[1..], ch, b);
    }
  }

  /** Upper case keeps colons and closing brackets where they are, and
      makes no lower-case x. */
  lemma UpperKeeps(name: string)
    ensures forall k :: 0 <= k < |name| ==>
      (NavigationCommon.Upper(name)[k] == ':' <==> name[k] == ':') &&
      (NavigationCommon.Upper(name)[k] == ']' <==> name[k] == ']') &&
      NavigationCommon.Upper(name)[k] != 'x'
    ensures NavigationCommon.Upper(NavigationCommon.Upper(name)) == NavigationCommon.Upper(name)
  {
  }

  /** A type's upper-case name parses back to the type. */
  lemma {:induction false} TypeNamedFinds(cs: CommandSet, k: nat)
    requires WellFormed(cs) && k < |cs|
    ensures TypeNamed(cs, NavigationCommon.Upper(cs[k].name)) == Some(cs[k])
    decreases k
  {
    UpperKeeps(cs[k].name);
    if k > 0 {
      assert WellFormed(cs[1..]) by {
        forall a, b | 0 <= a < b < |cs[1..]|
          ensures cs[1..][a].code != cs[1..][b].code
          ensures NavigationCommon.Upper(cs[1..][a].name) != NavigationCommon.Upper(cs[1..][b].name)
        {
          assert cs[1..][a] == cs[a + 1] && cs[1..][b] == cs[b + 1];
        }
      }
      TypeNamedFinds(cs[1..], k - 1);
    }
  }

  /** The bracket text of a type without argument reads back as the type. */
  lemma BracketOfName(c: Codec, k: nat)
    requires WellFormed(c.commands) && k < |c.commands| && !c.commands[k].hasArgument
    ensures BracketCommand(c, NavigationCommon.Upper(c.commands[k].name)) == Some(TextCommand(c.commands[k].code, 0))
  {
    var u := NavigationCommon.Upper(c.commands[k].name);
    UpperKeeps(c.commands[k].name);
    TypeNamedFinds(c.commands, k);
    assert !StartsWith(u, "0x") by {
      if |u| >= 2 {
        assert u[1] != 'x';
      }
    }
    assert IndexOf(u, ':').None?;
  }

  /** The bracket text of a type with its argument reads back as the type
      and the argument. */
  lemma BracketOfArgument(c: Codec, k: nat, arg: short)
    requires WellFormed(c.commands) && k < |c.commands| && c.commands[k].hasArgument
    ensures BracketCommand(c, NavigationCommon.Upper(c.commands[k].name) + ": " + ShortX4(arg)) ==
      Some(TextCommand(c.commands[k].code, arg))
  {
    var u := NavigationCommon.Upper(c.commands[k].name);
    UpperKeeps(c.commands[k].name);
    TypeNamedFinds(c.commands, k);
    var hex := ShortX4(arg);
    ShortX4Digits(arg);
    var cmdStr := u + ": " + hex;
    assert cmdStr[1] != 'x' by {
      if |u| >= 2 {
        assert cmdStr[1] == u[1];
      } else {
        assert cmdStr[1] == ':';
      }
    }
    NoHexPrefix(cmdStr);
    assert cmdStr == u + [':'] + (" " + hex);
    IndexOfAt(u, ':', " " + hex);
    assert cmdStr[..|u|] == u;
    assert cmdStr[|u| + 1..] == " " + hex;
    ArgumentReadsBack(arg);
    BracketNamed(c, cmdStr, u, c.commands[k], arg);
  }

  /** The printed argument, after the space that follows the colon, trims
      and converts back to the argument. */
  lemma ArgumentReadsBack(arg: short)
    ensures ParseInt16Hex(Trim(" " + ShortX4(arg))) == Some(arg)
  {
    var hex := ShortX4(arg);
    ShortX4Digits(arg);
    assert '0' <= hex[0] <= '9' || 'A' <= hex[0] <= 'F';
    assert '0' <= hex[|hex| - 1] <= '9' || 'A' <= hex[|hex| - 1] <= 'F';
    TrimSpaced(hex);
    ShortX4ReadsBack(arg);
  }

  /** Bracket text holding a command type's name, a colon and text that
      trims to the hex of arg reads back as that type with arg. */
  lemma BracketNamed(c: Codec, cmdStr: string, name: string, t: CommandType, arg: short)
    requires !StartsWith(cmdStr, "0x") && IndexOf(cmdStr, ':') == Some(|name|) && |name| < |cmdStr|
    requires cmdStr[..|name|] == name && TypeNamed(c.commands, name) == Some(t) && t.hasArgument
    requires ParseInt16Hex(Trim(cmdStr[|name| + 1..])) == Some(arg)
    ensures BracketCommand(c, cmdStr) == Some(TextCommand(t.code, arg))
  {
  }

  /** Text whose second character is not an x does not start with 0x. */
  lemma NoHexPrefix(s: string)
    requires |s| >= 2 && s[1] != 'x'
    ensures !StartsWith(s, "0x")
  {
    assert s[..2][1] == s[1];
  }

  /** A command's bracket text has no closing bracket when its name has
      none. */
  lemma CommandTextUnbracketed(t: CommandType, arg: short)
    requires ']' !in t.name
    ensures ']' !in CommandText(t, arg)
  {
    var u := NavigationCommon.Upper(t.name);
    UpperKeeps(t.name);
    assert ']' !in u;
    if t.hasArgument {
      var hex := ShortX4(arg);
      ShortX4Digits(arg);
      assert ']' !in hex;
      assert CommandText(t, arg) == u + (": " + hex);
    } else {
      assert CommandText(t, arg) == u;
    }
  }

  /** The bracket text printed for a command has no closing bracket and
      reads back as the command. */
  lemma BracketOfPrinted(c: Codec, cmd: TextCommand, t: CommandType)
    requires WellFormed(c.commands) && CommandOf(c.commands, cmd.fontIndex) == Some(t)
    requires t.hasArgument || cmd.commandArgument == 0
    ensures ']' !in CommandText(t, cmd.commandArgument)
    ensures BracketCommand(c, CommandText(t, cmd.commandArgument)) == Some(cmd)
  {
    var k :| 0 <= k < |c.commands| && c.commands[k] == t;
    var u := NavigationCommon.Upper(t.name);
    CommandTextUnbracketed(t, cmd.commandArgument);
    if t.hasArgument {
      BracketOfArgument(c, k, cmd.commandArgument);
      assert CommandText(t, cmd.commandArgument) == u + ": " + ShortX4(cmd.commandArgument);
    } else {
      BracketOfName(c, k);
      assert CommandText(t, cmd.commandArgument) == u;
    }
  }

  /** Two skipped characters. */
  lemma SkipsNewLine(c: Codec, fallback: Fallback, rest: string)
    ensures Parse(c, fallback, NewLine + rest) == Parse(c, fallback, rest)
  {
    var s := NewLine + rest;
    assert s[1..] == ['\n'] + rest;
    assert s[1..][1..] == rest;
  }

  /** A command in brackets is read as one token. */
  lemma BracketToken(c: Codec, fallback: Fallback, cmdStr: string, cmd: TextCommand, rest: string)
    requires ']' !in cmdStr && BracketCommand(c, cmdStr) == Some(cmd)
    ensures Parse(c, fallback, "[" + cmdStr + "]" + rest) == Prepend([cmd], Parse(c, fallback, rest))
  {
    var s := "[" + cmdStr + "]" + rest;
    assert s == "[" + cmdStr + [']'] + rest;
    IndexOfAt("[" + cmdStr, ']', rest);
    assert s[1..|cmdStr| + 1] == cmdStr;
    var step := Token(c, fallback, s);
    assert step == Emit(cmd, |cmdStr| + 2);
    ParseStep(c, fallback, s, step);
    assert s[|cmdStr| + 2..] == rest;
  }

  /** A command type's printed text parses back to the command. */
  lemma PrintedCommandParses(c: Codec, fallback: Fallback, cmd: TextCommand, t: CommandType, rest: string)
    requires WellFormed(c.commands) && CommandOf(c.commands, cmd.fontIndex) == Some(t)
    requires t.hasArgument || cmd.commandArgument == 0
    ensures Parse(c, fallback, PrintCommand(c, cmd) + rest) == Prepend([cmd], Parse(c, fallback, rest))
  {
    var text := CommandText(t, cmd.commandArgument);
    var nl := if BreaksLine(t) then NewLine else "";
    assert PrintCommand(c, cmd) + rest == "[" + text + "]" + (nl + rest);
    BracketOfPrinted(c, cmd, t);
    BracketToken(c, fallback, text, cmd, nl + rest);
    if BreaksLine(t) {
      SkipsNewLine(c, fallback, rest);
    } else {
      assert nl + rest == rest;
    }
  }

  /** An index the table does not map prints as [0x...] and parses back. */
  lemma PrintedIndexParses(c: Codec, fallback: Fallback, cmd: TextCommand, rest: string)
    requires CommandOf(c.commands, cmd.fontIndex).None? && cmd.commandArgument == 0
    requires var a := Lookup(c.table, cmd.fontIndex); a.None? || |a.value| == 0
    ensures Parse(c, fallback, PrintCommand(c, cmd) + rest) == Prepend([cmd], Parse(c, fallback, rest))
  {
    var cmdStr := "0x" + IntX4(cmd.fontIndex);
    assert PrintCommand(c, cmd) + rest == "[" + cmdStr + "]" + rest;
    IndexBracketCommand(c, cmd);
    BracketToken(c, fallback, cmdStr, cmd, rest);
  }

  /** The bracketed text of an index reads back to the index. */
  lemma IndexBracketCommand(c: Codec, cmd: TextCommand)
    requires cmd.commandArgument == 0
    ensures ']' !in "0x" + IntX4(cmd.fontIndex)
    ensures BracketCommand(c, "0x" + IntX4(cmd.fontIndex)) == Some(cmd)
  {
    var hex := IntX4(cmd.fontIndex);
    var cmdStr := "0x" + hex;
    IntX4Digits(cmd.fontIndex);
    assert ']' !in cmdStr by {
      assert forall k :: 2 <= k < |cmdStr| ==> cmdStr[k] == hex[k - 2];
    }
    assert StartsWith(cmdStr, "0x") && cmdStr[2..] == hex;
    IntX4ReadsBack(cmd.fontIndex);
    var v := ParseInt32Hex(cmdStr[2..]);
    assert v == Some(cmd.fontIndex as int);
  }

  /** A character whose first alternative is one character, other than a
      bracket or line break, parses to the first key that lists that
      character, which need not be the index printed. */
  lemma PrintedGlyphParses(c: Codec, fallback: Fallback, cmd: TextCommand, key: int, rest: string)
    requires CommandOf(c.commands, cmd.fontIndex).None?
    requires var a := Lookup(c.table, cmd.fontIndex);
      a.Some? && |a.value| > 0 && |a.value[0]| == 1 &&
      a.value[0][0] != '[' && a.value[0][0] != '\n' && a.value[0][0] != '\r' &&
      FirstWithAlternative(c.table, a.value[0], c.comparison, 0) == Some(key)
    ensures Parse(c, fallback, PrintCommand(c, cmd) + rest) == Prepend([TextCommand(ToShort(key), 0)], Parse(c, fallback, rest))
  {
    var g := Lookup(c.table, cmd.fontIndex).value[0];
    var s := PrintCommand(c, cmd) + rest;
    assert s == g + rest && [s[0]] == g;
    var step := Token(c, fallback, s);
    assert step == Emit(TextCommand(ToShort(key), 0), 1);
    ParseStep(c, fallback, s, step);
    assert s[1..] == rest;
  }

  /** A command that printing and parsing give back: a command type, with
      argument 0 when the type takes none; an index without alternatives;
      or an index whose first alternative is a single character, other than
      a bracket or line break, that the one-character lookup maps back to
      the same index. */
  predicate Reprintable(c: Codec, cmd: TextCommand) {
    var t := CommandOf(c.commands, cmd.fontIndex);
    if t.Some? then t.value.hasArgument || cmd.commandArgument == 0
    else
      cmd.commandArgument == 0 &&
      var a := Lookup(c.table, cmd.fontIndex);
      (a.Some? && |a.value| > 0 ==>
        |a.value[0]| == 1 && a.value[0][0] != '[' && a.value[0][0] != '\n' && a.value[0][0] != '\r' &&
        FirstWithAlternative(c.table, a.value[0], c.comparison, 0) == Some(cmd.fontIndex as int))
  }

  lemma PrintedParses(c: Codec, fallback: Fallback, cmd: TextCommand, rest: string)
    requires WellFormed(c.commands) && Reprintable(c, cmd)
    ensures Parse(c, fallback, PrintCommand(c, cmd) + rest) == Prepend([cmd], Parse(c, fallback, rest))
  {
    var t := CommandOf(c.commands, cmd.fontIndex);
    var a := Lookup(c.table, cmd.fontIndex);
    if t.Some? {
      PrintedCommandParses(c, fallback, cmd, t.value, rest);
    } else if a.Some? && |a.value| > 0 {
      PrintedGlyphParses(c, fallback, cmd, cmd.fontIndex as int, rest);
    } else {
      PrintedIndexParses(c, fallback, cmd, rest);
    }
  }

  /** Printing then parsing gives back every list of reprintable commands,
      with either fallback. */
  lemma {:induction false} PrintThenParse(c: Codec, fallback: Fallback, cmds: seq<TextCommand>)
    requires WellFormed(c.commands)
    requires forall k :: 0 <= k < |cmds| ==> Reprintable(c, cmds[k])
    ensures Parse(c, fallback, Print(c, cmds)) == Some(cmds)
    decreases |cmds|
  {
    if cmds == [] {
    } else {
      assert [cmds[0]] + cmds[1..] == cmds;
      PrintCons(c, cmds[0], cmds[1..]);
      PrintThenParse(c, fallback, cmds[1..]);
      PrintedParses(c, fallback, cmds[0], Print(c, cmds[1..]));
    }
  }

  // ---------------------------------------------------------------------
  // The multi-character fallback, as written and corrected

  /** The text starts with the alternative a, which is longer than one
      character. */
  predicate StartsWithAlternative(s: string, a: string, cmp: StringComparison) {
    1 < |a| <= |s| && TextEquals(s[..|a|], a, cmp)
  }

  /** Text equal under a comparison has equal length. */
  lemma TextEqualsLength(a: string, b: string, cmp: StringComparison)
    requires TextEquals(a, b, cmp)
    ensures |a| == |b|
  {
    if IgnoresCase(cmp) {
      assert |NavigationCommon.Upper(a)| == |NavigationCommon.Upper(b)|;
    }
  }

  /** As written, an entry throws exactly when it has an alternative longer
      than one character and more alternatives than there are characters
      left, and it matches only an alternative as long as its own list of
      alternatives: an entry with a single alternative never matches. */
  lemma {:induction false} AsWrittenAlternatives(e: FontEntry, s: string, cmp: StringComparison, j: nat)
    ensures var m := AlternativesFrom(e, s, cmp, AsWritten, j);
      m.Threw? <==> |e.alternatives| > |s| && exists l :: j <= l < |e.alternatives| && |e.alternatives[l]| > 1
    ensures var m := AlternativesFrom(e, s, cmp, AsWritten, j);
      m.Matched? ==>
        m.width == |e.alternatives| > 1 &&
        exists l :: j <= l < |e.alternatives| && |e.alternatives[l]| == |e.alternatives| && StartsWithAlternative(s, e.alternatives[l], cmp)
    decreases |e.alternatives| - j
  {
    if j < |e.alternatives| {
      AsWrittenAlternatives(e, s, cmp, j + 1);
      var a := e.alternatives[j];
      var n := |e.alternatives|;
      if 1 < |a| && n <= |s| && TextEquals(s[..n], a, cmp) {
        TextEqualsLength(s[..n], a, cmp);
        assert StartsWithAlternative(s, e.alternatives[j], cmp);
      }
    }
  }

  /** The corrected fallback for one entry never throws, and matches
      exactly when the text starts with one of the entry's alternatives
      longer than one character, consuming that alternative's length. */
  lemma {:induction false} CorrectedAlternatives(e: FontEntry, s: string, cmp: StringComparison, j: nat)
    ensures AlternativesFrom(e, s, cmp, Corrected, j) != Threw
    ensures AlternativesFrom(e, s, cmp, Corrected, j).Matched? <==>
      exists l :: j <= l < |e.alternatives| && StartsWithAlternative(s, e.alternatives[l], cmp)
    ensures var m := AlternativesFrom(e, s, cmp, Corrected, j);
      m.Matched? ==> exists l :: j <= l < |e.alternatives| && StartsWithAlternative(s, e.alternatives[l], cmp) && |e.alternatives[l]| == m.width
    decreases |e.alternatives| - j
  {
    if j < |e.alternatives| {
      CorrectedAlternatives(e, s, cmp, j + 1);
    }
  }

  /** The corrected fallback never throws, and reads an entry exactly when
      the text starts with an alternative longer than one character; what
      it reads is that alternative, for that entry's key. */
  lemma {:induction false} CorrectedFallback(t: FontTable, s: string, cmp: StringComparison, k: nat)
    ensures MultiFrom(t, s, cmp, Corrected, k) != Threw
    ensures MultiFrom(t, s, cmp, Corrected, k).Matched? <==>
      exists l, j :: k <= l < |t| && 0 <= j < |t[l].alternatives| && StartsWithAlternative(s, t[l].alternatives[j], cmp)
    ensures var m := MultiFrom(t, s, cmp, Corrected, k);
      m.Matched? ==>
        exists l, j :: k <= l < |t| && 0 <= j < |t[l].alternatives| &&
          StartsWithAlternative(s, t[l].alternatives[j], cmp) && t[l].key == m.key && |t[l].alternatives[j]| == m.width
    decreases |t| - k
  {
    if k < |t| {
      CorrectedAlternatives(t[k], s, cmp, 0);
      CorrectedFallback(t, s, cmp, k + 1);
    }
  }

  /** The built-in entry 0x0E8, whose only alternative is two characters
      long: printing it gives that alternative, which the parser as written
      rejects (it compares one character with two) while the corrected
      parser reads it back. */
  lemma TwoCharacterGlyph(cmp: StringComparison)
    ensures BuiltIn(0x0E8) == ["'L"]
    ensures var c := Codec([FontEntry(0x0E8, BuiltIn(0x0E8))], cmp, []);
      Print(c, [TextCommand(0x0E8, 0)]) == "'L" &&
      Parse(c, AsWritten, "'L") == None &&
      Parse(c, Corrected, "'L") == Some([TextCommand(0x0E8, 0)])
  {
    var c := Codec([FontEntry(0x0E8, BuiltIn(0x0E8))], cmp, []);
    var e := c.table[0];
    assert e.alternatives == ["'L"];
    assert Print(c, [TextCommand(0x0E8, 0)]) == Print(c, []) + PrintCommand(c, TextCommand(0x0E8, 0));
    assert !TextEquals("'", "'L", cmp);
    assert FirstWithAlternative(c.table, ['\''], cmp, 1) == None;
    assert FirstWithAlternative(c.table, ['\''], cmp, 0) == None;
    assert AlternativesFrom(e, "'L", cmp, AsWritten, 1) == NoMatch;
    assert AlternativesFrom(e, "'L", cmp, AsWritten, 0) == NoMatch;
    assert Token(c, AsWritten, "'L") == Reject;
    assert "'L"[..2] == "'L";
    assert AlternativesFrom(e, "'L", cmp, Corrected, 0) == Matched(0x0E8, 2);
    var step := Token(c, Corrected, "'L");
    assert step == Emit(TextCommand(0x0E8, 0), 2);
    ParseStep(c, Corrected, "'L", step);
    assert "'L"[2..] == [];
  }

  // ---------------------------------------------------------------------
  // The editor

  class TextFileEditor {
    var text: string
    var pendingTextChanges: bool
    /** The file's commands: what GetTextCommands returns and
        RelocateTextCommands replaces. */
    var textCommands: seq<TextCommand>

    constructor (textCommands: seq<TextCommand>)
      ensures this.textCommands == textCommands && text == "" && !pendingTextChanges
    {
      this.textCommands := textCommands;
      text := "";
      pendingTextChanges := false;
    }

    /** The Text setter: a different text is stored and marked pending. */
    method SetText(v: string)
      modifies this`text, this`pendingTextChanges
      ensures v == old(text) ==> text == old(text) && pendingTextChanges == old(pendingTextChanges)
      ensures v != old(text) ==> text == v && pendingTextChanges
    {
      if v == text {
        return;
      }
      text := v;
      pendingTextChanges := true;
    }

    /** RefreshText: the text becomes the printed commands. */
    method RefreshText(c: Codec)
      modifies this`text
      ensures text == Print(c, textCommands)
    {
      var txt := "";
      var k := 0;
      while k < |textCommands|
        invariant 0 <= k <= |textCommands|
        invariant txt == Print(c, textCommands[..k])
      {
        assert textCommands[..k + 1][..k] == textCommands[..k];
        txt := txt + PrintCommand(c, textCommands[k]);
        k := k + 1;
      }
      assert textCommands[..k] == textCommands;
      text := txt;
    }

    /** Load: no pending changes, and the text printed afresh. */
    method Load(c: Codec, firstLoad: bool)
      modifies this`text, this`pendingTextChanges
      ensures text == Print(c, textCommands) && !pendingTextChanges
    {
      pendingTextChanges := false;
      RefreshText(c);
    }

    /** ApplyModifiedText: parse the whole text with the given
        multi-character fallback (AsWritten is the source's own, Corrected
        the intended one); on rejection nothing changes, otherwise the
        commands are replaced by the parsed ones and the editor is
        reloaded. */
    method ApplyModifiedText(c: Codec, fallback: Fallback) returns (rejected: bool)
      modifies this
      ensures rejected <==> Parse(c, fallback, old(text)).None?
      ensures rejected ==> text == old(text) && textCommands == old(textCommands) && pendingTextChanges == old(pendingTextChanges)
      ensures !rejected ==> textCommands == Parse(c, fallback, old(text)).value
      ensures !rejected ==> text == Print(c, textCommands) && !pendingTextChanges
    {
      var cmds := ReadCommands(c, fallback, text);
      if cmds.None? {
        return true;
      }
      textCommands := cmds.value;
      Load(c, false);
      return false;
    }
  }

  /** One step of Parse: what follows a skipped or read token. */
  lemma ParseStep(c: Codec, fallback: Fallback, s: string, step: Step)
    requires |s| > 0 && step == Token(c, fallback, s) && !step.Reject?
    ensures step.Skip? ==> Parse(c, fallback, s) == Parse(c, fallback, s[1..])
    ensures step.Emit? ==> Parse(c, fallback, s) == Prepend([step.cmd], Parse(c, fallback, s[step.width..]))
  {
  }

  /** The loop invariant of ReadCommands is kept by a skipped or read
      token: a skip moves on one character, a read command is appended and
      its width consumed. */
  lemma ReadAdvance(c: Codec, fallback: Fallback, text: string, i: nat, cmds: seq<TextCommand>, step: Step,
                    next: nat, nextCmds: seq<TextCommand>)
    requires i < |text| && step == Token(c, fallback, text[i..]) && !step.Reject?
    requires Parse(c, fallback, text) == Prepend(cmds, Parse(c, fallback, text[i..]))
    requires next == if step.Emit? then i + step.width else i + 1
    requires nextCmds == if step.Emit? then cmds + [step.cmd] else cmds
    ensures next <= |text| && Parse(c, fallback, text) == Prepend(nextCmds, Parse(c, fallback, text[next..]))
  {
    var rest := text[i..];
    ParseStep(c, fallback, rest, step);
    if step.Emit? {
      assert rest[step.width..] == text[next..];
      assert Parse(c, fallback, rest) == Prepend([step.cmd], Parse(c, fallback, text[next..]));
      PrependTwice(cmds, [step.cmd], Parse(c, fallback, text[next..]));
    } else {
      assert rest[1..] == text[next..];
    }
  }

  /** The parsing loop of ApplyModifiedText over the text. */
  method ReadCommands(c: Codec, fallback: Fallback, text: string) returns (r: Option<seq<TextCommand>>)
    ensures r == Parse(c, fallback, text)
  {
    var cmds: seq<TextCommand> := [];
    var i := 0;
    assert text[0..] == text;
    while i < |text|
      invariant 0 <= i <= |text|
      invariant Parse(c, fallback, text) == Prepend(cmds, Parse(c, fallback, text[i..]))
    {
      var step := ReadStep(c, fallback, text, i);
      if step.Reject? {
        return None;
      }
      var next := if step.Emit? then i + step.width else i + 1;
      var nextCmds := if step.Emit? then cmds + [step.cmd] else cmds;
      ReadAdvance(c, fallback, text, i, cmds, step, next, nextCmds);
      i, cmds := next, nextCmds;
    }
    assert text[i..] == [];
    return Some(cmds);
  }

  /** One pass of the loop at character i: a line break is skipped, a
      bracket is read up to its closing bracket, and any other character
      is looked up alone and then as the start of a longer alternative. */
  method ReadStep(c: Codec, fallback: Fallback, text: string, i: nat) returns (step: Step)
    requires i < |text|
    ensures step == Token(c, fallback, text[i..])
  {
    var ch := text[i];
    if ch == '\n' || ch == '\r' {
      return Skip;
    }
    if ch == '[' {
      var endIndex := IndexOfFrom(text, ']', i);
      if endIndex == -1 {
        return Reject;
      }
      var cmdLength := endIndex - i - 1;
      var cmdStr := text[i + 1..i + 1 + cmdLength];
      assert cmdStr == text[i..][1..endIndex - i];
      var cmd := BracketCommand(c, cmdStr);
      if cmd.None? {
        return Reject;
      }
      return Emit(cmd.value, cmdLength + 2);
    }
    assert [text[i..][0]] == [ch];
    var fontIndex := FindSingle(c.table, [ch], c.comparison);
    if fontIndex.Some? {
      return Emit(TextCommand(ToShort(fontIndex.value), 0), 1);
    }
    var m := FindMulti(c.table, text, i, c.comparison, fallback);
    if !m.Matched? {
      return Reject;
    }
    return Emit(TextCommand(ToShort(m.key), 0), m.width);
  }
}
