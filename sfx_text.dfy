/** The SFX text patch's editor: six entries, each a list of animation
    group indices typed as space-separated numbers, plus the red/non-red
    animation choice, with an unsaved-changes flag. */
module SfxText {
  import opened Wrappers
  import TextCodec

  /** The number of entries the editor shows. */
  const EntryCount: nat := 6
  /** How many indices an entry keeps. */
  const MaxIndexes: nat := 8

  const Int32Min: int := -0x8000_0000
  const Int32Max: int := 0x7FFF_FFFF

  // ---------------------------------------------------------------------
  // Decimal text

  predicate IsDigit(ch: char) {
    '0' <= ch <= '9'
  }

  predicate AllDigits(d: string) {
    d == [] || (AllDigits(d[..|d| - 1]) && IsDigit(d[|d| - 1]))
  }

  function DigitsValue(d: string): nat
    requires AllDigits(d)
  {
    if d == [] then 0 else 10 * DigitsValue(d[..|d| - 1]) + (d[|d| - 1] as int - '0' as int)
  }

  function Digit(d: nat): (ch: char)
    requires d < 10
    ensures IsDigit(ch) && ch as int - '0' as int == d
  {
    ('0' as int + d) as char
  }

  /** The decimal digits of n, without leading zeros. */
  function DecimalText(n: nat): (s: string)
    ensures |s| >= 1 && AllDigits(s) && IsDigit(s[0]) && IsDigit(s[|s| - 1]) && ' ' !in s
  {
    if n < 10 then [Digit(n)]
    else
      var init := DecimalText(n / 10);
      var s := init + [Digit(n % 10)];
      assert s[..|s| - 1] == init;
      s
  }

  /** An int as String.Join writes it: a minus sign for negatives. */
  function IntText(n: int): (s: string)
    ensures |s| >= 1 && ' ' !in s
  {
    if n < 0 then "-" + DecimalText(-n) else DecimalText(n)
  }

  /** White space as number parsing sees it: space, and tab to carriage
      return; the Unicode spaces that Trim also removes are not. */
  predicate IsNumberWhite(ch: char) {
    ch == ' ' || '\t' <= ch <= '\r'
  }

  function StripLeading(s: string): (r: string)
    ensures |r| <= |s| && (|r| > 0 ==> !IsNumberWhite(r[0]))
  {
    if |s| > 0 && IsNumberWhite(s[0]) then StripLeading(s[1..]) else s
  }

  function StripTrailing(s: string): (r: string)
    ensures |r| <= |s| && (|r| > 0 ==> !IsNumberWhite(r[|r| - 1]))
  {
    if |s| > 0 && IsNumberWhite(s[|s| - 1]) then StripTrailing(s[..|s| - 1]) else s
  }

  /** Int32.TryParse with the default integer style: white space around an
      optionally signed run of decimal digits, within the 32-bit range. */
  function ParseInt32(s: string): (r: Option<int>)
    ensures r.Some? ==> Int32Min <= r.value <= Int32Max
  {
    var t := StripTrailing(StripLeading(s));
    var negative := |t| > 0 && t[0] == '-';
    var digits := if |t| > 0 && (t[0] == '-' || t[0] == '+') then t[1..] else t;
    if digits == [] || !AllDigits(digits) then None
    else
      var v: int := if negative then -(DigitsValue(digits) as int) else DigitsValue(digits);
      if Int32Min <= v <= Int32Max then Some(v) else None
  }

  // ---------------------------------------------------------------------
  // Splitting and joining on single spaces

  /** String.Split(' '): the pieces between single spaces, empty ones
      included. */
  function SplitSpaces(s: string): (r: seq<string>)
    ensures |r| >= 1
    decreases |s|
  {
    var i := TextCodec.IndexOf(s, ' ');
    if i.None? then [s] else [s[..i.value]] + SplitSpaces(s[i.value + 1..])
  }

  /** String.Join(' ', ts). */
  function JoinTexts(ts: seq<string>): string {
    if |ts| == 0 then ""
    else if |ts| == 1 then ts[0]
    else ts[0] + " " + JoinTexts(ts[1..])
  }

  function Texts(xs: seq<int>): (ts: seq<string>)
    ensures |ts| == |xs| && forall k :: 0 <= k < |xs| ==> ts[k] == IntText(xs[k])
  {
    seq(|xs|, k requires 0 <= k < |xs| => IntText(xs[k]))
  }

  /** String.Join(' ', xs) on ints. */
  function Join(xs: seq<int>): string {
    JoinTexts(Texts(xs))
  }

  /** String.IsNullOrWhiteSpace. */
  predicate IsBlank(s: string) {
    forall i :: 0 <= i < |s| ==> TextCodec.IsWhiteSpace(s[i])
  }

  // ---------------------------------------------------------------------
  // Apply as a function

  /** Why Apply refuses the text: it is blank, or the first bad token is
      not a number, or is a number outside the animation groups. */
  datatype ApplyError = BlankText | NotAnIndex(value: string) | OutOfRange(value: string)

  /** The index a token stands for: its value, or -1 when it does not
      parse. */
  function TokenIndex(t: string): int {
    var v := ParseInt32(t);
    if v.Some? then v.value else -1
  }

  predicate GoodToken(t: string, groupCount: nat) {
    0 <= TokenIndex(t) < groupCount
  }

  /** The error the first bad token gives. */
  function TokenError(t: string): ApplyError {
    if TokenIndex(t) == -1 then NotAnIndex(t) else OutOfRange(t)
  }

  /** The indices of the tokens, or the error of the first bad one. */
  function ParseIndexes(tokens: seq<string>, groupCount: nat): (r: Result<seq<int>, ApplyError>)
    ensures r.Success? ==> |r.value| == |tokens|
  {
    if tokens == [] then Success([])
    else if !GoodToken(tokens[0], groupCount) then Failure(TokenError(tokens[0]))
    else Then([TokenIndex(tokens[0])], ParseIndexes(tokens[1..], groupCount))
  }

  /** prefix before a successful result; a failure as it is. */
  function Then(prefix: seq<int>, r: Result<seq<int>, ApplyError>): Result<seq<int>, ApplyError> {
    if r.Failure? then r else Success(prefix + r.value)
  }

  function Take(xs: seq<int>, n: nat): (r: seq<int>)
    ensures |r| <= n && |r| <= |xs| && r == xs[..|r|] && (|xs| <= n ==> r == xs)
  {
    if |xs| <= n then xs else xs[..n]
  }

  /** What Apply makes of a text: the first eight indices, or why it
      refuses. */
  function ApplyText(text: string, groupCount: nat): (r: Result<seq<int>, ApplyError>)
    ensures r.Success? ==> !IsBlank(text) && |r.value| <= MaxIndexes
    ensures r.Success? ==> forall k :: 0 <= k < |r.value| ==> 0 <= r.value[k] < groupCount
  {
    if IsBlank(text) then Failure(BlankText)
    else
      ParseIndexesValues(SplitSpaces(text), groupCount);
      var r := ParseIndexes(SplitSpaces(text), groupCount);
      if r.Failure? then r else Success(Take(r.value, MaxIndexes))
  }

  // ---------------------------------------------------------------------
  // What Apply promises

  /** A parse succeeds exactly when every token is an index of an
      animation group, and then gives their values in order; otherwise it
      names the first bad token. */
  lemma {:induction false} ParseIndexesSpec(tokens: seq<string>, groupCount: nat)
    ensures var r := ParseIndexes(tokens, groupCount);
      r.Success? <==> forall k :: 0 <= k < |tokens| ==> GoodToken(tokens[k], groupCount)
    ensures var r := ParseIndexes(tokens, groupCount);
      r.Success? ==>
        |r.value| == |tokens| &&
        forall k :: 0 <= k < |tokens| ==> r.value[k] == TokenIndex(tokens[k]) && 0 <= r.value[k] < groupCount
    ensures var r := ParseIndexes(tokens, groupCount);
      r.Failure? ==>
        exists k ::
          0 <= k < |tokens| && !GoodToken(tokens[k], groupCount) &&
          (forall k' :: 0 <= k' < k ==> GoodToken(tokens[k'], groupCount)) && r.error == TokenError(tokens[k])
  {
    ParseIndexesValues(tokens, groupCount);
    ParseIndexesFirstBad(tokens, groupCount);
  }

  /** A parse of good tokens succeeds, and a successful parse gives the
      tokens' values in order, each an index of an animation group. */
  lemma {:induction false} ParseIndexesValues(tokens: seq<string>, groupCount: nat)
    ensures (forall k :: 0 <= k < |tokens| ==> GoodToken(tokens[k], groupCount)) ==> ParseIndexes(tokens, groupCount).Success?
    ensures var r := ParseIndexes(tokens, groupCount);
      r.Success? ==>
        |r.value| == |tokens| &&
        forall k :: 0 <= k < |tokens| ==> r.value[k] == TokenIndex(tokens[k]) && 0 <= r.value[k] < groupCount
  {
    if tokens != [] && GoodToken(tokens[0], groupCount) {
      var rest := ParseIndexes(tokens[1..], groupCount);
      ParseIndexesValues(tokens[1..], groupCount);
      if rest.Success? {
        var r := ParseIndexes(tokens, groupCount);
        assert r.value == [TokenIndex(tokens[0])] + rest.value;
        forall k | 0 <= k < |tokens|
          ensures r.value[k] == TokenIndex(tokens[k])
        {
          if k > 0 {
            assert tokens[k] == tokens[1..][k - 1];
          }
        }
      } else {
        assert !forall k :: 0 <= k < |tokens[1..]| ==> GoodToken(tokens[1..][k], groupCount);
      }
    }
  }

  /** A failed parse names the first bad token. */
  lemma {:induction false} ParseIndexesFirstBad(tokens: seq<string>, groupCount: nat)
    ensures var r := ParseIndexes(tokens, groupCount);
      r.Failure? ==>
        exists k ::
          0 <= k < |tokens| && !GoodToken(tokens[k], groupCount) &&
          (forall k' :: 0 <= k' < k ==> GoodToken(tokens[k'], groupCount)) && r.error == TokenError(tokens[k])
  {
    if tokens != [] && GoodToken(tokens[0], groupCount) {
      var rest := ParseIndexes(tokens[1..], groupCount);
      ParseIndexesFirstBad(tokens[1..], groupCount);
      if rest.Failure? {
        var k :| 0 <= k < |tokens[1..]| && !GoodToken(tokens[1..][k], groupCount) &&
          (forall k' :: 0 <= k' < k ==> GoodToken(tokens[1..][k'], groupCount)) && rest.error == TokenError(tokens[1..][k]);
        forall k' | 0 <= k' < k + 1
          ensures GoodToken(tokens[k'], groupCount)
        {
          if k' > 0 {
            assert tokens[k'] == tokens[1..][k' - 1];
          }
        }
      }
    }
  }

  /** Stripping white space leaves a text alone whose ends are not white
      space. */
  lemma StripKeeps(s: string)
    requires |s| > 0 && !IsNumberWhite(s[0]) && !IsNumberWhite(s[|s| - 1])
    ensures StripTrailing(StripLeading(s)) == s
  {
    assert StripLeading(s) == s;
    assert StripTrailing(s) == s;
  }

  lemma {:induction false} DecimalValue(n: nat)
    ensures DigitsValue(DecimalText(n)) == n
  {
    if n >= 10 {
      DecimalValue(n / 10);
      var s := DecimalText(n);
      assert s[..|s| - 1] == DecimalText(n / 10);
      assert DigitsValue(s) == 10 * (n / 10) + n % 10;
    }
  }

  /** An int written as String.Join writes it parses back to itself. */
  lemma IntTextParses(n: int)
    requires Int32Min <= n <= Int32Max
    ensures ParseInt32(IntText(n)) == Some(n)
  {
    var s := IntText(n);
    var d := DecimalText(if n < 0 then -n else n);
    DecimalValue(if n < 0 then -n else n);
    if n < 0 {
      assert s == "-" + d;
      assert s[|s| - 1] == d[|d| - 1];
      StripKeeps(s);
      assert s[1..] == d;
      SignedDigitsParse(s, d, true);
    } else {
      assert s == d;
      StripKeeps(s);
      SignedDigitsParse(s, d, false);
    }
  }

  /** An optionally signed run of digits with no white space around it
      parses to its signed value, when that is within 32 bits. */
  lemma SignedDigitsParse(s: string, d: string, negative: bool)
    requires d != [] && AllDigits(d) && IsDigit(d[0]) && StripTrailing(StripLeading(s)) == s
    requires s == if negative then "-" + d else d
    requires var v := if negative then -(DigitsValue(d) as int) else DigitsValue(d); Int32Min <= v <= Int32Max
    ensures ParseInt32(s) == Some(if negative then -(DigitsValue(d) as int) else DigitsValue(d))
  {
    if negative {
      assert s[1..] == d;
    }
  }

  /** Splitting a join of space-free texts gives the texts back. */
  lemma {:induction false} SplitJoin(ts: seq<string>)
    requires |ts| >= 1 && forall k :: 0 <= k < |ts| ==> ' ' !in ts[k]
    ensures SplitSpaces(JoinTexts(ts)) == ts
  {
    if |ts| > 1 {
      var rest := JoinTexts(ts[1..]);
      TextCodec.IndexOfAt(ts[0], ' ', rest);
      var s := ts[0] + " " + rest;
      assert s == ts[0] + [' '] + rest;
      assert s[..|ts[0]|] == ts[0];
      assert s[|ts[0]| + 1..] == rest;
      SplitJoin(ts[1..]);
      assert ts == [ts[0]] + ts[1..];
    }
  }

  /** Joining the pieces of a split gives the text back. */
  lemma {:induction false} JoinSplit(s: string)
    ensures JoinTexts(SplitSpaces(s)) == s
    decreases |s|
  {
    var i := TextCodec.IndexOf(s, ' ');
    if i.Some? {
      var head, rest := s[..i.value], s[i.value + 1..];
      JoinSplit(rest);
      JoinCons(head, SplitSpaces(rest));
      assert s == head + " " + rest;
    }
  }

  /** Joining a text in front of at least one more puts a space between. */
  lemma JoinCons(head: string, ts: seq<string>)
    requires |ts| >= 1
    ensures JoinTexts([head] + ts) == head + " " + JoinTexts(ts)
  {
    assert ([head] + ts)[1..] == ts;
  }

  /** The indices written back parse to themselves. */
  lemma {:induction false} TextsParse(xs: seq<int>, groupCount: nat)
    requires forall k :: 0 <= k < |xs| ==> 0 <= xs[k] < groupCount && xs[k] <= Int32Max
    ensures ParseIndexes(Texts(xs), groupCount) == Success(xs)
  {
    if xs != [] {
      IntTextParses(xs[0]);
      assert Texts(xs)[1..] == Texts(xs[1..]);
      TextsParse(xs[1..], groupCount);
      assert xs == [xs[0]] + xs[1..];
    }
  }

  /** What Apply keeps: one to eight indices of animation groups. */
  lemma AppliedIndexes(text: string, groupCount: nat)
    requires ApplyText(text, groupCount).Success?
    ensures var xs := ApplyText(text, groupCount).value;
      1 <= |xs| <= MaxIndexes &&
      forall k :: 0 <= k < |xs| ==> 0 <= xs[k] < groupCount && xs[k] <= Int32Max
  {
    var tokens := SplitSpaces(text);
    ParseIndexesSpec(tokens, groupCount);
    var ys := ParseIndexes(tokens, groupCount).value;
    var xs := ApplyText(text, groupCount).value;
    assert xs == Take(ys, MaxIndexes);
    forall k | 0 <= k < |xs|
      ensures 0 <= xs[k] < groupCount && xs[k] <= Int32Max
    {
      assert xs[k] == ys[k] == TokenIndex(tokens[k]);
    }
  }

  /** The text written for a non-empty list of indices starts with a
      digit, so it is not blank. */
  lemma JoinedNotBlank(xs: seq<int>)
    requires |xs| >= 1 && xs[0] >= 0
    ensures !IsBlank(Join(xs))
  {
    var ts := Texts(xs);
    var first := ts[0];
    assert first == DecimalText(xs[0]);
    JoinStartsWith(ts);
    assert IsDigit(Join(xs)[0]);
  }

  /** A join of texts starts where its first text starts. */
  lemma JoinStartsWith(ts: seq<string>)
    requires |ts| >= 1 && |ts[0]| >= 1
    ensures |JoinTexts(ts)| >= 1 && JoinTexts(ts)[0] == ts[0][0]
  {
    if |ts| > 1 {
      var rest := " " + JoinTexts(ts[1..]);
      assert JoinTexts(ts) == ts[0] + rest;
    }
  }

  /** Apply is idempotent: the text it writes back applies to the same
      indices. */
  lemma ApplyFixedPoint(text: string, groupCount: nat)
    requires ApplyText(text, groupCount).Success?
    ensures ApplyText(Join(ApplyText(text, groupCount).value), groupCount) == ApplyText(text, groupCount)
  {
    var xs := ApplyText(text, groupCount).value;
    AppliedIndexes(text, groupCount);
    JoinedNotBlank(xs);
    SplitJoin(Texts(xs));
    TextsParse(xs, groupCount);
  }

  // ---------------------------------------------------------------------
  // The view models

  /** One entry of the patch: its animation group indices and animation
      index. */
  datatype PatchEntry = PatchEntry(animGroupIndices: seq<int>, animIndex: int)

  class SfxEntryViewModel {
    /** AnimationFile.AnimationGroups.Length. */
    const groupCount: nat
    var isRed: bool
    var animGroupIndexes: seq<int>
    var text: string
    var unsavedChanges: bool

    constructor (groupCount: nat, animGroupIndexes: seq<int>, animIndex: int)
      ensures this.groupCount == groupCount && this.animGroupIndexes == animGroupIndexes
      ensures isRed == (animIndex == 0) && text == Join(animGroupIndexes) && !unsavedChanges
    {
      this.groupCount := groupCount;
      this.animGroupIndexes := animGroupIndexes;
      isRed := false;
      text := "";
      unsavedChanges := false;
      new;
      SetAnimIndex(animIndex);
      SetText(Join(animGroupIndexes));
      unsavedChanges := false;
    }

    /** The AnimIndex getter: 0 for red, 1 otherwise. */
    function AnimIndex(): (r: int)
      reads this
      ensures r == 0 <==> isRed
      ensures r == 0 || r == 1
    {
      if isRed then 0 else 1
    }

    method SetIsRed(v: bool)
      modifies this`isRed, this`unsavedChanges
      ensures isRed == v && unsavedChanges
    {
      isRed := v;
      unsavedChanges := true;
    }

    /** The AnimIndex setter: red exactly for 0, so the getter afterwards
        reads 0 for 0 and 1 for anything else. */
    method SetAnimIndex(v: int)
      modifies this`isRed, this`unsavedChanges
      ensures isRed == (v == 0) && unsavedChanges
      ensures AnimIndex() == if v == 0 then 0 else 1
    {
      SetIsRed(v == 0);
    }

    method SetText(v: string)
      modifies this`text, this`unsavedChanges
      ensures text == v && unsavedChanges
    {
      text := v;
      unsavedChanges := true;
    }

    /** Apply: a blank text, or any token that is not the index of an
        animation group, is refused and nothing changes; otherwise the
        first eight indices are kept, the text is rewritten from them and
        the entry counts as saved. */
    method Apply() returns (error: Option<ApplyError>)
      modifies this`animGroupIndexes, this`text, this`unsavedChanges
      ensures var r := ApplyText(old(text), groupCount);
        (r.Failure? ==>
           error == Some(r.error) && animGroupIndexes == old(animGroupIndexes) &&
           text == old(text) && unsavedChanges == old(unsavedChanges)) &&
        (r.Success? ==>
           error == None && animGroupIndexes == r.value && text == Join(r.value) && !unsavedChanges)
    {
      if IsBlank(text) {
        return Some(BlankText);
      }
      var values := SplitSpaces(text);
      var indexes: seq<int> := [];
      var k := 0;
      assert values[k..] == values;
      ghost var whole := ParseIndexes(values, groupCount);
      if whole.Success? {
        assert [] + whole.value == whole.value;
      }
      while k < |values|
        invariant 0 <= k <= |values|
        invariant ParseIndexes(values, groupCount) == Then(indexes, ParseIndexes(values[k..], groupCount))
        invariant animGroupIndexes == old(animGroupIndexes) && text == old(text) && unsavedChanges == old(unsavedChanges)
      {
        var value := values[k];
        var index := TokenIndex(value);
        assert values[k..][1..] == values[k + 1..];
        if index == -1 {
          return Some(NotAnIndex(value));
        }
        if index < 0 || index >= groupCount {
          return Some(OutOfRange(value));
        }
        ThenThen(indexes, [index], ParseIndexes(values[k + 1..], groupCount));
        indexes := indexes + [index];
        k := k + 1;
      }
      animGroupIndexes := Take(indexes, MaxIndexes);
      SetText(Join(animGroupIndexes));
      unsavedChanges := false;
      error := None;
    }
  }

  lemma ThenThen(a: seq<int>, b: seq<int>, r: Result<seq<int>, ApplyError>)
    ensures Then(a, Then(b, r)) == Then(a + b, r)
  {
    if r.Success? {
      assert a + (b + r.value) == (a + b) + r.value;
    }
  }

  class SfxPatchViewModel {
    /** Patch.Entries. */
    const entries: seq<PatchEntry>
    /** AnimationFile.AnimationGroups.Length. */
    const groupCount: nat
    var sfxEntries: seq<SfxEntryViewModel>

    /** The constructor builds the entries, which reads six patch
        entries. */
    constructor (entries: seq<PatchEntry>, groupCount: nat)
      requires |entries| >= EntryCount
      ensures this.entries == entries && this.groupCount == groupCount
      ensures Shows(sfxEntries, entries, groupCount)
    {
      this.entries := entries;
      this.groupCount := groupCount;
      sfxEntries := [];
      new;
      var faulted := RefreshItems();
    }

    /** RefreshItems: one fresh entry view model for each of the first six
        patch entries; with fewer than six the lookup throws and nothing
        changes. */
    method RefreshItems() returns (faulted: bool)
      modifies this`sfxEntries
      ensures faulted <==> |entries| < EntryCount
      ensures faulted ==> sfxEntries == old(sfxEntries)
      ensures !faulted ==> Shows(sfxEntries, entries, groupCount) && forall i :: 0 <= i < |sfxEntries| ==> fresh(sfxEntries[i])
    {
      var built: seq<SfxEntryViewModel> := [];
      var x := 0;
      while x < EntryCount
        invariant 0 <= x <= EntryCount && |built| == x
        invariant x > 0 ==> |entries| >= x
        invariant sfxEntries == old(sfxEntries)
        invariant forall i :: 0 <= i < x ==> fresh(built[i]) && Shown(built[i], entries[i], groupCount)
      {
        if x >= |entries| {
          return true;
        }
        var entry := new SfxEntryViewModel(groupCount, entries[x].animGroupIndices, entries[x].animIndex);
        built := built + [entry];
        x := x + 1;
      }
      sfxEntries := built;
      faulted := false;
    }
  }

  /** An entry view model as its constructor leaves it for a patch
      entry. */
  predicate Shown(e: SfxEntryViewModel, p: PatchEntry, groupCount: nat)
    reads e
  {
    e.groupCount == groupCount && e.animGroupIndexes == p.animGroupIndices &&
    e.isRed == (p.animIndex == 0) && e.text == Join(p.animGroupIndices) && !e.unsavedChanges
  }

  /** Exactly six entry view models, for the first six patch entries. */
  predicate Shows(es: seq<SfxEntryViewModel>, entries: seq<PatchEntry>, groupCount: nat)
    reads set i | 0 <= i < |es| :: es[i]
  {
    |es| == EntryCount && |entries| >= EntryCount &&
    forall i :: 0 <= i < EntryCount ==> Shown(es[i], entries[i], groupCount)
  }
}
