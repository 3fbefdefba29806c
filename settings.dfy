/**
 * The helpers of `SettingsViewController` that compute something: the text
 * shown for a recorded hotkey, the key-code label table, the integer colour
 * channels of `NSColor(hex:)`, and the trimming applied when the credentials
 * are saved.
 */
module Settings {
  import opened Wrappers
  import opened Encoding
  import opened ConfigManager

  // ---------------------------------------------------------------------
  // Trimming (`trimmingCharacters(in:)`)
  // ---------------------------------------------------------------------

  /** The length of the longest prefix of characters in the set `drop`. */
  function LeadingRun(s: string, drop: char -> bool): (n: nat)
    ensures n <= |s|
    ensures forall k :: 0 <= k < n ==> drop(s[k])
    ensures n < |s| ==> !drop(s[n])
  {
    if |s| > 0 && drop(s[0]) then 1 + LeadingRun(s[1..], drop) else 0
  }

  /** The length of the longest suffix of characters in the set `drop`. */
  function TrailingRun(s: string, drop: char -> bool): (n: nat)
    ensures n <= |s|
    ensures forall k :: |s| - n <= k < |s| ==> drop(s[k])
    ensures n < |s| ==> !drop(s[|s| - 1 - n])
  {
    if |s| > 0 && drop(s[|s| - 1]) then 1 + TrailingRun(s[..|s| - 1], drop) else 0
  }

  /**
   * `trimmingCharacters(in:)`: the slice of the input left once the
   * characters in `drop` are removed from both ends; it neither starts nor
   * ends with one of them.
   */
  function Trimming(s: string, drop: char -> bool): (r: string)
    ensures |r| > 0 ==> !drop(r[0]) && !drop(r[|r| - 1])
  {
    var rest := s[LeadingRun(s, drop)..];
    rest[..|rest| - TrailingRun(rest, drop)]
  }

  /**
   * Trimming keeps the contiguous slice that starts after the leading run of
   * characters in `drop`, and everything it removes is in `drop`.
   */
  lemma {:induction false} TrimmingIsSlice(s: string, drop: char -> bool)
    ensures var r := Trimming(s, drop);
      var i := LeadingRun(s, drop);
      && i + |r| <= |s| && r == s[i..i + |r|]
      && (forall k :: 0 <= k < i ==> drop(s[k]))
      && (forall k :: i + |r| <= k < |s| ==> drop(s[k]))
  {
    var i := LeadingRun(s, drop);
    var rest := s[i..];
    var r := Trimming(s, drop);
    var j := |rest| - TrailingRun(rest, drop);
    assert r == rest[..j] && |r| == j;
    assert s[i..i + j] == rest[..j];
    forall k | i + j <= k < |s| ensures drop(s[k]) {
      assert s[k] == rest[k - i];
    }
  }

  /** Trimming is idempotent. */
  lemma TrimmingIdempotent(s: string, drop: char -> bool)
    ensures Trimming(Trimming(s, drop), drop) == Trimming(s, drop)
  {
    var r := Trimming(s, drop);
    assert LeadingRun(r, drop) == 0;
    assert r[0..] == r;
    assert TrailingRun(r, drop) == 0;
  }

  /** Trimming leaves nothing exactly when every character is in `drop`. */
  lemma TrimmingEmpty(s: string, drop: char -> bool)
    ensures Trimming(s, drop) == "" <==> forall k :: 0 <= k < |s| ==> drop(s[k])
  {
    var i := LeadingRun(s, drop);
    if Trimming(s, drop) == "" {
      var rest := s[i..];
      assert |rest| == TrailingRun(rest, drop);
    } else {
      var r := Trimming(s, drop);
      TrimmingIsSlice(s, drop);
      assert s[i] == r[0];
    }
  }

  /** `CharacterSet.whitespaces`: the tab and the Unicode space separators (category Zs). */
  predicate IsWhitespace(c: char) {
    || c == '\t' || c == ' ' || c == '\U{00A0}' || c == '\U{1680}'
    || ('\U{2000}' <= c <= '\U{200A}')
    || c == '\U{202F}' || c == '\U{205F}' || c == '\U{3000}'
  }

  function TrimWhitespace(s: string): (r: string)
    ensures |r| > 0 ==> !IsWhitespace(r[0]) && !IsWhitespace(r[|r| - 1])
  {
    Trimming(s, IsWhitespace)
  }

  /**
   * `saveConfiguration`: the secret id and key are stored without
   * surrounding whitespace, the region exactly as entered. Credentials typed
   * as whitespace only therefore leave the store unconfigured.
   */
  method SaveConfiguration(store: ConfigStore, secretIdField: string, secretKeyField: string,
                           regionField: string)
    modifies store
    ensures store.defaults == old(store.defaults)[SecretIdKey := TrimWhitespace(secretIdField)]
                                                 [SecretKeyKey := TrimWhitespace(secretKeyField)]
                                                 [RegionKey := regionField]
    ensures store.Snapshot() ==
      Credentials(TrimWhitespace(secretIdField), TrimWhitespace(secretKeyField), regionField)
    ensures IsConfigured(store.Snapshot()) <==>
      && (exists k :: 0 <= k < |secretIdField| && !IsWhitespace(secretIdField[k]))
      && (exists k :: 0 <= k < |secretKeyField| && !IsWhitespace(secretKeyField[k]))
  {
    var secretId := TrimWhitespace(secretIdField);
    var secretKey := TrimWhitespace(secretKeyField);
    var region := regionField;
    store.SetSecretId(secretId);
    store.SetSecretKey(secretKey);
    store.SetRegion(region);
    TrimmingEmpty(secretIdField, IsWhitespace);
    TrimmingEmpty(secretKeyField, IsWhitespace);
  }

  // ---------------------------------------------------------------------
  // Key labels (`keyCharFor`)
  // ---------------------------------------------------------------------

  /** The table of `keyCharFor`: the one-character label of each listed key code. */
  function KeyLabel(keyCode: nat): (entry: Option<char>)
    ensures entry != Some('?')
  {
    match keyCode
    case 0 => Some('A')
    case 1 => Some('S')
    case 2 => Some('D')
    case 3 => Some('F')
    case 4 => Some('H')
    case 5 => Some('G')
    case 6 => Some('Z')
    case 7 => Some('X')
    case 8 => Some('C')
    case 9 => Some('V')
    case 11 => Some('B')
    case 12 => Some('Q')
    case 13 => Some('W')
    case 14 => Some('E')
    case 15 => Some('R')
    case 16 => Some('Y')
    case 17 => Some('T')
    case 18 => Some('1')
    case 19 => Some('2')
    case 20 => Some('3')
    case 21 => Some('4')
    case 22 => Some('6')
    case 23 => Some('5')
    case 24 => Some('=')
    case 25 => Some('9')
    case 26 => Some('7')
    case 27 => Some('-')
    case 28 => Some('8')
    case 29 => Some('0')
    case 30 => Some(']')
    case 31 => Some('O')
    case 32 => Some('U')
    case 33 => Some('[')
    case 34 => Some('I')
    case 35 => Some('P')
    case 37 => Some('L')
    case 38 => Some('J')
    case 39 => Some('\'')
    case 40 => Some('K')
    case 41 => Some(';')
    case 42 => Some('\\')
    case 43 => Some(',')
    case 44 => Some('/')
    case 45 => Some('N')
    case 46 => Some('M')
    case 47 => Some('.')
    case 50 => Some('`')
    case 65 => Some('.')
    case _ => None
  }

  /** `keyCharFor`: the label of a listed key code, "?" for any other. */
  function KeyCharFor(keyCode: nat): (shown: string)
    ensures |shown| == 1
    ensures shown == "?" <==> KeyLabel(keyCode).None?
  {
    if KeyLabel(keyCode).Some? then [KeyLabel(keyCode).value] else "?"
  }

  /** Examples from the table: listed codes, including the two codes labelled ".". */
  lemma KeyCharForListed()
    ensures KeyCharFor(1) == "S" && KeyCharFor(7) == "X"
    ensures KeyCharFor(47) == "." && KeyCharFor(65) == "."
  {
  }

  /** Codes that are not in the table show "?". */
  lemma KeyCharForUnlisted()
    ensures KeyCharFor(10) == "?" && KeyCharFor(36) == "?" && KeyCharFor(66) == "?"
  {
  }

  // ---------------------------------------------------------------------
  // Hotkey text (`hotkeyStringFor`)
  // ---------------------------------------------------------------------

  /** `NSEvent.ModifierFlags` raw values. */
  const CommandMask: bv64 := 1 << 20
  const OptionMask: bv64 := 1 << 19
  const ControlMask: bv64 := 1 << 18
  const ShiftMask: bv64 := 1 << 17

  const CommandGlyph: char := '\U{2318}'
  const OptionGlyph: char := '\U{2325}'
  const ControlGlyph: char := '\U{2303}'
  const ShiftGlyph: char := '\U{21E7}'

  predicate IsModifierGlyph(c: char) {
    c == CommandGlyph || c == OptionGlyph || c == ControlGlyph || c == ShiftGlyph
  }

  /** The position of a modifier glyph in the fixed display order. */
  function GlyphRank(c: char): nat
    requires IsModifierGlyph(c)
  {
    if c == CommandGlyph then 0 else if c == OptionGlyph then 1 else if c == ControlGlyph then 2 else 3
  }

  predicate HasFlag(modifiers: bv64, mask: bv64) {
    modifiers & mask != 0
  }

  /** The modifier glyphs shown for `modifiers`, in display order. */
  function ModifierGlyphs(modifiers: bv64): string {
    GlyphsFor(HasFlag(modifiers, CommandMask), HasFlag(modifiers, OptionMask),
              HasFlag(modifiers, ControlMask), HasFlag(modifiers, ShiftMask))
  }

  function GlyphsFor(command: bool, option: bool, control: bool, shift: bool): string {
    (if command then [CommandGlyph] else [])
    + (if option then [OptionGlyph] else [])
    + (if control then [ControlGlyph] else [])
    + (if shift then [ShiftGlyph] else [])
  }

  /** Only modifier glyphs, in strictly increasing display rank. */
  predicate OrderedGlyphs(glyphs: string) {
    && (forall k :: 0 <= k < |glyphs| ==> IsModifierGlyph(glyphs[k]))
    && (forall k, l :: 0 <= k < l < |glyphs| ==>
          IsModifierGlyph(glyphs[k]) && IsModifierGlyph(glyphs[l]) && GlyphRank(glyphs[k]) < GlyphRank(glyphs[l]))
  }

  /** Every glyph ranks below `n`. */
  predicate RanksBelow(glyphs: string, n: nat) {
    forall k :: 0 <= k < |glyphs| ==> IsModifierGlyph(glyphs[k]) && GlyphRank(glyphs[k]) < n
  }

  /** Appending a glyph, if its flag is set, that outranks all before it keeps the order. */
  lemma AppendGlyph(glyphs: string, flag: bool, c: char, next: nat)
    requires IsModifierGlyph(c) && GlyphRank(c) < next
    requires OrderedGlyphs(glyphs) && RanksBelow(glyphs, GlyphRank(c))
    ensures var g := glyphs + (if flag then [c] else []);
      OrderedGlyphs(g) && RanksBelow(g, next)
  {
  }

  /** The glyphs for command, option and control alone are in display order. */
  lemma LeadingGlyphsOrdered(command: bool, option: bool, control: bool)
    ensures var g := GlyphsFor(command, option, control, false);
      OrderedGlyphs(g) && RanksBelow(g, GlyphRank(ShiftGlyph))
  {
    var c: string := if command then [CommandGlyph] else [];
    var o: string := if option then [OptionGlyph] else [];
    AppendGlyph([], command, CommandGlyph, GlyphRank(OptionGlyph));
    assert [] + c == c;
    AppendGlyph(c, option, OptionGlyph, GlyphRank(ControlGlyph));
    var t: string := if control then [ControlGlyph] else [];
    AppendGlyph(c + o, control, ControlGlyph, GlyphRank(ShiftGlyph));
    var g := c + o + t;
    assert g + [] == g;
  }

  /** The glyphs for any combination of flags are in display order. */
  lemma GlyphsForOrdered(command: bool, option: bool, control: bool, shift: bool)
    ensures OrderedGlyphs(GlyphsFor(command, option, control, shift))
  {
    var g := GlyphsFor(command, option, control, false);
    LeadingGlyphsOrdered(command, option, control);
    AppendGlyph(g, shift, ShiftGlyph, GlyphRank(ShiftGlyph) + 1);
    assert GlyphsFor(command, option, control, shift) == g + (if shift then [ShiftGlyph] else []);
  }

  /** Each glyph is present exactly when its flag is set. */
  lemma GlyphsForMembers(command: bool, option: bool, control: bool, shift: bool)
    ensures var glyphs := GlyphsFor(command, option, control, shift);
      && (CommandGlyph in glyphs <==> command)
      && (OptionGlyph in glyphs <==> option)
      && (ControlGlyph in glyphs <==> control)
      && (ShiftGlyph in glyphs <==> shift)
  {
    var c: string := if command then [CommandGlyph] else [];
    var o: string := if option then [OptionGlyph] else [];
    var t: string := if control then [ControlGlyph] else [];
    var s: string := if shift then [ShiftGlyph] else [];
    var glyphs := c + o + t + s;
    assert glyphs == GlyphsFor(command, option, control, shift);
    assert CommandGlyph in glyphs <==> CommandGlyph in c || CommandGlyph in o || CommandGlyph in t || CommandGlyph in s;
    assert OptionGlyph in glyphs <==> OptionGlyph in c || OptionGlyph in o || OptionGlyph in t || OptionGlyph in s;
    assert ControlGlyph in glyphs <==> ControlGlyph in c || ControlGlyph in o || ControlGlyph in t || ControlGlyph in s;
    assert ShiftGlyph in glyphs <==> ShiftGlyph in c || ShiftGlyph in o || ShiftGlyph in t || ShiftGlyph in s;
  }

  /**
   * Each modifier's glyph appears exactly when its flag is set, at most once,
   * and the glyphs appear in the order command, option, control, shift.
   */
  lemma ModifierGlyphsOrdered(modifiers: bv64)
    ensures var glyphs := ModifierGlyphs(modifiers);
      && OrderedGlyphs(glyphs)
      && (CommandGlyph in glyphs <==> HasFlag(modifiers, CommandMask))
      && (OptionGlyph in glyphs <==> HasFlag(modifiers, OptionMask))
      && (ControlGlyph in glyphs <==> HasFlag(modifiers, ControlMask))
      && (ShiftGlyph in glyphs <==> HasFlag(modifiers, ShiftMask))
  {
    var command, option := HasFlag(modifiers, CommandMask), HasFlag(modifiers, OptionMask);
    var control, shift := HasFlag(modifiers, ControlMask), HasFlag(modifiers, ShiftMask);
    GlyphsForOrdered(command, option, control, shift);
    GlyphsForMembers(command, option, control, shift);
  }

  /**
   * `hotkeyStringFor`: the glyphs of the modifiers that are set, then the
   * key's label, which is always the last character.
   */
  method HotkeyStringFor(keyCode: nat, modifiers: bv64) returns (result: string)
    ensures result == ModifierGlyphs(modifiers) + KeyCharFor(keyCode)
    ensures |result| >= 1 && result[|result| - 1..] == KeyCharFor(keyCode)
    ensures result[..|result| - 1] == ModifierGlyphs(modifiers)
  {
    result := "";
    if modifiers & CommandMask != 0 {
      result := result + [CommandGlyph];
    }
    if modifiers & OptionMask != 0 {
      result := result + [OptionGlyph];
    }
    if modifiers & ControlMask != 0 {
      result := result + [ControlGlyph];
    }
    if modifiers & ShiftMask != 0 {
      result := result + [ShiftGlyph];
    }
    assert result == ModifierGlyphs(modifiers);
    result := result + KeyCharFor(keyCode);
  }

  // ---------------------------------------------------------------------
  // Colour channels (`NSColor(hex:)`)
  // ---------------------------------------------------------------------

  /** ASCII letters and digits; see README for the non-ASCII ones. */
  predicate IsAlphanumeric(c: char) {
    ('0' <= c <= '9') || ('a' <= c <= 'z') || ('A' <= c <= 'Z')
  }

  predicate NotAlphanumeric(c: char) {
    !IsAlphanumeric(c)
  }

  predicate IsHexDigit(c: char) {
    HexDigitValue(c) >= 0
  }

  /** The length of the leading run of hex digits. */
  function HexRun(s: string): (n: nat)
    ensures n <= |s|
    ensures forall k :: 0 <= k < n ==> IsHexDigit(s[k])
    ensures n < |s| ==> !IsHexDigit(s[n])
  {
    if |s| > 0 && IsHexDigit(s[0]) then 1 + HexRun(s[1..]) else 0
  }

  function Pow16(n: nat): (r: nat)
    ensures r >= 1
  {
    if n == 0 then 1 else 16 * Pow16(n - 1)
  }

  /** The number a string of hex digits denotes, most significant first. */
  function HexValue(s: string): (v: nat)
    requires forall k :: 0 <= k < |s| ==> IsHexDigit(s[k])
    ensures v < Pow16(|s|)
  {
    if s == [] then 0
    else
      assert IsHexDigit(s[|s| - 1]);
      HexValue(s[..|s| - 1]) * 16 + HexDigitValue(s[|s| - 1])
  }

  /**
   * `Scanner.scanHexInt64`: an optional "0x" or "0X" before at least one hex
   * digit, then the longest run of hex digits; 0 when there is none.
   */
  function ScanHex(s: string): (v: nat)
    ensures v < Pow16(|s|)
  {
    if |s| >= 3 && s[0] == '0' && (s[1] == 'x' || s[1] == 'X') && IsHexDigit(s[2]) then
      var digits := s[2..][..HexRun(s[2..])];
      Pow16Monotonic(|digits|, |s|);
      HexValue(digits)
    else
      var digits := s[..HexRun(s)];
      Pow16Monotonic(|digits|, |s|);
      HexValue(digits)
  }

  lemma {:induction false} Pow16Monotonic(m: nat, n: nat)
    requires m <= n
    ensures Pow16(m) <= Pow16(n)
    decreases n
  {
    if m < n {
      Pow16Monotonic(m, n - 1);
    }
  }

  datatype Argb = Argb(a: nat, r: nat, g: nat, b: nat)

  /**
   * The integer channels of `NSColor(hex:)`: the input is trimmed of
   * non-alphanumeric characters at both ends and scanned as hex; three
   * digits give each nibble times 17, six give opaque RGB, eight give ARGB,
   * and any other length the fallback (1, 1, 1, 0).
   */
  function ColorChannels(hex: string): (c: Argb)
    ensures c.a <= 255 && c.r <= 255 && c.g <= 255 && c.b <= 255
  {
    var text := Trimming(hex, NotAlphanumeric);
    var v := ScanHex(text);
    if |text| == 3 then
      Argb(255, (v / 0x100) * 17, (v / 0x10 % 0x10) * 17, (v % 0x10) * 17)
    else if |text| == 6 then
      Argb(255, v / 0x1_0000, v / 0x100 % 0x100, v % 0x100)
    else if |text| == 8 then
      Argb(v / 0x100_0000, v / 0x1_0000 % 0x100, v / 0x100 % 0x100, v % 0x100)
    else
      Argb(1, 1, 1, 0)
  }

  /** Any length other than 3, 6 or 8 after trimming gives the fallback. */
  lemma ColorFallback(hex: string)
    requires |Trimming(hex, NotAlphanumeric)| !in {3, 6, 8}
    ensures ColorChannels(hex) == Argb(1, 1, 1, 0)
  {
  }

  /** The value of hex digits written one after another. */
  lemma {:induction false} HexValueAppend(x: string, y: string)
    requires forall k :: 0 <= k < |x| ==> IsHexDigit(x[k])
    requires forall k :: 0 <= k < |y| ==> IsHexDigit(y[k])
    ensures forall k :: 0 <= k < |x + y| ==> IsHexDigit((x + y)[k])
    ensures HexValue(x + y) == HexValue(x) * Pow16(|y|) + HexValue(y)
    decreases |y|
  {
    var xy := x + y;
    assert forall k :: 0 <= k < |xy| ==> IsHexDigit(xy[k]) by {
      forall k | 0 <= k < |xy| ensures IsHexDigit(xy[k]) {
        if k < |x| { assert xy[k] == x[k]; } else { assert xy[k] == y[k - |x|]; }
      }
    }
    if y == [] {
      assert xy == x;
    } else {
      var y' := y[..|y| - 1];
      var d := HexDigitValue(y[|y| - 1]);
      assert xy[..|xy| - 1] == x + y';
      assert xy[|xy| - 1] == y[|y| - 1];
      HexValueAppend(x, y');
      var vx, vy', p := HexValue(x), HexValue(y'), Pow16(|y'|);
      assert HexValue(xy) == (vx * p + vy') * 16 + d;
      assert HexValue(y) == vy' * 16 + d;
      assert Pow16(|y|) == 16 * p;
      ShiftDigit(vx, p, vy', d);
    }
  }

  lemma ShiftDigit(vx: int, p: int, vy: int, d: int)
    ensures (vx * p + vy) * 16 + d == vx * (16 * p) + (vy * 16 + d)
  {
  }

  /** The value of a byte's two lowercase hex digits is the byte. */
  lemma HexByteValue(b: byte)
    ensures var h := Hex([b]); (forall k :: 0 <= k < |h| ==> IsHexDigit(h[k])) && HexValue(h) == b as nat
  {
    var h := Hex([b]);
    HexDigitRoundTrip(b as nat / 16);
    HexDigitRoundTrip(b as nat % 16);
    assert h[..1] == [h[0]];
    assert HexValue(h[..1]) == HexDigitValue(h[0]);
  }

  /** Lowercase hex digits are alphanumeric hex digits. */
  lemma HexDigits(bs: seq<byte>)
    ensures forall k :: 0 <= k < |Hex(bs)| ==> IsHexDigit(Hex(bs)[k]) && IsAlphanumeric(Hex(bs)[k])
  {
  }

  /** Trimming "#" off "#" + digits leaves the digits. */
  lemma TrimHash(h: string)
    requires |h| > 0 && forall k :: 0 <= k < |h| ==> IsAlphanumeric(h[k])
    ensures Trimming("#" + h, NotAlphanumeric) == h
  {
    var s := "#" + h;
    assert s[1..] == h;
    assert NotAlphanumeric(s[0]);
    assert !NotAlphanumeric(h[0]) && !NotAlphanumeric(h[|h| - 1]);
    assert LeadingRun(h, NotAlphanumeric) == 0;
    assert LeadingRun(s, NotAlphanumeric) == 1;
    assert TrailingRun(h, NotAlphanumeric) == 0;
  }

  /** A run of hex digits with no "0x" in front is scanned whole. */
  lemma ScanAllDigits(h: string)
    requires forall k :: 0 <= k < |h| ==> IsHexDigit(h[k])
    requires |h| >= 2 ==> h[1] != 'x' && h[1] != 'X'
    ensures ScanHex(h) == HexValue(h)
  {
    assert HexRun(h) == |h| by { HexRunAll(h); }
    assert h[..|h|] == h;
  }

  lemma {:induction false} HexRunAll(h: string)
    requires forall k :: 0 <= k < |h| ==> IsHexDigit(h[k])
    ensures HexRun(h) == |h|
    decreases |h|
  {
    if |h| > 0 {
      HexRunAll(h[1..]);
    }
  }

  /** The number that bytes denote, most significant first. */
  function BigEndian(bs: seq<byte>): nat {
    if bs == [] then 0 else BigEndian(bs[..|bs| - 1]) * 0x100 + bs[|bs| - 1] as nat
  }

  /** Hex works byte by byte. */
  lemma {:induction false} HexAppend(a: seq<byte>, b: seq<byte>)
    ensures Hex(a + b) == Hex(a) + Hex(b)
    decreases |a|
  {
    if a == [] {
      assert a + b == b;
    } else {
      assert (a + b)[1..] == a[1..] + b;
      HexAppend(a[1..], b);
    }
  }

  /** Scanning the lowercase hex of some bytes gives back the number they denote. */
  lemma {:induction false} HexValueOfHex(bs: seq<byte>)
    ensures var h := Hex(bs);
      (forall k :: 0 <= k < |h| ==> IsHexDigit(h[k])) && HexValue(h) == BigEndian(bs)
    decreases |bs|
  {
    HexDigits(bs);
    if bs != [] {
      var init, last := bs[..|bs| - 1], bs[|bs| - 1];
      assert init + [last] == bs;
      HexAppend(init, [last]);
      HexValueOfHex(init);
      HexByteValue(last);
      HexValueAppend(Hex(init), Hex([last]));
      assert Pow16(2) == 0x100;
    }
  }

  lemma BigEndian3(x: byte, y: byte, z: byte)
    ensures BigEndian([x, y, z]) == x as nat * 0x1_0000 + y as nat * 0x100 + z as nat
  {
    assert BigEndian([x]) == x as nat by { assert [x][..0] == []; }
    assert BigEndian([x, y]) == BigEndian([x]) * 0x100 + y as nat by { assert [x, y][..1] == [x]; }
    assert BigEndian([x, y, z]) == BigEndian([x, y]) * 0x100 + z as nat by { assert [x, y, z][..2] == [x, y]; }
  }

  lemma BigEndian4(w: byte, x: byte, y: byte, z: byte)
    ensures BigEndian([w, x, y, z]) == w as nat * 0x100_0000 + (x as nat * 0x1_0000 + y as nat * 0x100 + z as nat)
  {
    assert [w, x, y, z][..3] == [w, x, y];
    BigEndian3(w, x, y);
  }

  /** Big-endian bytes read back by division and remainder. */
  lemma Bytes3(r: nat, g: nat, b: nat)
    requires r < 256 && g < 256 && b < 256
    ensures var v := r * 0x1_0000 + g * 0x100 + b;
      v / 0x1_0000 == r && v / 0x100 % 0x100 == g && v % 0x100 == b
  {
    var v := r * 0x1_0000 + g * 0x100 + b;
    assert v / 0x100 == r * 0x100 + g;
    assert (r * 0x100 + g) % 0x100 == g;
  }

  lemma Bytes4(a: nat, r: nat, g: nat, b: nat)
    requires a < 256 && r < 256 && g < 256 && b < 256
    ensures var v := a * 0x100_0000 + (r * 0x1_0000 + g * 0x100 + b);
      v / 0x100_0000 == a && v / 0x1_0000 % 0x100 == r && v / 0x100 % 0x100 == g && v % 0x100 == b
  {
    var w := r * 0x1_0000 + g * 0x100 + b;
    var v := a * 0x100_0000 + w;
    assert v / 0x100 == a * 0x1_0000 + r * 0x100 + g;
    assert v / 0x1_0000 == a * 0x100 + r;
    assert v / 0x100_0000 == a;
  }

  /** Lowercase hex digits are scanned whole, with nothing trimmed off after a "#". */
  lemma ScanHashedHex(bs: seq<byte>)
    requires |bs| > 0
    ensures var h := Hex(bs);
      && (forall k :: 0 <= k < |h| ==> IsHexDigit(h[k]))
      && Trimming("#" + h, NotAlphanumeric) == h
      && ScanHex(h) == HexValue(h)
  {
    var h := Hex(bs);
    HexDigits(bs);
    TrimHash(h);
    assert IsLowerHexChar(h[1]);
    ScanAllDigits(h);
  }

  /** "#rrggbb" in lowercase hex gives back the three bytes, fully opaque. */
  lemma ColorRoundTrip6(r: byte, g: byte, b: byte)
    ensures ColorChannels("#" + Hex([r, g, b])) == Argb(255, r as nat, g as nat, b as nat)
  {
    ScanHashedHex([r, g, b]);
    HexValueOfHex([r, g, b]);
    BigEndian3(r, g, b);
    Bytes3(r as nat, g as nat, b as nat);
  }

  /** "#aarrggbb" in lowercase hex gives back the four bytes, alpha first. */
  lemma ColorRoundTrip8(a: byte, r: byte, g: byte, b: byte)
    ensures ColorChannels("#" + Hex([a, r, g, b])) == Argb(a as nat, r as nat, g as nat, b as nat)
  {
    ScanHashedHex([a, r, g, b]);
    HexValueOfHex([a, r, g, b]);
    BigEndian4(a, r, g, b);
    Bytes4(a as nat, r as nat, g as nat, b as nat);
  }

  /** One more hex digit on the right multiplies the value by 16 and adds the digit. */
  lemma HexValueSnoc(s: string, c: char)
    requires forall k :: 0 <= k < |s| ==> IsHexDigit(s[k])
    requires IsHexDigit(c)
    ensures forall k :: 0 <= k < |s + [c]| ==> IsHexDigit((s + [c])[k])
    ensures HexValue(s + [c]) == HexValue(s) * 16 + HexDigitValue(c)
  {
    assert (s + [c])[..|s|] == s;
  }

  /** Three nibbles read back by division and remainder. */
  lemma Nibbles3(r: nat, g: nat, b: nat)
    requires r < 16 && g < 16 && b < 16
    ensures var v := (r * 16 + g) * 16 + b;
      v / 0x100 == r && v / 0x10 % 0x10 == g && v % 0x10 == b
  {
    var v := (r * 16 + g) * 16 + b;
    assert v / 0x10 == r * 16 + g;
  }

  /** The value of three hex digits. */
  lemma HexValueNibbles(r: nat, g: nat, b: nat)
    requires r < 16 && g < 16 && b < 16
    ensures var h := [HexDigit(r), HexDigit(g), HexDigit(b)];
      (forall k :: 0 <= k < |h| ==> IsHexDigit(h[k])) && HexValue(h) == (r * 16 + g) * 16 + b
  {
    HexDigitRoundTrip(r);
    HexDigitRoundTrip(g);
    HexDigitRoundTrip(b);
    HexValueSnoc([], HexDigit(r));
    HexValueSnoc([HexDigit(r)], HexDigit(g));
    HexValueSnoc([HexDigit(r), HexDigit(g)], HexDigit(b));
    assert [] + [HexDigit(r)] == [HexDigit(r)];
    assert [HexDigit(r)] + [HexDigit(g)] + [HexDigit(b)] == [HexDigit(r), HexDigit(g), HexDigit(b)];
  }

  /** "#rgb" gives each digit's value times 17, fully opaque. */
  lemma ColorRoundTrip3(r: nat, g: nat, b: nat)
    requires r < 16 && g < 16 && b < 16
    ensures ColorChannels("#" + [HexDigit(r), HexDigit(g), HexDigit(b)]) == Argb(255, r * 17, g * 17, b * 17)
  {
    var h := [HexDigit(r), HexDigit(g), HexDigit(b)];
    HexValueNibbles(r, g, b);
    TrimHash(h);
    ScanAllDigits(h);
    var v := ScanHex(Trimming("#" + h, NotAlphanumeric));
    assert v == (r * 16 + g) * 16 + b;
    Nibbles3(r, g, b);
  }

  // Colours written with hex digits of either case

  /** The value of one hex digit of either case, as a natural number. */
  function DigitValue(c: char): (v: nat)
    requires IsHexDigit(c)
    ensures v < 16
  {
    HexDigitValue(c)
  }

  /** A "#" in front of hex digits is all that trimming removes, and the digits are scanned whole. */
  lemma TrimHashDigits(h: string)
    requires |h| > 0 && forall k :: 0 <= k < |h| ==> IsHexDigit(h[k])
    ensures Trimming("#" + h, NotAlphanumeric) == h
    ensures ScanHex(h) == HexValue(h)
  {
    assert forall k :: 0 <= k < |h| ==> IsAlphanumeric(h[k]);
    TrimHash(h);
    ScanAllDigits(h);
  }

  /** Two hex digits are worth sixteen times the first plus the second. */
  lemma HexValue2(h: string)
    requires |h| == 2 && forall k :: 0 <= k < |h| ==> IsHexDigit(h[k])
    ensures HexValue(h) == DigitValue(h[0]) * 16 + DigitValue(h[1])
  {
    assert h[..1][..0] == [] && h[..1][0] == h[0];
  }

  lemma Radix3(x: int, y: int, z: int)
    ensures (x * 0x100 + y) * 0x100 + z == x * 0x1_0000 + y * 0x100 + z
  {
  }

  lemma Radix4(w: int, x: int, y: int, z: int)
    ensures (w * 0x1_0000 + x * 0x100 + y) * 0x100 + z == w * 0x100_0000 + (x * 0x1_0000 + y * 0x100 + z)
  {
  }

  /** Hex digits followed by two more: the value grows by a factor of 256. */
  lemma HexValueLastPair(h: string)
    requires |h| >= 2 && forall k :: 0 <= k < |h| ==> IsHexDigit(h[k])
    ensures HexValue(h) == HexValue(h[..|h| - 2]) * 0x100 + HexValue(h[|h| - 2..])
  {
    var x, y := h[..|h| - 2], h[|h| - 2..];
    assert h == x + y;
    HexValueAppend(x, y);
    assert Pow16(2) == 0x100;
  }

  /** Three pairs of hex digits, most significant first. */
  lemma HexValuePairs3(h: string)
    requires |h| == 6 && forall k :: 0 <= k < |h| ==> IsHexDigit(h[k])
    ensures HexValue(h) == HexValue(h[..2]) * 0x1_0000 + HexValue(h[2..4]) * 0x100 + HexValue(h[4..])
  {
    HexValueLastPair(h);
    var front := h[..4];
    HexValueLastPair(front);
    assert front[..2] == h[..2] && front[2..] == h[2..4];
    Radix3(HexValue(h[..2]), HexValue(h[2..4]), HexValue(h[4..]));
  }

  /** "#rgb" in hex digits of either case gives each digit's value times 17, fully opaque. */
  lemma ColorDigits3(h: string)
    requires |h| == 3 && forall k :: 0 <= k < |h| ==> IsHexDigit(h[k])
    ensures ColorChannels("#" + h) ==
      Argb(255, DigitValue(h[0]) * 17, DigitValue(h[1]) * 17, DigitValue(h[2]) * 17)
  {
    TrimHashDigits(h);
    var x := h[..2];
    HexValue2(x);
    assert HexValue(h) == HexValue(x) * 16 + HexDigitValue(h[2]);
    Nibbles3(DigitValue(h[0]), DigitValue(h[1]), DigitValue(h[2]));
  }

  /**
   * "#rrggbb" in hex digits of either case: each channel is the value of its
   * two digits, the first worth sixteen times the second, fully opaque.
   */
  lemma ColorDigits6(h: string)
    requires |h| == 6 && forall k :: 0 <= k < |h| ==> IsHexDigit(h[k])
    ensures ColorChannels("#" + h) == Argb(255,
      DigitValue(h[0]) * 16 + DigitValue(h[1]),
      DigitValue(h[2]) * 16 + DigitValue(h[3]),
      DigitValue(h[4]) * 16 + DigitValue(h[5]))
  {
    TrimHashDigits(h);
    HexValuePairs3(h);
    var x, y, z := h[..2], h[2..4], h[4..];
    HexValue2(x);
    HexValue2(y);
    HexValue2(z);
    Bytes3(HexValue(x), HexValue(y), HexValue(z));
  }

  /** Four pairs of hex digits, most significant first, each pair worth sixteen times its first digit plus its second. */
  lemma HexValuePairs4(h: string)
    requires |h| == 8 && forall k :: 0 <= k < |h| ==> IsHexDigit(h[k])
    ensures HexValue(h) ==
      (DigitValue(h[0]) * 16 + DigitValue(h[1])) * 0x100_0000
      + ((DigitValue(h[2]) * 16 + DigitValue(h[3])) * 0x1_0000
         + (DigitValue(h[4]) * 16 + DigitValue(h[5])) * 0x100
         + (DigitValue(h[6]) * 16 + DigitValue(h[7])))
  {
    HexValueLastPair(h);
    var front := h[..6];
    HexValuePairs3(front);
    var w, x, y, z := h[..2], h[2..4], h[4..6], h[6..];
    assert front[..2] == w && front[2..4] == x && front[4..] == y;
    Radix4(HexValue(w), HexValue(x), HexValue(y), HexValue(z));
    HexValue2(w);
    HexValue2(x);
    HexValue2(y);
    HexValue2(z);
  }

  /** "#aarrggbb" in hex digits of either case: each channel from its two digits, alpha first. */
  lemma ColorDigits8(h: string)
    requires |h| == 8 && forall k :: 0 <= k < |h| ==> IsHexDigit(h[k])
    ensures ColorChannels("#" + h) == Argb(
      DigitValue(h[0]) * 16 + DigitValue(h[1]),
      DigitValue(h[2]) * 16 + DigitValue(h[3]),
      DigitValue(h[4]) * 16 + DigitValue(h[5]),
      DigitValue(h[6]) * 16 + DigitValue(h[7]))
  {
    ScannedDigits8(h);
    ChannelsOfDigits8(h);
  }

  lemma ChannelsOfDigits8(h: string)
    requires |h| == 8 && forall k :: 0 <= k < |h| ==> IsHexDigit(h[k])
    ensures var v := HexValue(h);
      && v / 0x100_0000 == DigitValue(h[0]) * 16 + DigitValue(h[1])
      && v / 0x1_0000 % 0x100 == DigitValue(h[2]) * 16 + DigitValue(h[3])
      && v / 0x100 % 0x100 == DigitValue(h[4]) * 16 + DigitValue(h[5])
      && v % 0x100 == DigitValue(h[6]) * 16 + DigitValue(h[7])
  {
    HexValuePairs4(h);
    Bytes4(DigitValue(h[0]) * 16 + DigitValue(h[1]), DigitValue(h[2]) * 16 + DigitValue(h[3]),
           DigitValue(h[4]) * 16 + DigitValue(h[5]), DigitValue(h[6]) * 16 + DigitValue(h[7]));
  }

  lemma ScannedDigits8(h: string)
    requires |h| == 8 && forall k :: 0 <= k < |h| ==> IsHexDigit(h[k])
    ensures var v := HexValue(h);
      ColorChannels("#" + h) == Argb(v / 0x100_0000, v / 0x1_0000 % 0x100, v / 0x100 % 0x100, v % 0x100)
  {
    TrimHashDigits(h);
  }

  /** An upper-case hex letter is worth the same as its lower-case form. */
  lemma HexDigitValueIgnoresCase(c: char, lower: char)
    requires 'A' <= c <= 'Z' && lower as int == c as int + 32
    ensures HexDigitValue(lower) == HexDigitValue(c)
  {
  }

  /** Lower-casing hex digits keeps each one a digit of the same value. */
  lemma DigitsIgnoreCase(h: string)
    requires forall k :: 0 <= k < |h| ==> IsHexDigit(h[k])
    ensures |AsciiLower(h)| == |h|
    ensures forall k :: 0 <= k < |h| ==> IsHexDigit(AsciiLower(h)[k]) && DigitValue(AsciiLower(h)[k]) == DigitValue(h[k])
  {
    var l := AsciiLower(h);
    forall k | 0 <= k < |h|
      ensures HexDigitValue(l[k]) == HexDigitValue(h[k])
    {
      if 'A' <= h[k] <= 'Z' {
        HexDigitValueIgnoresCase(h[k], l[k]);
      }
    }
  }

  /** A colour reads the same whether its hex digits are written in upper or lower case. */
  lemma ColorIgnoresCase(h: string)
    requires |h| in {3, 6, 8} && forall k :: 0 <= k < |h| ==> IsHexDigit(h[k])
    ensures ColorChannels("#" + AsciiLower(h)) == ColorChannels("#" + h)
  {
    DigitsIgnoreCase(h);
    if |h| == 3 {
      ColorIgnoresCase3(h, AsciiLower(h));
    } else if |h| == 6 {
      ColorIgnoresCase6(h, AsciiLower(h));
    } else {
      ColorIgnoresCase8(h, AsciiLower(h));
    }
  }

  lemma ColorIgnoresCase3(h: string, l: string)
    requires |h| == 3 && |l| == 3
    requires forall k :: 0 <= k < |h| ==> IsHexDigit(h[k]) && IsHexDigit(l[k]) && DigitValue(l[k]) == DigitValue(h[k])
    ensures ColorChannels("#" + l) == ColorChannels("#" + h)
  {
    ColorDigits3(h);
    ColorDigits3(l);
  }

  lemma ColorIgnoresCase6(h: string, l: string)
    requires |h| == 6 && |l| == 6
    requires forall k :: 0 <= k < |h| ==> IsHexDigit(h[k]) && IsHexDigit(l[k]) && DigitValue(l[k]) == DigitValue(h[k])
    ensures ColorChannels("#" + l) == ColorChannels("#" + h)
  {
    ColorDigits6(h);
    ColorDigits6(l);
  }

  lemma ColorIgnoresCase8(h: string, l: string)
    requires |h| == 8 && |l| == 8
    requires forall k :: 0 <= k < |h| ==> IsHexDigit(h[k]) && IsHexDigit(l[k]) && DigitValue(l[k]) == DigitValue(h[k])
    ensures ColorChannels("#" + l) == ColorChannels("#" + h)
  {
    ColorDigits8(h);
    ColorDigits8(l);
  }

  /** The green of the "saved" status line, written in upper case. */
  lemma SavedStatusGreen()
    ensures ColorChannels("#34C759") == Argb(255, 0x34, 0xC7, 0x59)
  {
    ColorDigits6("34C759");
  }
}
