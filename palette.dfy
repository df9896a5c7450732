/**
 * The username colour of src/client/index.tsx (`getUserColor`): a rolling
 * hash over the UTF-16 code units of the name, folded into a fixed palette
 * of twenty colours by `Math.abs(hash) % 20`.
 *
 * The hash is a JavaScript number. Only `hash << 5` is a 32-bit operation
 * (ToInt32 of the operand, shifted, read back as a signed 32-bit value);
 * the addition of the code unit and the subtraction of `hash` are exact, so
 * the hash itself is not confined to 32 bits.
 */
module Palette {

  const Two32: int := 0x1_0000_0000
  const Two31: int := 0x8000_0000

  /** The fixed palette, in the order the source lists it. */
  const Colors: seq<string> := [
    "#e74c3c", "#3498db", "#2ecc71", "#f39c12", "#9b59b6",
    "#1abc9c", "#e67e22", "#34495e", "#16a085", "#27ae60",
    "#2980b9", "#8e44ad", "#d35400", "#c0392b", "#7f8c8d",
    "#f1c40f", "#e84393", "#00b894", "#fd79a8", "#fdcb6e"
  ]

  /** ECMAScript ToInt32 on an integral number (see ToInt32IsWrap). */
  function ToInt32(x: int): (r: int)
    ensures -Two31 <= r < Two31
  {
    var m := x % Two32;
    if m >= Two31 then m - Two32 else m
  }

  /** `h << 5` on an integral number. */
  function ShiftLeft5(h: int): (r: int)
    ensures -Two31 <= r < Two31
  {
    ToInt32(ToInt32(h) * 32)
  }

  /**
   * One step of the loop: `hash = code + ((hash << 5) - hash)`. Only the
   * shifted term is confined to 32 bits; the code unit is added and the old
   * hash subtracted exactly.
   */
  function Step(hash: int, code: int): (r: int)
    ensures -Two31 <= r - code + hash < Two31
    ensures hash == 0 ==> r == code
  {
    code + (ShiftLeft5(hash) - hash)
  }

  /** The UTF-16 encoding of one character: what `charCodeAt` walks over. */
  function Utf16(c: char): (u: seq<int>)
    ensures 1 <= |u| <= 2
    ensures forall k :: 0 <= k < |u| ==> 0 <= u[k] < 0x1_0000
    ensures c as int < 0x1_0000 <==> u == [c as int]
    ensures c as int >= 0x1_0000 ==>
      && |u| == 2
      && 0xD800 <= u[0] < 0xDC00 <= u[1] < 0xE000
      && 0x1_0000 + (u[0] - 0xD800) * 0x400 + (u[1] - 0xDC00) == c as int
  {
    if c as int < 0x1_0000 then [c as int]
    else
      var v := c as int - 0x1_0000;
      [0xD800 + v / 0x400, 0xDC00 + v % 0x400]
  }

  /** The UTF-16 code units of a string, in order. */
  function CodeUnits(s: string): (u: seq<int>)
    ensures forall k :: 0 <= k < |u| ==> 0 <= u[k] < 0x1_0000
    ensures |s| <= |u| <= 2 * |s|
  {
    if s == [] then [] else CodeUnits(s[..|s| - 1]) + Utf16(s[|s| - 1])
  }

  /** The value of `hash` after the loop has consumed `units`. */
  function Hash(units: seq<int>): int {
    if units == [] then 0 else Step(Hash(units[..|units| - 1]), units[|units| - 1])
  }

  function Abs(x: int): nat {
    if x < 0 then -x else x
  }

  /** `Math.abs(hash) % colorPalette.length`. */
  function PaletteIndex(hash: int): (i: nat)
    ensures i < |Colors|
    ensures hash == 0 ==> i == 0
  {
    Abs(hash) % |Colors|
  }

  /** The colour the source gives a user name. */
  function UserColor(username: string): (color: string)
    ensures color in Colors
  {
    Colors[PaletteIndex(Hash(CodeUnits(username)))]
  }

  /** `getUserColor`: the loop over the name's code units, then the palette lookup. */
  method GetUserColor(username: string) returns (color: string)
    ensures color == UserColor(username)
    ensures color in Colors
  {
    var units := CodeUnits(username);
    var hash := 0;
    for i := 0 to |units|
      invariant hash == Hash(units[..i])
    {
      assert units[..i + 1][..i] == units[..i];
      hash := units[i] + ((ShiftLeft5(hash)) - hash);
    }
    assert units[..|units|] == units;
    color := Colors[PaletteIndex(hash)];
  }

  // ---------------------------------------------------------------------
  // Properties

  /** A string of Basic Multilingual Plane characters has one code unit per character. */
  lemma {:induction false} BasicPlaneCodeUnits(s: string)
    requires forall k :: 0 <= k < |s| ==> s[k] as int < 0x1_0000
    ensures |CodeUnits(s)| == |s|
    ensures forall k :: 0 <= k < |s| ==> CodeUnits(s)[k] == s[k] as int
  {
    if s != [] {
      var prefix := s[..|s| - 1];
      BasicPlaneCodeUnits(prefix);
    }
  }

  /**
   * `trace` lists the value of `hash` before each iteration and after the
   * last one; when every entry is one step from the previous, the last entry
   * is the hash.
   */
  lemma {:induction false} HashFromTrace(units: seq<int>, trace: seq<int>)
    requires |trace| == |units| + 1 && trace[0] == 0
    requires forall k :: 0 <= k < |units| ==> trace[k + 1] == Step(trace[k], units[k])
    ensures Hash(units) == trace[|units|]
  {
    if units != [] {
      var n := |units| - 1;
      HashFromTrace(units[..n], trace[..n + 1]);
    }
  }

  /**
   * Each step moves the hash by less than 2^32, so after n code units its
   * magnitude is at most n * 2^32.
   */
  lemma {:induction false} HashBound(units: seq<int>)
    requires forall k :: 0 <= k < |units| ==> 0 <= units[k] < 0x1_0000
    ensures Abs(Hash(units)) <= |units| * Two32
  {
    if units != [] {
      var prefix := units[..|units| - 1];
      HashBound(prefix);
    }
  }

  /**
   * For any name of at most 2^19 characters the hash stays below 2^53 in
   * magnitude, so the double arithmetic of the source is exact and the
   * integer model above is the source's computation.
   */
  lemma HashIsExactInDoubles(username: string)
    requires |username| <= 0x8_0000
    ensures Abs(Hash(CodeUnits(username))) < 0x20_0000_0000_0000
  {
    HashBound(CodeUnits(username));
  }

  /** The empty name hashes to 0 and gets the first colour. */
  lemma EmptyNameColor()
    ensures Hash(CodeUnits("")) == 0
    ensures UserColor("") == "#e74c3c"
  {
  }

  /** "user007" hashes to -147179892. */
  lemma User007Hash()
    ensures Hash(CodeUnits("user007")) == -147179892
  {
    BasicPlaneCodeUnits("user007");
    assert CodeUnits("user007") == [117, 115, 101, 114, 48, 48, 55];
    User007Trace(CodeUnits("user007"));
  }

  lemma User007Steps()
    ensures Step(0, 117) == 117 && Step(117, 115) == 3742 && Step(3742, 101) == 116103
    ensures Step(116103, 114) == 3599307 && Step(3599307, 48) == 111578565
    ensures Step(111578565, 48) == -836031733 && Step(-836031733, 55) == -147179892
  {
  }

  lemma User007Trace(units: seq<int>)
    requires units == [117, 115, 101, 114, 48, 48, 55]
    ensures Hash(units) == -147179892
  {
    User007Steps();
    HashFromTrace(units, [0, 117, 3742, 116103, 3599307, 111578565, -836031733, -147179892]);
  }

  /** The colour of "user007" is fixed: palette index 12. */
  lemma User007Color()
    ensures UserColor("user007") == "#d35400"
  {
    User007Hash();
    User007PaletteEntry();
  }

  lemma User007PaletteEntry()
    ensures PaletteIndex(-147179892) == 12 && Colors[12] == "#d35400"
  {
  }

  /**
   * The hash is not a 32-bit value: "tbwuodt" hashes to 2790363123, above
   * 2^31 - 1, because the addition and subtraction around the shift are
   * not wrapped.
   */
  lemma HashLeavesInt32Range()
    ensures Hash(CodeUnits("tbwuodt")) == 2790363123 >= Two31
  {
    BasicPlaneCodeUnits("tbwuodt");
    assert CodeUnits("tbwuodt") == [116, 98, 119, 117, 111, 100, 116];
    TbwuodtTrace(CodeUnits("tbwuodt"));
  }

  lemma TbwuodtSteps()
    ensures Step(0, 116) == 116 && Step(116, 98) == 3694 && Step(3694, 119) == 114633
    ensures Step(114633, 117) == 3553740 && Step(3553740, 111) == 110166051
    ensures Step(110166051, 100) == -879819615 && Step(-879819615, 116) == 2790363123
  {
  }

  lemma TbwuodtTrace(units: seq<int>)
    requires units == [116, 98, 119, 117, 111, 100, 116]
    ensures Hash(units) == 2790363123
  {
    TbwuodtSteps();
    HashFromTrace(units, [0, 116, 3694, 114633, 3553740, 110166051, -879819615, 2790363123]);
  }

  /**
   * A name with a character outside the Basic Multilingual Plane: the emoji
   * U+1F600 is walked as its surrogate pair, so "\U{1F600}a" has three code
   * units and hashes to 54959966, palette index 6.
   */
  lemma EmojiNameColor()
    ensures CodeUnits("\U{1F600}a") == [0xD83D, 0xDE00, 97]
    ensures Hash(CodeUnits("\U{1F600}a")) == 54959966
    ensures UserColor("\U{1F600}a") == "#e67e22"
  {
    assert Utf16('\U{1F600}') == [0xD83D, 0xDE00];
    assert "\U{1F600}a"[..1] == ['\U{1F600}'];
    assert CodeUnits("\U{1F600}a") == [0xD83D, 0xDE00, 97];
    EmojiTrace(CodeUnits("\U{1F600}a"));
    EmojiPaletteEntry();
  }

  lemma EmojiSteps()
    ensures Step(0, 0xD83D) == 55357 && Step(55357, 0xDE00) == 1772899
    ensures Step(1772899, 97) == 54959966
  {
  }

  lemma EmojiTrace(units: seq<int>)
    requires units == [0xD83D, 0xDE00, 97]
    ensures Hash(units) == 54959966
  {
    EmojiSteps();
    HashFromTrace(units, [0, 55357, 1772899, 54959966]);
  }

  lemma EmojiPaletteEntry()
    ensures PaletteIndex(54959966) == 6 && Colors[6] == "#e67e22"
  {
  }

  /**
   * A lone surrogate, such as the name "\ud800" that JSON can carry, is one
   * code unit 0xD800: the loop gives 55296 and the colour at index 16. A
   * Dafny string cannot hold it, but `Hash` over code units covers it.
   */
  lemma LoneSurrogateColor()
    ensures Hash([0xD800]) == 55296
    ensures Colors[PaletteIndex(Hash([0xD800]))] == "#e84393"
  {
    assert Step(0, 0xD800) == 55296;
    assert PaletteIndex(55296) == 16;
  }

  /**
   * The hash reduced with a full 32-bit wrap-around after every step, the
   * recurrence the loop would compute if `hash` were a 32-bit integer.
   */
  function WrappedHash(units: seq<int>): (w: int)
    ensures -Two31 <= w < Two31
  {
    if units == [] then 0 else ToInt32(Step(WrappedHash(units[..|units| - 1]), units[|units| - 1]))
  }

  /**
   * The source's hash and the 32-bit wrapped recurrence agree modulo 2^32:
   * the shift sees only the low 32 bits of `hash`, and the rest of the step
   * is exact. They differ as numbers, and so may pick different colours.
   */
  lemma {:induction false} HashLowBitsAreWrapped(units: seq<int>)
    ensures ToInt32(Hash(units)) == WrappedHash(units)
  {
    if units != [] {
      var prefix, c := units[..|units| - 1], units[|units| - 1];
      HashLowBitsAreWrapped(prefix);
      StepKeepsLowBits(Hash(prefix), WrappedHash(prefix), c);
    }
  }

  /** A step from two hashes with the same low 32 bits gives results with the same low 32 bits. */
  lemma StepKeepsLowBits(h: int, w: int, c: int)
    requires ToInt32(h) == w
    ensures ToInt32(Step(h, c)) == ToInt32(Step(w, c))
  {
    var k := Int32Offset(h);
    var j := Int32Offset(w);
    SameLowBits(w, w - j * Two32, j);
    assert ShiftLeft5(h) == ShiftLeft5(w);
    SameLowBits(Step(h, c), Step(w, c), -k);
  }

  /** `x` is its ToInt32 plus a multiple of 2^32. */
  lemma Int32Offset(x: int) returns (k: int)
    ensures x == ToInt32(x) + k * Two32
  {
    k := x / Two32 + (if x % Two32 >= Two31 then 1 else 0);
  }

  /** Numbers that differ by a multiple of 2^32 have the same ToInt32. */
  lemma SameLowBits(a: int, b: int, k: int)
    requires a - b == k * Two32
    ensures ToInt32(a) == ToInt32(b)
  {
    var q := b / Two32;
    assert b == q * Two32 + b % Two32;
    assert a == (q + k) * Two32 + b % Two32;
  }

  /**
   * For "tbwuodt" the wrapped recurrence gives -1504604173 (index 13) where
   * the source gives 2790363123 (index 3): the two readings of the loop pick
   * different colours.
   */
  lemma WrapChangesColor()
    ensures WrappedHash(CodeUnits("tbwuodt")) == -1504604173
    ensures PaletteIndex(Hash(CodeUnits("tbwuodt"))) == 3
    ensures PaletteIndex(WrappedHash(CodeUnits("tbwuodt"))) == 13
  {
    BasicPlaneCodeUnits("tbwuodt");
    assert CodeUnits("tbwuodt") == [116, 98, 119, 117, 111, 100, 116];
    TbwuodtWrap(CodeUnits("tbwuodt"));
  }

  lemma TbwuodtWrap(units: seq<int>)
    requires units == [116, 98, 119, 117, 111, 100, 116]
    ensures WrappedHash(units) == -1504604173
    ensures PaletteIndex(Hash(units)) == 3 && PaletteIndex(WrappedHash(units)) == 13
  {
    TbwuodtTrace(units);
    HashLowBitsAreWrapped(units);
    assert ToInt32(2790363123) == -1504604173;
    assert PaletteIndex(2790363123) == 3 && PaletteIndex(-1504604173) == 13;
  }

  /**
   * ToInt32 is the wrap-around into the signed 32-bit range: it differs from
   * its argument by a multiple of 2^32, and it is the only value in range
   * that does.
   */
  lemma ToInt32IsWrap(x: int, r: int)
    ensures (x - ToInt32(x)) % Two32 == 0
    ensures -Two31 <= r < Two31 && (x - r) % Two32 == 0 ==> r == ToInt32(x)
  {
    var q := x / Two32;
    assert x == q * Two32 + x % Two32;
    if -Two31 <= r < Two31 && (x - r) % Two32 == 0 {
      var d := (x - r) / Two32;
      assert x - r == d * Two32;
      assert ToInt32(x) - r == (d - q) * Two32 + (if x % Two32 >= Two31 then -Two32 else 0);
    }
  }
}
