/**
 * `Color`: an RGBA colour with one real per channel, its named constants,
 * the constructors that decode a packed 32-bit word, the component-wise
 * operators, the array conversions and the generated swizzle accessors.
 */

module Color {

  import Swizzle
  import Vec4

  /** `Color { r, g, b, a }`; the datatype constructor is `Color::new`. */
  datatype Color = Color(r: real, g: real, b: real, a: real)

  /** Every channel lies in [0, 1], the range the field documentation gives. */
  predicate InUnitRange(c: Color)
  {
    0.0 <= c.r <= 1.0 && 0.0 <= c.g <= 1.0 && 0.0 <= c.b <= 1.0 && 0.0 <= c.a <= 1.0
  }

  // The basic CSS colours.
  const Black: Color := Color(0.0, 0.0, 0.0, 1.0)
  const Silver: Color := Color(0.75, 0.75, 0.75, 1.0)
  const Gray: Color := Color(0.5, 0.5, 0.5, 1.0)
  const White: Color := Color(1.0, 1.0, 1.0, 1.0)
  const Maroon: Color := Color(0.5, 0.0, 0.0, 1.0)
  const Red: Color := Color(1.0, 0.0, 0.0, 1.0)
  const Purple: Color := Color(0.5, 0.0, 0.5, 1.0)
  const Fuchsia: Color := Color(1.0, 0.0, 1.0, 1.0)
  const Green: Color := Color(0.0, 0.5, 0.0, 1.0)
  const Lime: Color := Color(0.0, 1.0, 0.0, 1.0)
  const Olive: Color := Color(0.5, 0.5, 0.0, 1.0)
  const Yellow: Color := Color(1.0, 1.0, 0.0, 1.0)
  const Navi: Color := Color(0.0, 0.0, 0.5, 1.0)
  const Blue: Color := Color(0.0, 0.0, 1.0, 1.0)
  const Teal: Color := Color(0.0, 0.5, 0.5, 1.0)
  const Aqua: Color := Color(0.0, 1.0, 1.0, 1.0)

  /** The sixteen named constants, in declaration order. */
  function NamedColors(): seq<Color>
  {
    [Black, Silver, Gray, White, Maroon, Red, Purple, Fuchsia,
     Green, Lime, Olive, Yellow, Navi, Blue, Teal, Aqua]
  }

  /** Every named constant is opaque and within range, and no two are the same colour. */
  lemma NamedColorsOpaque()
    ensures |NamedColors()| == 16
    ensures forall i | 0 <= i < 16 :: NamedColors()[i].a == 1.0 && InUnitRange(NamedColors()[i])
    ensures forall i, j | 0 <= i < j < 16 :: NamedColors()[i] != NamedColors()[j]
  {
  }

  /** `Default`: the "empty" colour is opaque black. */
  function Default(): (c: Color)
    ensures c.r == 0.0 && c.g == 0.0 && c.b == 0.0 && c.a == 1.0
    ensures c in NamedColors()
  {
    Black
  }

  // ----- Hex decoding -----

  /** A `u32` value that fits in eight bits. */
  predicate IsByte(x: bv32)
  {
    x <= 0xFF
  }

  /** `byte as f32 / 255.0`: a byte scaled onto [0, 1]. */
  function Channel(byte: bv32): (c: real)
    requires IsByte(byte)
    ensures 0.0 <= c <= 1.0
    ensures c == 1.0 <==> byte == 0xFF
    ensures c == 0.0 <==> byte == 0
  {
    (byte as int) as real / 255.0
  }

  /** Distinct bytes give distinct channel values. */
  lemma ChannelInjective(x: bv32, y: bv32)
    requires IsByte(x) && IsByte(y) && Channel(x) == Channel(y)
    ensures x == y
  {
    assert x as int == y as int;
  }

  /** `from_hex_rgb`: `0xRRGGBB`; the top byte is discarded and alpha is 1. */
  function FromHexRgb(hex: bv32): (c: Color)
    ensures c.a == 1.0 && InUnitRange(c)
  {
    var r := Channel((hex >> 16) & 0xFF);
    var g := Channel((hex >> 8) & 0xFF);
    var b := Channel(hex & 0xFF);
    Color(r, g, b, 1.0)
  }

  /** `from_hex_bgr`: `0xBBGGRR`; the top byte is discarded and alpha is 1. */
  function FromHexBgr(hex: bv32): (c: Color)
    ensures c.a == 1.0 && InUnitRange(c)
  {
    var b := Channel((hex >> 16) & 0xFF);
    var g := Channel((hex >> 8) & 0xFF);
    var r := Channel(hex & 0xFF);
    Color(r, g, b, 1.0)
  }

  /** `from_hex_rgba`: `0xRRGGBBAA`. */
  function FromHexRgba(hex: bv32): (c: Color)
    ensures InUnitRange(c)
  {
    var r := Channel((hex >> 24) & 0xFF);
    var g := Channel((hex >> 16) & 0xFF);
    var b := Channel((hex >> 8) & 0xFF);
    var a := Channel(hex & 0xFF);
    Color(r, g, b, a)
  }

  /** `from_hex_argb`: `0xAARRGGBB`. */
  function FromHexArgb(hex: bv32): (c: Color)
    ensures InUnitRange(c)
  {
    var a := Channel((hex >> 24) & 0xFF);
    var r := Channel((hex >> 16) & 0xFF);
    var g := Channel((hex >> 8) & 0xFF);
    var b := Channel(hex & 0xFF);
    Color(r, g, b, a)
  }

  /** Four bytes packed into a word, the first one most significant. */
  function Pack(b3: bv32, b2: bv32, b1: bv32, b0: bv32): bv32
  {
    (b3 << 24) | (b2 << 16) | (b1 << 8) | b0
  }

  /** Shifting and masking a packed word gives back each packed byte. */
  lemma Unpack(b3: bv32, b2: bv32, b1: bv32, b0: bv32)
    requires IsByte(b3) && IsByte(b2) && IsByte(b1) && IsByte(b0)
    ensures (Pack(b3, b2, b1, b0) >> 24) & 0xFF == b3
    ensures (Pack(b3, b2, b1, b0) >> 16) & 0xFF == b2
    ensures (Pack(b3, b2, b1, b0) >> 8) & 0xFF == b1
    ensures Pack(b3, b2, b1, b0) & 0xFF == b0
  {
  }

  /** Every word is the packing of its four bytes. */
  lemma PackBytes(hex: bv32)
    ensures Pack((hex >> 24) & 0xFF, (hex >> 16) & 0xFF, (hex >> 8) & 0xFF, hex & 0xFF) == hex
  {
  }

  /** `from_hex_rgba` reads R, G, B, A from the most to the least significant byte. */
  lemma FromHexRgbaBytes(r: bv32, g: bv32, b: bv32, a: bv32)
    requires IsByte(r) && IsByte(g) && IsByte(b) && IsByte(a)
    ensures FromHexRgba(Pack(r, g, b, a)) == Color(Channel(r), Channel(g), Channel(b), Channel(a))
  {
    Unpack(r, g, b, a);
  }

  /** `from_hex_argb` reads A, R, G, B from the most to the least significant byte. */
  lemma FromHexArgbBytes(a: bv32, r: bv32, g: bv32, b: bv32)
    requires IsByte(a) && IsByte(r) && IsByte(g) && IsByte(b)
    ensures FromHexArgb(Pack(a, r, g, b)) == Color(Channel(r), Channel(g), Channel(b), Channel(a))
  {
    Unpack(a, r, g, b);
  }

  /** `from_hex_rgb` reads R, G, B from bits 16-23, 8-15 and 0-7, whatever the top byte holds. */
  lemma FromHexRgbBytes(x: bv32, r: bv32, g: bv32, b: bv32)
    requires IsByte(x) && IsByte(r) && IsByte(g) && IsByte(b)
    ensures FromHexRgb(Pack(x, r, g, b)) == Color(Channel(r), Channel(g), Channel(b), 1.0)
  {
    Unpack(x, r, g, b);
  }

  /** Distinct words decode to distinct colours under `from_hex_rgba`. */
  lemma FromHexRgbaInjective(hex: bv32, hex': bv32)
    requires FromHexRgba(hex) == FromHexRgba(hex')
    ensures hex == hex'
  {
    ChannelInjective((hex >> 24) & 0xFF, (hex' >> 24) & 0xFF);
    ChannelInjective((hex >> 16) & 0xFF, (hex' >> 16) & 0xFF);
    ChannelInjective((hex >> 8) & 0xFF, (hex' >> 8) & 0xFF);
    ChannelInjective(hex & 0xFF, hex' & 0xFF);
    PackBytes(hex);
    PackBytes(hex');
  }

  /** Two words give the same `from_hex_rgb` colour exactly when their low three bytes agree. */
  lemma FromHexRgbLowBytes(hex: bv32, hex': bv32)
    ensures FromHexRgb(hex) == FromHexRgb(hex') <==> hex & 0xFF_FFFF == hex' & 0xFF_FFFF
  {
    if FromHexRgb(hex) == FromHexRgb(hex') {
      ChannelInjective((hex >> 16) & 0xFF, (hex' >> 16) & 0xFF);
      ChannelInjective((hex >> 8) & 0xFF, (hex' >> 8) & 0xFF);
      ChannelInjective(hex & 0xFF, hex' & 0xFF);
      LowBytes(hex);
      LowBytes(hex');
    }
    if hex & 0xFF_FFFF == hex' & 0xFF_FFFF {
      LowBytesRead(hex);
      LowBytesRead(hex');
    }
  }

  /** The low three bytes of a word, repacked under a zero top byte. */
  lemma LowBytes(hex: bv32)
    ensures Pack(0, (hex >> 16) & 0xFF, (hex >> 8) & 0xFF, hex & 0xFF) == hex & 0xFF_FFFF
  {
  }

  /** The bytes `from_hex_rgb` reads are the bytes of the low three bytes of the word. */
  lemma LowBytesRead(hex: bv32)
    ensures (hex >> 16) & 0xFF == ((hex & 0xFF_FFFF) >> 16) & 0xFF
    ensures (hex >> 8) & 0xFF == ((hex & 0xFF_FFFF) >> 8) & 0xFF
    ensures hex & 0xFF == (hex & 0xFF_FFFF) & 0xFF
  {
  }

  /** The top byte is ignored: `from_hex_rgb(h) == from_hex_rgb(h % 2^24)`. */
  lemma FromHexRgbTopByteIgnored(hex: bv32)
    ensures FromHexRgb(hex) == FromHexRgb(hex & 0xFF_FFFF)
  {
    LowBytesRead(hex);
  }

  /** `from_hex_rgb(h)` is `from_hex_rgba` of `h` shifted up a byte with an opaque alpha byte. */
  lemma FromHexRgbIsOpaqueRgba(hex: bv32)
    ensures FromHexRgb(hex) == FromHexRgba((hex << 8) | 0xFF)
  {
    RgbShiftedBytes(hex);
  }

  lemma RgbShiftedBytes(hex: bv32)
    ensures (((hex << 8) | 0xFF) >> 24) & 0xFF == (hex >> 16) & 0xFF
    ensures (((hex << 8) | 0xFF) >> 16) & 0xFF == (hex >> 8) & 0xFF
    ensures (((hex << 8) | 0xFF) >> 8) & 0xFF == hex & 0xFF
    ensures ((hex << 8) | 0xFF) & 0xFF == 0xFF
  {
  }

  /** The colour with red and blue exchanged. */
  function SwapRedBlue(c: Color): Color
  {
    Color(c.b, c.g, c.r, c.a)
  }

  /** `from_hex_bgr(h)` is `from_hex_rgb(h)` with red and blue exchanged. */
  lemma FromHexBgrIsSwappedRgb(hex: bv32)
    ensures FromHexBgr(hex) == SwapRedBlue(FromHexRgb(hex))
    ensures FromHexRgb(hex) == SwapRedBlue(FromHexBgr(hex))
  {
  }

  /** `from_hex_argb(h)` is `from_hex_rgba` of `h` rotated left by eight bits. */
  lemma FromHexArgbIsRotatedRgba(hex: bv32)
    ensures FromHexArgb(hex) == FromHexRgba(hex.RotateLeft(8))
  {
    RotatedBytes(hex);
  }

  lemma RotatedBytes(hex: bv32)
    ensures (hex.RotateLeft(8) >> 24) & 0xFF == (hex >> 16) & 0xFF
    ensures (hex.RotateLeft(8) >> 16) & 0xFF == (hex >> 8) & 0xFF
    ensures (hex.RotateLeft(8) >> 8) & 0xFF == hex & 0xFF
    ensures hex.RotateLeft(8) & 0xFF == (hex >> 24) & 0xFF
  {
  }

  /** The values the unit tests pin for `from_hex_rgb` and `from_hex_bgr`. */
  lemma FromHexRgbBgrExamples()
    ensures FromHexRgb(0xFF0000) == Red && FromHexRgb(0x00FF00) == Lime
    ensures FromHexRgb(0x0000FF) == Blue && FromHexRgb(0xFFFFFF) == White
    ensures FromHexBgr(0x0000FF) == Red && FromHexBgr(0x00FF00) == Lime
    ensures FromHexBgr(0xFF0000) == Blue && FromHexBgr(0xFFFFFF) == White
  {
  }

  /** The values the unit tests pin for `from_hex_rgba` and `from_hex_argb`. */
  lemma FromHexRgbaArgbExamples()
    ensures FromHexRgba(0xFF000000) == Color(1.0, 0.0, 0.0, 0.0)
    ensures FromHexRgba(0x00FF0000) == Color(0.0, 1.0, 0.0, 0.0)
    ensures FromHexRgba(0x0000FF00) == Color(0.0, 0.0, 1.0, 0.0)
    ensures FromHexRgba(0x000000FF) == Color(0.0, 0.0, 0.0, 1.0)
    ensures FromHexRgba(0xFFFFFFFF) == White
    ensures FromHexArgb(0x00FF0000) == Color(1.0, 0.0, 0.0, 0.0)
    ensures FromHexArgb(0x0000FF00) == Color(0.0, 1.0, 0.0, 0.0)
    ensures FromHexArgb(0x000000FF) == Color(0.0, 0.0, 1.0, 0.0)
    ensures FromHexArgb(0xFF000000) == Color(0.0, 0.0, 0.0, 1.0)
    ensures FromHexArgb(0xFFFFFFFF) == White
  {
  }

  // ----- Operators -----

  /** `a + b`: every channel, alpha included, added without clamping. */
  function Add(a: Color, b: Color): Color
  {
    Color(a.r + b.r, a.g + b.g, a.b + b.b, a.a + b.a)
  }

  /** `a - b`: every channel, alpha included, subtracted without clamping. */
  function Sub(a: Color, b: Color): Color
  {
    Color(a.r - b.r, a.g - b.g, a.b - b.b, a.a - b.a)
  }

  /** Subtracting undoes adding, and the reverse. */
  lemma AddSubInverse(a: Color, b: Color)
    ensures Sub(Add(a, b), b) == a
    ensures Add(Sub(a, b), b) == a
  {
  }

  /** Addition is not clamped: two opaque colours add up to alpha 2, outside [0, 1]. */
  lemma AddNotClamped()
    ensures Add(White, White) == Color(2.0, 2.0, 2.0, 2.0) && !InUnitRange(Add(White, White))
  {
  }

  /** The values the operator test pins. */
  lemma OperatorExamples()
    ensures var a, b := Color(1.0, 0.2, 0.3, 0.5), Color(0.3, 0.4, 0.5, 0.5);
      Add(a, b) == Color(1.3, 0.6, 0.8, 1.0) && Sub(a, b) == Color(0.7, -0.2, -0.2, 0.0)
  {
  }

  /** A `Color` held in a variable, for the compound assignments. */
  class ColorVar {
    var r: real
    var g: real
    var b: real
    var a: real

    /** The colour currently held. */
    function Value(): Color
      reads this
    {
      Color(r, g, b, a)
    }

    constructor (c: Color)
      ensures Value() == c
    {
      r, g, b, a := c.r, c.g, c.b, c.a;
    }

    /** `c += d`. */
    method AddAssign(d: Color)
      modifies this
      ensures Value() == Add(old(Value()), d)
    {
      r := r + d.r;
      g := g + d.g;
      b := b + d.b;
      a := a + d.a;
    }

    /** `c -= d`. */
    method SubAssign(d: Color)
      modifies this
      ensures Value() == Sub(old(Value()), d)
    {
      r := r - d.r;
      g := g - d.g;
      b := b - d.b;
      a := a - d.a;
    }
  }

  // ----- Array conversions -----

  /** `[f32; 3]`. */
  type Array3 = s: seq<real> | |s| == 3 witness [0.0, 0.0, 0.0]

  /** `[f32; 4]`. */
  type Array4 = s: seq<real> | |s| == 4 witness [0.0, 0.0, 0.0, 0.0]

  /** `From<[f32; 3]> for Color`: the three channels in order, alpha 1. */
  function FromArray3(d: Array3): Color
  {
    Color(d[0], d[1], d[2], 1.0)
  }

  /** `From<Color> for [f32; 3]`: red, green, blue; alpha is dropped. */
  function ToArray3(c: Color): Array3
  {
    [c.r, c.g, c.b]
  }

  /** `From<[f32; 4]> for Color`: r, g, b, a in order. */
  function FromArray4(d: Array4): Color
  {
    Color(d[0], d[1], d[2], d[3])
  }

  /** `From<Color> for [f32; 4]`: r, g, b, a in order. */
  function ToArray4(c: Color): Array4
  {
    [c.r, c.g, c.b, c.a]
  }

  /** `[f32; 4]` to `Color` and back is the identity in both directions. */
  lemma Array4RoundTrip(d: Array4, c: Color)
    ensures ToArray4(FromArray4(d)) == d
    ensures FromArray4(ToArray4(c)) == c
  {
  }

  /**
   * `[f32; 3]` to `Color` and back is the identity; `Color` to `[f32; 3]` and
   * back loses alpha, so it returns the colour exactly when it was opaque.
   */
  lemma Array3RoundTrip(d: Array3, c: Color)
    ensures ToArray3(FromArray3(d)) == d
    ensures FromArray3(ToArray3(c)) == Color(c.r, c.g, c.b, 1.0)
    ensures FromArray3(ToArray3(c)) == c <==> c.a == 1.0
  {
  }

  // ----- Swizzle accessors -----

  /** A colour's fields, by member name. */
  function Fields(c: Color): Swizzle.Fields
  {
    map["r" := c.r, "g" := c.g, "b" := c.b, "a" := c.a]
  }

  /** The member letters of a colour, in declaration order. */
  const Letters: string := "rgba"

  /** A word made of colour letters. */
  predicate OverLetters(word: string)
  {
    forall j | 0 <= j < |word| :: word[j] in Letters
  }

  /** The member list of a `swizzle!` call: one single-letter member per letter of `word`. */
  function Members(word: string): (sel: seq<Swizzle.Member>)
    ensures |sel| == |word| && Swizzle.SingleLetters(sel)
  {
    seq(|word|, j requires 0 <= j < |word| => [word[j]])
  }

  /** The accessor a `swizzle!` call over the letters of `word` generates is named `word`. */
  lemma MembersName(word: string)
    ensures Swizzle.AccessorName(Members(word)) == word
  {
    var sel := Members(word);
    Swizzle.AccessorNameLetters(sel);
  }

  /**
   * The value of the accessor named `word` on colour `c`: its j-th component
   * is the channel named by the j-th letter.
   */
  function SwizzleOf(c: Color, word: string): (v: Swizzle.Swizzled)
    requires 2 <= |word| <= 4 && OverLetters(word)
    ensures |Swizzle.Components(v)| == |word|
    ensures forall j | 0 <= j < |word| :: Swizzle.Components(v)[j] == ChannelNamed(c, word[j])
  {
    Swizzle.Swizzle(Fields(c), Members(word))
  }

  /** The channel of `c` a colour letter names. */
  function ChannelNamed(c: Color, l: char): real
  {
    if l == 'r' then c.r else if l == 'g' then c.g else if l == 'b' then c.b else c.a
  }

  /** `c.abgr()` reverses the channels. */
  lemma SwizzleAbgr(c: Color)
    ensures SwizzleOf(c, "abgr") == Swizzle.V4(Vec4.Vec4(c.a, c.b, c.g, c.r))
  {
    var v := SwizzleOf(c, "abgr");
    Swizzle.ComponentsDetermine(v, Swizzle.V4(Vec4.Vec4(c.a, c.b, c.g, c.r)));
  }

  /** The words that start with `l` followed by one of `ws`. */
  function Prefixed(l: char, ws: seq<string>): seq<string>
  {
    seq(|ws|, i requires 0 <= i < |ws| => [l] + ws[i])
  }

  /**
   * Every word of length `n` over r, g, b, a, ordered like base-4 numerals
   * with digits r < g < b < a. The `swizzle!` calls of the colour type list
   * the lengths 3 and 4 in this order.
   */
  function Words(n: nat): seq<string>
  {
    if n == 0 then [""]
    else
      var w := Words(n - 1);
      Prefixed('r', w) + Prefixed('g', w) + Prefixed('b', w) + Prefixed('a', w)
  }

  /** The accessors generated for colours: all three-letter words, then all four-letter ones. */
  function SwizzleCalls(): seq<string>
  {
    Words(3) + Words(4)
  }

  /**
   * `4^n`, the number of swizzle words of `n` letters; being at least one, it
   * can serve as a block size in the positional reading of the word tables.
   */
  function Pow4(n: nat): (r: nat)
    ensures r >= 1
  {
    if n == 0 then 1 else 4 * Pow4(n - 1)
  }

  /** The digit of a colour letter. */
  function Digit(l: char): nat
  {
    if l == 'r' then 0 else if l == 'g' then 1 else if l == 'b' then 2 else 3
  }

  /** `d * m` for a digit `d`, written as a sum so that it stays linear. */
  function Times(d: nat, m: nat): nat
  {
    if d == 0 then 0 else if d == 1 then m else if d == 2 then m + m else if d == 3 then m + m + m else d * m
  }

  /** The base-4 number a word spells, its first letter most significant. */
  function Rank(w: string): nat
  {
    if w == [] then 0 else Times(Digit(w[0]), Pow4(|w| - 1)) + Rank(w[1..])
  }

  /**
   * `Words(n + 1)` is four blocks, one per letter in the order r, g, b, a;
   * block `k` is letter `k` followed by each word of `Words(n)` in turn.
   */
  lemma WordsBlock(n: nat, k: nat, t: nat)
    requires k < 4 && t < |Words(n)|
    ensures |Words(n + 1)| == 4 * |Words(n)|
    ensures Times(k, |Words(n)|) + t < |Words(n + 1)|
    ensures Words(n + 1)[Times(k, |Words(n)|) + t] == [Letters[k]] + Words(n)[t]
  {
    var w := Words(n);
    var m := |w|;
    var a, b, c, d := Prefixed('r', w), Prefixed('g', w), Prefixed('b', w), Prefixed('a', w);
    assert Words(n + 1) == a + b + c + d;
    if k == 0 {
      assert (a + b + c + d)[t] == a[t];
    } else if k == 1 {
      assert (a + b + c + d)[m + t] == b[t];
    } else if k == 2 {
      assert (a + b + c + d)[m + m + t] == c[t];
    } else {
      assert (a + b + c + d)[m + m + m + t] == d[t];
    }
  }

  /** The number spelled by a letter followed by a word. */
  lemma RankCons(l: char, u: string)
    ensures Rank([l] + u) == Times(Digit(l), Pow4(|u|)) + Rank(u)
  {
    assert ([l] + u)[1..] == u;
  }

  /** Position `i` of `Words(n)` holds `n` colour letters spelling the number `i`. */
  predicate RanksAt(n: nat, i: nat)
    requires i < |Words(n)|
  {
    |Words(n)[i]| == n && OverLetters(Words(n)[i]) && Rank(Words(n)[i]) == i
  }

  /**
   * `Words(n)` holds `4^n` words of `n` colour letters, and the one at
   * position `i` spells the number `i`: the listing is exactly base-4
   * counting order.
   */
  lemma {:induction false} WordsRank(n: nat)
    ensures |Words(n)| == Pow4(n)
    ensures forall i | 0 <= i < |Words(n)| :: RanksAt(n, i)
  {
    if n > 0 {
      WordsRank(n - 1);
      WordsRankStep(n - 1, n);
    }
  }

  /** The facts of `WordsRank` carry over from `Words(p)` to `Words(n)`, `n = p + 1`. */
  lemma WordsRankStep(p: nat, n: nat)
    requires n == p + 1
    requires |Words(p)| == Pow4(p)
    requires forall t | 0 <= t < |Words(p)| :: RanksAt(p, t)
    ensures |Words(n)| == Pow4(n)
    ensures forall i | 0 <= i < |Words(n)| :: RanksAt(n, i)
  {
    var m := |Words(p)|;
    WordsBlock(p, 0, 0);
    forall i | 0 <= i < |Words(n)|
      ensures RanksAt(n, i)
    {
      var k: nat, t: nat;
      if i < m {
        k, t := 0, i;
      } else if i < m + m {
        k, t := 1, i - m;
      } else if i < m + m + m {
        k, t := 2, i - m - m;
      } else {
        k, t := 3, i - m - m - m;
      }
      WordsBlock(p, k, t);
      RankStep(p, i, k, t);
    }
  }

  /** A position of `Words(n + 1)` inherits its facts from the position of `Words(n)` it extends. */
  lemma RankStep(n: nat, i: nat, k: nat, t: nat)
    requires t < |Words(n)| && RanksAt(n, t) && |Words(n)| == Pow4(n)
    requires k < 4 && i == Times(k, |Words(n)|) + t
    requires i < |Words(n + 1)| && Words(n + 1)[i] == [Letters[k]] + Words(n)[t]
    ensures RanksAt(n + 1, i)
  {
    var l := Letters[k];
    var u := Words(n)[t];
    assert Digit(l) == k;
    RankCons(l, u);
    forall j | 0 <= j < n + 1
      ensures ([l] + u)[j] in Letters
    {
      if j > 0 {
        assert ([l] + u)[j] == u[j - 1];
      }
    }
  }

  /** No word occurs twice in `Words(n)`. */
  lemma WordsDistinct(n: nat)
    ensures Distinct(Words(n))
  {
    WordsRank(n);
    forall i, j | 0 <= i < j < |Words(n)|
      ensures Words(n)[i] != Words(n)[j]
    {
      assert RanksAt(n, i) && RanksAt(n, j);
    }
  }

  /** Every word of `n` colour letters occurs in `Words(n)`. */
  lemma {:induction false} WordsComplete(n: nat, word: string)
    requires |word| == n && OverLetters(word)
    ensures word in Words(n)
  {
    if n > 0 {
      var rest := word[1..];
      assert OverLetters(rest) by {
        forall j | 0 <= j < |rest| ensures rest[j] in Letters {
          assert rest[j] == word[j + 1];
        }
      }
      WordsComplete(n - 1, rest);
      var t :| 0 <= t < |Words(n - 1)| && Words(n - 1)[t] == rest;
      assert word == [word[0]] + rest;
      WordsCons(n - 1, n, word[0], t);
    }
  }

  /** A colour letter followed by a word of `Words(p)` is a word of `Words(p + 1)`. */
  lemma WordsCons(p: nat, n: nat, l: char, t: nat)
    requires n == p + 1 && l in Letters && t < |Words(p)|
    ensures [l] + Words(p)[t] in Words(n)
  {
    var k := Digit(l);
    assert Letters[k] == l;
    WordsBlock(p, k, t);
  }

  /**
   * The generated colour accessors: the 64 three-letter and 256 four-letter
   * words over r, g, b, a, and no two-letter ones.
   */
  lemma SwizzleTable()
    ensures |Words(3)| == 64 && |Words(4)| == 256
    ensures forall i | 0 <= i < |SwizzleCalls()| :: 3 <= |SwizzleCalls()[i]| <= 4 && OverLetters(SwizzleCalls()[i])
  {
    WordsRank(3);
    WordsRank(4);
    var calls := SwizzleCalls();
    forall i | 0 <= i < |calls|
      ensures 3 <= |calls[i]| <= 4 && OverLetters(calls[i])
    {
      if i < 64 {
        assert calls[i] == Words(3)[i] && RanksAt(3, i);
      } else {
        assert calls[i] == Words(4)[i - 64] && RanksAt(4, i - 64);
      }
    }
  }

  /** No word occurs twice in `ws`. */
  predicate Distinct(ws: seq<string>)
  {
    forall i, j | 0 <= i < j < |ws| :: ws[i] != ws[j]
  }

  /** Two lists of distinct words, of different lengths from one list to the other, concatenate to a list of distinct words. */
  lemma DistinctConcat(a: seq<string>, b: seq<string>, na: nat, nb: nat)
    requires Distinct(a) && Distinct(b) && na != nb
    requires forall i | 0 <= i < |a| :: |a[i]| == na
    requires forall i | 0 <= i < |b| :: |b[i]| == nb
    ensures Distinct(a + b)
  {
    forall i, j | 0 <= i < j < |a + b|
      ensures (a + b)[i] != (a + b)[j]
    {
      if j < |a| {
        assert (a + b)[i] == a[i] && (a + b)[j] == a[j];
      } else if i >= |a| {
        assert (a + b)[i] == b[i - |a|] && (a + b)[j] == b[j - |a|];
      } else {
        assert |(a + b)[i]| == na && |(a + b)[j]| == nb;
      }
    }
  }

  /** Each colour accessor is generated once: no two `swizzle!` calls produce the same name. */
  lemma SwizzleNamesDistinct()
    ensures forall i, j | 0 <= i < j < |SwizzleCalls()| ::
      Swizzle.AccessorName(Members(SwizzleCalls()[i])) != Swizzle.AccessorName(Members(SwizzleCalls()[j]))
  {
    var w3, w4 := Words(3), Words(4);
    WordsRank(3);
    WordsRank(4);
    WordsDistinct(3);
    WordsDistinct(4);
    forall i | 0 <= i < |w3| ensures |w3[i]| == 3 { assert RanksAt(3, i); }
    forall i | 0 <= i < |w4| ensures |w4[i]| == 4 { assert RanksAt(4, i); }
    DistinctConcat(w3, w4, 3, 4);
    var calls := SwizzleCalls();
    forall i, j | 0 <= i < j < |calls|
      ensures Swizzle.AccessorName(Members(calls[i])) != Swizzle.AccessorName(Members(calls[j]))
    {
      MembersName(calls[i]);
      MembersName(calls[j]);
    }
  }

  /** The first and last accessors of each length are `rrr`, `aaa`, `rrrr` and `aaaa`. */
  lemma SwizzleTableEnds()
    ensures Words(3)[0] == "rrr" && Words(3)[63] == "aaa"
    ensures Words(4)[0] == "rrrr" && Words(4)[255] == "aaaa"
  {
    WordsRank(3);
    WordsRank(4);
  }
}
