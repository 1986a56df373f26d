/**
 * Hex colour strings (color.py): '#rrggbb' rendering and parsing, the complement of
 * a colour, and the choice of black or white text on a background.
 */
module Color {
  import opened Wrappers

  // ---- hexadecimal digits ----

  /** The value of one hexadecimal digit, either case; None for any other character. */
  function DigitValue(c: char): (r: Option<nat>)
    ensures r.Some? ==> r.value < 16
  {
    if '0' <= c <= '9' then Some(c as nat - '0' as nat)
    else if 'a' <= c <= 'f' then Some(c as nat - 'a' as nat + 10)
    else if 'A' <= c <= 'F' then Some(c as nat - 'A' as nat + 10)
    else None
  }

  /** The lowercase digit for a value below 16, as '%x' writes it. */
  function HexDigit(d: nat): (c: char)
    requires d < 16
    ensures DigitValue(c) == Some(d)
    ensures '0' <= c <= '9' || 'a' <= c <= 'f'
  {
    if d < 10 then (48 + d) as char else (97 + d - 10) as char
  }

  /** Every character is a hexadecimal digit. */
  predicate AllDigits(s: string)
  {
    forall i :: 0 <= i < |s| ==> DigitValue(s[i]).Some?
  }

  /** The number a string of hexadecimal digits denotes, most significant first. */
  function Value(s: string): nat
    requires AllDigits(s)
  {
    if s == [] then 0 else Value(s[..|s| - 1]) * 16 + DigitValue(s[|s| - 1]).value
  }

  /** int(s, 16) for a string of digits: None for the empty string or any other
      character (Python raises ValueError). */
  function ParseHex(s: string): Option<nat>
  {
    if s != [] && AllDigits(s) then Some(Value(s)) else None
  }

  /** The digits of n without leading zeros ("0" for 0), lowercase. */
  function HexDigits(n: nat): (s: string)
    ensures AllDigits(s) && |s| >= 1
    ensures forall i :: 0 <= i < |s| ==> s[i] != '#'
    ensures n < 256 ==> |s| <= 2
    decreases n
  {
    if n < 16 then [HexDigit(n)] else HexDigits(n / 16) + [HexDigit(n % 16)]
  }

  /** '%02x': the digits of n, left-padded with zeros to two characters. */
  function Format02x(n: nat): (s: string)
    ensures AllDigits(s) && |s| >= 2
    ensures forall i :: 0 <= i < |s| ==> s[i] != '#'
    ensures n < 256 ==> |s| == 2
  {
    var d := HexDigits(n);
    if |d| >= 2 then d else "0" + d
  }

  /** The digits read back give n. */
  lemma {:induction false} ValueOfDigits(n: nat)
    ensures Value(HexDigits(n)) == n
    decreases n
  {
    if n >= 16 {
      var s := HexDigits(n);
      assert s[..|s| - 1] == HexDigits(n / 16);
      ValueOfDigits(n / 16);
    }
  }

  /** A leading zero does not change the value. */
  lemma {:induction false} ValueLeadingZero(s: string)
    requires AllDigits(s)
    ensures AllDigits("0" + s) && Value("0" + s) == Value(s)
    decreases |s|
  {
    var z := "0" + s;
    assert forall i :: 0 < i < |z| ==> z[i] == s[i - 1];
    if s != [] {
      assert z[..|z| - 1] == "0" + s[..|s| - 1];
      ValueLeadingZero(s[..|s| - 1]);
    }
  }

  /** '%02x' followed by int(., 16) is the identity. */
  lemma ParseFormat(n: nat)
    ensures ParseHex(Format02x(n)) == Some(n)
  {
    ValueOfDigits(n);
    var d := HexDigits(n);
    if |d| < 2 {
      ValueLeadingZero(d);
    }
  }

  // ---- colours ----

  /** RGB2Hex: '#' and two lowercase digits per component. */
  function RGB2Hex(r: nat, g: nat, b: nat): (s: string)
    ensures |s| >= 7 && s[0] == '#' && AllDigits(s[1..])
    ensures r < 256 && g < 256 && b < 256 ==> |s| == 7
  {
    "#" + Format02x(r) + Format02x(g) + Format02x(b)
  }

  /** str.lstrip(ch): every leading ch removed. */
  function LStrip(s: string, ch: char): (r: string)
    ensures |r| <= |s| && r == s[|s| - |r|..]
    ensures r == [] || r[0] != ch
    ensures forall i :: 0 <= i < |s| - |r| ==> s[i] == ch
  {
    if s != [] && s[0] == ch then LStrip(s[1..], ch) else s
  }

  /** colorHex[i:i + w] for i in range(0, len(colorHex), w): consecutive pieces of
      width w, the last one possibly shorter. */
  function Chunks(s: string, w: nat): (r: seq<string>)
    requires w > 0
    ensures forall i :: 0 <= i < |r| ==> 1 <= |r[i]| <= w
    decreases |s|
  {
    if s == [] then [] else if |s| <= w then [s] else [s[..w]] + Chunks(s[w..], w)
  }

  /** The pieces of a string, glued back together, are the string. */
  lemma {:induction false} ChunksConcat(s: string, w: nat)
    requires w > 0
    ensures Concat(Chunks(s, w)) == s
    decreases |s|
  {
    if |s| > w {
      ChunksConcat(s[w..], w);
      assert s == s[..w] + s[w..];
    }
  }

  function Concat(ss: seq<string>): string
  {
    if ss == [] then [] else ss[0] + Concat(ss[1..])
  }

  /** int(piece, 16) for every piece; the first piece that does not parse raises. */
  function ParseAll(pieces: seq<string>): (r: Result<seq<nat>>)
    ensures r.Ok? <==> forall i :: 0 <= i < |pieces| ==> ParseHex(pieces[i]).Some?
    ensures r.Ok? ==>
      |r.value| == |pieces| &&
      (forall i :: 0 <= i < |pieces| ==> r.value[i] == ParseHex(pieces[i]).value)
  {
    if pieces == [] then Ok([])
    else match ParseHex(pieces[0])
      case None => Err(ValueError("invalid literal for int() with base 16"))
      case Some(v) =>
        match ParseAll(pieces[1..])
        case Err(e) => Err(e)
        case Ok(rest) => Ok([v] + rest)
  }

  /** hex2RGB: strip the leading '#', cut the rest into pieces of a third of its
      length and parse each in base 16. A string of fewer than three characters makes
      the step of range zero (ValueError). */
  function Hex2RGB(colorHex: string): (r: Result<seq<nat>>)
  {
    var s := LStrip(colorHex, '#');
    var w := |s| / 3;
    if w == 0 then Err(ValueError("range() arg 3 must not be zero"))
    else ParseAll(Chunks(s, w))
  }

  /** lstrip('#') of '#' followed by a string that does not start with '#'. */
  lemma StripHash(t: string)
    requires |t| >= 1 && t[0] != '#'
    ensures LStrip("#" + t, '#') == t
  {
    assert ("#" + t)[1..] == t;
  }

  /** Six characters cut in pieces of two. */
  lemma SixInPairs(x: string, y: string, z: string)
    requires |x| == 2 && |y| == 2 && |z| == 2
    ensures Chunks(x + y + z, 2) == [x, y, z]
  {
    var u := y + z;
    ChunksFront(y, z, 2);
    assert Chunks(z, 2) == [z];
    assert (x + y) + z == x + u;
    ChunksFront(x, u, 2);
  }

  /** A first piece of exactly w characters followed by more is cut off first. */
  lemma ChunksFront(a: string, b: string, w: nat)
    requires w > 0 && |a| == w && b != []
    ensures Chunks(a + b, w) == [a] + Chunks(b, w)
  {
    assert (a + b)[..w] == a && (a + b)[w..] == b;
  }

  /** '#' and three two-character pieces: hex2RGB strips the '#' and parses exactly
      those three pieces. */
  lemma HexOfPieces(x: string, y: string, z: string)
    requires |x| == 2 && |y| == 2 && |z| == 2 && x[0] != '#'
    ensures Hex2RGB("#" + x + y + z) == ParseAll([x, y, z])
  {
    var t, h := x + y + z, "#" + x + y + z;
    assert h == "#" + t;
    StripHash(t);
    assert LStrip(h, '#') == t && |t| / 3 == 2;
    SixInPairs(x, y, z);
  }

  /** Rendering three components in 0 .. 255 and parsing the string gives them back. */
  lemma RoundTrip(r: nat, g: nat, b: nat)
    requires r < 256 && g < 256 && b < 256
    ensures Hex2RGB(RGB2Hex(r, g, b)) == Ok([r, g, b])
  {
    HexOfPieces(Format02x(r), Format02x(g), Format02x(b));
    ParseFormat(r);
    ParseFormat(g);
    ParseFormat(b);
    var p := ParseAll([Format02x(r), Format02x(g), Format02x(b)]);
    assert p.Ok? && p.value == [r, g, b];
  }

  function Min3(a: int, b: int, c: int): int
  {
    if a <= b && a <= c then a else if b <= c then b else c
  }

  function Max3(a: int, b: int, c: int): int
  {
    if a >= b && a >= c then a else if b >= c then b else c
  }

  /** hilo: three conditional swaps that sort the arguments, then the smallest plus the
      largest. */
  function Hilo(a: int, b: int, c: int): (k: int)
    ensures k == Min3(a, b, c) + Max3(a, b, c)
  {
    var (b1, c1) := if c < b then (c, b) else (b, c);
    var (a2, b2) := if b1 < a then (b1, a) else (a, b1);
    var (b3, c3) := if c1 < b2 then (c1, b2) else (b2, c1);
    a2 + c3
  }

  /** The complement of a colour with components (r, g, b): each u becomes
      min + max - u. */
  function Complement(r: nat, g: nat, b: nat): (c: (nat, nat, nat))
    ensures Min3(c.0, c.1, c.2) == Min3(r, g, b) && Max3(c.0, c.1, c.2) == Max3(r, g, b)
    ensures c.0 + r == c.1 + g == c.2 + b == Hilo(r, g, b)
  {
    var k := Hilo(r, g, b);
    (k - r, k - g, k - b)
  }

  /** colorComplement: parse, complement each component, render. A string that does
      not hold exactly three components fails to unpack (ValueError). */
  function ColorComplement(hexColor: string): (res: Result<string>)
  {
    match Hex2RGB(hexColor)
    case Err(e) => Err(e)
    case Ok(cs) =>
      if |cs| != 3 then Err(ValueError("not enough or too many values to unpack"))
      else
        var c := Complement(cs[0], cs[1], cs[2]);
        Ok(RGB2Hex(c.0, c.1, c.2))
  }

  /** The complement stays in 0 .. 255 and is its own inverse, since it keeps the
      smallest plus the largest component. */
  lemma ComplementInvolution(r: nat, g: nat, b: nat)
    requires r < 256 && g < 256 && b < 256
    ensures var c := Complement(r, g, b);
      c.0 < 256 && c.1 < 256 && c.2 < 256 && Complement(c.0, c.1, c.2) == (r, g, b)
  {
  }

  /** colorComplement of a rendered colour renders the complement. */
  lemma ColorComplementOf(r: nat, g: nat, b: nat)
    requires r < 256 && g < 256 && b < 256
    ensures var c := Complement(r, g, b);
      ColorComplement(RGB2Hex(r, g, b)) == Ok(RGB2Hex(c.0, c.1, c.2))
  {
    RoundTrip(r, g, b);
  }

  /** Complementing a colour twice gives the original colour back. */
  lemma ComplementTwice(r: nat, g: nat, b: nat)
    requires r < 256 && g < 256 && b < 256
    ensures var c := Complement(r, g, b);
      ColorComplement(RGB2Hex(r, g, b)) == Ok(RGB2Hex(c.0, c.1, c.2)) &&
      ColorComplement(RGB2Hex(c.0, c.1, c.2)) == Ok(RGB2Hex(r, g, b))
  {
    var c := Complement(r, g, b);
    ComplementInvolution(r, g, b);
    ColorComplementOf(r, g, b);
    ColorComplementOf(c.0, c.1, c.2);
  }

  /** Relative luminance with the luma coefficients of item 3.2 of ITU-R
      Recommendation BT.709. */
  function Luma(r: nat, g: nat, b: nat): real
  {
    0.2126 * (r as real) + 0.7152 * (g as real) + 0.0722 * (b as real)
  }

  /** getBWText: black text on a background whose luminance is at least 186, white
      otherwise. */
  function GetBWText(hexColor: string): (res: Result<string>)
  {
    match Hex2RGB(hexColor)
    case Err(e) => Err(e)
    case Ok(cs) =>
      if |cs| != 3 then Err(ValueError("not enough or too many values to unpack"))
      else if Luma(cs[0], cs[1], cs[2]) >= 186.0 then Ok("black") else Ok("white")
  }

  /** On a rendered colour the text is black iff the luminance reaches 186; white
      gets black text and black gets white text. */
  lemma BWTextOfColour(r: nat, g: nat, b: nat)
    requires r < 256 && g < 256 && b < 256
    ensures GetBWText(RGB2Hex(r, g, b)) == Ok(if Luma(r, g, b) >= 186.0 then "black" else "white")
    ensures GetBWText(RGB2Hex(255, 255, 255)) == Ok("black")
    ensures GetBWText(RGB2Hex(0, 0, 0)) == Ok("white")
  {
    RoundTrip(r, g, b);
    RoundTrip(255, 255, 255);
    RoundTrip(0, 0, 0);
  }
}
