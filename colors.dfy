/** The pixel record of Color.java: three integer channels, no clamping.
    `Rgb` is the value stored in a grid cell; `Color` is the mutable object itself. */
module Colors {

  datatype Option<T> = None | Some(value: T)

  /** The value of one pixel. Channels are plain integers: nothing keeps them in 0..255. */
  datatype Rgb = Rgb(red: int, green: int, blue: int)

  datatype Channel = Red | Green | Blue

  function Chan(c: Rgb, ch: Channel): int {
    match ch
    case Red => c.red
    case Green => c.green
    case Blue => c.blue
  }

  const Black := Rgb(0, 0, 0)
  /** The colour used for node outlines. */
  const OutlineRed := Rgb(255, 0, 0)

  predicate InByteRange(c: Rgb) {
    0 <= c.red <= 255 && 0 <= c.green <= 255 && 0 <= c.blue <= 255
  }

  function Plus(a: Rgb, b: Rgb): Rgb {
    Rgb(a.red + b.red, a.green + b.green, a.blue + b.blue)
  }

  function Minus(a: Rgb, b: Rgb): Rgb {
    Rgb(a.red - b.red, a.green - b.green, a.blue - b.blue)
  }

  function Scale(k: int, c: Rgb): Rgb {
    Rgb(k * c.red, k * c.green, k * c.blue)
  }

  function Abs(n: int): (r: nat)
    ensures r == n || r == -n
  {
    if n < 0 then -n else n
  }

  /** Math.abs on every channel. */
  function AbsRgb(c: Rgb): (r: Rgb)
    ensures r.red >= 0 && r.green >= 0 && r.blue >= 0
    ensures c.red >= 0 && c.green >= 0 && c.blue >= 0 ==> r == c
  {
    Rgb(Abs(c.red), Abs(c.green), Abs(c.blue))
  }

  /** Java's int division `a / d` for a positive divisor: the quotient rounded toward zero. */
  function Trunc(a: int, d: int): (q: int)
    requires d > 0
    ensures a >= 0 ==> q >= 0
    ensures a <= 0 ==> q <= 0
  {
    if a >= 0 then a / d else -((-a) / d)
  }

  /** The truncated quotient is the largest multiple of d not exceeding |a| in size,
      taken with the sign of a. */
  lemma TruncBounds(a: int, d: int)
    requires d > 0
    ensures Abs(Trunc(a, d)) * d <= Abs(a) < (Abs(Trunc(a, d)) + 1) * d
    ensures (a >= 0 ==> Trunc(a, d) >= 0) && (a <= 0 ==> Trunc(a, d) <= 0)
    ensures Trunc(-a, d) == -Trunc(a, d)
  {
    var n := if a >= 0 then a else -a;
    assert n == Abs(a);
    assert Abs(Trunc(a, d)) == n / d;
    assert n == (n / d) * d + n % d;
  }

  /** Channel-wise truncating division, as `getRed() / d` and its siblings compute it. */
  function DivRgb(c: Rgb, d: int): Rgb
    requires d > 0
  {
    Rgb(Trunc(c.red, d), Trunc(c.green, d), Trunc(c.blue, d))
  }

  // ---------------------------------------------------------------------
  // Decimal rendering and parsing of channels (Integer.toString and back).

  function DigitChar(d: int): char
    requires 0 <= d < 10
  {
    ('0' as int + d) as char
  }

  predicate IsDigit(ch: char) {
    '0' <= ch <= '9'
  }

  /** The decimal digits of n, most significant first, without leading zeros. */
  function Digits(n: nat): (s: string)
    ensures |s| >= 1
    ensures forall k :: 0 <= k < |s| ==> IsDigit(s[k])
  {
    if n < 10 then [DigitChar(n)] else Digits(n / 10) + [DigitChar(n % 10)]
  }

  /** Integer.toString: a minus sign before the digits of a negative value. */
  function IntToString(i: int): string {
    if i < 0 then "-" + Digits(-i) else Digits(i)
  }

  function ParseNat(s: string): Option<nat> {
    if |s| == 0 || !IsDigit(s[|s| - 1]) then None
    else
      var d := (s[|s| - 1] as int) - ('0' as int);
      if |s| == 1 then Some(d)
      else match ParseNat(s[..|s| - 1])
        case None => None
        case Some(v) => Some(10 * v + d)
  }

  function ParseInt(s: string): Option<int> {
    if |s| > 0 && s[0] == '-' then
      match ParseNat(s[1..])
      case None => None
      case Some(v) => Some(-(v as int))
    else
      match ParseNat(s)
      case None => None
      case Some(v) => Some(v)
  }

  /** Index of the first space of s, or |s| when there is none. */
  function SpaceIndex(s: string): (k: nat)
    ensures k <= |s|
    ensures forall m :: 0 <= m < k ==> s[m] != ' '
    ensures k < |s| ==> s[k] == ' '
  {
    if s == [] || s[0] == ' ' then 0 else 1 + SpaceIndex(s[1..])
  }

  /** Splits s at its first space into the text before and the text after it. */
  function SplitAtSpace(s: string): Option<(string, string)> {
    var k := SpaceIndex(s);
    if k == |s| then None else Some((s[..k], s[k + 1..]))
  }

  /** Reads back the text `red green blue` that Color.toString produces. */
  function ParseTriple(s: string): Option<Rgb> {
    match SplitAtSpace(s)
    case None => None
    case Some((first, rest)) =>
      match SplitAtSpace(rest)
      case None => None
      case Some((second, third)) =>
        match (ParseInt(first), ParseInt(second), ParseInt(third))
        case (Some(r), Some(g), Some(b)) => Some(Rgb(r, g, b))
        case _ => None
  }

  lemma {:induction false} ParseDigits(n: nat)
    ensures ParseNat(Digits(n)) == Some(n)
  {
    if n >= 10 {
      var s := Digits(n);
      assert s[..|s| - 1] == Digits(n / 10);
      ParseDigits(n / 10);
    }
  }

  lemma IntToStringRoundTrip(i: int)
    ensures ParseInt(IntToString(i)) == Some(i)
  {
    var s := IntToString(i);
    if i < 0 {
      assert s[0] == '-';
      assert s[1..] == Digits(-i);
      ParseDigits(-i);
    } else {
      assert IsDigit(s[0]);
      ParseDigits(i);
    }
  }

  lemma IntToStringHasNoSpace(i: int)
    ensures NoSpace(IntToString(i))
  {
    var s := IntToString(i);
    if i < 0 {
      assert s == "-" + Digits(-i);
      forall k | 1 <= k < |s| ensures s[k] != ' ' {
        assert s[k] == Digits(-i)[k - 1];
      }
    }
  }

  lemma {:induction false} SpaceIndexAfter(a: string, x: string)
    requires NoSpace(a)
    requires |x| > 0 && x[0] == ' '
    ensures SpaceIndex(a + x) == |a|
  {
    if a != [] {
      assert (a + x)[1..] == a[1..] + x;
      SpaceIndexAfter(a[1..], x);
    }
  }

  lemma SplitAfter(a: string, b: string)
    requires NoSpace(a)
    ensures SplitAtSpace(a + " " + b) == Some((a, b))
  {
    var s := a + " " + b;
    assert s == a + (" " + b);
    SpaceIndexAfter(a, " " + b);
    assert s[..|a|] == a;
    assert s[|a| + 1..] == b;
  }

  predicate NoSpace(s: string) {
    forall k :: 0 <= k < |s| ==> s[k] != ' '
  }

  lemma TripleParses(a: string, b: string, c: string)
    requires NoSpace(a) && NoSpace(b)
    requires ParseInt(a).Some? && ParseInt(b).Some? && ParseInt(c).Some?
    ensures ParseTriple(a + " " + b + " " + c)
         == Some(Rgb(ParseInt(a).value, ParseInt(b).value, ParseInt(c).value))
  {
    var rest := b + " " + c;
    assert a + " " + b + " " + c == a + " " + rest;
    SplitAfter(a, rest);
    SplitAfter(b, c);
  }

  /** The text form of a pixel, as Color.toString writes it. */
  function Show(c: Rgb): (s: string)
    ensures ParseTriple(s) == Some(c)
  {
    IntToStringRoundTrip(c.red);
    IntToStringRoundTrip(c.green);
    IntToStringRoundTrip(c.blue);
    IntToStringHasNoSpace(c.red);
    IntToStringHasNoSpace(c.green);
    TripleParses(IntToString(c.red), IntToString(c.green), IntToString(c.blue));
    IntToString(c.red) + " " + IntToString(c.green) + " " + IntToString(c.blue)
  }

  /** Color.java: a mutable pixel. */
  class Color {
    var red: int
    var green: int
    var blue: int

    /** The value the object currently holds. */
    function Value(): Rgb
      reads this
    {
      Rgb(red, green, blue)
    }

    constructor (red: int, green: int, blue: int)
      ensures Value() == Rgb(red, green, blue)
    {
      this.red := red;
      this.green := green;
      this.blue := blue;
    }

    method SetRed(red: int)
      modifies this
      ensures Value() == old(Value()).(red := red)
    {
      this.red := red;
    }

    function GetRed(): (r: int)
      reads this
      ensures r == Value().red
    {
      red
    }

    method SetGreen(green: int)
      modifies this
      ensures Value() == old(Value()).(green := green)
    {
      this.green := green;
    }

    function GetGreen(): (g: int)
      reads this
      ensures g == Value().green
    {
      green
    }

    method SetBlue(blue: int)
      modifies this
      ensures Value() == old(Value()).(blue := blue)
    {
      this.blue := blue;
    }

    function GetBlue(): (b: int)
      reads this
      ensures b == Value().blue
    {
      blue
    }

    /** `red + " " + green + " " + blue`; reading it back gives the same three values. */
    function ToString(): (s: string)
      reads this
      ensures ParseTriple(s) == Some(Value())
    {
      Show(Value())
    }
  }
}
