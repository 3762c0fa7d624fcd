/**
 * The JavaScript string built-ins the core relies on, over plain `seq<char>`:
 * positional digits, `Number.prototype.toString(16)`, `Buffer.toString('hex')` of one byte,
 * `parseInt` without a radix, `replace(/:/g, '')`, `toLowerCase()` on ASCII letters and the
 * decimal printing of a number held in tenths.
 */
module Text {
  import opened Wrappers

  // ---------------------------------------------------------------- positional digits

  /** The two bases the core prints numbers in. */
  predicate IsBase(base: nat)
  {
    base == 10 || base == 16
  }

  /** The digits of `n` in `base`, most significant first, without leading zeros. */
  function Digits(n: nat, base: nat): (ds: seq<nat>)
    requires IsBase(base)
    ensures |ds| >= 1
    ensures forall i :: 0 <= i < |ds| ==> ds[i] < base
    ensures ds[0] != 0 || n == 0
    ensures n < base <==> |ds| == 1
    decreases n
  {
    if n < base then [n] else Digits(n / base, base) + [n % base]
  }

  /** The number written by the digits `ds` in `base`, most significant first. */
  function ValueOf(ds: seq<nat>, base: nat): nat
    decreases |ds|
  {
    if ds == [] then 0 else ValueOf(ds[..|ds| - 1], base) * base + ds[|ds| - 1]
  }

  lemma {:induction false} DivModOfDigit(v: nat, base: nat, d: nat)
    requires IsBase(base) && d < base
    ensures (v * base + d) / base == v && (v * base + d) % base == d
  {
  }

  /** Reading back the digits of `n` gives `n`. */
  lemma {:induction false} ValueOfDigits(n: nat, base: nat)
    requires IsBase(base)
    ensures ValueOf(Digits(n, base), base) == n
    decreases n
  {
    if n >= base {
      var ds := Digits(n, base);
      assert n == n / base * base + n % base;
      ValueOfDigits(n / base, base);
      assert ds[..|ds| - 1] == Digits(n / base, base);
    }
  }

  /** A digit string whose first digit is not zero is worth at least one. */
  lemma {:induction false} LeadingDigitPositive(ds: seq<nat>, base: nat)
    requires IsBase(base) && |ds| >= 1 && ds[0] != 0
    ensures ValueOf(ds, base) >= 1
    decreases |ds|
  {
    if |ds| > 1 {
      var init := ds[..|ds| - 1];
      assert init[0] == ds[0];
      LeadingDigitPositive(init, base);
      assert ValueOf(init, base) * base >= base;
    }
  }

  /** Canonical digit strings (no leading zero, every digit below the base) are exactly the images of `Digits`. */
  lemma {:induction false} DigitsOfValue(ds: seq<nat>, base: nat)
    requires IsBase(base) && |ds| >= 1 && (ds[0] != 0 || |ds| == 1)
    requires forall i :: 0 <= i < |ds| ==> ds[i] < base
    ensures Digits(ValueOf(ds, base), base) == ds
    decreases |ds|
  {
    if |ds| > 1 {
      var init, last := ds[..|ds| - 1], ds[|ds| - 1];
      assert init[0] == ds[0];
      DigitsOfValue(init, base);
      LeadingDigitPositive(init, base);
      var v := ValueOf(init, base);
      assert ValueOf(ds, base) == v * base + last;
      assert v * base >= base;
      DivModOfDigit(v, base, last);
      assert ds == init + [last];
    }
  }

  // ---------------------------------------------------------------- digits as characters

  /** The character of digit `d`: '0'..'9' then lower-case 'a'..'f'. */
  function DigitChar(d: nat): (c: char)
    requires d < 16
    ensures d < 10 <==> '0' <= c <= '9'
    ensures d >= 10 <==> 'a' <= c <= 'f'
  {
    if d < 10 then ('0' as int + d) as char else ('a' as int + d - 10) as char
  }

  /** The value of a lower-case hex digit character; `None` for any other character. */
  function DigitValue(c: char): (r: Option<nat>)
    ensures r.Some? <==> ('0' <= c <= '9' || 'a' <= c <= 'f')
    ensures r.Some? ==> r.value < 16 && DigitChar(r.value) == c
    ensures r.Some? ==> (r.value < 10 <==> '0' <= c <= '9')
  {
    if '0' <= c <= '9' then Some(c as int - '0' as int)
    else if 'a' <= c <= 'f' then Some(c as int - 'a' as int + 10)
    else None
  }

  /** The characters of the digits `ds`. */
  function Render(ds: seq<nat>): (s: string)
    requires forall i :: 0 <= i < |ds| ==> ds[i] < 16
    ensures |s| == |ds|
    ensures forall i :: 0 <= i < |ds| ==> s[i] == DigitChar(ds[i])
  {
    seq(|ds|, i requires 0 <= i < |ds| => DigitChar(ds[i]))
  }

  /** The digit values of the characters of `s`; `None` when one is not a digit below `base`. */
  function ParseDigits(s: string, base: nat): (r: Option<seq<nat>>)
    ensures r.Some? ==> |r.value| == |s|
  {
    if s == [] then Some([])
    else
      var d := DigitValue(s[0]);
      if d.None? || d.value >= base then None
      else match ParseDigits(s[1..], base)
        case None => None
        case Some(ds) => Some([d.value] + ds)
  }

  /** What a successful `ParseDigits` says about each character. */
  lemma {:induction false} ParseDigitsSound(s: string, base: nat)
    requires ParseDigits(s, base).Some?
    ensures forall i :: 0 <= i < |s| ==>
      ParseDigits(s, base).value[i] < base && DigitValue(s[i]) == Some(ParseDigits(s, base).value[i])
  {
    if s != [] {
      ParseDigitsSound(s[1..], base);
    }
  }

  lemma {:induction false} DigitRoundTrip(d: nat)
    requires d < 16
    ensures DigitValue(DigitChar(d)) == Some(d)
  {
  }

  lemma {:induction false} ParseRender(ds: seq<nat>, base: nat)
    requires base <= 16
    requires forall i :: 0 <= i < |ds| ==> ds[i] < base
    ensures ParseDigits(Render(ds), base) == Some(ds)
  {
    if ds != [] {
      var s := Render(ds);
      DigitRoundTrip(ds[0]);
      assert s[1..] == Render(ds[1..]);
      ParseRender(ds[1..], base);
      assert ParseDigits(s, base) == Some([ds[0]] + ds[1..]);
      assert [ds[0]] + ds[1..] == ds;
    }
  }

  // ---------------------------------------------------------------- base 16

  /** `Number(n).toString(16)`: lower-case hex digits, no leading zeros, "0" for zero. */
  function ToHexString(n: nat): (s: string)
  {
    Render(Digits(n, 16))
  }

  /** A lower-case hex numeral in the form `toString(16)` prints: non-empty, no leading '0'. */
  predicate IsCanonicalHex(s: string)
  {
    |s| >= 1 && (forall i :: 0 <= i < |s| ==> DigitValue(s[i]).Some?) && (s[0] != '0' || |s| == 1)
  }

  /** The value of a string of lower-case hex digits; `None` when another character occurs. */
  function ParseHex(s: string): (r: Option<nat>)
  {
    match ParseDigits(s, 16)
    case None => None
    case Some(ds) => Some(ValueOf(ds, 16))
  }

  /**
   * `toString(16)` is a bijection between the naturals and the canonical hex numerals:
   * it prints `n` exactly as the canonical numeral whose value is `n`.
   */
  lemma {:induction false} ToHexStringIff(n: nat, s: string)
    ensures ToHexString(n) == s <==> IsCanonicalHex(s) && ParseHex(s) == Some(n)
  {
    ToHexStringCanonical(n);
    if IsCanonicalHex(s) && ParseHex(s) == Some(n) {
      CanonicalHexPrinted(n, s);
    }
  }

  /** What `toString(16)` prints is canonical and reads back as the number. */
  lemma {:induction false} ToHexStringCanonical(n: nat)
    ensures IsCanonicalHex(ToHexString(n)) && ParseHex(ToHexString(n)) == Some(n)
  {
    var ds := Digits(n, 16);
    var s := ToHexString(n);
    ParseRender(ds, 16);
    ValueOfDigits(n, 16);
    assert s[0] == DigitChar(ds[0]);
    forall i | 0 <= i < |s| ensures DigitValue(s[i]).Some? {
      assert s[i] == DigitChar(ds[i]);
    }
  }

  /** A canonical numeral is what `toString(16)` prints for its value. */
  lemma {:induction false} CanonicalHexPrinted(n: nat, s: string)
    requires IsCanonicalHex(s) && ParseHex(s) == Some(n)
    ensures ToHexString(n) == s
  {
    var ps := ParseDigits(s, 16).value;
    ParseDigitsSound(s, 16);
    assert ValueOf(ps, 16) == n;
    assert ps[0] != 0 || |ps| == 1 by {
      if ps[0] == 0 { assert DigitChar(0) == '0'; }
    }
    DigitsOfValue(ps, 16);
    assert Digits(n, 16) == ps;
    assert Render(ps) == s;
  }

  /** `Buffer.toString('hex', i, i + 1)` of one byte: always two lower-case hex digits. */
  function HexByte(b: nat): (s: string)
    requires b < 256
    ensures |s| == 2 && DigitValue(s[0]) == Some(b / 16) && DigitValue(s[1]) == Some(b % 16)
  {
    [DigitChar(b / 16), DigitChar(b % 16)]
  }

  // ---------------------------------------------------------------- parseInt

  /** The longest prefix of `s` made of the characters '0'..'9', as digit values. */
  function LeadingDecimalDigits(s: string): (ds: seq<nat>)
    ensures |ds| <= |s|
    ensures forall i :: 0 <= i < |ds| ==> ds[i] < 10 && DigitValue(s[i]) == Some(ds[i])
    ensures |ds| < |s| ==> !('0' <= s[|ds|] <= '9')
  {
    if s == [] || !('0' <= s[0] <= '9') then []
    else [s[0] as int - '0' as int] + LeadingDecimalDigits(s[1..])
  }

  /**
   * `parseInt(s)` with no radix, for strings that carry no sign, white space or "0x" prefix
   * (the only strings the core passes to it are hex digits): the decimal value of the longest
   * run of leading decimal digits, or `None` (NaN) when `s` does not start with one.
   */
  function ParseIntNoRadix(s: string): (r: Option<nat>)
    ensures r.None? <==> (s == [] || !('0' <= s[0] <= '9'))
  {
    var ds := LeadingDecimalDigits(s);
    if ds == [] then None else Some(ValueOf(ds, 10))
  }

  /**
   * What `parseInt` makes of a byte printed as two hex digits: the two digits read as a
   * decimal number when both are decimal digits, the first alone when only it is, NaN otherwise.
   */
  lemma {:induction false} ParseIntOfHexByte(b: nat)
    requires b < 256
    ensures b / 16 < 10 && b % 16 < 10 ==> ParseIntNoRadix(HexByte(b)) == Some(10 * (b / 16) + b % 16)
    ensures b / 16 < 10 && b % 16 >= 10 ==> ParseIntNoRadix(HexByte(b)) == Some(b / 16)
    ensures b / 16 >= 10 ==> ParseIntNoRadix(HexByte(b)) == None
  {
    var s := HexByte(b);
    var hi, lo := b / 16, b % 16;
    if hi < 10 {
      var ds := LeadingDecimalDigits(s);
      assert ds[0] == hi;
      if lo < 10 {
        assert ds == [hi, lo];
        assert ds[..1] == [hi];
        assert ValueOf([hi], 10) == hi;
      } else {
        assert |ds| == 1;
      }
    }
  }

  // ---------------------------------------------------------------- address text

  /** `s.replace(/:/g, '')`. */
  function StripColons(s: string): (r: string)
    ensures ':' !in r
    ensures forall c :: c != ':' ==> (c in r <==> c in s)
    ensures |r| <= |s|
  {
    if s == [] then []
    else if s[0] == ':' then StripColons(s[1..])
    else [s[0]] + StripColons(s[1..])
  }

  /** Stripping works piece by piece: it keeps every other character, in order. */
  lemma {:induction false} StripColonsAppend(a: string, b: string)
    ensures StripColons(a + b) == StripColons(a) + StripColons(b)
  {
    if a == [] {
      assert a + b == b;
    } else {
      assert (a + b)[1..] == a[1..] + b;
      StripColonsAppend(a[1..], b);
    }
  }

  /** On one character: a ':' is dropped and anything else is kept. */
  lemma StripColonsChar(c: char)
    ensures StripColons([c]) == if c == ':' then [] else [c]
  {
  }

  /** The parts one after another. */
  function Concat(parts: seq<string>): string
  {
    if parts == [] then [] else parts[0] + Concat(parts[1..])
  }

  /** The parts with a ':' between neighbours, as a Bluetooth address is printed. */
  function JoinWithColons(parts: seq<string>): string
  {
    if |parts| <= 1 then Concat(parts) else parts[0] + ":" + JoinWithColons(parts[1..])
  }

  /** Stripping a printed address leaves its parts run together: "aa:bb" becomes "aabb". */
  lemma {:induction false} StripColonsOfJoin(parts: seq<string>)
    requires forall i :: 0 <= i < |parts| ==> ':' !in parts[i]
    ensures StripColons(JoinWithColons(parts)) == Concat(parts)
  {
    if |parts| == 1 {
      assert Concat(parts) == parts[0] + Concat([]);
      assert parts[0] + [] == parts[0];
      StripColonsNoColon(parts[0]);
    } else if |parts| > 1 {
      var rest := JoinWithColons(parts[1..]);
      assert JoinWithColons(parts) == parts[0] + (":" + rest);
      StripColonsAppend(parts[0], ":" + rest);
      StripColonsAppend(":", rest);
      StripColonsNoColon(parts[0]);
      StripColonsOfJoin(parts[1..]);
    }
  }

  /** `toLowerCase()` of one character; only the ASCII letters are mapped. */
  function LowerChar(c: char): (d: char)
    ensures 'A' <= c <= 'Z' ==> d as int == c as int + 32
    ensures !('A' <= c <= 'Z') ==> d == c
  {
    if 'A' <= c <= 'Z' then (c as int + 32) as char else c
  }

  /** `s.toLowerCase()` restricted to ASCII letters. */
  function LowerAscii(s: string): (r: string)
    ensures |r| == |s|
    ensures forall i :: 0 <= i < |s| ==> r[i] == LowerChar(s[i])
  {
    seq(|s|, i requires 0 <= i < |s| => LowerChar(s[i]))
  }

  /** `address.toLowerCase().replace(/:/g, '')`, the normalisation of configured addresses. */
  function NormalizeAddress(s: string): (r: string)
  {
    StripColons(LowerAscii(s))
  }

  /** Stripping changes nothing once there is no ':' left; in particular it is idempotent. */
  lemma {:induction false} StripColonsNoColon(s: string)
    requires ':' !in s
    ensures StripColons(s) == s
  {
    if s != [] {
      assert s[0] in s;
      assert forall c :: c in s[1..] ==> c in s;
      StripColonsNoColon(s[1..]);
      assert [s[0]] + s[1..] == s;
    }
  }

  /** Upper-case letters are not in a normalised address, and normalising twice changes nothing. */
  lemma {:induction false} NormalizeAddressNormal(s: string)
    ensures ':' !in NormalizeAddress(s)
    ensures forall c :: 'A' <= c <= 'Z' ==> c !in NormalizeAddress(s)
    ensures NormalizeAddress(NormalizeAddress(s)) == NormalizeAddress(s)
  {
    var l := LowerAscii(s);
    var r := NormalizeAddress(s);
    forall c | 'A' <= c <= 'Z' ensures c !in r {
    }
    assert LowerAscii(r) == r by {
      forall i | 0 <= i < |r| ensures LowerChar(r[i]) == r[i] {
        assert r[i] in r;
      }
    }
    StripColonsNoColon(r);
  }

  // ---------------------------------------------------------------- printing a number in tenths

  /** The printed form of a non-negative number of tenths: integer part, then '.' and the tenths digit when it is not zero. */
  function FormatMagnitude(m: nat): (s: string)
  {
    Render(Digits(m / 10, 10)) + (if m % 10 == 0 then "" else "." + Render([m % 10]))
  }

  /**
   * The text JavaScript prints for the number `t / 10` (template literal or `String(x)`):
   * an optional '-', the integer part, and one decimal only when it is not zero.
   * Numbers from 1e21 on print in exponent form, hence the bound.
   */
  function FormatTenths(t: int): (s: string)
    requires -1_000_000_000_000_000_000_0 < t < 1_000_000_000_000_000_000_0
  {
    if t < 0 then "-" + FormatMagnitude(-t) else FormatMagnitude(t)
  }

  /** Reads back `FormatMagnitude`: decimal digits, optionally followed by '.' and one digit. */
  function ParseMagnitude(body: string): (r: Option<nat>)
  {
    var dotted := |body| >= 2 && body[|body| - 2] == '.';
    var whole := ParseDigits(if dotted then body[..|body| - 2] else body, 10);
    var tenths := if dotted then DigitValue(body[|body| - 1]) else Some(0);
    if whole.Some? && whole.value != [] && tenths.Some? && tenths.value < 10 then
      Some(10 * ValueOf(whole.value, 10) + tenths.value)
    else None
  }

  /** Reads back the text `FormatTenths` prints. */
  function ParseTenths(s: string): (r: Option<int>)
  {
    if |s| > 0 && s[0] == '-' then
      match ParseMagnitude(s[1..])
      case None => None
      case Some(m) => Some(-(m as int))
    else ParseMagnitude(s)
  }

  /** Decimal digits followed by nothing: the fraction reads as zero tenths. */
  lemma {:induction false} ParseWholeDigits(ws: seq<nat>)
    requires |ws| >= 1 && forall i :: 0 <= i < |ws| ==> ws[i] < 10
    ensures ParseMagnitude(Render(ws)) == Some(10 * ValueOf(ws, 10))
  {
    var b := Render(ws);
    if |b| >= 2 {
      assert b[|b| - 2] == DigitChar(ws[|b| - 2]);
    }
    ParseRender(ws, 10);
  }

  /** Decimal digits, '.', one more digit: the last digit is the tenths. */
  lemma {:induction false} ParseFractionDigits(ws: seq<nat>, d: nat)
    requires |ws| >= 1 && forall i :: 0 <= i < |ws| ==> ws[i] < 10
    requires d < 10
    ensures ParseMagnitude(Render(ws) + ['.', DigitChar(d)]) == Some(10 * ValueOf(ws, 10) + d)
  {
    var w := Render(ws);
    var b := w + ['.', DigitChar(d)];
    assert b[|b| - 2] == '.';
    assert b[..|b| - 2] == w;
    ParseRender(ws, 10);
    DigitRoundTrip(d);
  }

  lemma {:induction false} ParseFormatMagnitude(m: nat)
    ensures |FormatMagnitude(m)| >= 1 && '0' <= FormatMagnitude(m)[0] <= '9'
    ensures ParseMagnitude(FormatMagnitude(m)) == Some(m)
  {
    var whole := Digits(m / 10, 10);
    assert FormatMagnitude(m)[0] == Render(whole)[0] == DigitChar(whole[0]);
    if m % 10 == 0 {
      ParseFormatWhole(m);
    } else {
      ParseFormatFraction(m);
    }
  }

  /** A whole number of tenths prints without a '.' and reads back. */
  lemma {:induction false} ParseFormatWhole(m: nat)
    requires m % 10 == 0
    ensures ParseMagnitude(FormatMagnitude(m)) == Some(m)
  {
    var q := m / 10;
    var whole := Digits(q, 10);
    assert FormatMagnitude(m) == Render(whole);
    ParseWholeDigits(whole);
    ValueOfDigits(q, 10);
    assert m == 10 * q;
  }

  /** A number of tenths with a fraction prints with one decimal and reads back. */
  lemma {:induction false} ParseFormatFraction(m: nat)
    requires m % 10 != 0
    ensures ParseMagnitude(FormatMagnitude(m)) == Some(m)
  {
    var whole := Digits(m / 10, 10);
    FormatFraction(m);
    ParseFractionDigits(whole, m % 10);
    ValueOfDigits(m / 10, 10);
  }

  /** The printed form with a fraction: the whole digits, '.', the tenths digit. */
  lemma FormatFraction(m: nat)
    requires m % 10 != 0
    ensures FormatMagnitude(m) == Render(Digits(m / 10, 10)) + ['.', DigitChar(m % 10)]
  {
    assert Render([m % 10]) == [DigitChar(m % 10)];
  }

  /** The printed form of a number in tenths reads back as that number. */
  lemma {:induction false} ParseFormatTenths(t: int)
    requires -1_000_000_000_000_000_000_0 < t < 1_000_000_000_000_000_000_0
    ensures ParseTenths(FormatTenths(t)) == Some(t)
  {
    var s := FormatTenths(t);
    if t < 0 {
      var m := FormatMagnitude(-t);
      ParseFormatMagnitude(-t);
      assert s == "-" + m;
      assert |s| > 0 && s[0] == '-' && s[1..] == m;
    } else {
      ParseFormatMagnitude(t);
      assert s == FormatMagnitude(t);
      assert !(|s| > 0 && s[0] == '-');
    }
  }
}
