/**
 The bounded formatter (util/snprintf.c) against unbounded formatting, and the number
 parser that reads its output back (util/string.c).  A string is the characters before
 its NUL.
 */
module Format {

  const LONG_LIMIT: int := 0x8000_0000_0000_0000
  const MIN_LONG: int := -LONG_LIMIT
  const INT_LIMIT: int := 0x8000_0000

  datatype Arg = LongArg(long: int) | IntArg(int32: int) | StrArg(text: string) | CharArg(c: char)

  predicate ArgOk(a: Arg) {
    match a
    case LongArg(v) => MIN_LONG <= v < LONG_LIMIT
    case IntArg(v) => -INT_LIMIT <= v < INT_LIMIT
    case _ => true
  }

  // ---- numbers as text ----

  function Digit(d: int): char
    requires -10 < d < 10
  {
    ('0' as int + d) as char
  }

  function Digits(v: nat): string {
    if v < 10 then [Digit(v)] else Digits(v / 10) + [Digit(v % 10)]
  }

  /** Decimal notation. */
  function Decimal(v: int): string {
    if v < 0 then "-" + Digits(-v) else Digits(v)
  }

  /** C's division and remainder, which round toward zero. */
  function Quot(x: int): int { if x < 0 then -(-x / 10) else x / 10 }
  function Rem(x: int): (r: int)
    ensures -10 < r < 10
  {
    if x < 0 then -(-x % 10) else x % 10
  }

  /** What the digit loop writes for a number of either sign. */
  function RawDigits(v: int): string
    decreases if v < 0 then -v else v
  {
    if -10 < v < 10 then [Digit(v)] else RawDigits(Quot(v)) + [Digit(Rem(v))]
  }

  /** Negation of a long: the least one stays as it is. */
  function Negate(v: int): int { if v == MIN_LONG then v else -v }

  /** What %d writes. */
  function Shown(v: int): string {
    if v < 0 then "-" + RawDigits(Negate(v)) else RawDigits(v)
  }

  lemma {:induction false} RawDigitsOfNat(v: nat)
    ensures RawDigits(v) == Digits(v)
  {
    if v >= 10 { RawDigitsOfNat(v / 10); }
  }

  lemma {:induction false} DigitsAreDigits(v: nat)
    ensures Digits(v) != "" && forall i :: 0 <= i < |Digits(v)| ==> '0' <= Digits(v)[i] <= '9'
  {
    if v >= 10 { DigitsAreDigits(v / 10); }
  }

  /** Decimal notation: digits that add up to the number, the first of them not 0 unless it is the only one. */
  lemma {:induction false} DigitsSpell(v: nat)
    ensures Value(Digits(v)) == v && Digits(v) != "" && (v > 0 ==> Digits(v)[0] != '0')
    ensures forall i :: 0 <= i < |Digits(v)| ==> Digits(v)[i] in "0123456789"
  {
    var d := Digits(v);
    if v >= 10 {
      DigitsSpell(v / 10);
      assert d[..|d| - 1] == Digits(v / 10) && v == 10 * (v / 10) + v % 10;
      assert Digit(v % 10) == "0123456789"[v % 10];
    } else {
      assert d[..0] == "" && Digit(v) == "0123456789"[v];
    }
  }

  /** %ld writes decimal notation for every long but the least. */
  lemma ShownIsDecimal(v: int)
    requires -0x8000_0000_0000_0000 <= v < 0x8000_0000_0000_0000
    ensures Shown(v) == Decimal(v) <==> v != -0x8000_0000_0000_0000
  {
    hide Digits, RawDigits;
    if v != MIN_LONG {
      RawDigitsOfNat(if v < 0 then -v else v);
    } else {
      var d, r := Digits(-v), RawDigits(v);
      DigitsAreDigits(-v);
      LastRawDigit(v);
      assert ("-" + r)[|r|] < '0' <= ("-" + d)[|d|];
      assert "-" + r != "-" + d;
    }
  }

  lemma LastRawDigit(v: int)
    ensures var r := RawDigits(v); r != "" && r[|r| - 1] == Digit(Rem(v))
  {
  }

  function Pow16(k: nat): (p: nat)
    ensures p > 0
  {
    if k == 0 then 1 else 16 * Pow16(k - 1)
  }

  function HexDigit(d: nat): char
    requires d < 16
  {
    if d < 10 then ('0' as int + d) as char else ('a' as int + d - 10) as char
  }

  /** The low k hexadecimal digits of a two's complement number. */
  function Hex(v: int, k: nat): string {
    if k == 0 then "" else [HexDigit(v / Pow16(k - 1) % 16)] + Hex(v, k - 1)
  }

  function HexValueOf(c: char): int {
    if c <= '9' then c as int - '0' as int else c as int - 'a' as int + 10
  }

  function HexValue(s: string): int {
    if s == "" then 0 else HexValueOf(s[0]) * Pow16(|s| - 1) + HexValue(s[1..])
  }

  lemma MulSign(k: int, m: nat)
    ensures (k >= 1 ==> k * m >= m) && (k <= -1 ==> k * m + m <= 0)
  {
    if k >= 1 { assert (k - 1) * m >= 0; }
    if k <= -1 { assert (k + 1) * m <= 0; }
  }

  lemma ModUnique(x: int, m: nat, a: int, r: nat)
    requires m > 0 && x == a * m + r && r < m
    ensures x % m == r
  {
    var k := x / m - a;
    assert x == x / m * m + x % m;
    assert k * m == x / m * m - a * m;
    MulSign(k, m);
  }

  lemma Recompose(q: int, a: int, b: int, p: nat)
    requires q == 16 * a + b
    ensures q * p == a * (16 * p) + b * p
  {
    assert (16 * a + b) * p == 16 * a * p + b * p;
  }

  lemma DigitBound(b: nat, p: nat, r: nat)
    requires b < 16 && r < p
    ensures 0 <= b * p + r < 16 * p
  {
    assert (15 - b) * p >= 0;
  }

  lemma TopDigit(v: int, p: nat)
    requires p > 0
    ensures v % (16 * p) == v / p % 16 * p + v % p
  {
    var q, r := v / p, v % p;
    var a, b := q / 16, q % 16;
    Recompose(q, a, b, p);
    DigitBound(b, p, r);
    ModUnique(v, 16 * p, a, b * p + r);
  }

  /** Hexadecimal text spells the number modulo a power of 16. */
  lemma {:induction false} HexSpells(v: int, k: nat)
    ensures |Hex(v, k)| == k && HexValue(Hex(v, k)) == v % Pow16(k)
  {
    if k > 0 {
      HexSpells(v, k - 1);
      var d := v / Pow16(k - 1) % 16;
      assert Hex(v, k)[1..] == Hex(v, k - 1) && HexValueOf(HexDigit(d)) == d;
      TopDigit(v, Pow16(k - 1));
    }
  }

  lemma HexChars(d: nat)
    requires d < 16
    ensures HexDigit(d) == "0123456789abcdef"[d] && HexValueOf("0123456789abcdef"[d]) == d
  {
  }

  lemma Pow16Values()
    ensures Pow16(8) == 0x1_0000_0000 && Pow16(16) == 0x1_0000_0000_0000_0000
  {
    assert Pow16(4) == 0x1_0000;
    assert Pow16(8) == 0x1_0000_0000;
    assert Pow16(12) == 0x1_0000_0000_0000;
  }

  lemma {:induction false} HexDigits(v: int, k: nat)
    ensures forall i :: 0 <= i < |Hex(v, k)| ==> Hex(v, k)[i] in "0123456789abcdef"
  {
    if k > 0 {
      HexDigits(v, k - 1);
      HexChars(v / Pow16(k - 1) % 16);
    }
  }

  // ---- text of a format ----

  /** Inside a conversion after `%`, or not. */
  datatype Mode = Plain | Percent(long: bool)

  predicate IsConversion(c: char) { c in "pxdsc" }

  /** The argument a conversion takes. */
  predicate Fits(c: char, long: bool, a: Arg) {
    && ArgOk(a)
    && if c == 'p' then a.LongArg?
       else if c == 's' then a.StrArg?
       else if c == 'c' then a.CharArg?
       else if long then a.LongArg? else a.IntArg?
  }

  function ValueOf(a: Arg): int {
    match a
    case LongArg(v) => v
    case IntArg(v) => v
    case _ => 0
  }

  /** The text of one conversion; `exact` asks for true decimal notation. */
  function Piece(c: char, long: bool, a: Arg, exact: bool): string
    requires Fits(c, long, a)
  {
    if c == 'p' then "0x" + Hex(ValueOf(a), 16)
    else if c == 'x' then Hex(ValueOf(a), if long then 16 else 8)
    else if c == 's' then a.text
    else if c == 'c' then [a.c]
    else if exact then Decimal(ValueOf(a)) else Shown(ValueOf(a))
  }

  /** So many lower-case hexadecimal digits that spell x modulo a power of 16. */
  ghost predicate IsHex(t: string, x: int, digits: nat, limit: int)
    requires limit > 0
  {
    |t| == digits && HexValue(t) == x % limit && forall i :: 0 <= i < |t| ==> t[i] in "0123456789abcdef"
  }

  /** What each conversion stands for. */
  lemma PieceMeans(c: char, long: bool, a: Arg)
    requires IsConversion(c) && Fits(c, long, a)
    ensures var t := Piece(c, long, a, true);
      && (c == 'p' ==> |t| == 18 && t[..2] == "0x" && IsHex(t[2..], a.long, 16, 0x1_0000_0000_0000_0000))
      && (c == 'x' && long ==> IsHex(t, a.long, 16, 0x1_0000_0000_0000_0000))
      && (c == 'x' && !long ==> IsHex(t, a.int32, 8, 0x1_0000_0000))
      && (c == 'd' && long ==> t == Decimal(a.long)) && (c == 'd' && !long ==> t == Decimal(a.int32))
      && (c == 's' ==> t == a.text) && (c == 'c' ==> t == [a.c])
  {
    hide Hex, HexValue, Decimal;
    Pow16Values();
    HexSpells(ValueOf(a), 16);
    HexSpells(ValueOf(a), 8);
    HexDigits(ValueOf(a), 16);
    HexDigits(ValueOf(a), 8);
    var h := Hex(ValueOf(a), 16);
    assert ("0x" + h)[..2] == "0x" && ("0x" + h)[2..] == h;
  }

  /** The arguments are those the format asks for, one after the other. */
  predicate Matches(s: string, m: Mode, args: seq<Arg>) {
    if s == [] then true
    else match m
      case Plain => Matches(s[1..], if s[0] == '%' then Percent(false) else Plain, args)
      case Percent(long) =>
        if s[0] == 'l' then Matches(s[1..], Percent(true), args)
        else if IsConversion(s[0]) then args != [] && Fits(s[0], long, args[0]) && Matches(s[1..], Plain, args[1..])
        else Matches(s[1..], m, args)
  }

  /** The text a format stands for; a character that is no conversion is skipped after `%`. */
  function FullText(s: string, m: Mode, args: seq<Arg>): string
    requires Matches(s, m, args)
  {
    if s == [] then []
    else match m
      case Plain =>
        if s[0] == '%' then FullText(s[1..], Percent(false), args) else [s[0]] + FullText(s[1..], Plain, args)
      case Percent(long) =>
        if s[0] == 'l' then FullText(s[1..], Percent(true), args)
        else if IsConversion(s[0]) then Piece(s[0], long, args[0], true) + FullText(s[1..], Plain, args[1..])
        else FullText(s[1..], m, args)
  }

  /** Characters outside conversions stand for themselves. */
  lemma {:induction false} PlainThen(a: string, b: string, args: seq<Arg>)
    requires '%' !in a && Matches(b, Plain, args)
    ensures Matches(a + b, Plain, args) && FullText(a + b, Plain, args) == a + FullText(b, Plain, args)
  {
    if a == "" {
      assert a + b == b;
    } else {
      assert (a + b)[1..] == a[1..] + b && (a + b)[0] == a[0];
      assert '%' != a[0] && forall c :: c in a[1..] ==> c in a;
      PlainThen(a[1..], b, args);
    }
  }

  /** A conversion, long or not, stands for the text of the next argument. */
  lemma ConversionThen(c: char, long: bool, b: string, args: seq<Arg>)
    requires c in "pxdsc" && args != [] && Fits(c, long, args[0]) && Matches(b, Plain, args[1..])
    ensures var s := (if long then "%l" else "%") + [c] + b;
      && Matches(s, Plain, args)
      && FullText(s, Plain, args) == Piece(c, long, args[0], true) + FullText(b, Plain, args[1..])
  {
    hide Piece, Fits;
    var s := (if long then "%l" else "%") + [c] + b;
    if long {
      assert s[1..] == "l" + [c] + b && s[1..][1..] == [c] + b && ([c] + b)[1..] == b;
      assert Matches([c] + b, Percent(true), args);
      assert Matches(s[1..], Percent(false), args);
      assert FullText(s[1..], Percent(false), args) == FullText([c] + b, Percent(true), args);
    } else {
      assert s[1..] == [c] + b && s[1..][1..] == b;
    }
  }

  /** After `%` a character that is no conversion is passed over, and the conversion is still awaited. */
  lemma OtherSkipped(c: char, b: string, args: seq<Arg>)
    requires c !in "lpxdsc" && Matches(b, Percent(false), args)
    ensures Matches("%" + [c] + b, Plain, args)
    ensures FullText("%" + [c] + b, Plain, args) == FullText(b, Percent(false), args)
  {
    var s := "%" + [c] + b;
    assert s[1..] == [c] + b && s[1..][1..] == b;
  }

  /** The arguments left after a conversion: a %c that no longer fits the buffer leaves its argument. */
  function Left(c: char, args: seq<Arg>, pos: nat, n: nat): seq<Arg>
    requires args != []
  {
    if c == 'c' && pos + 1 >= n then args else args[1..]
  }

  /** As Matches, with arguments used the way the code uses them. */
  predicate Served(s: string, m: Mode, args: seq<Arg>, pos: nat, n: nat)
    decreases |s|
  {
    if s == [] then true
    else match m
      case Plain =>
        if s[0] == '%' then Served(s[1..], Percent(false), args, pos, n) else Served(s[1..], Plain, args, pos + 1, n)
      case Percent(long) =>
        if s[0] == 'l' then Served(s[1..], Percent(true), args, pos, n)
        else if IsConversion(s[0]) then
          && args != [] && Fits(s[0], long, args[0])
          && Served(s[1..], Plain, Left(s[0], args, pos, n), pos + |Piece(s[0], long, args[0], false)|, n)
        else Served(s[1..], m, args, pos, n)
  }

  /** The text the code counts and writes, as far as it fits, from position pos of a buffer of n. */
  function Rendered(s: string, m: Mode, args: seq<Arg>, pos: nat, n: nat): string
    requires Served(s, m, args, pos, n)
    decreases |s|
  {
    if s == [] then []
    else match m
      case Plain =>
        if s[0] == '%' then Rendered(s[1..], Percent(false), args, pos, n)
        else [s[0]] + Rendered(s[1..], Plain, args, pos + 1, n)
      case Percent(long) =>
        if s[0] == 'l' then Rendered(s[1..], Percent(true), args, pos, n)
        else if IsConversion(s[0]) then
          var piece := Piece(s[0], long, args[0], false);
          piece + Rendered(s[1..], Plain, Left(s[0], args, pos, n), pos + |piece|, n)
        else Rendered(s[1..], m, args, pos, n)
  }

  /** No further conversion in the rest of a format. */
  predicate Quiet(s: string, m: Mode) {
    if s == [] then true
    else match m
      case Plain => Quiet(s[1..], if s[0] == '%' then Percent(false) else Plain)
      case Percent(_) => if s[0] == 'l' then Quiet(s[1..], Percent(true)) else !IsConversion(s[0]) && Quiet(s[1..], m)
  }

  /** No conversion follows a %c that no longer fits the buffer. */
  predicate NoLate(s: string, m: Mode, args: seq<Arg>, pos: nat, n: nat)
    requires Matches(s, m, args)
    decreases |s|
  {
    if s == [] then true
    else match m
      case Plain =>
        if s[0] == '%' then NoLate(s[1..], Percent(false), args, pos, n) else NoLate(s[1..], Plain, args, pos + 1, n)
      case Percent(long) =>
        if s[0] == 'l' then NoLate(s[1..], Percent(true), args, pos, n)
        else if IsConversion(s[0]) then
          && (s[0] == 'c' && pos + 1 >= n ==> Quiet(s[1..], Plain))
          && NoLate(s[1..], Plain, args[1..], pos + |Piece(s[0], long, args[0], false)|, n)
        else NoLate(s[1..], m, args, pos, n)
  }

  predicate NoLeast(args: seq<Arg>) {
    forall i :: 0 <= i < |args| ==> args[i] != LongArg(MIN_LONG)
  }

  /** Every conversion finds the argument meant for it, when the code has `mine` left and the format `args`. */
  predicate OwnArgs(s: string, m: Mode, args: seq<Arg>, mine: seq<Arg>, pos: nat, n: nat)
    requires Matches(s, m, args)
    decreases |s|
  {
    if s == [] then true
    else match m
      case Plain =>
        if s[0] == '%' then OwnArgs(s[1..], Percent(false), args, mine, pos, n)
        else OwnArgs(s[1..], Plain, args, mine, pos + 1, n)
      case Percent(long) =>
        if s[0] == 'l' then OwnArgs(s[1..], Percent(true), args, mine, pos, n)
        else if IsConversion(s[0]) then
          && mine == args
          && OwnArgs(s[1..], Plain, args[1..], Left(s[0], mine, pos, n), pos + |Piece(s[0], long, args[0], false)|, n)
        else OwnArgs(s[1..], m, args, mine, pos, n)
  }

  lemma {:induction false} OutOfStep(s: string, m: Mode, args: seq<Arg>, mine: seq<Arg>, pos: nat, n: nat)
    requires Matches(s, m, args) && |mine| != |args|
    ensures OwnArgs(s, m, args, mine, pos, n) <==> Quiet(s, m)
    decreases |s|
  {
    hide Piece, Fits;
    if s != [] {
      match m
      case Plain =>
        if s[0] == '%' { OutOfStep(s[1..], Percent(false), args, mine, pos, n); }
        else { OutOfStep(s[1..], Plain, args, mine, pos + 1, n); }
      case Percent(_) =>
        if s[0] == 'l' { OutOfStep(s[1..], Percent(true), args, mine, pos, n); }
        else if !IsConversion(s[0]) { OutOfStep(s[1..], m, args, mine, pos, n); }
    }
  }

  lemma {:induction false} QuietIsNoLate(s: string, m: Mode, args: seq<Arg>, pos: nat, n: nat)
    requires Matches(s, m, args) && Quiet(s, m)
    ensures NoLate(s, m, args, pos, n)
    decreases |s|
  {
    if s != [] {
      match m
      case Plain =>
        if s[0] == '%' { QuietIsNoLate(s[1..], Percent(false), args, pos, n); }
        else { QuietIsNoLate(s[1..], Plain, args, pos + 1, n); }
      case Percent(_) => QuietIsNoLate(s[1..], if s[0] == 'l' then Percent(true) else m, args, pos, n);
    }
  }

  /** The code gives every conversion its own argument exactly when none follows a truncated %c. */
  lemma {:induction false} OwnArgsIffNoLate(s: string, m: Mode, args: seq<Arg>, pos: nat, n: nat)
    requires Matches(s, m, args)
    ensures OwnArgs(s, m, args, args, pos, n) <==> NoLate(s, m, args, pos, n)
    decreases |s|
  {
    hide Piece, Fits;
    if s != [] {
      match m
      case Plain =>
        if s[0] == '%' { OwnArgsIffNoLate(s[1..], Percent(false), args, pos, n); }
        else { OwnArgsIffNoLate(s[1..], Plain, args, pos + 1, n); }
      case Percent(long) =>
        if s[0] == 'l' {
          OwnArgsIffNoLate(s[1..], Percent(true), args, pos, n);
        } else if !IsConversion(s[0]) {
          OwnArgsIffNoLate(s[1..], m, args, pos, n);
        } else {
          var next := pos + |Piece(s[0], long, args[0], false)|;
          if s[0] == 'c' && pos + 1 >= n {
            OutOfStep(s[1..], Plain, args[1..], args, next, n);
            if Quiet(s[1..], Plain) { QuietIsNoLate(s[1..], Plain, args[1..], next, n); }
          } else {
            OwnArgsIffNoLate(s[1..], Plain, args[1..], next, n);
          }
        }
    }
  }

  /** A conversion after a truncated %c may find an argument that is not for it. */
  lemma LateConversionFails()
    ensures var s, args := "%c%s", [CharArg('a'), StrArg("bc")];
      Matches(s, Plain, args) && !NoLate(s, Plain, args, 0, 1) && !Served(s, Plain, args, 0, 1)
  {
    var s, args := "%c%s", [CharArg('a'), StrArg("bc")];
    assert s[1..] == "c%s" && s[1..][1..] == "%s" && s[1..][1..][1..] == "s" && s[1..][1..][1..][1..] == "";
    assert args[1..] == [StrArg("bc")];
  }

  lemma {:induction false} QuietText(s: string, m: Mode, args: seq<Arg>, other: seq<Arg>, pos: nat, n: nat)
    requires Quiet(s, m) && Matches(s, m, args)
    ensures Served(s, m, other, pos, n) && Rendered(s, m, other, pos, n) == FullText(s, m, args)
    decreases |s|
  {
    if s != [] {
      match m
      case Plain =>
        if s[0] == '%' { QuietText(s[1..], Percent(false), args, other, pos, n); }
        else { QuietText(s[1..], Plain, args, other, pos + 1, n); }
      case Percent(_) => QuietText(s[1..], if s[0] == 'l' then Percent(true) else m, args, other, pos, n);
    }
  }

  lemma ExactPiece(c: char, long: bool, a: Arg)
    requires Fits(c, long, a) && IsConversion(c) && a != LongArg(MIN_LONG)
    ensures Piece(c, long, a, true) == Piece(c, long, a, false)
  {
    if c == 'd' { ShownIsDecimal(ValueOf(a)); }
  }

  /** With no late conversion and no least long, the code produces the text the format stands for. */
  lemma {:induction false} RenderedIsFullText(s: string, m: Mode, args: seq<Arg>, pos: nat, n: nat)
    requires Matches(s, m, args) && NoLate(s, m, args, pos, n) && NoLeast(args)
    ensures Served(s, m, args, pos, n) && Rendered(s, m, args, pos, n) == FullText(s, m, args)
    decreases |s|
  {
    hide Piece;
    if s != [] {
      match m
      case Plain =>
        if s[0] == '%' { RenderedIsFullText(s[1..], Percent(false), args, pos, n); }
        else { RenderedIsFullText(s[1..], Plain, args, pos + 1, n); }
      case Percent(long) =>
        if s[0] == 'l' {
          RenderedIsFullText(s[1..], Percent(true), args, pos, n);
        } else if IsConversion(s[0]) {
          ExactPiece(s[0], long, args[0]);
          var next := pos + |Piece(s[0], long, args[0], false)|;
          if s[0] == 'c' && pos + 1 >= n {
            QuietText(s[1..], Plain, args[1..], args, next, n);
          } else {
            RenderedIsFullText(s[1..], Plain, args[1..], next, n);
          }
        } else {
          RenderedIsFullText(s[1..], m, args, pos, n);
        }
    }
  }

  // ---- the formatter ----

  /** The buffer shows as much of the text as leaves room for a NUL; the rest is as before. */
  ghost predicate Shows(out: seq<char>, before: seq<char>, n: nat, text: string) {
    |out| == |before| && forall i :: 0 <= i < |out| ==> out[i] == if i < |text| && i + 1 < n then text[i] else before[i]
  }

  method Put(out: array<char>, n: nat, pos: nat, c: char, ghost before: seq<char>, ghost text: string)
      returns (pos': nat)
    requires n <= out.Length && pos == |text| && Shows(out[..], before, n, text)
    modifies out
    ensures pos' == pos + 1 && Shows(out[..], before, n, text + [c])
  {
    pos' := pos + 1;
    if pos' < n { out[pos' - 1] := c; }
  }

  method PutString(out: array<char>, n: nat, pos: nat, s: string, ghost before: seq<char>, ghost text: string)
      returns (pos': nat)
    requires n <= out.Length && pos == |text| && Shows(out[..], before, n, text)
    modifies out
    ensures pos' == pos + |s| && Shows(out[..], before, n, text + s)
  {
    hide Shows;
    pos' := pos;
    var i := 0;
    assert text + s[..0] == text;
    while i < |s|
      invariant 0 <= i <= |s| && pos' == pos + i && Shows(out[..], before, n, text + s[..i])
    {
      assert text + s[..i + 1] == text + s[..i] + [s[i]];
      pos' := Put(out, n, pos', s[i], before, text + s[..i]);
      i := i + 1;
    }
    assert s[..i] == s;
  }

  method PutHex(out: array<char>, n: nat, pos: nat, v: int, k: nat, ghost before: seq<char>, ghost text: string)
      returns (pos': nat)
    requires n <= out.Length && pos == |text| && Shows(out[..], before, n, text)
    modifies out
    ensures pos' == pos + |Hex(v, k)| && Shows(out[..], before, n, text + Hex(v, k))
  {
    hide Shows, Pow16, HexDigit;
    pos' := pos;
    ghost var done := text;
    var i: int := k - 1;
    while i >= 0
      invariant -1 <= i < k && pos' == |done| && Shows(out[..], before, n, done)
      invariant done + Hex(v, i + 1) == text + Hex(v, k)
    {
      var d := v / Pow16(i) % 16;
      assert done + Hex(v, i + 1) == done + [HexDigit(d)] + Hex(v, i);
      pos' := Put(out, n, pos', HexDigit(d), before, done);
      done := done + [HexDigit(d)];
      i := i - 1;
    }
    assert done + Hex(v, 0) == done;
  }

  method CountDigits(v: int) returns (digits: nat)
    ensures digits == |RawDigits(v)| && digits >= 1
  {
    digits := 1;
    var nn := v;
    while Quot(nn) != 0
      invariant digits >= 1 && digits - 1 + |RawDigits(nn)| == |RawDigits(v)|
      decreases if nn < 0 then -nn else nn
    {
      nn, digits := Quot(nn), digits + 1;
    }
  }

  /** The buffer while digits are written from the last to the first. */
  ghost predicate Filling(out: seq<char>, before: seq<char>, n: nat, text: string, d: string, i: int) {
    && |out| == |before| && -1 <= i < |d|
    && forall j :: 0 <= j < |out| ==>
         out[j] == if |text| + i < j < |text| + |d| && j + 1 < n then d[j - |text|]
                   else if j < |text| && j + 1 < n then text[j] else before[j]
  }

  method PutDigits(out: array<char>, n: nat, pos: nat, v: int, ghost before: seq<char>, ghost text: string)
      returns (pos': nat)
    requires n <= out.Length && pos == |text| && Shows(out[..], before, n, text)
    modifies out
    ensures pos' == pos + |RawDigits(v)| && Shows(out[..], before, n, text + RawDigits(v))
  {
    hide RawDigits;
    var digits := CountDigits(v);
    ghost var d := RawDigits(v);
    var num: int, i: int := v, digits - 1;
    assert d[..|d|] == d;
    while i >= 0
      invariant Filling(out[..], before, n, text, d, i) && (i >= 0 ==> d[..i + 1] == RawDigits(num))
      decreases i
    {
      LastDigit(num, d, i);
      if pos + i + 1 < n { out[pos + i] := Digit(Rem(num)); }
      num := Quot(num);
      i := i - 1;
    }
    pos' := pos + digits;
  }

  lemma LastDigit(num: int, d: string, i: nat)
    requires i < |d| && d[..i + 1] == RawDigits(num)
    ensures d[i] == Digit(Rem(num)) && (i > 0 ==> d[..i] == RawDigits(Quot(num)))
  {
    assert d[i] == d[..i + 1][i];
    if i > 0 {
      assert d[..i] == d[..i + 1][..i];
    }
  }

  method PutDecimal(out: array<char>, n: nat, pos: nat, v: int, ghost before: seq<char>, ghost text: string)
      returns (pos': nat)
    requires n <= out.Length && pos == |text| && Shows(out[..], before, n, text)
    modifies out
    ensures pos' == pos + |Shown(v)| && Shows(out[..], before, n, text + Shown(v))
  {
    hide Shows, RawDigits;
    pos' := pos;
    if v < 0 {
      pos' := Put(out, n, pos, '-', before, text);
      pos' := PutDigits(out, n, pos', Negate(v), before, text + ['-']);
      assert text + ['-'] + RawDigits(Negate(v)) == text + Shown(v);
    } else {
      pos' := PutDigits(out, n, pos, v, before, text);
    }
  }

  method PutPiece(out: array<char>, n: nat, pos: nat, c: char, long: bool, a: Arg, ghost before: seq<char>,
                  ghost text: string)
      returns (pos': nat)
    requires n <= out.Length && pos == |text| && Shows(out[..], before, n, text) && IsConversion(c) && Fits(c, long, a)
    modifies out
    ensures var piece := Piece(c, long, a, false); pos' == pos + |piece| && Shows(out[..], before, n, text + piece)
  {
    hide Shows, Shown, Hex;
    if c == 'p' {
      pos' := Put(out, n, pos, '0', before, text);
      pos' := Put(out, n, pos', 'x', before, text + ['0']);
      assert text + ['0'] + ['x'] == text + "0x";
      pos' := PutHex(out, n, pos', ValueOf(a), 16, before, text + "0x");
      assert text + "0x" + Hex(ValueOf(a), 16) == text + Piece(c, long, a, false);
    } else if c == 'x' {
      pos' := PutHex(out, n, pos, ValueOf(a), if long then 16 else 8, before, text);
    } else if c == 'd' {
      pos' := PutDecimal(out, n, pos, ValueOf(a), before, text);
    } else if c == 's' {
      pos' := PutString(out, n, pos, a.text, before, text);
    } else {
      pos' := Put(out, n, pos, a.c, before, text);
    }
  }

  /** Conversion of a size to a 32-bit int. */
  function ToInt32(x: nat): (r: int)
    ensures -0x8000_0000 <= r < 0x8000_0000 && (r - x) % 0x1_0000_0000 == 0 && (x < 0x8000_0000 ==> r == x)
  {
    var low := x % (2 * INT_LIMIT);
    if low >= INT_LIMIT then low - 2 * INT_LIMIT else low
  }

  /** The first min(length, n - 1) characters, then NUL; nothing else changes. */
  ghost predicate Printed(out: seq<char>, before: seq<char>, n: nat, text: string) {
    && |out| == |before| && n <= |out|
    && if n == 0 then out == before else
       var m := if |text| < n then |text| else n - 1;
       out[..m] == text[..m] && out[m] == '\0' && out[m + 1..] == before[m + 1..]
  }

  lemma Rest(s: string, i: nat)
    requires i < |s|
    ensures s[i..][0] == s[i] && s[i..][1..] == s[i + 1..]
  {
  }

  /** vsnprintf, for arguments that it finds where it looks for them. */
  method Vsnprintf(out: array<char>, n: nat, s: string, args: seq<Arg>) returns (r: int)
    requires n <= out.Length && Served(s, Plain, args, 0, n)
    modifies out
    ensures var text := Rendered(s, Plain, args, 0, n); r == ToInt32(|text|) && Printed(out[..], old(out[..]), n, text)
  {
    hide Shows, Piece, Fits, IsConversion, Printed;
    var mode, left, pos, i := Plain, args, 0, 0;
    ghost var before, text: string, whole := out[..], "", Rendered(s, Plain, args, 0, n);
    NothingYet(before, n);
    assert s[0..] == s;
    while i < |s|
      invariant 0 <= i <= |s| && pos == |text| && Shows(out[..], before, n, text)
      invariant Served(s[i..], mode, left, pos, n) && text + Rendered(s[i..], mode, left, pos, n) == whole
    {
      Rest(s, i);
      if mode.Percent? {
        if s[i] == 'l' {
          mode := Percent(true);
        } else if IsConversion(s[i]) {
          ghost var piece := Piece(s[i], mode.long, left[0], false);
          ghost var after := Rendered(s[i + 1..], Plain, Left(s[i], left, pos, n), pos + |piece|, n);
          assert text + (piece + after) == text + piece + after;
          var next := PutPiece(out, n, pos, s[i], mode.long, left[0], before, text);
          left := Left(s[i], left, pos, n);
          pos, mode, text := next, Plain, text + piece;
        }
      } else if s[i] == '%' {
        mode := Percent(false);
      } else {
        assert text + ([s[i]] + Rendered(s[i + 1..], Plain, left, pos + 1, n)) ==
          text + [s[i]] + Rendered(s[i + 1..], Plain, left, pos + 1, n);
        pos := Put(out, n, pos, s[i], before, text);
        text := text + [s[i]];
      }
      i := i + 1;
    }
    assert text + Rendered(s[i..], mode, left, pos, n) == text;
    Finish(out, n, pos, before, text);
    r := ToInt32(pos);
  }

  lemma NothingYet(before: seq<char>, n: nat)
    ensures Shows(before, before, n, "")
  {
  }

  method Finish(out: array<char>, n: nat, pos: nat, ghost before: seq<char>, ghost text: string)
    requires n <= out.Length && pos == |text| && Shows(out[..], before, n, text)
    modifies out
    ensures Printed(out[..], before, n, text)
  {
    if pos < n {
      out[pos] := '\0';
    } else if n > 0 {
      out[n - 1] := '\0';
    }
  }

  // ---- reading numbers back ----

  /** The value of a run of digits; other characters count by their distance from '0'. */
  function Value(s: string): int {
    if s == "" then 0 else 10 * Value(s[..|s| - 1]) + (s[|s| - 1] as int - '0' as int)
  }

  function Trimmed(s: string): string {
    if s != "" && s[0] == ' ' then Trimmed(s[1..]) else s
  }

  /** The number a text spells: spaces, a sign, digits. */
  function Spelled(s: string): int {
    var t := Trimmed(s);
    if t != "" && t[0] == '-' then -Value(t[1..])
    else if t != "" && t[0] == '+' then Value(t[1..])
    else Value(t)
  }

  /** Wrap-around to a 64-bit long. */
  function ToLong(x: int): (r: int)
    ensures -0x8000_0000_0000_0000 <= r < 0x8000_0000_0000_0000 && (r - x) % 0x1_0000_0000_0000_0000 == 0
  {
    (x + LONG_LIMIT) % (2 * LONG_LIMIT) - LONG_LIMIT
  }

  lemma ToLongNext(x: int, d: int)
    ensures ToLong(10 * ToLong(x) + d) == ToLong(10 * x + d) && ToLong(-ToLong(x)) == ToLong(-x)
  {
    var q := (x + LONG_LIMIT) / (2 * LONG_LIMIT);
    assert ToLong(x) == x - q * (2 * LONG_LIMIT);
    Cycles(10 * x + d + LONG_LIMIT, -10 * q);
    Cycles(-x + LONG_LIMIT, q);
  }

  lemma Cycles(x: int, q: int)
    ensures (x + q * (2 * LONG_LIMIT)) % (2 * LONG_LIMIT) == x % (2 * LONG_LIMIT)
  {
  }

  function Blanks(k: nat): string { seq(k, _ => ' ') }

  lemma {:induction false} TrimmedBlanks(k: nat, t: string)
    requires t == "" || t[0] != ' '
    ensures Trimmed(Blanks(k) + t) == t
  {
    if k == 0 {
      assert Blanks(0) + t == t;
    } else {
      assert (Blanks(k) + t)[1..] == Blanks(k - 1) + t;
      TrimmedBlanks(k - 1, t);
    }
  }

  /** Leading spaces do not count, a sign counts once, and then every character is a decimal digit. */
  lemma SpelledForms(k: nat, d: string)
    ensures Spelled(Blanks(k) + "-" + d) == -Value(d) && Spelled(Blanks(k) + "+" + d) == Value(d)
    ensures (d == "" || d[0] !in " -+") ==> Spelled(Blanks(k) + d) == Value(d)
  {
    hide Value, Blanks;
    assert Blanks(k) + "-" + d == Blanks(k) + ("-" + d) && Blanks(k) + "+" + d == Blanks(k) + ("+" + d);
    assert ("-" + d)[1..] == d && ("+" + d)[1..] == d;
    TrimmedBlanks(k, "-" + d);
    TrimmedBlanks(k, "+" + d);
    if d == "" || d[0] !in " -+" { TrimmedBlanks(k, d); }
  }

  method Atol(str: string) returns (r: int)
    ensures r == ToLong(Spelled(str))
  {
    hide ToLong, Value;
    var i := 0;
    assert str[0..] == str;
    while i < |str| && str[i] == ' '
      invariant 0 <= i <= |str| && Trimmed(str[i..]) == Trimmed(str)
    {
      Rest(str, i);
      i := i + 1;
    }
    var negative := false;
    if i < |str| && (str[i] == '-' || str[i] == '+') {
      Rest(str, i);
      negative := str[i] == '-';
      i := i + 1;
    }
    assert Spelled(str) == if negative then -Value(str[i..]) else Value(str[i..]);
    var res := DigitsFrom(str, i);
    ToLongNext(Value(str[i..]), 0);
    r := if negative then ToLong(-res) else res;
  }

  method DigitsFrom(str: string, i: nat) returns (res: int)
    requires i <= |str|
    ensures res == ToLong(Value(str[i..]))
  {
    hide ToLong;
    res := 0;
    var j := i;
    ToLongZero();
    while j < |str|
      invariant i <= j <= |str| && res == ToLong(Value(str[i..j]))
    {
      assert str[i..j + 1][..j - i] == str[i..j];
      ToLongNext(Value(str[i..j]), str[j] as int - '0' as int);
      res := ToLong(10 * res + (str[j] as int - '0' as int));
      j := j + 1;
    }
    assert str[i..j] == str[i..];
  }

  lemma ToLongZero()
    ensures ToLong(0) == 0
  {
  }

  /** The digits written for a number of either sign add up to it. */
  lemma {:induction false} ValueOfRawDigits(v: int)
    ensures Value(RawDigits(v)) == v && RawDigits(v) != ""
    decreases if v < 0 then -v else v
  {
    var d := RawDigits(v);
    if !(-10 < v < 10) {
      ValueOfRawDigits(Quot(v));
      assert d[..|d| - 1] == RawDigits(Quot(v));
    }
  }

  lemma {:induction false} FirstRawDigit(v: nat)
    ensures RawDigits(v) != "" && '0' <= RawDigits(v)[0] <= '9'
  {
    RawDigitsOfNat(v);
    DigitsAreDigits(v);
  }

  lemma SpelledShown(v: int)
    requires MIN_LONG <= v < LONG_LIMIT
    ensures Spelled(Shown(v)) == if v < 0 then -Negate(v) else v
  {
    hide Value, RawDigits, Digits;
    if v < 0 {
      ValueOfRawDigits(Negate(v));
      assert Shown(v)[1..] == RawDigits(Negate(v));
    } else {
      ValueOfRawDigits(v);
      FirstRawDigit(v);
    }
  }

  /** atol reads back every long that %ld wrote: even the least one, although its text is not decimal. */
  lemma LongReadsBack(v: int)
    requires -0x8000_0000_0000_0000 <= v < 0x8000_0000_0000_0000
    ensures ToLong(Spelled(Shown(v))) == v
  {
    hide Spelled, Shown;
    SpelledShown(v);
  }

  /** The text of %ld, as far as the code renders it. */
  lemma LongText(v: int, n: nat)
    requires MIN_LONG <= v < LONG_LIMIT
    ensures Served("%ld", Plain, [LongArg(v)], 0, n) && Rendered("%ld", Plain, [LongArg(v)], 0, n) == Shown(v)
  {
    hide Shown;
    var s, a := "%ld", [LongArg(v)];
    assert s[1..] == "ld" && s[1..][1..] == "d" && s[1..][1..][1..] == "";
    assert Rendered("", Plain, Left('d', a, 0, n), |Shown(v)|, n) == "";
  }

  /** The characters before the first NUL. */
  function CString(out: seq<char>): string {
    if out == [] || out[0] == '\0' then "" else [out[0]] + CString(out[1..])
  }

  lemma {:induction false} CStringIs(out: seq<char>, k: nat)
    requires k < |out| && out[k] == '\0' && forall i :: 0 <= i < k ==> out[i] != '\0'
    ensures CString(out) == out[..k]
  {
    if k > 0 { CStringIs(out[1..], k - 1); }
  }

  /** A long printed by %ld into a buffer that holds it reads back as itself. */
  lemma PrintedLongReadsBack(v: int, out: seq<char>, before: seq<char>, n: nat)
    requires MIN_LONG <= v < LONG_LIMIT && |Shown(v)| < n && Served("%ld", Plain, [LongArg(v)], 0, n)
    requires Printed(out, before, n, Rendered("%ld", Plain, [LongArg(v)], 0, n))
    ensures ToLong(Spelled(CString(out))) == v
  {
    hide Shown, Spelled, ToLong, Rendered, Served, CString, Printed;
    LongText(v, n);
    ShortText(v, out, before, n);
    CStringIs(out, |Shown(v)|);
    LongReadsBack(v);
  }

  lemma {:induction false} NoNul(v: int)
    ensures forall i :: 0 <= i < |RawDigits(v)| ==> RawDigits(v)[i] != '\0'
    decreases if v < 0 then -v else v
  {
    if !(-10 < v < 10) { NoNul(Quot(v)); }
  }

  lemma ShortText(v: int, out: seq<char>, before: seq<char>, n: nat)
    requires |Shown(v)| < n && Printed(out, before, n, Shown(v))
    ensures |Shown(v)| < |out| && out[..|Shown(v)|] == Shown(v) && out[|Shown(v)|] == '\0'
    ensures forall i :: 0 <= i < |Shown(v)| ==> out[i] != '\0'
  {
    hide RawDigits;
    NoNul(Negate(v));
    NoNul(v);
    forall i | 0 <= i < |Shown(v)| ensures out[i] != '\0' {
      assert out[i] == out[..|Shown(v)|][i];
    }
  }
}
