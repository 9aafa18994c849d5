/**
 * String primitives the source uses through the JavaScript runtime: `toLowerCase`, `includes`,
 * `startsWith`-style tests, `Number.prototype.toString(radix)` on non-negative integers and
 * `padStart`. A Dafny `char` is a Unicode scalar value; where the source measures a string with
 * JavaScript's `.length`, which counts UTF-16 code units, the model uses `Utf16Length`.
 * Lower-casing covers ASCII letters.
 */
module Text {

  /** The UTF-16 code units of one scalar value: two (a surrogate pair) above the Basic Multilingual Plane. */
  function Utf16Units(c: char): (n: nat)
    ensures n == 1 || n == 2
    ensures n == 2 <==> c as int >= 0x1_0000
  {
    if c as int >= 0x1_0000 then 2 else 1
  }

  /** JavaScript's `s.length`: the number of UTF-16 code units of `s`. */
  function Utf16Length(s: string): (n: nat)
    ensures |s| <= n <= 2 * |s|
    ensures n == 0 <==> s == ""
  {
    if s == [] then 0 else Utf16Units(s[0]) + Utf16Length(s[1..])
  }

  /** Below the supplementary planes the two lengths agree. */
  lemma {:induction false} Utf16LengthOfBmp(s: string)
    requires forall i :: 0 <= i < |s| ==> s[i] as int < 0x1_0000
    ensures Utf16Length(s) == |s|
  {
    if s != [] {
      assert forall i :: 0 <= i < |s[1..]| ==> s[1..][i] == s[i + 1];
      Utf16LengthOfBmp(s[1..]);
    }
  }

  /** An emoji is one `char` but two code units. */
  lemma EmojiCountsTwice()
    ensures |"\U{1F600}"| == 1 && Utf16Length("\U{1F600}") == 2
  {
  }

  predicate IsAsciiUpper(c: char) { 'A' <= c <= 'Z' }
  predicate IsAsciiLower(c: char) { 'a' <= c <= 'z' }
  predicate IsAsciiDigit(c: char) { '0' <= c <= '9' }
  predicate IsAsciiAlnum(c: char) { IsAsciiUpper(c) || IsAsciiLower(c) || IsAsciiDigit(c) }

  function ToLowerChar(c: char): (r: char)
    ensures !IsAsciiUpper(r)
    ensures IsAsciiUpper(c) ==> IsAsciiLower(r)
    ensures !IsAsciiUpper(c) ==> r == c
  {
    if IsAsciiUpper(c) then (c as int + 32) as char else c
  }

  /** `s.toLowerCase()` restricted to ASCII letters. */
  function ToLower(s: string): string {
    seq(|s|, i requires 0 <= i < |s| => ToLowerChar(s[i]))
  }

  /** Lower-casing twice is lower-casing once. */
  lemma ToLowerIdempotent(s: string)
    ensures ToLower(ToLower(s)) == ToLower(s)
  {
  }

  predicate StartsWith(s: string, prefix: string) {
    |prefix| <= |s| && s[..|prefix|] == prefix
  }

  /** `hay.includes(needle)`: `needle` occurs in `hay` at some position. */
  predicate Includes(hay: string, needle: string)
    decreases |hay|
  {
    StartsWith(hay, needle) || (hay != [] && Includes(hay[1..], needle))
  }

  /** `Includes` means "occurs at some offset", in both directions. */
  lemma {:induction false} IncludesAt(hay: string, needle: string)
    ensures Includes(hay, needle) <==>
              exists k :: 0 <= k <= |hay| - |needle| && StartsWith(hay[k..], needle)
    decreases |hay|
  {
    if StartsWith(hay, needle) {
      assert hay[0..] == hay;
    } else if hay == [] {
    } else {
      IncludesAt(hay[1..], needle);
      if Includes(hay[1..], needle) {
        var k :| 0 <= k <= |hay[1..]| - |needle| && StartsWith(hay[1..][k..], needle);
        assert hay[1..][k..] == hay[k + 1..];
      }
      if exists k :: 0 <= k <= |hay| - |needle| && StartsWith(hay[k..], needle) {
        var k :| 0 <= k <= |hay| - |needle| && StartsWith(hay[k..], needle);
        assert hay[0..] == hay;
        assert k != 0;
        assert hay[1..][k - 1..] == hay[k..];
      }
    }
  }

  /** The empty search term is found in every string, so an empty search box filters nothing out. */
  lemma IncludesEmpty(hay: string)
    ensures Includes(hay, "")
  {
  }

  /**
   * Characters matched by `\s` in a JavaScript regular expression: the ECMAScript WhiteSpace and
   * LineTerminator code points.
   */
  predicate IsJsWhitespace(c: char) {
    var n := c as int;
    n == 0x09 || n == 0x0A || n == 0x0B || n == 0x0C || n == 0x0D || n == 0x20 || n == 0xA0 ||
    n == 0x1680 || (0x2000 <= n <= 0x200A) || n == 0x2028 || n == 0x2029 || n == 0x202F ||
    n == 0x205F || n == 0x3000 || n == 0xFEFF
  }

  const HexAlphabet: string := "0123456789abcdef"

  /** The digit for `d` in bases up to 16, lower-case as `Number.prototype.toString` writes it. */
  function DigitChar(d: nat): char
    requires d < 16
  {
    HexAlphabet[d]
  }

  /** The value of a digit character, or -1 for a character that is not one. */
  function DigitValue(c: char): int {
    if '0' <= c <= '9' then c as int - '0' as int
    else if 'a' <= c <= 'f' then c as int - 'a' as int + 10
    else -1
  }

  lemma DigitRoundTrip(d: nat)
    requires d < 16
    ensures DigitValue(DigitChar(d)) == d
  {
  }

  predicate IsDigitOf(c: char, base: nat) { 0 <= DigitValue(c) < base }

  /** `n.toString(base)`: the shortest digit string of `n`, most significant digit first. */
  function ToDigits(n: nat, base: nat): (r: string)
    requires 2 <= base <= 16
    ensures |r| >= 1
    ensures forall i :: 0 <= i < |r| ==> IsDigitOf(r[i], base)
    ensures |r| > 1 ==> r[0] != '0'
    decreases n
  {
    if n < base then
      DigitRoundTrip(n);
      [DigitChar(n)]
    else
      DivMod(n, base);
      var init, d := ToDigits(n / base, base), n % base;
      DigitRoundTrip(d);
      init + [DigitChar(d)]
  }

  /** The number a digit string denotes in `base` (what `parseInt(s, base)` reads back). */
  function ValueOf(s: string, base: nat): int
    requires 2 <= base <= 16
    requires forall i :: 0 <= i < |s| ==> IsDigitOf(s[i], base)
    decreases |s|
  {
    if s == [] then 0 else ValueOf(s[..|s| - 1], base) * base + DigitValue(s[|s| - 1])
  }

  /** Division by a base: the quotient and remainder recombine, and shrink a number of two or more digits. */
  lemma DivMod(n: nat, base: nat)
    requires 2 <= base <= 16
    ensures n == (n / base) * base + n % base
    ensures 0 <= n % base < base
    ensures n >= base ==> 1 <= n / base < n
  {
  }

  /** A number of two or more digits is its leading digits followed by its last digit. */
  lemma ToDigitsSnoc(n: nat, base: nat)
    requires 2 <= base <= 16 && n >= base
    ensures ToDigits(n, base) == ToDigits(n / base, base) + [DigitChar(n % base)]
  {
  }

  /** Printing a number and reading it back gives the number. */
  lemma {:induction false} ToDigitsRoundTrip(n: nat, base: nat)
    requires 2 <= base <= 16
    ensures ValueOf(ToDigits(n, base), base) == n
    decreases n
  {
    DivMod(n, base);
    var q, d := n / base, n % base;
    DigitRoundTrip(d);
    if n >= base {
      var r, init := ToDigits(n, base), ToDigits(q, base);
      ToDigitsSnoc(n, base);
      assert r[..|r| - 1] == init && r[|r| - 1] == DigitChar(d);
      ToDigitsRoundTrip(q, base);
      assert ValueOf(r, base) == q * base + d;
    } else {
      assert [DigitChar(n)][..0] == [];
    }
  }

  function Repeat(c: char, k: nat): (r: string)
    ensures |r| == k
    ensures forall i :: 0 <= i < k ==> r[i] == c
  {
    if k == 0 then [] else Repeat(c, k - 1) + [c]
  }

  /** `s.padStart(width, fill)` with a one-character fill. */
  function PadStart(s: string, width: nat, fill: char): (r: string)
    ensures |r| == if |s| >= width then |s| else width
    ensures r[|r| - |s|..] == s
    ensures forall i :: 0 <= i < |r| - |s| ==> r[i] == fill
  {
    if |s| >= width then s else Repeat(fill, width - |s|) + s
  }

  /** A leading `'0'` does not change the value of a digit string. */
  lemma {:induction false} LeadingZero(s: string, base: nat)
    requires 2 <= base <= 16
    requires forall i :: 0 <= i < |s| ==> IsDigitOf(s[i], base)
    ensures ValueOf(['0'] + s, base) == ValueOf(s, base)
    decreases |s|
  {
    if s != [] {
      var init := s[..|s| - 1];
      LeadingZero(init, base);
      assert (['0'] + s)[..|['0'] + s| - 1] == ['0'] + init;
    }
  }

  /** Zero padding keeps the value: `parseInt(s.padStart(w, '0'), b) == parseInt(s, b)`. */
  lemma {:induction false} PadStartValue(s: string, base: nat, width: nat)
    requires 2 <= base <= 16
    requires forall i :: 0 <= i < |s| ==> IsDigitOf(s[i], base)
    ensures forall i :: 0 <= i < |PadStart(s, width, '0')| ==> IsDigitOf(PadStart(s, width, '0')[i], base)
    ensures ValueOf(PadStart(s, width, '0'), base) == ValueOf(s, base)
    decreases width
  {
    if |s| < width {
      var shorter := PadStart(s, width - 1, '0');
      assert ValueOf(shorter, base) == ValueOf(s, base) by { PadStartValue(s, base, width - 1); }
      assert PadStart(s, width, '0') == ['0'] + shorter;
      assert ValueOf(['0'] + shorter, base) == ValueOf(shorter, base) by { LeadingZero(shorter, base); }
    }
  }

  /** An eight-bit byte. */
  newtype byte = x: int | 0 <= x < 256

  /** A byte written as two lower-case hex digits: `byte.toString(16).padStart(2, '0')`. */
  function ByteHex(b: byte): string {
    PadStart(ToDigits(b as nat, 16), 2, '0')
  }

  /** The two-digit form is exactly the high and low nibble. */
  lemma ByteHexDigits(b: byte)
    ensures ByteHex(b) == [DigitChar(b as nat / 16), DigitChar(b as nat % 16)]
  {
    var n := b as nat;
    if n >= 16 {
      assert ToDigits(n, 16) == ToDigits(n / 16, 16) + [DigitChar(n % 16)];
    }
  }

  /** Each of the two digits of a byte is a hex digit, and together they read back as the byte. */
  lemma ByteHexDecodes(b: byte)
    ensures |ByteHex(b)| == 2
    ensures IsDigitOf(ByteHex(b)[0], 16) && IsDigitOf(ByteHex(b)[1], 16)
    ensures DigitValue(ByteHex(b)[0]) * 16 + DigitValue(ByteHex(b)[1]) == b as int
  {
    ByteHexDigits(b);
    DigitRoundTrip(b as nat / 16);
    DigitRoundTrip(b as nat % 16);
  }
}
