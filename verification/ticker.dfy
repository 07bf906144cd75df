/**
  Model of `tickerToString` from the frontend's `utils/ticker.ts`.

  The function takes the hex text of a 12-byte ticker (`"0x4e46…"`), skips the
  first two characters, reads the rest two characters at a time with
  JavaScript's `parseInt(slice, 16)`, stops at the first slice that parses to
  zero and turns every other parsed number into one character with
  `String.fromCharCode`.  An absent or empty input gives `undefined`.

  JavaScript strings are sequences of UTF-16 code units; here a `char` stands
  for one code unit.
*/
module TickerUtil {
  import opened Wrappers

  // ---------------------------------------------------------------------------
  // JavaScript's parseInt(s, 16)
  // ---------------------------------------------------------------------------

  /** The code points `parseInt` strips from the front: ECMAScript WhiteSpace and LineTerminator. */
  predicate IsJsSpace(c: char)
    ensures IsJsSpace(c) ==> c as int <= 0x20 || c as int >= 0xA0
  {
    var u := c as int;
    (0x09 <= u <= 0x0D) || u == 0x20 || u == 0xA0 || u == 0x1680 || (0x2000 <= u <= 0x200A) ||
    u == 0x2028 || u == 0x2029 || u == 0x202F || u == 0x205F || u == 0x3000 || u == 0xFEFF
  }

  predicate IsHexDigit(c: char) {
    '0' <= c <= '9' || 'a' <= c <= 'f' || 'A' <= c <= 'F'
  }

  function DigitValue(c: char): (d: nat)
    requires IsHexDigit(c)
    ensures d < 16
  {
    if '0' <= c <= '9' then c as int - '0' as int
    else if 'a' <= c <= 'f' then c as int - 'a' as int + 10
    else c as int - 'A' as int + 10
  }

  /** `s` without its leading white space. */
  function TrimStart(s: string): string
  {
    if s != [] && IsJsSpace(s[0]) then TrimStart(s[1..]) else s
  }

  /** The number of hex digits at the front of `s`. */
  function DigitRun(s: string): (n: nat)
    ensures n <= |s|
    ensures forall i :: 0 <= i < n ==> IsHexDigit(s[i])
    ensures n < |s| ==> !IsHexDigit(s[n])
  {
    if s != [] && IsHexDigit(s[0]) then 1 + DigitRun(s[1..]) else 0
  }

  /** The value of a string of hex digits, most significant first. */
  function HexValue(s: string): nat
    requires forall i :: 0 <= i < |s| ==> IsHexDigit(s[i])
  {
    if s == [] then 0 else 16 * HexValue(s[..|s| - 1]) + DigitValue(s[|s| - 1])
  }

  /** `s` without the sign `parseInt` accepts in front of the digits. */
  function StripSign(t: string): string {
    if t != [] && (t[0] == '-' || t[0] == '+') then t[1..] else t
  }

  /** With radix 16, `parseInt` also skips a `0x` or `0X` prefix. */
  function StripHexPrefix(u: string): string {
    if |u| >= 2 && u[0] == '0' && (u[1] == 'x' || u[1] == 'X') then u[2..] else u
  }

  /** The value of the hex digits at the front of `w`; none at all is NaN. */
  function LeadingHex(w: string): Option<nat> {
    var n := DigitRun(w);
    if n == 0 then None else Some(HexValue(w[..n]))
  }

  /**
    `parseInt(s, 16)`: strip leading white space, take an optional sign, then
    an optional `0x`/`0X` prefix, then the longest run of hex digits.  No digit
    at all gives NaN, modelled as `None`.  A negative zero is returned as 0,
    which is what `=== 0` and `String.fromCharCode` see too.
  */
  function ParseInt16(s: string): Option<int>
  {
    var t := TrimStart(s);
    var digits := LeadingHex(StripHexPrefix(StripSign(t)));
    if digits.None? then None
    else if t != [] && t[0] == '-' then Some(-(digits.value as int))
    else Some(digits.value)
  }

  /** What `parseInt` can return for one slice of the loop: NaN or a number in [-15, 255]. */
  type SliceValue = b: Option<int> | b.None? || -15 <= b.value <= 255 witness None

  /**
    `parseInt(s, 16)` spelled out for the one- and two-character slices the
    loop reads; ParseSliceIsParseInt shows it agrees with ParseInt16.
  */
  function ParseSlice(s: string): SliceValue
    requires |s| <= 2
  {
    if |s| == 0 then None
    else if |s| == 1 then (if IsHexDigit(s[0]) then Some(DigitValue(s[0])) else None)
    else ParsePair(s[0], s[1])
  }

  /** `parseInt` of a two-character string, case by case. */
  function ParsePair(c0: char, c1: char): SliceValue
  {
    if IsHexDigit(c0) then
      if IsHexDigit(c1) then Some(16 * DigitValue(c0) + DigitValue(c1))
      else if c0 == '0' && (c1 == 'x' || c1 == 'X') then None
      else Some(DigitValue(c0))
    else if !IsHexDigit(c1) then None
    else if IsJsSpace(c0) || c0 == '+' then Some(DigitValue(c1))
    else if c0 == '-' then Some(-(DigitValue(c1) as int))
    else None
  }

  /** LeadingHex on at most two characters, case by case. */
  lemma ShortLeadingHex(w: string)
    requires |w| <= 2
    ensures |w| == 0 || !IsHexDigit(w[0]) ==> LeadingHex(w) == None
    ensures |w| >= 1 && IsHexDigit(w[0]) && (|w| == 1 || !IsHexDigit(w[1])) ==>
              LeadingHex(w) == Some(DigitValue(w[0]))
    ensures |w| == 2 && IsHexDigit(w[0]) && IsHexDigit(w[1]) ==>
              LeadingHex(w) == Some(16 * DigitValue(w[0]) + DigitValue(w[1]))
  {
    if |w| >= 1 && IsHexDigit(w[0]) {
      assert HexValue(w[..1]) == DigitValue(w[0]) by {
        assert w[..1][..0] == [];
      }
      var rest := w[1..];
      if |w| == 2 && IsHexDigit(w[1]) {
        assert rest[0] == w[1] && rest[1..] == [];
        assert DigitRun(rest) == 1;
        assert w[..2] == w && w[..2][..1] == w[..1];
      } else {
        assert DigitRun(rest) == 0;
      }
    }
  }

  /** On slices of at most two characters the case analysis is exactly `parseInt(s, 16)`. */
  lemma ParseSliceIsParseInt(s: string)
    requires |s| <= 2
    ensures ParseSlice(s) == ParseInt16(s)
  {
    if s == [] {
      ShortLeadingHex(s);
    } else if IsJsSpace(s[0]) {
      SpaceFirst(s);
    } else {
      assert TrimStart(s) == s;
      var w := StripHexPrefix(StripSign(s));
      if IsHexDigit(s[0]) {
        assert w == (if |s| == 2 && s[0] == '0' && (s[1] == 'x' || s[1] == 'X') then [] else s);
      } else if s[0] == '-' || s[0] == '+' {
        assert w == s[1..];
      } else {
        assert w == s;
      }
      ShortLeadingHex(w);
    }
  }

  /** A slice that starts with white space parses as its second character alone. */
  lemma SpaceFirst(s: string)
    requires 1 <= |s| <= 2 && IsJsSpace(s[0])
    ensures ParseSlice(s) == ParseInt16(s)
  {
    assert TrimStart(s) == TrimStart(s[1..]);
    if |s| == 1 || IsJsSpace(s[1]) {
      OnlySpace(s);
    } else if IsHexDigit(s[1]) {
      SpaceThenDigit(s);
    } else {
      SpaceThenOther(s);
    }
  }

  lemma OnlySpace(s: string)
    requires 1 <= |s| <= 2 && IsJsSpace(s[0]) && (|s| == 1 || IsJsSpace(s[1]))
    ensures ParseSlice(s) == None == ParseInt16(s)
  {
    assert TrimStart(s) == TrimStart(s[1..]) == [];
    ShortLeadingHex([]);
  }

  lemma SpaceThenDigit(s: string)
    requires |s| == 2 && IsJsSpace(s[0]) && IsHexDigit(s[1])
    ensures ParseSlice(s) == Some(DigitValue(s[1])) == ParseInt16(s)
  {
    var rest := s[1..];
    assert TrimStart(s) == TrimStart(rest) == rest;
    assert StripHexPrefix(StripSign(rest)) == rest;
    ShortLeadingHex(rest);
  }

  lemma SpaceThenOther(s: string)
    requires |s| == 2 && IsJsSpace(s[0]) && !IsJsSpace(s[1]) && !IsHexDigit(s[1])
    ensures ParseSlice(s) == None == ParseInt16(s)
  {
    var rest := s[1..];
    assert TrimStart(s) == TrimStart(rest) == rest;
    var w := StripHexPrefix(StripSign(rest));
    assert w == [] || w == rest;
    ShortLeadingHex(w);
  }

  /**
    `String.fromCharCode(b)`: the number is reduced modulo 2^16 (ToUint16,
    which maps NaN to 0) and becomes one UTF-16 code unit.
  */
  function FromCharCode(b: SliceValue): (c: char)
    ensures c == '\0' <==> b.None? || b.value == 0
  {
    if b.None? then '\0' else (b.value % 0x1_0000) as char
  }

  // ---------------------------------------------------------------------------
  // The decoder, as a reference definition
  // ---------------------------------------------------------------------------

  /** How many slices the loop `for (i = 2; i < hex.length; i += 2)` visits. */
  function SliceCount(hex: string): (n: nat)
    ensures n == 0 <==> |hex| <= 2
    ensures 2 * n + 2 >= |hex| && (n > 0 ==> 2 * n + 1 <= |hex|)
  {
    if |hex| <= 2 then 0 else (|hex| - 1) / 2
  }

  /** JavaScript's `s.slice(start, end)` for `start <= s.length`: the end is clipped to the length. */
  function JsSlice(s: string, start: nat, end: nat): (r: string)
    requires start <= |s|
    ensures |r| == (if end <= start then 0 else if end <= |s| then end - start else |s| - start)
  {
    if end <= start then "" else s[start .. if end <= |s| then end else |s|]
  }

  /** The k-th slice the loop reads, `hex.slice(2 + 2k, 4 + 2k)`. */
  function Slice(hex: string, k: nat): (s: string)
    requires k < SliceCount(hex)
    ensures 1 <= |s| <= 2
  {
    JsSlice(hex, 2 + 2 * k, 4 + 2 * k)
  }

  /** What `parseInt` makes of every slice, in order. */
  function Bytes(hex: string): (bs: seq<SliceValue>)
    ensures |bs| == SliceCount(hex)
  {
    seq(SliceCount(hex), k requires 0 <= k < SliceCount(hex) => ParseSlice(Slice(hex, k)))
  }

  /** The longest prefix of `bs` without a zero: the values the loop turns into characters. */
  function UntilZero(bs: seq<SliceValue>): (r: seq<SliceValue>)
    ensures r <= bs
    ensures Some(0) !in r
    ensures |r| < |bs| ==> bs[|r|] == Some(0)
  {
    if bs == [] || bs[0] == Some(0) then [] else [bs[0]] + UntilZero(bs[1..])
  }

  function CharsOf(bs: seq<SliceValue>): (s: string)
    ensures |s| == |bs|
    ensures forall i :: 0 <= i < |bs| ==> s[i] == FromCharCode(bs[i])
  {
    seq(|bs|, i requires 0 <= i < |bs| => FromCharCode(bs[i]))
  }

  /** `tickerToString` as a function of its input. */
  function Decode(ticker: Option<string>): (r: Option<string>)
    ensures r.None? <==> ticker.None? || ticker.value == []
    ensures r.Some? ==> |r.value| <= (|ticker.value| - 1) / 2
  {
    if ticker.None? || ticker.value == [] then None
    else Some(CharsOf(UntilZero(Bytes(ticker.value))))
  }

  // ---------------------------------------------------------------------------
  // The decoder as the source writes it: one loop over the slices
  // ---------------------------------------------------------------------------

  /**
    What the loop appends to `str` from the k-th slice on: that slice's
    character and the rest, unless the slice parses to zero.
  */
  function Scan(hex: string, k: nat): string
    decreases SliceCount(hex) - k
  {
    if k >= SliceCount(hex) then ""
    else
      var b := ParseSlice(Slice(hex, k));
      if b == Some(0) then "" else [FromCharCode(b)] + Scan(hex, k + 1)
  }

  method TickerToString(ticker: Option<string>) returns (r: Option<string>)
    ensures r == Decode(ticker)
  {
    if ticker.None? || |ticker.value| == 0 {
      return None;
    }
    var hex := ticker.value;
    var str := "";
    var i := 2;
    ghost var k := 0;
    while i < |hex|
      invariant i == 2 + 2 * k
      invariant str + Scan(hex, k) == Scan(hex, 0)
    {
      var byte := ParseSlice(JsSlice(hex, i, i + 2));
      ScanStep(hex, k, str, byte);
      if byte == Some(0) {
        break;
      }
      str := str + [FromCharCode(byte)];
      i := i + 2;
      k := k + 1;
    }
    ScanDone(hex, k, i, str);
    DecodeIsScan(hex, str);
    return Some(str);
  }

  /** One turn of the loop: the slice at `i = 2 + 2k` is the k-th slice. */
  lemma ScanStep(hex: string, k: nat, str: string, byte: SliceValue)
    requires 2 + 2 * k < |hex| && byte == ParseSlice(JsSlice(hex, 2 + 2 * k, 4 + 2 * k))
    requires str + Scan(hex, k) == Scan(hex, 0)
    ensures byte == Some(0) ==> Scan(hex, k) == ""
    ensures byte != Some(0) ==> (str + [FromCharCode(byte)]) + Scan(hex, k + 1) == Scan(hex, 0)
  {
    assert k < SliceCount(hex);
    if byte != Some(0) {
      var c := FromCharCode(byte);
      assert Scan(hex, k) == [c] + Scan(hex, k + 1);
      assert (str + [c]) + Scan(hex, k + 1) == str + ([c] + Scan(hex, k + 1));
    }
  }

  /** The loop ends with nothing left to scan, by a zero slice or at the end of the input, so `str` is everything. */
  lemma ScanDone(hex: string, k: nat, i: int, str: string)
    requires i == 2 + 2 * k
    requires i < |hex| ==> Scan(hex, k) == ""
    requires str + Scan(hex, k) == Scan(hex, 0)
    ensures str == Scan(hex, 0)
  {
    assert Scan(hex, k) == "";
    assert str + "" == str;
  }

  /** The loop computes the reference definition. */
  lemma DecodeIsScan(hex: string, str: string)
    requires hex != [] && str == Scan(hex, 0)
    ensures Decode(Some(hex)) == Some(str)
  {
    ScanIsDecode(hex, 0);
    assert Bytes(hex)[0..] == Bytes(hex);
  }

  lemma {:induction false} ScanIsDecode(hex: string, k: nat)
    requires k <= SliceCount(hex)
    ensures Scan(hex, k) == CharsOf(UntilZero(Bytes(hex)[k..]))
    decreases SliceCount(hex) - k
  {
    var bs := Bytes(hex);
    if k < SliceCount(hex) {
      ScanIsDecode(hex, k + 1);
      assert bs[k..][1..] == bs[k + 1..];
    }
  }

  /** A sequence without a zero passes through whole. */
  lemma {:induction false} UntilZeroOfZeroFree(p: seq<SliceValue>)
    requires Some(0) !in p
    ensures UntilZero(p) == p
  {
    if p != [] {
      assert p[0] in p;
      assert Some(0) !in p[1..] by {
        forall b | b in p[1..] ensures b in p { }
      }
      UntilZeroOfZeroFree(p[1..]);
    }
  }

  /** Everything from a zero onwards is dropped. */
  lemma {:induction false} UntilZeroCut(bs: seq<SliceValue>, k: nat)
    requires k < |bs| && bs[k] == Some(0)
    ensures UntilZero(bs) == UntilZero(bs[..k])
  {
    if k > 0 && bs[0] != Some(0) {
      UntilZeroCut(bs[1..], k - 1);
      assert bs[..k][1..] == bs[1..][..k - 1];
    }
  }
}

module TickerProperties {
  import opened Wrappers
  import opened TickerUtil

  /** An input of one or two characters, such as `"0x"`, decodes to the empty string, not to `undefined`. */
  lemma PrefixOnlyIsEmpty(hex: string)
    requires 1 <= |hex| <= 2
    ensures Decode(Some(hex)) == Some("")
  {
  }

  /**
    Output character j comes from the j-th two-character slice after the
    prefix, `hex.slice(2 + 2j, 4 + 2j)`, and no slice up to it parsed to zero.
  */
  lemma DecodedChar(hex: string, j: nat)
    requires hex != [] && j < |Decode(Some(hex)).value|
    ensures 4 + 2 * j <= |hex| + 1
    ensures Decode(Some(hex)).value[j] == FromCharCode(ParseSlice(JsSlice(hex, 2 + 2 * j, 4 + 2 * j)))
    ensures forall i :: 0 <= i <= j ==> ParseSlice(JsSlice(hex, 2 + 2 * i, 4 + 2 * i)) != Some(0)
  {
    var bs := Bytes(hex);
    var r := UntilZero(bs);
    assert j < |r| <= |bs|;
    forall i | 0 <= i <= j
      ensures ParseSlice(JsSlice(hex, 2 + 2 * i, 4 + 2 * i)) != Some(0)
    {
      assert r[i] == bs[i] && r[i] in r;
    }
  }

  /** Everything after a zero byte is ignored: appending `"00"` and anything else changes nothing. */
  lemma StopsAtZero(hex: string, rest: string)
    requires |hex| >= 2 && |hex| % 2 == 0
    ensures Decode(Some(hex + "00" + rest)) == Decode(Some(hex))
  {
    var long := hex + "00" + rest;
    var m := SliceCount(hex);
    assert m == (|hex| - 2) / 2;
    var bs, bl := Bytes(hex), Bytes(long);
    assert m < |bl|;
    forall k | 0 <= k < m
      ensures bl[k] == bs[k]
    {
      assert Slice(long, k) == Slice(hex, k);
    }
    assert bl[..m] == bs;
    assert Slice(long, m) == "00";
    UntilZeroCut(bl, m);
  }

  /** A NUL character reaches the output exactly when a slice before the stop is not a number. */
  lemma NulIffNotANumber(hex: string)
    requires hex != []
    ensures '\0' in Decode(Some(hex)).value <==> None in UntilZero(Bytes(hex))
  {
    var r := UntilZero(Bytes(hex));
    var out := Decode(Some(hex)).value;
    if '\0' in out {
      var j :| 0 <= j < |out| && out[j] == '\0';
      assert r[j] == None;
    }
    if None in r {
      var j :| 0 <= j < |r| && r[j] == None;
      assert out[j] == '\0';
    }
  }

  /** So an input of hex digits after the prefix never yields a NUL character. */
  lemma HexInputHasNoNul(hex: string)
    requires hex != []
    requires forall i :: 2 <= i < |hex| ==> IsHexDigit(hex[i])
    ensures '\0' !in Decode(Some(hex)).value
  {
    var bs := Bytes(hex);
    forall k | 0 <= k < |bs|
      ensures bs[k].Some?
    {
      var s := Slice(hex, k);
      assert s[0] == hex[2 + 2 * k];
    }
    NulIffNotANumber(hex);
  }

  /** A slice that is not hex, such as `"zz"`, gives NaN, and `String.fromCharCode(NaN)` is a NUL character. */
  lemma NotHexGivesNul()
    ensures Decode(Some("0xzz")) == Some("\0")
  {
    var bs := Bytes("0xzz");
    assert Slice("0xzz", 0) == "zz";
    assert ParseSlice("zz") == None;
    assert |bs| == 1 && bs[0] == None;
    assert bs == [None];
    assert UntilZero(bs) == [None];
    var out := CharsOf([None]);
    assert |out| == 1 && out[0] == '\0';
    assert out == "\0";
  }

  // ---------------------------------------------------------------------------
  // Round trip with the encoder that produced the ticker: `0x` and two lower-case
  // hex digits per byte, as the chain reports a 12-byte ticker
  // ---------------------------------------------------------------------------

  /** A byte. */
  type Byte = x: int | 0 <= x < 0x100

  /** The lower-case hex digit for `d`. */
  function HexChar(d: nat): (c: char)
    requires d < 16
    ensures IsHexDigit(c) && DigitValue(c) == d
  {
    if d < 10 then ('0' as int + d) as char else ('a' as int + d - 10) as char
  }

  /** Two lower-case hex digits per byte, high nibble first. */
  function HexEncode(bs: seq<Byte>): (hex: string)
    ensures |hex| == 2 * |bs|
  {
    seq(2 * |bs|, i requires 0 <= i < 2 * |bs| =>
      if i % 2 == 0 then HexChar(bs[i / 2] / 16) else HexChar(bs[i / 2] % 16))
  }

  /** The bytes before the first zero byte. */
  function BeforeZero(bs: seq<Byte>): (r: seq<Byte>)
    ensures r <= bs && 0 !in r
    ensures |r| < |bs| ==> bs[|r|] == 0
  {
    if bs == [] || bs[0] == 0 then [] else [bs[0]] + BeforeZero(bs[1..])
  }

  /** The bytes before the first zero are those up to a zero at `k` when none comes earlier. */
  lemma BeforeZeroAt(bs: seq<Byte>, k: nat)
    requires k < |bs| && bs[k] == 0
    requires forall i :: 0 <= i < k ==> bs[i] != 0
    ensures BeforeZero(bs) == bs[..k]
  {
  }

  /** Each byte read as the character with that code (Latin-1). */
  function Latin1(bs: seq<Byte>): (s: string)
    ensures |s| == |bs| && forall i :: 0 <= i < |bs| ==> s[i] as int == bs[i]
  {
    seq(|bs|, i requires 0 <= i < |bs| => bs[i] as char)
  }

  /** Bytes seen as parsed slices. */
  function AsSlices(bs: seq<Byte>): (r: seq<SliceValue>)
    ensures |r| == |bs| && forall k :: 0 <= k < |bs| ==> r[k] == Some(bs[k])
  {
    seq(|bs|, k requires 0 <= k < |bs| => Some(bs[k]))
  }

  /** The two digits of a byte parse back to that byte. */
  lemma ParseHexPair(b: Byte)
    ensures ParseSlice([HexChar(b / 16), HexChar(b % 16)]) == Some(b)
  {
    var s := [HexChar(b / 16), HexChar(b % 16)];
    assert IsHexDigit(s[0]) && IsHexDigit(s[1]);
  }

  lemma SliceOfEncoded(bs: seq<Byte>, k: nat)
    requires k < |bs|
    ensures SliceCount("0x" + HexEncode(bs)) == |bs|
    ensures Slice("0x" + HexEncode(bs), k) == [HexChar(bs[k] / 16), HexChar(bs[k] % 16)]
  {
    var e := HexEncode(bs);
    assert e[2 * k] == HexChar(bs[k] / 16);
    assert e[2 * k + 1] == HexChar(bs[k] % 16);
  }

  /** Each slice of an encoded byte parses back to that byte. */
  lemma BytesOfEncoded(bs: seq<Byte>)
    ensures Bytes("0x" + HexEncode(bs)) == AsSlices(bs)
  {
    var hex := "0x" + HexEncode(bs);
    assert SliceCount(hex) == |bs|;
    forall k | 0 <= k < |bs|
      ensures Bytes(hex)[k] == Some(bs[k])
    {
      SliceOfEncoded(bs, k);
      ParseHexPair(bs[k]);
    }
  }

  lemma {:induction false} UntilZeroOfSlices(bs: seq<Byte>)
    ensures UntilZero(AsSlices(bs)) == AsSlices(BeforeZero(bs))
  {
    if bs != [] && bs[0] != 0 {
      UntilZeroOfSlices(bs[1..]);
      assert AsSlices(bs)[1..] == AsSlices(bs[1..]);
      assert AsSlices(BeforeZero(bs)) == [Some(bs[0])] + AsSlices(BeforeZero(bs[1..]));
    }
  }

  lemma CharsOfSlices(b: seq<Byte>)
    ensures CharsOf(AsSlices(b)) == Latin1(b)
  {
    forall i | 0 <= i < |b|
      ensures CharsOf(AsSlices(b))[i] == Latin1(b)[i]
    {
      assert FromCharCode(Some(b[i])) == b[i] as char;
    }
  }

  /**
    Decoding an encoded ticker gives back its bytes up to the first zero,
    one character per byte.
  */
  lemma DecodeEncoded(bs: seq<Byte>)
    ensures Decode(Some("0x" + HexEncode(bs))) == Some(Latin1(BeforeZero(bs)))
  {
    BytesOfEncoded(bs);
    UntilZeroOfSlices(bs);
    CharsOfSlices(BeforeZero(bs));
  }
}
