/**
 * Utils.escapeUtf8 and Utils.unescapeUtf8 of the request layer.
 *
 * JavaScript strings are sequences of UTF-16 code units, so this module
 * works on `JsString`, a sequence of integers below 0x10000 (a Dafny `char`
 * cannot hold a lone surrogate). The bitwise operators of the source are
 * written as arithmetic: each `|` joins bit fields that do not overlap, so
 * it is an addition; `>>` is a division and `&` a remainder by a power of
 * two; `String.fromCharCode` keeps the low 16 bits (`% 0x1_0000`).
 */
module Utf8Escape {
  import opened Wrappers

  type CodeUnit = c: int | 0 <= c < 0x1_0000
  type JsString = seq<CodeUnit>

  const Percent: CodeUnit := 0x25

  /** The code units escapeUtf8 leaves alone: the regex class `[*+.-9A-Z_a-z-]` (`.-9` is a range). */
  predicate Passes(c: int)
  {
    || c == '*' as int
    || c == '+' as int
    || ('.' as int <= c <= '9' as int)
    || ('A' as int <= c <= 'Z' as int)
    || c == '_' as int
    || ('a' as int <= c <= 'z' as int)
    || c == '-' as int
  }

  predicate IsSurrogate(c: int)
  {
    0xD800 <= c <= 0xDFFF
  }

  predicate IsUpperHex(c: int)
  {
    ('0' as int <= c <= '9' as int) || ('A' as int <= c <= 'F' as int)
  }

  /** An upper-case hexadecimal digit (`toString(16)` followed by `toUpperCase()`). */
  function HexDigit(d: nat): (h: CodeUnit)
    requires d < 16
  {
    if d < 10 then '0' as int + d else 'A' as int + (d - 10)
  }

  /** One `%XX` group for a byte. */
  function Pct(b: nat): JsString
    requires b < 256
  {
    [Percent, HexDigit(b / 16), HexDigit(b % 16)]
  }

  /** The replacement escapeUtf8 computes for a code unit outside the pass-through class. */
  function PercentEncode(c: CodeUnit): JsString
  {
    if c < 16 then [Percent, '0' as int, HexDigit(c)]
    else if c < 128 then Pct(c)
    else if c < 2048 then Pct(c / 64 + 192) + Pct(c % 64 + 128)
    else Pct(c / 4096 + 224) + Pct(c / 64 % 64 + 128) + Pct(c % 64 + 128)
  }

  function EscapeUnit(c: CodeUnit): JsString
  {
    if Passes(c) then [c] else PercentEncode(c)
  }

  /** Utils.escapeUtf8: every code unit is replaced independently. */
  function Escape(s: JsString): JsString
  {
    if |s| == 0 then [] else EscapeUnit(s[0]) + Escape(s[1..])
  }

  // ---------------------------------------------------------------------
  // Decoding

  /**
   * The unescape regex has a three-byte lead class `[1-CEF]`. As written,
   * `1-C` is the range U+0031..U+0043, which also holds `:;<=>?@`; the
   * intended class is the hex digits 1..C.
   */
  datatype Reading = AsWritten | Intended

  /** A letter matched under the regex's `i` flag. */
  predicate IsLetter(c: int, upper: char)
  {
    c == upper as int || c == upper as int + 32
  }

  predicate IsHexDigit(c: int)
  {
    ('0' as int <= c <= '9' as int) || ('A' as int <= c <= 'F' as int) || ('a' as int <= c <= 'f' as int)
  }

  function HexValue(c: int): (v: nat)
    requires IsHexDigit(c)
    ensures v < 16
  {
    if c <= '9' as int then c - '0' as int
    else if c <= 'F' as int then c - 'A' as int + 10
    else c - 'a' as int + 10
  }

  predicate In0To7(c: int) { '0' as int <= c <= '7' as int }
  predicate In89(c: int) { c == '8' as int || c == '9' as int }
  predicate InAB(c: int) { IsLetter(c, 'A') || IsLetter(c, 'B') }
  predicate In89AB(c: int) { In89(c) || InAB(c) }
  predicate In2ToF(c: int) { IsHexDigit(c) && !(c == '0' as int || c == '1' as int) }

  /** The class `[1-CEF]` under the `i` flag, as written or as intended. */
  predicate InLeadClass(c: int, reading: Reading)
  {
    || (reading == AsWritten && '1' as int <= c <= 'C' as int)
    || (reading == Intended && (('1' as int <= c <= '9' as int) || ('A' as int <= c <= 'C' as int)))
    || ('a' as int <= c <= 'c' as int)
    || IsLetter(c, 'E') || IsLetter(c, 'F')
  }

  /** `%E(0%[AB]|[1-CEF]%[89AB]|D%[89])[0-9A-F]%[89AB][0-9A-F]` at the start of `s`. */
  predicate ThreeByteAt(s: JsString, reading: Reading)
    requires |s| >= 9
  {
    && s[0] == Percent && IsLetter(s[1], 'E')
    && (|| (s[2] == '0' as int && s[3] == Percent && InAB(s[4]))
        || (InLeadClass(s[2], reading) && s[3] == Percent && In89AB(s[4]))
        || (IsLetter(s[2], 'D') && s[3] == Percent && In89(s[4])))
    && IsHexDigit(s[5]) && s[6] == Percent && In89AB(s[7]) && IsHexDigit(s[8])
  }

  /** `%(C[2-9A-F]|D[0-9A-F])%[89AB][0-9A-F]` at the start of `s`. */
  predicate TwoByteAt(s: JsString)
    requires |s| >= 6
  {
    && s[0] == Percent
    && ((IsLetter(s[1], 'C') && In2ToF(s[2])) || (IsLetter(s[1], 'D') && IsHexDigit(s[2])))
    && s[3] == Percent && In89AB(s[4]) && IsHexDigit(s[5])
  }

  /** `%[0-7][0-9A-F]` at the start of `s`. */
  predicate OneByteAt(s: JsString)
    requires |s| >= 3
  {
    s[0] == Percent && In0To7(s[1]) && IsHexDigit(s[2])
  }

  /** `parseInt(t, 16)` on text that starts with a hex digit: the value of the leading run of hex digits. */
  function HexPrefix(t: JsString, acc: nat): nat
    decreases |t|
  {
    if |t| > 0 && IsHexDigit(t[0]) then HexPrefix(t[1..], acc * 16 + HexValue(t[0])) else acc
  }

  /** `t.substring(from)`, empty past the end. */
  function Substring(t: JsString, from: nat): JsString
  {
    if from <= |t| then t[from..] else []
  }

  /** The replacement callback of unescapeUtf8 applied to the matched text `g`. */
  function DecodeGroup(g: JsString): CodeUnit
  {
    var c := HexPrefix(Substring(g, 1), 0);
    var value :=
      if c < 128 then c
      else if c < 224 then (c % 32) * 64 + HexPrefix(Substring(g, 4), 0) % 64
      else ((c % 16) * 64 + HexPrefix(Substring(g, 4), 0) % 64) * 64 + HexPrefix(Substring(g, 7), 0) % 64;
    value % 0x1_0000
  }

  datatype Group = Group(length: nat, unit: CodeUnit)

  /** The regex match starting at the first code unit of `s`, if any, and its replacement. */
  function MatchAt(s: JsString, reading: Reading): (m: Option<Group>)
    ensures m.Some? ==> 3 <= m.value.length <= |s| && s[0] == Percent
  {
    if |s| >= 9 && ThreeByteAt(s, reading) then Some(Group(9, DecodeGroup(s[..9])))
    else if |s| >= 6 && TwoByteAt(s) then Some(Group(6, DecodeGroup(s[..6])))
    else if |s| >= 3 && OneByteAt(s) then Some(Group(3, DecodeGroup(s[..3])))
    else None
  }

  /** Utils.unescapeUtf8: a global left-to-right replace; unmatched code units are copied. */
  function Unescape(s: JsString, reading: Reading): JsString
    decreases |s|
  {
    if |s| == 0 then []
    else match MatchAt(s, reading)
      case Some(g) => [g.unit] + Unescape(s[g.length..], reading)
      case None => [s[0]] + Unescape(s[1..], reading)
  }

  // ---------------------------------------------------------------------
  // What escapeUtf8 produces

  /** A run of `%XX` groups whose two digits are upper-case hexadecimal. */
  predicate IsGroups(r: JsString)
    decreases |r|
  {
    |r| == 0 || (|r| >= 3 && r[0] == Percent && IsUpperHex(r[1]) && IsUpperHex(r[2]) && IsGroups(r[3..]))
  }

  lemma HexDigitValue(d: nat)
    requires d < 16
    ensures IsUpperHex(HexDigit(d)) && IsHexDigit(HexDigit(d)) && HexValue(HexDigit(d)) == d
  {
  }

  lemma PctGroups(b: nat, rest: JsString)
    requires b < 256
    requires IsGroups(rest)
    ensures IsGroups(Pct(b) + rest)
  {
    HexDigitValue(b / 16);
    HexDigitValue(b % 16);
    assert (Pct(b) + rest)[3..] == rest;
  }

  /** A code unit below 16 gets a zero-padded group, the same text as Pct. */
  lemma SmallIsPct(c: CodeUnit)
    requires c < 128
    ensures PercentEncode(c) == Pct(c)
  {
  }

  /**
   * escapeUtf8 on one code unit: the pass-through class is kept; every
   * other code unit becomes one `%XX` group below 128, two below 2048 and
   * three otherwise, in upper-case hexadecimal.
   */
  lemma EscapeUnitShape(c: CodeUnit)
    ensures Passes(c) ==> EscapeUnit(c) == [c]
    ensures !Passes(c) ==> IsGroups(EscapeUnit(c))
    ensures !Passes(c) ==> |EscapeUnit(c)| == (if c < 128 then 3 else if c < 2048 then 6 else 9)
  {
    if !Passes(c) {
      PctGroups(c % 64 + 128, []);
      if c < 128 {
        SmallIsPct(c);
        PctGroups(c, []);
      } else if c < 2048 {
        PctGroups(c / 64 + 192, Pct(c % 64 + 128));
      } else {
        PctGroups(c / 64 % 64 + 128, Pct(c % 64 + 128));
        PctGroups(c / 4096 + 224, Pct(c / 64 % 64 + 128) + Pct(c % 64 + 128));
        assert PercentEncode(c) == Pct(c / 4096 + 224) + (Pct(c / 64 % 64 + 128) + Pct(c % 64 + 128));
      }
    }
  }

  lemma {:induction false} GroupsAlphabet(r: JsString)
    requires IsGroups(r)
    ensures forall i :: 0 <= i < |r| ==> Passes(r[i]) || r[i] == Percent
    decreases |r|
  {
    if |r| > 0 {
      GroupsAlphabet(r[3..]);
      forall i | 3 <= i < |r| ensures Passes(r[i]) || r[i] == Percent {
        assert r[i] == r[3..][i - 3];
      }
    }
  }

  /** The output of escapeUtf8 holds only pass-through code units and `%`. */
  lemma {:induction false} EscapeAlphabet(s: JsString)
    ensures forall i :: 0 <= i < |Escape(s)| ==> Passes(Escape(s)[i]) || Escape(s)[i] == Percent
    decreases |s|
  {
    if |s| > 0 {
      EscapeUnitShape(s[0]);
      if !Passes(s[0]) {
        GroupsAlphabet(EscapeUnit(s[0]));
      }
      EscapeAlphabet(s[1..]);
      var u := EscapeUnit(s[0]);
      forall i | |u| <= i < |Escape(s)| ensures Passes(Escape(s)[i]) || Escape(s)[i] == Percent {
        assert Escape(s)[i] == Escape(s[1..])[i - |u|];
      }
    }
  }

  lemma {:induction false} EscapeGrows(s: JsString)
    ensures |Escape(s)| >= |s|
    decreases |s|
  {
    if |s| > 0 {
      EscapeUnitShape(s[0]);
      EscapeGrows(s[1..]);
    }
  }

  /** escapeUtf8 leaves a string unchanged exactly when all of it is in the pass-through class. */
  lemma {:induction false} EscapeIdentity(s: JsString)
    ensures Escape(s) == s <==> forall i :: 0 <= i < |s| ==> Passes(s[i])
    decreases |s|
  {
    if |s| > 0 {
      EscapeUnitShape(s[0]);
      EscapeGrows(s[1..]);
      EscapeIdentity(s[1..]);
      if Passes(s[0]) {
        assert s == [s[0]] + s[1..];
        if Escape(s) == s {
          assert Escape(s[1..]) == Escape(s)[1..];
        }
        if forall i :: 0 <= i < |s| ==> Passes(s[i]) {
          assert forall i :: 0 <= i < |s[1..]| ==> Passes(s[1..][i]) by {
            forall i | 0 <= i < |s[1..]| ensures Passes(s[1..][i]) {
              assert s[1..][i] == s[i + 1];
            }
          }
        }
      } else {
        assert |Escape(s)| > |s|;
      }
    }
  }

  // ---------------------------------------------------------------------
  // Decoding what escapeUtf8 produced

  /** `parseInt` of the two digits of a group, followed by `%` or by the end of the text. */
  lemma ParsePct(b: nat, rest: JsString)
    requires b < 256
    requires rest == [] || rest[0] == Percent
    ensures HexPrefix(Pct(b)[1..] + rest, 0) == b
  {
    var hi, lo := HexDigit(b / 16), HexDigit(b % 16);
    HexDigitValue(b / 16);
    HexDigitValue(b % 16);
    var t := Pct(b)[1..] + rest;
    assert t == [hi, lo] + rest;
    assert t[1..] == [lo] + rest;
    assert t[1..][1..] == rest;
    assert !(|rest| > 0 && IsHexDigit(rest[0]));
    calc {
      HexPrefix(t, 0);
      HexPrefix(t[1..], b / 16);
      HexPrefix(t[1..][1..], (b / 16) * 16 + b % 16);
      HexPrefix(rest, b);
    }
  }

  lemma DecodeOne(b: nat)
    requires b < 128
    ensures DecodeGroup(Pct(b)) == b
  {
    assert Substring(Pct(b), 1) == Pct(b)[1..] + [];
    ParsePct(b, []);
  }

  lemma DecodeTwo(b1: nat, b2: nat)
    requires 128 <= b1 < 224 && b2 < 256
    ensures DecodeGroup(Pct(b1) + Pct(b2)) == ((b1 % 32) * 64 + b2 % 64) % 0x1_0000
  {
    var g := Pct(b1) + Pct(b2);
    assert Substring(g, 1) == Pct(b1)[1..] + Pct(b2);
    ParsePct(b1, Pct(b2));
    assert Substring(g, 4) == Pct(b2)[1..] + [];
    ParsePct(b2, []);
  }

  lemma DecodeThree(b1: nat, b2: nat, b3: nat)
    requires 224 <= b1 < 256 && b2 < 256 && b3 < 256
    ensures DecodeGroup(Pct(b1) + Pct(b2) + Pct(b3))
         == (((b1 % 16) * 64 + b2 % 64) * 64 + b3 % 64) % 0x1_0000
  {
    var g := Pct(b1) + Pct(b2) + Pct(b3);
    assert Substring(g, 1) == Pct(b1)[1..] + (Pct(b2) + Pct(b3));
    ParsePct(b1, Pct(b2) + Pct(b3));
    assert Substring(g, 4) == Pct(b2)[1..] + Pct(b3);
    ParsePct(b2, Pct(b3));
    assert Substring(g, 7) == Pct(b3)[1..] + [];
    ParsePct(b3, []);
  }

  lemma ThreeFields(c: int)
    requires 0 <= c < 0x1_0000
    ensures c == (c / 4096) * 4096 + (c / 64 % 64) * 64 + c % 64
  {
    var q := c / 64;
    assert c == q * 64 + c % 64;
    assert q == (q / 64) * 64 + q % 64;
    assert q / 64 == c / 4096;
  }

  lemma MatchesOneByte(c: CodeUnit, t: JsString, reading: Reading)
    requires c < 128
    ensures MatchAt(PercentEncode(c) + t, reading) == Some(Group(3, c))
  {
    var s := PercentEncode(c) + t;
    SmallIsPct(c);
    HexDigitValue(c / 16);
    HexDigitValue(c % 16);
    assert s[..3] == Pct(c);
    assert !(|s| >= 9 && ThreeByteAt(s, reading));
    assert !(|s| >= 6 && TwoByteAt(s));
    DecodeOne(c);
  }

  lemma MatchesTwoBytes(c: CodeUnit, t: JsString, reading: Reading)
    requires 128 <= c < 2048
    ensures MatchAt(PercentEncode(c) + t, reading) == Some(Group(6, c))
  {
    var s := PercentEncode(c) + t;
    var b1, b2 := c / 64 + 192, c % 64 + 128;
    TwoByteSplit(c);
    TwoGroupsAt(b1, b2, t, reading);
    assert s[..6] == Pct(b1) + Pct(b2);
    DecodeTwo(b1, b2);
  }

  /** The two bytes of a two-byte code unit, and their recombination. */
  lemma TwoByteSplit(c: int)
    requires 128 <= c < 2048
    ensures var b1, b2 := c / 64 + 192, c % 64 + 128;
      && 194 <= b1 < 224 && 128 <= b2 < 192
      && ((b1 % 32) * 64 + b2 % 64) % 0x1_0000 == c
  {
    var b1, b2 := c / 64 + 192, c % 64 + 128;
    assert b1 % 32 == c / 64 && b2 % 64 == c % 64;
  }

  /** Two `%XX` groups of a two-byte sequence satisfy the two-byte alternative of the regex and not the three-byte one. */
  lemma TwoGroupsAt(b1: nat, b2: nat, t: JsString, reading: Reading)
    requires 194 <= b1 < 224 && 128 <= b2 < 192
    ensures var s := Pct(b1) + Pct(b2) + t;
      TwoByteAt(s) && !(|s| >= 9 && ThreeByteAt(s, reading))
  {
    var s := Pct(b1) + Pct(b2) + t;
    assert 12 <= b1 / 16 <= 13 && 8 <= b2 / 16 <= 11;
    HexDigitValue(b1 % 16);
    HexDigitValue(b2 % 16);
    assert s[1] == HexDigit(b1 / 16);
  }

  /** The bytes of a three-byte group and the ranges the regex asks of them. */
  lemma ThreeByteRanges(c: int)
    requires 2048 <= c < 0x1_0000 && !IsSurrogate(c)
    ensures var x, y := c / 4096, c / 64 % 64;
      && x < 16 && y < 64
      && (x == 0 ==> y >= 32)
      && (x == 13 ==> y < 32)
  {
    var q := c / 64;
    assert q / 64 == c / 4096;
    if c / 4096 == 0 {
      assert q < 64 && q >= 32;
    }
    if c / 4096 == 13 {
      assert q < 0xD800 / 64;
    }
  }

  /** The first two bytes of a three-byte group satisfy the middle part of the regex. */
  lemma ThreeByteLead(x: nat, y: nat, reading: Reading)
    requires x < 16 && y < 64
    requires x == 0 ==> y >= 32
    requires x == 13 ==> y < 32
    ensures var d2, d4 := HexDigit(x), HexDigit((y + 128) / 16);
      || (d2 == '0' as int && InAB(d4))
      || (InLeadClass(d2, reading) && In89AB(d4))
      || (IsLetter(d2, 'D') && In89(d4))
  {
    assert 8 <= (y + 128) / 16 <= 11;
  }

  lemma MatchesThreeBytes(c: CodeUnit, t: JsString, reading: Reading)
    requires 2048 <= c && !IsSurrogate(c)
    ensures MatchAt(PercentEncode(c) + t, reading) == Some(Group(9, c))
  {
    var x, y, z := c / 4096, c / 64 % 64, c % 64;
    ThreeByteRanges(c);
    ThreeFields(c);
    EncodeThree(x, y, z);
    MatchesThreeGroups(x, y, z, t, reading);
  }

  /** The regex finds three `%XX` groups of a three-byte sequence and decodes them to its fields. */
  lemma MatchesThreeGroups(x: nat, y: nat, z: nat, t: JsString, reading: Reading)
    requires x < 16 && y < 64 && z < 64
    requires x == 0 ==> y >= 32
    requires x == 13 ==> y < 32
    ensures MatchAt(Pct(x + 224) + Pct(y + 128) + Pct(z + 128) + t, reading)
         == Some(Group(9, x * 4096 + y * 64 + z))
  {
    var b1, b2, b3 := x + 224, y + 128, z + 128;
    var s := Pct(b1) + Pct(b2) + Pct(b3) + t;
    ThreeGroupsAt(x, y, z, t, reading);
    assert s[..9] == Pct(b1) + Pct(b2) + Pct(b3);
    DecodeThree(b1, b2, b3);
    ComposeFields(x, y, z);
  }

  /** Three `%XX` groups of a three-byte sequence satisfy the three-byte alternative of the regex. */
  lemma ThreeGroupsAt(x: nat, y: nat, z: nat, t: JsString, reading: Reading)
    requires x < 16 && y < 64 && z < 64
    requires x == 0 ==> y >= 32
    requires x == 13 ==> y < 32
    ensures ThreeByteAt(Pct(x + 224) + Pct(y + 128) + Pct(z + 128) + t, reading)
  {
    var b1, b2, b3 := x + 224, y + 128, z + 128;
    var s := Pct(b1) + Pct(b2) + Pct(b3) + t;
    assert b1 / 16 == 14 && b1 % 16 == x;
    HexDigitValue(x);
    HexDigitValue(b2 % 16);
    HexDigitValue(b3 % 16);
    assert s[1] == HexDigit(14) == 'E' as int;
    assert s[2] == HexDigit(x) && s[4] == HexDigit(b2 / 16);
    ThreeByteLead(x, y, reading);
    assert In89AB(s[7]) by {
      assert 8 <= b3 / 16 <= 11;
    }
  }

  /** The regex finds the group escapeUtf8 wrote for `c`, and the callback turns it back into `c`. */
  lemma MatchesEncoding(c: CodeUnit, t: JsString, reading: Reading)
    requires !IsSurrogate(c)
    ensures MatchAt(PercentEncode(c) + t, reading) == Some(Group(|PercentEncode(c)|, c))
  {
    if c < 128 {
      MatchesOneByte(c, t, reading);
    } else if c < 2048 {
      MatchesTwoBytes(c, t, reading);
    } else {
      MatchesThreeBytes(c, t, reading);
    }
  }

  /** Unescaping the escape of one code unit, followed by anything, yields that code unit first. */
  lemma UnescapeUnit(c: CodeUnit, t: JsString, reading: Reading)
    requires !IsSurrogate(c)
    ensures Unescape(EscapeUnit(c) + t, reading) == [c] + Unescape(t, reading)
  {
    var s := EscapeUnit(c) + t;
    if Passes(c) {
      assert MatchAt(s, reading) == None;
      assert s[1..] == t;
    } else {
      MatchesEncoding(c, t, reading);
      assert s[|PercentEncode(c)|..] == t;
    }
  }

  /**
   * The round trip: unescapeUtf8 undoes escapeUtf8 on every string free of
   * surrogate code units, under either reading of the regex.
   */
  lemma {:induction false} RoundTrip(s: JsString, reading: Reading)
    requires forall i :: 0 <= i < |s| ==> !IsSurrogate(s[i])
    ensures Unescape(Escape(s), reading) == s
    decreases |s|
  {
    if |s| > 0 {
      UnescapeUnit(s[0], Escape(s[1..]), reading);
      RoundTrip(s[1..], reading);
      assert [s[0]] + s[1..] == s;
    }
  }

  // ---------------------------------------------------------------------
  // What unescapeUtf8 accepts

  /** A prefix at none of whose positions the regex matches is copied unchanged, and the rest is unescaped after it. */
  lemma {:induction false} UnescapeCopies(p: JsString, t: JsString, reading: Reading)
    requires forall i :: 0 <= i < |p| ==> MatchAt(p[i..] + t, reading) == None
    ensures Unescape(p + t, reading) == p + Unescape(t, reading)
    decreases |p|
  {
    if |p| > 0 {
      var q := p[1..];
      assert p[0..] == p;
      UnescapeUnmatched(p + t, reading);
      assert (p + t)[1..] == q + t;
      forall i | 0 <= i < |q| ensures MatchAt(q[i..] + t, reading) == None {
        assert q[i..] == p[i + 1..];
      }
      UnescapeCopies(q, t, reading);
      assert [p[0]] + q == p;
    } else {
      assert p + t == t;
    }
  }

  /** Where the regex finds no match, the first code unit is copied. */
  lemma UnescapeUnmatched(s: JsString, reading: Reading)
    requires |s| > 0 && MatchAt(s, reading) == None
    ensures Unescape(s, reading) == [s[0]] + Unescape(s[1..], reading)
  {
  }

  /** Text with no `%` is left untouched. */
  lemma NoPercentUntouched(s: JsString, reading: Reading)
    requires forall i :: 0 <= i < |s| ==> s[i] != Percent
    ensures Unescape(s, reading) == s
  {
    forall i | 0 <= i < |s| ensures MatchAt(s[i..] + [], reading) == None {
      assert (s[i..] + [])[0] == s[i];
    }
    UnescapeCopies(s, [], reading);
    assert s + [] == s;
  }

  /**
   * The escape of a surrogate code unit (`%ED%A0%80` .. `%ED%BF%BF`) is not
   * a well-formed group for the regex, so unescapeUtf8 leaves all nine code
   * units of it in place.
   */
  lemma SurrogateEscapeSurvives(c: CodeUnit, t: JsString, reading: Reading)
    requires IsSurrogate(c)
    ensures Unescape(PercentEncode(c) + t, reading) == PercentEncode(c) + Unescape(t, reading)
  {
    var p := PercentEncode(c);
    var b2, b3 := c / 64 % 64 + 128, c % 64 + 128;
    SurrogateBytes(c);
    forall i | 0 <= i < |p| ensures MatchAt(p[i..] + t, reading) == None {
      SurrogateUnmatched(b2, b3, t, reading, i);
    }
    UnescapeCopies(p, t, reading);
  }

  /** The escape of a surrogate: `%ED` and two continuation bytes, the first of them from A0 up. */
  lemma SurrogateBytes(c: CodeUnit)
    requires IsSurrogate(c)
    ensures var b2, b3 := c / 64 % 64 + 128, c % 64 + 128;
      && 160 <= b2 < 192 && 128 <= b3 < 192
      && PercentEncode(c) == Pct(0xED) + Pct(b2) + Pct(b3)
  {
    assert c / 4096 == 13;
    assert c / 64 % 64 >= 32;
  }

  /** No code unit of a surrogate's escape starts a match. */
  lemma SurrogateUnmatched(b2: nat, b3: nat, t: JsString, reading: Reading, i: nat)
    requires 160 <= b2 < 192 && 128 <= b3 < 192 && i < 9
    ensures MatchAt((Pct(0xED) + Pct(b2) + Pct(b3))[i..] + t, reading) == None
  {
    var p := Pct(0xED) + Pct(b2) + Pct(b3);
    var s := p[i..] + t;
    assert 10 <= b2 / 16 <= 11 && 8 <= b3 / 16 <= 11;
    HexDigitValue(b2 / 16);
    HexDigitValue(b3 / 16);
    assert s[0] == p[i];
    if i == 0 {
      assert s[1] == 'E' as int && s[2] == 'D' as int && s[4] == HexDigit(b2 / 16);
    } else if i == 3 {
      assert s[1] == HexDigit(b2 / 16);
    } else if i == 6 {
      assert s[1] == HexDigit(b3 / 16);
    }
  }

  /** So the round trip fails on every surrogate code unit. */
  lemma SurrogateBreaksRoundTrip(c: CodeUnit, reading: Reading)
    requires IsSurrogate(c)
    ensures Unescape(Escape([c]), reading) == PercentEncode(c)
    ensures Unescape(Escape([c]), reading) != [c]
  {
    assert Escape([c]) == PercentEncode(c) + [];
    SurrogateEscapeSurvives(c, [], reading);
  }

  function UpperHex(c: CodeUnit): CodeUnit
  {
    if 'a' as int <= c <= 'f' as int then c - 32 else c
  }

  /** The text with its lower-case hex letters raised (what the regex's `i` flag ignores). */
  function UpperAll(s: JsString): JsString
  {
    seq(|s|, i requires 0 <= i < |s| => UpperHex(s[i]))
  }

  lemma UpperDigit(c: CodeUnit)
    requires IsHexDigit(c)
    ensures HexDigit(HexValue(c)) == UpperHex(c)
  {
  }

  lemma {:induction false} HexPrefixUpper(t: JsString, acc: nat)
    ensures HexPrefix(UpperAll(t), acc) == HexPrefix(t, acc)
    decreases |t|
  {
    if |t| > 0 {
      assert UpperAll(t)[1..] == UpperAll(t[1..]);
      if IsHexDigit(t[0]) {
        HexPrefixUpper(t[1..], acc * 16 + HexValue(t[0]));
      }
    }
  }

  lemma DecodeUpper(g: JsString)
    ensures DecodeGroup(UpperAll(g)) == DecodeGroup(g)
  {
    forall k: nat ensures Substring(UpperAll(g), k) == UpperAll(Substring(g, k)) {
    }
    HexPrefixUpper(Substring(g, 1), 0);
    HexPrefixUpper(Substring(g, 4), 0);
    HexPrefixUpper(Substring(g, 7), 0);
  }

  lemma PctOfDigits(c1: CodeUnit, c2: CodeUnit)
    requires IsHexDigit(c1) && IsHexDigit(c2)
    ensures [Percent, UpperHex(c1), UpperHex(c2)] == Pct(16 * HexValue(c1) + HexValue(c2))
  {
    UpperDigit(c1);
    UpperDigit(c2);
  }

  lemma IntendedOneByte(s: JsString)
    requires |s| >= 3 && OneByteAt(s)
    ensures UpperAll(s[..3]) == PercentEncode(DecodeGroup(s[..3]))
    ensures DecodeGroup(s[..3]) < 128
  {
    var b := 16 * HexValue(s[1]) + HexValue(s[2]);
    PctOfDigits(s[1], s[2]);
    assert UpperAll(s[..3]) == Pct(b);
    DecodeUpper(s[..3]);
    DecodeOne(b);
    SmallIsPct(b);
  }

  lemma UpperTwoGroups(s: JsString)
    requires |s| >= 6 && s[0] == Percent && s[3] == Percent
    ensures UpperAll(s[..6]) == [Percent, UpperHex(s[1]), UpperHex(s[2])] + [Percent, UpperHex(s[4]), UpperHex(s[5])]
  {
  }

  lemma UpperThreeGroups(s: JsString)
    requires |s| >= 9 && s[0] == Percent && s[3] == Percent && s[6] == Percent
    ensures UpperAll(s[..9])
         == [Percent, UpperHex(s[1]), UpperHex(s[2])] + [Percent, UpperHex(s[4]), UpperHex(s[5])]
          + [Percent, UpperHex(s[7]), UpperHex(s[8])]
  {
  }

  /** The arithmetic of a two-byte group: the decoded value re-encodes to the same bytes. */
  lemma TwoFields(b1: nat, b2: nat)
    requires 194 <= b1 < 224 && 128 <= b2 < 192
    ensures var v := ((b1 % 32) * 64 + b2 % 64) % 0x1_0000;
      128 <= v < 2048 && v / 64 + 192 == b1 && v % 64 + 128 == b2
  {
    var x, y := b1 - 192, b2 - 128;
    assert b1 % 32 == x && b2 % 64 == y;
    var v := x * 64 + y;
    assert v < 0x1_0000;
    assert v / 64 == x && v % 64 == y;
  }

  /** The arithmetic of a three-byte group. */
  lemma ComposeFields(x: nat, y: nat, z: nat)
    requires x < 16 && y < 64 && z < 64
    ensures var v := (((224 + x) % 16) * 64 + (y + 128) % 64) * 64 + (z + 128) % 64;
      && v == x * 4096 + y * 64 + z
      && v % 0x1_0000 == v
      && v / 4096 == x && v / 64 % 64 == y && v % 64 == z
  {
    assert (224 + x) % 16 == x && (y + 128) % 64 == y && (z + 128) % 64 == z;
    var v := x * 4096 + y * 64 + z;
    assert v / 64 == x * 64 + y;
  }

  lemma TwoByteBytes(s: JsString)
    requires |s| >= 6 && TwoByteAt(s)
    ensures 194 <= 16 * HexValue(s[1]) + HexValue(s[2]) < 224
    ensures 128 <= 16 * HexValue(s[4]) + HexValue(s[5]) < 192
  {
  }

  lemma IntendedTwoBytes(s: JsString)
    requires |s| >= 6 && TwoByteAt(s)
    ensures UpperAll(s[..6]) == PercentEncode(DecodeGroup(s[..6]))
    ensures 128 <= DecodeGroup(s[..6]) < 2048
  {
    var b1 := 16 * HexValue(s[1]) + HexValue(s[2]);
    var b2 := 16 * HexValue(s[4]) + HexValue(s[5]);
    TwoByteBytes(s);
    UpperTwoGroups(s);
    PctOfDigits(s[1], s[2]);
    PctOfDigits(s[4], s[5]);
    assert UpperAll(s[..6]) == Pct(b1) + Pct(b2);
    DecodeUpper(s[..6]);
    DecodeTwo(b1, b2);
    assert DecodeGroup(s[..6]) == DecodeGroup(Pct(b1) + Pct(b2));
    TwoFields(b1, b2);
  }

  lemma ThreeByteBytes(s: JsString)
    requires |s| >= 9 && ThreeByteAt(s, Intended)
    ensures var x, b2 := HexValue(s[2]), 16 * HexValue(s[4]) + HexValue(s[5]);
      && HexValue(s[1]) == 14
      && 128 <= b2 < 192
      && (x == 0 ==> b2 >= 160)
      && (x == 13 ==> b2 < 160)
    ensures 128 <= 16 * HexValue(s[7]) + HexValue(s[8]) < 192
  {
  }

  lemma UpperThreeIsPct(s: JsString)
    requires |s| >= 9 && ThreeByteAt(s, Intended)
    ensures UpperAll(s[..9])
         == Pct(16 * HexValue(s[1]) + HexValue(s[2])) + Pct(16 * HexValue(s[4]) + HexValue(s[5]))
          + Pct(16 * HexValue(s[7]) + HexValue(s[8]))
  {
    UpperThreeGroups(s);
    PctOfDigits(s[1], s[2]);
    PctOfDigits(s[4], s[5]);
    PctOfDigits(s[7], s[8]);
  }

  /** A three-byte group the intended regex accepts decodes to a value whose escape is that group. */
  lemma ThreeBytesReencode(b1: nat, b2: nat, b3: nat)
    requires 224 <= b1 < 240 && 128 <= b2 < 192 && 128 <= b3 < 192
    requires b1 == 224 ==> b2 >= 160
    requires b1 == 237 ==> b2 < 160
    ensures var v := DecodeGroup(Pct(b1) + Pct(b2) + Pct(b3));
      PercentEncode(v) == Pct(b1) + Pct(b2) + Pct(b3) && 2048 <= v && !IsSurrogate(v)
  {
    var x, y, z := b1 - 224, b2 - 128, b3 - 128;
    DecodeThree(b1, b2, b3);
    ComposeFields(x, y, z);
    var v := x * 4096 + y * 64 + z;
    assert DecodeGroup(Pct(b1) + Pct(b2) + Pct(b3)) == v;
    ThreeFieldsBounds(x, y, z);
    EncodeThree(x, y, z);
  }

  /** Where a three-byte value lies, read from its fields. */
  lemma ThreeFieldsBounds(x: nat, y: nat, z: nat)
    requires x < 16 && y < 64 && z < 64
    requires x == 0 ==> y >= 32
    requires x == 13 ==> y < 32
    ensures 2048 <= x * 4096 + y * 64 + z < 0x1_0000
    ensures !IsSurrogate(x * 4096 + y * 64 + z)
  {
    if x == 13 {
      assert x * 4096 + y * 64 + z < 13 * 4096 + 32 * 64;
    } else if x < 13 {
      assert x * 4096 + y * 64 + z < 13 * 4096;
    } else {
      assert x * 4096 >= 14 * 4096;
    }
  }

  /** The escape of a value of three bytes' worth of fields. */
  lemma EncodeThree(x: nat, y: nat, z: nat)
    requires x < 16 && y < 64 && z < 64
    requires 2048 <= x * 4096 + y * 64 + z
    ensures PercentEncode(x * 4096 + y * 64 + z) == Pct(x + 224) + Pct(y + 128) + Pct(z + 128)
  {
    var v := x * 4096 + y * 64 + z;
    ComposeFields(x, y, z);
    assert v / 4096 + 224 == x + 224 && v / 64 % 64 + 128 == y + 128 && v % 64 + 128 == z + 128;
  }

  lemma IntendedThreeBytes(s: JsString)
    requires |s| >= 9 && ThreeByteAt(s, Intended)
    ensures UpperAll(s[..9]) == PercentEncode(DecodeGroup(s[..9]))
    ensures 2048 <= DecodeGroup(s[..9]) && !IsSurrogate(DecodeGroup(s[..9]))
  {
    var b1 := 16 * HexValue(s[1]) + HexValue(s[2]);
    var b2 := 16 * HexValue(s[4]) + HexValue(s[5]);
    var b3 := 16 * HexValue(s[7]) + HexValue(s[8]);
    ThreeByteBytes(s);
    assert b1 == 224 + HexValue(s[2]);
    UpperThreeIsPct(s);
    DecodeUpper(s[..9]);
    ThreeBytesReencode(b1, b2, b3);
    assert DecodeGroup(s[..9]) == DecodeGroup(Pct(b1) + Pct(b2) + Pct(b3));
  }

  /**
   * With the intended lead class, unescapeUtf8 decodes only well-formed
   * UTF-8: every group it replaces is, up to the case of its hex digits,
   * exactly the UTF-8 percent-encoding of the code unit it yields, and that
   * code unit is never a surrogate.
   */
  lemma IntendedDecodesOnlyUtf8(s: JsString)
    requires MatchAt(s, Intended).Some?
    ensures var g := MatchAt(s, Intended).value;
      UpperAll(s[..g.length]) == PercentEncode(g.unit) && !IsSurrogate(g.unit)
  {
    if |s| >= 9 && ThreeByteAt(s, Intended) {
      IntendedThreeBytes(s);
    } else if |s| >= 6 && TwoByteAt(s) {
      IntendedTwoBytes(s);
    } else {
      IntendedOneByte(s);
    }
  }

  /**
   * As written, the class `[1-CEF]` admits `:` .. `@`, so `%E:%80%80`
   * matches; `parseInt` reads only the `E`, and the nine code units become
   * U+000E, whose own escape is `%0E`. The intended class leaves the text
   * untouched.
   */
  lemma AsWrittenDecodesStrayLead()
    ensures var s: JsString := [Percent, 'E' as int, ':' as int, Percent, '8' as int, '0' as int, Percent, '8' as int, '0' as int];
      && Unescape(s, AsWritten) == [0x0E]
      && PercentEncode(0x0E) != s
      && Unescape(s, Intended) == s
  {
    var s: JsString := [Percent, 'E' as int, ':' as int, Percent, '8' as int, '0' as int, Percent, '8' as int, '0' as int];
    StrayLeadMatches(s);
    assert s[9..] == [];
    StrayLeadUnmatched(s);
  }

  /** As written, the regex takes all nine code units of `%E:%80%80` and `parseInt` reads 14 from them. */
  lemma StrayLeadMatches(s: JsString)
    requires s == [Percent, 'E' as int, ':' as int, Percent, '8' as int, '0' as int, Percent, '8' as int, '0' as int]
    ensures MatchAt(s, AsWritten) == Some(Group(9, 0x0E))
  {
    assert ThreeByteAt(s, AsWritten);
    assert s[..9] == s;
    assert Substring(s, 1) == s[1..];
    assert s[1..][1..][0] == ':' as int;
    assert HexPrefix(s[1..], 0) == HexPrefix(s[1..][1..], 14) == 14;
  }

  /** With the intended class, no code unit of `%E:%80%80` starts a match. */
  lemma StrayLeadUnmatched(s: JsString)
    requires s == [Percent, 'E' as int, ':' as int, Percent, '8' as int, '0' as int, Percent, '8' as int, '0' as int]
    ensures Unescape(s, Intended) == s
  {
    forall i | 0 <= i < |s| ensures MatchAt(s[i..] + [], Intended) == None {
      assert s[i..] + [] == s[i..];
    }
    UnescapeCopies(s, [], Intended);
    assert s + [] == s;
  }
}
