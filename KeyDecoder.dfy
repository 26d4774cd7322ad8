/**
 * The product-key codec: a 15-byte window of a DigitalProductId blob, read as one
 * 120-bit unsigned integer, is spelled as 25 base-24 digits over a fixed alphabet and
 * grouped 5-5-5-5-5 with dashes. The Win8 layout carries a flag bit in the window's
 * last byte and, when it is set, embeds the marker letter 'N'.
 */
module KeyDecoder {
  import opened Wrappers
  import opened Base24
  import opened Bits

  const LegacyKeyOffset: int := 52
  const Dpid4KeyOffset: int := 808
  const KeyLength: int := 15
  /** 25 key characters and 4 dashes. */
  const DecodeLength: int := 29
  /** The 24-symbol digit alphabet; index i spells the base-24 digit i. */
  const Digits: string := "BCDFGHJKMPQRTVWXY2346789"

  /** The alphabet has 24 symbols and holds neither the marker 'N' nor the group separator. */
  lemma DigitsFacts()
    ensures |Digits| == 24
    ensures 'N' !in Digits && '-' !in Digits
  {
  }

  /** No symbol of the alphabet is a lower-case ASCII letter. */
  lemma DigitsNotLowerCase()
    ensures forall d :: 0 <= d < |Digits| ==> !('a' <= Digits[d] <= 'z')
  {
  }

  /** The alphabet's symbols are pairwise distinct. */
  lemma DigitsDistinct()
    ensures forall i, j :: 0 <= i < j < |Digits| ==> Digits[i] != Digits[j]
  {
  }

  // ---------------------------------------------------------------------------
  // Library calls the decoders make, stated by what .NET promises of them.

  /** Array.IndexOf: the first position of c in s, or -1 when c does not occur. */
  function IndexOf(s: string, c: char): (r: int)
    ensures -1 <= r < |s|
    ensures r >= 0 ==> s[r] == c && forall k :: 0 <= k < r ==> s[k] != c
    ensures r < 0 <==> c !in s
  {
    if |s| == 0 then -1
    else if s[0] == c then 0
    else var r := IndexOf(s[1..], c); if r < 0 then -1 else r + 1
  }

  /** String.LastIndexOf: the last position of c in s, or -1 when c does not occur. */
  function LastIndexOf(s: string, c: char): (r: int)
    ensures -1 <= r < |s|
    ensures r >= 0 ==> s[r] == c && forall k :: r < k < |s| ==> s[k] != c
    ensures r < 0 <==> c !in s
  {
    if |s| == 0 then -1
    else if s[|s| - 1] == c then |s| - 1
    else LastIndexOf(s[..|s| - 1], c)
  }

  /** String.Insert, which throws unless 0 <= index <= |s|. */
  function InsertAt(s: string, index: int, t: string): string
    requires 0 <= index <= |s|
  {
    s[..index] + t + s[index..]
  }

  // ---------------------------------------------------------------------------
  // Bit-level expressions of the source, on the operators of module Bits.

  /** `(acc << 8) | b`, the legacy loop's combination of the running remainder with the next byte: OR adds, since acc << 8 has a zero low byte. */
  function ShiftOr(acc: nat, b: byte): (cur: nat)
    ensures cur == acc * 256 + b as nat
  {
    assert Pow(2, 8) == 256;
    OrDisjoint(acc, b as nat, 8);
    Or(ShiftLeft(acc, 8), b as nat)
  }

  /** `acc * 256 ^ b` (`*` binds tighter than `^`), the Win8 loop's combination: XOR adds for the same reason. */
  function TimesXor(acc: nat, b: byte): (cur: nat)
    ensures cur == acc * 256 + b as nat
  {
    assert Pow(2, 8) == 256;
    XorDisjoint(acc, b as nat, 8);
    Xor(acc * 256, b as nat)
  }

  /** `(b >> 3) & 1`: the "Win8" flag, bit 3 (value 0x08) of the window's last byte. */
  function FlagBit(b: byte): (f: nat)
    ensures f == (b as nat / 8) % 2
  {
    assert Pow(2, 3) == 8;
    AndOne(ShiftRight(b as nat, 3));
    And(ShiftRight(b as nat, 3), 1)
  }

  /** Clearing bit 3 keeps the bits above and below it. */
  lemma ClearBit3(x: nat)
    ensures x - 8 * ((x / 8) % 2) == 16 * (x / 16) + x % 8
    ensures ((16 * (x / 16) + x % 8) / 8) % 2 == 0
  {
    var q, r := x / 16, x % 16;
    assert x == 16 * q + r;
    assert x / 8 == 2 * q + r / 8;
    assert x % 8 == r % 8;
    assert (16 * q + r % 8) / 8 == 2 * q;
  }

  /** `(byte)((b & 0xF7) | ((isWin8 & 2) << 2))`: for a flag of 0 or 1 the second operand is 0, so bit 3 is cleared whatever the flag was, and nothing else changes. */
  function MaskFlag(b: byte, isWin8: nat): (r: byte)
    requires isWin8 <= 1
    ensures r as nat == b as nat - 8 * FlagBit(b)
    ensures FlagBit(r) == 0
  {
    AndF7(b as nat);
    var kept := And(b as nat, 0xF7);
    ClearBit3(b as nat);
    assert ShiftLeft(And(isWin8, 2), 2) == 0 by {
      AndZero(0);
      assert And(isWin8 / 2, 1) == 0;
    }
    OrZero(kept);
    ToByte(Or(And(b as nat, 0xF7), ShiftLeft(And(isWin8, 2), 2)))
  }

  // ---------------------------------------------------------------------------
  // What the decoders compute, as functions of the 15-byte window.

  /** Spells base-24 digits through the alphabet. */
  function Spell(ds: seq<nat>): (s: string)
    requires forall k :: 0 <= k < |ds| ==> ds[k] < 24
    ensures |s| == |ds|
  {
    seq(|ds|, k requires 0 <= k < |ds| => Digits[ds[k]])
  }

  /** The alphabet positions of a string over the alphabet. */
  function Indices(s: string): (ds: seq<nat>)
    requires forall k :: 0 <= k < |s| ==> s[k] in Digits
    ensures |ds| == |s|
  {
    seq(|s|, k requires 0 <= k < |s| => IndexOf(Digits, s[k]) as nat)
  }

  /** The 25-character string the division loop builds from a window: its low 25 base-24 digits, most significant first. */
  function Base24String(window: seq<byte>): (s: string)
  {
    Spell(Expand(Val(window), 25))
  }

  /** The window with the flag bit cleared in its last byte. */
  function Masked(window: seq<byte>): (m: seq<byte>)
    requires |window| == KeyLength
    ensures |m| == KeyLength
  {
    window[..KeyLength - 1] + [MaskFlag(window[KeyLength - 1], FlagBit(window[KeyLength - 1]))]
  }

  /** The flag-set rewrite: find the last occurrence of the first character, drop the first character, insert 'N' at the found index. */
  function InsertMarker(d: string): (r: string)
    requires |d| > 0
  {
    InsertAt(d[1..], LastIndexOf(d, d[0]), "N")
  }

  /** The 25-character string the Win8 decoder builds from a window. */
  function Win8String(window: seq<byte>): (s: string)
    requires |window| == KeyLength
  {
    var d := Base24String(Masked(window));
    if FlagBit(window[KeyLength - 1]) == 1 then InsertMarker(d) else d
  }

  /** Groups a 25-character string 5-5-5-5-5 with dashes; any other length is returned unchanged. */
  function FormatKey(raw: string): (r: string)
    ensures |raw| != 25 ==> r == raw
    ensures |raw| == 25 ==> |r| == DecodeLength
  {
    if |raw| != 25 then raw
    else raw[..5] + "-" + raw[5..10] + "-" + raw[10..15] + "-" + raw[15..20] + "-" + raw[20..25]
  }

  /** FormatKey's layout: a dash at 0-based positions 5, 11, 17 and 23, the raw characters in order elsewhere. */
  lemma FormatKeyLayout(raw: string, k: int)
    requires |raw| == 25 && 0 <= k < DecodeLength
    ensures FormatKey(raw)[k] == if (k + 1) % 6 == 0 then '-' else raw[k - k / 6]
  {
    var r := FormatKey(raw);
    var p1 := raw[..5] + "-";
    var p2 := p1 + raw[5..10] + "-";
    var p3 := p2 + raw[10..15] + "-";
    var p4 := p3 + raw[15..20] + "-";
    assert r == p4 + raw[20..25];
    if k < 6 {
      assert k / 6 == 0;
      assert r[k] == p1[k];
    } else if k < 12 {
      assert k / 6 == 1;
      assert r[k] == p2[k] == (raw[5..10] + "-")[k - 6];
    } else if k < 18 {
      assert k / 6 == 2;
      assert r[k] == p3[k] == (raw[10..15] + "-")[k - 12];
    } else if k < 24 {
      assert k / 6 == 3;
      assert r[k] == p4[k] == (raw[15..20] + "-")[k - 18];
    } else {
      assert k / 6 == 4;
      assert r[k] == raw[20..25][k - 24];
    }
  }

  /** The character check IsValidKey applies at 0-based position i. */
  predicate KeyCharOk(c: char, i: int)
  {
    if (i + 1) % 6 == 0 then c == '-' else c == 'N' || c in Digits
  }

  /** A well-formed key: 29 characters, dashes at 1-based positions 6, 12, 18, 24, alphabet letters or 'N' elsewhere. */
  predicate ValidKey(s: string)
  {
    |s| == DecodeLength && forall i :: 0 <= i < |s| ==> KeyCharOk(s[i], i)
  }

  function BlobOf(a: array?<byte>): (b: Option<seq<byte>>)
    reads a
    ensures b.Some? <==> a != null
  {
    if a == null then None else Some(a[..])
  }

  /** What DecodeKey returns for a DigitalProductId blob (None stands for null). */
  function LegacyKeyOf(blob: Option<seq<byte>>): Option<string>
  {
    if blob.None? || |blob.value| < LegacyKeyOffset + KeyLength then None
    else
      var key := FormatKey(Base24String(blob.value[LegacyKeyOffset..LegacyKeyOffset + KeyLength]));
      if ValidKey(key) then Some(key) else None
  }

  /** What DecodeKeyDpid4 returns for a DigitalProductId4 blob: Win8 decoding first, legacy decoding at the same offset second. */
  function Dpid4KeyOf(blob: Option<seq<byte>>): Option<string>
  {
    if blob.None? || |blob.value| < Dpid4KeyOffset + KeyLength then None
    else
      var window := blob.value[Dpid4KeyOffset..Dpid4KeyOffset + KeyLength];
      var key := FormatKey(Win8String(window));
      if ValidKey(key) then Some(key)
      else
        var legacy := FormatKey(Base24String(window));
        if ValidKey(legacy) then Some(legacy) else None
  }

  /** The characters the division loop fills in, read from index 0 to 24, spell the 25-digit expansion. */
  lemma SpelledDigits(v: nat, s: string)
    requires |s| == 25
    requires forall m :: 0 <= m < 25 ==> s[m] == Digits[Shift(v, 24 - m) % 24]
    ensures s == Spell(Expand(v, 25))
  {
    forall m | 0 <= m < 25
      ensures s[m] == Spell(Expand(v, 25))[m]
    {
      DigitAt(v, 25, m);
    }
  }

  // ---------------------------------------------------------------------------
  // The decoders. Each copies the window into a fresh 15-byte array and divides
  // that copy by 24 in place, 25 times; the caller's array is only read (no
  // modifies clause).

  /** `new byte[KeyLength]` filled by `Array.Copy(id, offset, key, 0, KeyLength)`. */
  method CopyWindow(id: array<byte>, offset: int) returns (key: array<byte>)
    requires 0 <= offset && offset + KeyLength <= id.Length
    ensures fresh(key)
    ensures key[..] == id[offset..offset + KeyLength]
  {
    key := new byte[KeyLength];
    forall j | 0 <= j < KeyLength {
      key[j] := id[offset + j];
    }
  }

  /** The two ways the source writes "the running remainder shifted up one byte, combined with the next byte": `(acc << 8) | key[j]` in the legacy loop, `acc * 256 ^ key[j]` in the Win8 loop. */
  datatype Combine = OrShifted | XorTimes256

  function CombineWith(how: Combine, acc: nat, b: byte): (cur: nat)
    ensures cur == acc * 256 + b as int
  {
    match how
    case OrShifted => ShiftOr(acc, b)
    case XorTimes256 => TimesXor(acc, b)
  }

  /** One pass of the inner loop: long division of the buffer (key[14] most significant) by 24 in place, from the top byte down; the final remainder is returned. Every quotient byte fits in a byte because cur is at most 23 * 256 + 255. */
  method DivideBy24(key: array<byte>, how: Combine) returns (acc: int)
    modifies key
    ensures 0 <= acc < 24
    ensures Val(old(key[..])) == 24 * Val(key[..]) + acc
  {
    ghost var before := key[..];
    acc := 0;
    var j := key.Length - 1;
    while j >= 0
      invariant -1 <= j < key.Length
      invariant 0 <= acc < 24
      invariant forall k :: 0 <= k <= j ==> key[k] == before[k]
      invariant Val(before[j + 1..]) == 24 * Val(key[j + 1..]) + acc
    {
      var cur := CombineWith(how, acc, key[j]);
      ValAt(before, j);
      ValAt(key[..], j);
      key[j] := ToByte(cur / 24);
      ValAt(key[..], j);
      acc := cur % 24;
      j := j - 1;
    }
    assert key[0..] == key[..] && before[0..] == before;
  }

  /** The outer loop: 25 division passes, the i-th remainder spelled into chars[i] from index 24 down to 0. The result is the base-24 string of the buffer's initial value. */
  method SpellInPlace(key: array<byte>, how: Combine) returns (decoded: string)
    modifies key
    ensures decoded == Base24String(old(key[..]))
    ensures Val(key[..]) == Shift(Val(old(key[..])), 25)
  {
    ghost var v0 := Val(key[..]);
    var chars := new char[25];
    var i := 24;
    while i >= 0
      invariant -1 <= i <= 24
      invariant Val(key[..]) == Shift(v0, 24 - i)
      invariant forall m :: i < m < 25 ==> chars[m] == Digits[Shift(v0, 24 - m) % 24]
    {
      var acc := DivideBy24(key, how);
      DivModUnique(Shift(v0, 24 - i), 24, Val(key[..]), acc);
      ShiftStep(v0, 24 - i);
      chars[i] := Digits[acc];
      i := i - 1;
    }
    SpelledDigits(v0, chars[..]);
    decoded := chars[..];
  }

  /** Legacy decoding: the plain base-24 expansion of the window at `offset`. An out-of-range window makes Array.Copy throw, which the source catches and turns into null. */
  method DecodeKeyLegacy(id: array<byte>, offset: int) returns (r: Option<string>)
    ensures r == if 0 <= offset && offset + KeyLength <= id.Length
                 then Some(FormatKey(Base24String(id[offset..offset + KeyLength])))
                 else None
  {
    if offset < 0 || offset + KeyLength > id.Length {
      return None;
    }
    var key := CopyWindow(id, offset);
    var decoded := SpellInPlace(key, OrShifted);
    return Some(FormatKey(decoded));
  }

  /** Win8 decoding: read and clear the flag bit, expand the masked window, and embed 'N' when the flag was set. No step goes out of range once the window fits, so the source's catch is reached only through Array.Copy. */
  method DecodeKeyWin8(id: array<byte>, offset: int) returns (r: Option<string>)
    ensures r == if 0 <= offset && offset + KeyLength <= id.Length
                 then Some(FormatKey(Win8String(id[offset..offset + KeyLength])))
                 else None
  {
    if offset < 0 || offset + KeyLength > id.Length {
      return None;
    }
    var key := CopyWindow(id, offset);
    ghost var window := key[..];

    var isWin8 := FlagBit(key[KeyLength - 1]);
    key[KeyLength - 1] := MaskFlag(key[KeyLength - 1], isWin8);
    assert key[..] == Masked(window);

    var decoded := SpellInPlace(key, XorTimes256);
    if isWin8 == 1 {
      var insertIndex := LastIndexOf(decoded, decoded[0]);
      decoded := decoded[1..];
      decoded := InsertAt(decoded, insertIndex, "N");
    }
    return Some(FormatKey(decoded));
  }

  /** Array.IndexOf(Digits, c) < 0 test and loop of IsValidKey: true exactly when the string is a well-formed key (null and empty are rejected first). */
  method IsValidKey(key: Option<string>) returns (ok: bool)
    ensures ok <==> key.Some? && ValidKey(key.value)
  {
    if key.None? || |key.value| == 0 || |key.value| != DecodeLength {
      return false;
    }
    var s := key.value;
    var i := 0;
    while i < |s|
      invariant 0 <= i <= |s|
      invariant forall k :: 0 <= k < i ==> KeyCharOk(s[k], k)
    {
      if (i + 1) % 6 == 0 {
        if s[i] != '-' {
          assert !KeyCharOk(s[i], i);
          return false;
        }
      } else {
        var c := s[i];
        if c != 'N' && IndexOf(Digits, c) < 0 {
          assert !KeyCharOk(s[i], i);
          return false;
        }
      }
      assert KeyCharOk(s[i], i);
      i := i + 1;
    }
    return true;
  }

  /** DecodeKey: the legacy layout at offset 52 of a DigitalProductId blob; null for a null or short blob. */
  method DecodeKey(digitalProductId: array?<byte>) returns (r: Option<string>)
    ensures r == LegacyKeyOf(BlobOf(digitalProductId))
    ensures r.Some? <==> digitalProductId != null && digitalProductId.Length >= LegacyKeyOffset + KeyLength
  {
    LegacyKeyTotal(BlobOf(digitalProductId));
    if digitalProductId == null || digitalProductId.Length < LegacyKeyOffset + KeyLength {
      return None;
    }
    var key := DecodeKeyLegacy(digitalProductId, LegacyKeyOffset);
    var ok := IsValidKey(key);
    r := if ok then key else None;
  }

  /** DecodeKeyDpid4: Win8 decoding at offset 808 of a DigitalProductId4 blob, falling back to legacy decoding at the same offset when the Win8 result is rejected. */
  method DecodeKeyDpid4(digitalProductId4: array?<byte>) returns (r: Option<string>)
    ensures r == Dpid4KeyOf(BlobOf(digitalProductId4))
    ensures r.Some? <==> digitalProductId4 != null && digitalProductId4.Length >= Dpid4KeyOffset + KeyLength
  {
    Dpid4NeverFallsBack(BlobOf(digitalProductId4));
    if digitalProductId4 == null || digitalProductId4.Length < Dpid4KeyOffset + KeyLength {
      return None;
    }
    var key := DecodeKeyWin8(digitalProductId4, Dpid4KeyOffset);
    var ok := IsValidKey(key);
    if ok {
      return key;
    }
    key := DecodeKeyLegacy(digitalProductId4, Dpid4KeyOffset);
    ok := IsValidKey(key);
    r := if ok then key else None;
  }

  // ---------------------------------------------------------------------------
  // Properties of the codec.

  /** Array.IndexOf inverts the alphabet: the letters are pairwise distinct. */
  lemma DigitIndex(d: nat)
    requires d < 24
    ensures IndexOf(Digits, Digits[d]) == d
  {
    DigitsDistinct();
  }

  /** The legacy string has 25 letters, all from the alphabet. */
  lemma Base24StringShape(window: seq<byte>)
    ensures |Base24String(window)| == 25
    ensures forall k :: 0 <= k < 25 ==> Base24String(window)[k] in Digits
  {
  }

  /** Read back through the alphabet, the legacy string is the 25 lowest base-24 digits of the window's value, most significant first. */
  lemma Base24StringDigits(window: seq<byte>)
    ensures Indices(Base24String(window)) == Expand(Val(window), 25)
  {
    var s := Base24String(window);
    var ds := Expand(Val(window), 25);
    forall k | 0 <= k < 25
      ensures Indices(s)[k] == ds[k]
    {
      DigitIndex(ds[k]);
    }
  }

  /** Together those digits denote the window's value mod 24^25: the decoding loses exactly the value's higher digits. */
  lemma Base24StringMeaning(window: seq<byte>)
    ensures FromDigits(Indices(Base24String(window))) == Val(window) % Pow(24, 25)
  {
    ExpandValue(Val(window), 25);
    Base24StringDigits(window);
  }

  /** The flag-set rewrite never leaves the string: the index found is in 0..|d|-1, the result is as long as d, holds 'N' at that index, and removing it gives d without its first character. */
  lemma InsertMarkerShape(d: string)
    requires |d| > 0
    ensures 0 <= LastIndexOf(d, d[0]) <= |d| - 1
    ensures |InsertMarker(d)| == |d|
    ensures InsertMarker(d)[LastIndexOf(d, d[0])] == 'N'
    ensures InsertMarker(d)[..LastIndexOf(d, d[0])] + InsertMarker(d)[LastIndexOf(d, d[0]) + 1..] == d[1..]
    ensures multiset(InsertMarker(d))['N'] == multiset(d[1..])['N'] + 1
  {
    var idx := LastIndexOf(d, d[0]);
    var t := d[1..];
    var r := InsertMarker(d);
    assert r == t[..idx] + "N" + t[idx..];
    assert r[..idx] == t[..idx];
    assert r[idx + 1..] == t[idx..];
    assert t[..idx] + t[idx..] == t;
    calc {
      multiset(r);
      multiset(t[..idx]) + multiset("N") + multiset(t[idx..]);
      multiset(t) + multiset{'N'};
    }
  }

  /** Every character of the rewritten string is the inserted 'N' or one of d's characters after the first. */
  lemma InsertMarkerChars(d: string)
    requires |d| > 0
    ensures forall k :: 0 <= k < |InsertMarker(d)| ==> InsertMarker(d)[k] == 'N' || InsertMarker(d)[k] in d[1..]
  {
    var idx := LastIndexOf(d, d[0]);
    var t := d[1..];
    var r := InsertMarker(d);
    assert r == t[..idx] + "N" + t[idx..];
    forall k | 0 <= k < |r|
      ensures r[k] == 'N' || r[k] in t
    {
      if k < idx {
        assert r[k] == t[k];
      } else if k > idx {
        assert r[k] == t[k - 1];
      }
    }
  }

  /** With the flag bit clear, the Win8 string is the legacy string of the same bytes. */
  lemma Win8FlagClear(window: seq<byte>)
    requires |window| == KeyLength && FlagBit(window[KeyLength - 1]) == 0
    ensures Win8String(window) == Base24String(window)
  {
    assert Masked(window) == window;
  }

  /** With the flag bit set, the Win8 string is the legacy string of the window less 8 in its last byte, rewritten by InsertMarker. */
  lemma Win8FlagSet(window: seq<byte>)
    requires |window| == KeyLength && FlagBit(window[KeyLength - 1]) == 1
    ensures Masked(window)[KeyLength - 1] as int == window[KeyLength - 1] as int - 8
    ensures Masked(window)[..KeyLength - 1] == window[..KeyLength - 1]
    ensures Win8String(window) == InsertMarker(Base24String(Masked(window)))
  {
  }

  /** The Win8 string has 25 characters, each from the alphabet or 'N', and holds exactly as many 'N's as the flag bit's value. */
  lemma Win8StringShape(window: seq<byte>)
    requires |window| == KeyLength
    ensures |Win8String(window)| == 25
    ensures forall k :: 0 <= k < 25 ==> Win8String(window)[k] == 'N' || Win8String(window)[k] in Digits
    ensures multiset(Win8String(window))['N'] == FlagBit(window[KeyLength - 1])
  {
    var d := Base24String(Masked(window));
    DigitsFacts();
    assert 'N' !in d;
    assert multiset(d)['N'] == 0;
    if FlagBit(window[KeyLength - 1]) == 1 {
      InsertMarkerShape(d);
      InsertMarkerChars(d);
      assert multiset(d[1..])['N'] == 0;
    }
  }

  /** A 25-character string formats to a valid key exactly when every character is from the alphabet or 'N'. */
  lemma FormatAccepts(raw: string)
    requires |raw| == 25
    ensures ValidKey(FormatKey(raw)) <==> forall k :: 0 <= k < 25 ==> raw[k] == 'N' || raw[k] in Digits
  {
    var r := FormatKey(raw);
    if ValidKey(r) {
      forall k | 0 <= k < 25
        ensures raw[k] == 'N' || raw[k] in Digits
      {
        var p := k + k / 5;
        RawPosition(k);
        FormatKeyLayout(raw, p);
        assert KeyCharOk(r[p], p);
      }
    } else {
      if forall k :: 0 <= k < 25 ==> raw[k] == 'N' || raw[k] in Digits {
        forall i | 0 <= i < DecodeLength
          ensures KeyCharOk(r[i], i)
        {
          FormatKeyLayout(raw, i);
        }
      }
    }
  }

  /** A valid key holds no lower-case ASCII letter: the alphabet, 'N' and '-' are all upper case or punctuation. */
  lemma ValidKeyNoLowerCase(s: string)
    requires ValidKey(s)
    ensures forall i :: 0 <= i < |s| ==> !('a' <= s[i] <= 'z')
  {
    DigitsNotLowerCase();
    forall i | 0 <= i < |s|
      ensures !('a' <= s[i] <= 'z')
    {
      assert KeyCharOk(s[i], i);
      if s[i] in Digits {
        var d := IndexOf(Digits, s[i]);
        assert Digits[d] == s[i];
      }
    }
  }

  /** DecodeKey's result: present exactly for a non-null blob of at least 67 bytes, and then the formatted legacy string, which IsValidKey always accepts. */
  lemma LegacyKeyTotal(blob: Option<seq<byte>>)
    ensures LegacyKeyOf(blob).Some? <==> blob.Some? && |blob.value| >= LegacyKeyOffset + KeyLength
    ensures LegacyKeyOf(blob).Some? ==>
      LegacyKeyOf(blob).value == FormatKey(Base24String(blob.value[LegacyKeyOffset..LegacyKeyOffset + KeyLength]))
  {
    if blob.Some? && |blob.value| >= LegacyKeyOffset + KeyLength {
      var raw := Base24String(blob.value[LegacyKeyOffset..LegacyKeyOffset + KeyLength]);
      Base24StringShape(blob.value[LegacyKeyOffset..LegacyKeyOffset + KeyLength]);
      FormatAccepts(raw);
    }
  }

  /** DecodeKeyDpid4's result: present exactly for a non-null blob of at least 823 bytes, and then always the Win8 decoding; the legacy fallback is never taken. */
  lemma Dpid4NeverFallsBack(blob: Option<seq<byte>>)
    ensures Dpid4KeyOf(blob).Some? <==> blob.Some? && |blob.value| >= Dpid4KeyOffset + KeyLength
    ensures Dpid4KeyOf(blob).Some? ==>
      Dpid4KeyOf(blob).value == FormatKey(Win8String(blob.value[Dpid4KeyOffset..Dpid4KeyOffset + KeyLength]))
  {
    if blob.Some? && |blob.value| >= Dpid4KeyOffset + KeyLength {
      var window := blob.value[Dpid4KeyOffset..Dpid4KeyOffset + KeyLength];
      Win8StringShape(window);
      FormatAccepts(Win8String(window));
    }
  }

  /** The string with every dash removed. */
  function RemoveDashes(s: string): string
  {
    if |s| == 0 then [] else (if s[0] == '-' then [] else [s[0]]) + RemoveDashes(s[1..])
  }

  lemma {:induction false} RemoveDashesConcat(a: string, b: string)
    ensures RemoveDashes(a + b) == RemoveDashes(a) + RemoveDashes(b)
  {
    if |a| > 0 {
      assert (a + b)[1..] == a[1..] + b;
      RemoveDashesConcat(a[1..], b);
    } else {
      assert a + b == b;
    }
  }

  lemma {:induction false} RemoveDashesNone(s: string)
    requires '-' !in s
    ensures RemoveDashes(s) == s
  {
    if |s| > 0 {
      RemoveDashesNone(s[1..]);
    }
  }

  lemma RemoveDashesJoin(x: string, y: string)
    ensures RemoveDashes(x + "-" + y) == RemoveDashes(x) + RemoveDashes(y)
  {
    RemoveDashesConcat(x + "-", y);
    RemoveDashesConcat(x, "-");
  }

  /** Removing the dashes undoes FormatKey on a dash-free 25-character string. */
  lemma UnformatFormat(raw: string)
    requires |raw| == 25 && '-' !in raw
    ensures RemoveDashes(FormatKey(raw)) == raw
  {
    var g0, g1, g2, g3, g4 := raw[..5], raw[5..10], raw[10..15], raw[15..20], raw[20..25];
    var p1 := g0 + "-" + g1;
    var p2 := p1 + "-" + g2;
    var p3 := p2 + "-" + g3;
    var p4 := p3 + "-" + g4;
    assert RemoveDashes(p1) == g0 + g1 by {
      RemoveDashesNone(g0);
      RemoveDashesNone(g1);
      RemoveDashesJoin(g0, g1);
    }
    assert RemoveDashes(p2) == g0 + g1 + g2 by {
      RemoveDashesNone(g2);
      RemoveDashesJoin(p1, g2);
    }
    assert RemoveDashes(p3) == g0 + g1 + g2 + g3 by {
      RemoveDashesNone(g3);
      RemoveDashesJoin(p2, g3);
    }
    assert RemoveDashes(p4) == g0 + g1 + g2 + g3 + g4 by {
      RemoveDashesNone(g4);
      RemoveDashesJoin(p3, g4);
    }
    assert FormatKey(raw) == p4;
    assert raw == g0 + g1 + g2 + g3 + g4;
  }

  /** Position k of the raw string sits at position k + k / 5 of the formatted key, which is not a dash position. */
  lemma RawPosition(k: int)
    requires 0 <= k < 25
    ensures var p := k + k / 5; 0 <= p < DecodeLength && (p + 1) % 6 != 0 && p - p / 6 == k
  {
  }

  /** And the other way round: a non-dash position i of the key holds raw character i - i / 6. */
  lemma KeyPosition(i: int)
    requires 0 <= i < DecodeLength && (i + 1) % 6 != 0
    ensures var k := i - i / 6; 0 <= k < 25 && k + k / 5 == i
  {
    var q, t := (i + 1) / 6, (i + 1) % 6;
    assert i == 6 * q + (t - 1) && 0 <= t - 1 < 5;
    assert i / 6 == q;
    assert i - q == 5 * q + (t - 1);
  }

  /** A valid key is FormatKey of its dash-free characters. */
  lemma ValidKeyIsFormatted(s: string)
    requires ValidKey(s)
    ensures var raw := s[..5] + s[6..11] + s[12..17] + s[18..23] + s[24..];
      |raw| == 25 && '-' !in raw && FormatKey(raw) == s
  {
    DigitsFacts();
    var raw := s[..5] + s[6..11] + s[12..17] + s[18..23] + s[24..];
    assert |raw| == 25;
    forall k | 0 <= k < 25
      ensures raw[k] == s[k + k / 5] && raw[k] != '-'
    {
      RawPosition(k);
      var p1 := s[..5] + s[6..11];
      var p2 := p1 + s[12..17];
      var p3 := p2 + s[18..23];
      assert raw == p3 + s[24..];
      if k < 5 {
        assert k / 5 == 0 && raw[k] == p1[k] == s[k];
      } else if k < 10 {
        assert k / 5 == 1 && raw[k] == p1[k] == s[6..11][k - 5];
      } else if k < 15 {
        assert k / 5 == 2 && raw[k] == p2[k] == s[12..17][k - 10];
      } else if k < 20 {
        assert k / 5 == 3 && raw[k] == p3[k] == s[18..23][k - 15];
      } else {
        assert k / 5 == 4 && raw[k] == s[24..][k - 20];
      }
      assert KeyCharOk(s[k + k / 5], k + k / 5);
    }
    forall i | 0 <= i < DecodeLength
      ensures s[i] == FormatKey(raw)[i]
    {
      FormatKeyLayout(raw, i);
      assert KeyCharOk(s[i], i);
      if (i + 1) % 6 != 0 {
        KeyPosition(i);
      }
    }
    assert '-' !in raw;
    assert |FormatKey(raw)| == |s|;
    assert FormatKey(raw) == s;
  }

  /** Formatting the dash-free characters of a valid key gives the key back. */
  lemma FormatUnformat(s: string)
    requires ValidKey(s)
    ensures FormatKey(RemoveDashes(s)) == s
  {
    ValidKeyIsFormatted(s);
    UnformatFormat(s[..5] + s[6..11] + s[12..17] + s[18..23] + s[24..]);
  }

  /** The zero window spells the alphabet's first letter 25 times. */
  lemma ZeroWindow(window: seq<byte>)
    requires forall j :: 0 <= j < |window| ==> window[j] == 0
    ensures Base24String(window) == seq(25, _ => 'B')
  {
    ValZero(window);
    ExpandZero(25);
  }

  /** A 67-byte blob of zeros decodes, in the legacy layout, to the alphabet's first letter throughout, dashes aside. */
  lemma ZeroBlob()
    ensures LegacyKeyOf(Some(seq(67, _ => 0 as byte))) == Some(seq(DecodeLength, i => if (i + 1) % 6 == 0 then '-' else 'B'))
  {
    var blob := seq(67, _ => 0 as byte);
    var window := blob[LegacyKeyOffset..LegacyKeyOffset + KeyLength];
    ZeroWindow(window);
    var raw := Base24String(window);
    LegacyKeyTotal(Some(blob));
    var expected := seq(DecodeLength, i => if (i + 1) % 6 == 0 then '-' else 'B');
    forall i | 0 <= i < DecodeLength
      ensures FormatKey(raw)[i] == expected[i]
    {
      FormatKeyLayout(raw, i);
    }
    assert FormatKey(raw) == expected;
    assert LegacyKeyOf(Some(blob)) == Some(FormatKey(raw));
  }

  /** The value 1 spells 24 copies of the alphabet's first letter followed by its second. */
  lemma SpellOne(window: seq<byte>)
    requires Val(window) == 1
    ensures Base24String(window) == seq(24, _ => 'B') + "C"
  {
    var ds := Expand(1, 25);
    assert ds == Expand(0, 24) + [1];
    ExpandZero(24);
    assert Digits[0] == 'B' && Digits[1] == 'C';
    var d := Base24String(window);
    forall k | 0 <= k < 25
      ensures d[k] == (seq(24, _ => 'B') + "C")[k]
    {
      if k < 24 {
        assert ds[k] == 0;
      } else {
        assert ds[k] == 1;
      }
    }
  }

  /** A worked Win8 example: value 1 with the flag set (last byte 8). The digits are 24 'B's and a 'C'; the last 'B' is at index 23, so after dropping the first character 'N' goes in before the 'C'. */
  lemma Win8Example()
    ensures Win8String([1] + seq(13, _ => 0 as byte) + [8]) == seq(23, _ => 'B') + "NC"
  {
    var zeros := seq(13, _ => 0 as byte);
    var window: seq<byte> := [1] + zeros + [8];
    assert FlagBit(window[KeyLength - 1]) == 1;
    Win8FlagSet(window);
    var masked := Masked(window);
    assert Val(masked) == 1 by {
      assert masked[..KeyLength - 1] == [1] + zeros;
      assert masked[1..] == zeros + [0];
      ValZero(masked[1..]);
    }
    SpellOne(masked);
    var d := Base24String(masked);
    var idx := LastIndexOf(d, d[0]);
    assert idx == 23 by {
      assert d[23] == 'B' && d[24] == 'C';
    }
    var r := InsertMarker(d);
    assert r == d[1..][..23] + "N" + d[1..][23..];
    var expected := seq(23, _ => 'B') + "NC";
    forall k | 0 <= k < 25
      ensures r[k] == expected[k]
    {
    }
  }
}
