/** The string and byte helpers of Hash.hpp: hex encoding and decoding, the
    getline-style split, byte-sequence comparison and the format checks of
    password validation. The digests themselves (MD5, SHA-256, PBKDF2) are
    foreign code; ValidatePassword receives key derivation as a parameter. */
module Hash {
  import opened Wrappers

  type byte = x: int | 0 <= x < 256

  // ---------------------------------------------------------------------------
  // Hex encoding: std::hex with setfill('0') and setw(2), one byte at a time.

  function HexDigit(n: int): (c: char)
    requires 0 <= n < 16
  {
    if n < 10 then ('0' as int + n) as char else ('a' as int + n - 10) as char
  }

  predicate IsLowerHex(c: char) {
    '0' <= c <= '9' || 'a' <= c <= 'f'
  }

  /** Two lower-case digits, high nibble first, zero padded. */
  function HexPair(b: byte): string {
    [HexDigit(b / 16), HexDigit(b % 16)]
  }

  function Hex(bs: seq<byte>): string {
    if bs == [] then [] else HexPair(bs[0]) + Hex(bs[1..])
  }

  lemma {:induction false} HexAppend(bs: seq<byte>, b: byte)
    ensures Hex(bs + [b]) == Hex(bs) + HexPair(b)
  {
    if bs == [] {
      assert bs + [b] == [b];
    } else {
      assert (bs + [b])[1..] == bs[1..] + [b];
      HexAppend(bs[1..], b);
    }
  }

  /** Byte i of the input is written at positions 2i and 2i+1. */
  lemma {:induction false} HexAt(bs: seq<byte>, i: int)
    requires 0 <= i < |bs|
    ensures |Hex(bs)| == 2 * |bs|
    ensures Hex(bs)[2 * i] == HexDigit(bs[i] / 16) && Hex(bs)[2 * i + 1] == HexDigit(bs[i] % 16)
  {
    if i == 0 {
      HexLength(bs);
    } else {
      HexAt(bs[1..], i - 1);
      HexLength(bs);
    }
  }

  lemma {:induction false} HexLength(bs: seq<byte>)
    ensures |Hex(bs)| == 2 * |bs|
  {
    if bs != [] {
      HexLength(bs[1..]);
    }
  }

  /** Hash::ConvertToHex: streams every byte as two lower-case hex digits. */
  method ConvertToHex(digest: seq<byte>) returns (s: string)
    ensures s == Hex(digest)
    ensures |s| == 2 * |digest|
    ensures forall i :: 0 <= i < |digest| ==>
      s[2 * i] == HexDigit(digest[i] / 16) && s[2 * i + 1] == HexDigit(digest[i] % 16)
    ensures forall c :: c in s ==> IsLowerHex(c)
  {
    s := "";
    for i := 0 to |digest|
      invariant s == Hex(digest[..i])
    {
      assert digest[..i + 1] == digest[..i] + [digest[i]];
      HexAppend(digest[..i], digest[i]);
      s := s + HexPair(digest[i]);
    }
    assert digest[..|digest|] == digest;
    HexLength(digest);
    forall i | 0 <= i < |digest|
      ensures s[2 * i] == HexDigit(digest[i] / 16) && s[2 * i + 1] == HexDigit(digest[i] % 16)
    {
      HexAt(digest, i);
    }
    HexIsLowerHex(digest);
  }

  lemma {:induction false} HexIsLowerHex(bs: seq<byte>)
    ensures forall c :: c in Hex(bs) ==> IsLowerHex(c)
  {
    if bs != [] {
      HexIsLowerHex(bs[1..]);
      assert Hex(bs) == HexPair(bs[0]) + Hex(bs[1..]);
    }
  }

  // ---------------------------------------------------------------------------
  // std::stoi(str, nullptr, base): leading white space, an optional sign, for
  // base 16 an optional 0x prefix, then the longest run of digits. No digit is
  // invalid_argument; a value outside int is out_of_range. Trailing characters
  // are ignored.

  datatype StoiError = InvalidArgument | OutOfRange

  /** isspace in the C locale. */
  predicate IsSpace(c: char) {
    c == ' ' || 9 <= c as int <= 13
  }

  function DigitValue(c: char): (d: int)
    ensures -1 <= d < 36
  {
    if '0' <= c <= '9' then c as int - '0' as int
    else if 'a' <= c <= 'z' then c as int - 'a' as int + 10
    else if 'A' <= c <= 'Z' then c as int - 'A' as int + 10
    else -1
  }

  predicate IsDigit(c: char, base: int) {
    0 <= DigitValue(c) < base
  }

  function DigitRun(s: string, base: int): (n: nat)
    ensures n <= |s|
  {
    if s != [] && IsDigit(s[0], base) then 1 + DigitRun(s[1..], base) else 0
  }

  /** The value of a run of digits, most significant first. */
  function DigitsValue(ds: string, base: nat): int {
    if ds == [] then 0 else DigitsValue(ds[..|ds| - 1], base) * base + DigitValue(ds[|ds| - 1])
  }

  const IntMin := -0x8000_0000
  const IntMax := 0x7fff_ffff

  function Stoi(s: string, base: nat): (r: Result<int, StoiError>)
    requires base == 10 || base == 16
    ensures r.Ok? ==> IntMin <= r.value <= IntMax
  {
    if s != [] && IsSpace(s[0]) then Stoi(s[1..], base)
    else if s != [] && (s[0] == '-' || s[0] == '+') then Signed(s[1..], base, s[0] == '-')
    else Signed(s, base, false)
  }

  /** The part of stoi after white space and sign. */
  function Signed(u: string, base: nat, negative: bool): (r: Result<int, StoiError>)
    requires base == 10 || base == 16
    ensures r.Ok? ==> IntMin <= r.value <= IntMax
  {
    var w := if base == 16 && |u| >= 3 && u[0] == '0' && (u[1] == 'x' || u[1] == 'X') && IsDigit(u[2], 16)
             then u[2..] else u;
    var n := DigitRun(w, base);
    if n == 0 then Err(InvalidArgument)
    else
      var magnitude := DigitsValue(w[..n], base);
      var v := if negative then 0 - magnitude else magnitude;
      if IntMin <= v <= IntMax then Ok(v) else Err(OutOfRange)
  }

  lemma DigitValueOfHexDigit(n: int)
    requires 0 <= n < 16
    ensures DigitValue(HexDigit(n)) == n
  {
  }

  /** A lone hex digit, as ConvertToBytes hands an odd tail to stoi. */
  lemma StoiOfOneHexDigit(a: char)
    requires IsDigit(a, 16)
    ensures Stoi([a], 16) == Ok(DigitValue(a))
  {
    var s := [a];
    assert !IsSpace(a) && a != '-' && a != '+';
    assert s[1..] == [];
    assert DigitRun(s, 16) == 1;
    assert s[..1] == s && s[..0] == [];
    assert DigitsValue(s, 16) == DigitValue(a);
  }

  /** Two hex digits, as ConvertToBytes hands them to stoi. */
  lemma StoiOfTwoHexDigits(a: char, b: char)
    requires IsDigit(a, 16) && IsDigit(b, 16)
    ensures Stoi([a, b], 16) == Ok(16 * DigitValue(a) + DigitValue(b))
    ensures 0 <= 16 * DigitValue(a) + DigitValue(b) < 256
  {
    var s := [a, b];
    assert !IsSpace(a) && a != '-' && a != '+';
    assert s[1..] == [b] && [b][1..] == [];
    assert DigitRun([b], 16) == 1;
    assert DigitRun(s, 16) == 2;
    assert s[..2] == s && s[..1] == [a] && [a][..0] == [];
    assert DigitsValue([a], 16) == DigitValue(a);
    assert DigitsValue(s, 16) == DigitsValue([a], 16) * 16 + DigitValue(b);
  }

  lemma StoiOfHexPair(b: byte)
    ensures Stoi(HexPair(b), 16) == Ok(b)
  {
    var s := HexPair(b);
    DigitValueOfHexDigit(b / 16);
    DigitValueOfHexDigit(b % 16);
    StoiOfTwoHexDigits(s[0], s[1]);
    assert s == [s[0], s[1]];
  }

  predicate IsHexString(h: string) {
    forall i :: 0 <= i < |h| ==> IsDigit(h[i], 16)
  }

  // ---------------------------------------------------------------------------
  // Hex decoding: two characters at a time through stoi(…, 16), each value cast
  // to unsigned char (reduced modulo 256); an odd tail is one character.

  function Min(a: int, b: int): int {
    if a < b then a else b
  }

  function Bytes(hex: string): (r: Result<seq<byte>, StoiError>)
    ensures r.Ok? ==> |hex| <= 2 * |r.value| <= |hex| + 1
  {
    if hex == [] then Ok([])
    else
      var k := Min(2, |hex|);
      match Stoi(hex[..k], 16)
      case Err(e) => Err(e)
      case Ok(v) => Prepend([v % 256], Bytes(hex[k..]))
  }

  /** One step of the decoding loop: the first (at most two) characters either fail or give a byte. */
  lemma BytesStep(hex: string)
    requires hex != []
    ensures var p := Stoi(hex[..Min(2, |hex|)], 16);
      && (p.Err? ==> Bytes(hex) == Err(p.error))
      && (p.Ok? ==> Bytes(hex) == Prepend([p.value % 256], Bytes(hex[Min(2, |hex|)..])))
  {
  }

  lemma PrependTwice(a: seq<byte>, b: seq<byte>, r: Result<seq<byte>, StoiError>)
    ensures Prepend(a, Prepend(b, r)) == Prepend(a + b, r)
  {
    if r.Ok? {
      assert a + (b + r.value) == (a + b) + r.value;
    }
  }

  /** Hash::ConvertToBytes. The exception stoi throws becomes an Err. */
  method ConvertToBytes(hex: string) returns (r: Result<seq<byte>, StoiError>)
    ensures r == Bytes(hex)
  {
    var bytes: seq<byte> := [];
    var i := 0;
    assert hex[i..] == hex;
    assert Bytes(hex).Ok? ==> [] + Bytes(hex).value == Bytes(hex).value;
    while i < |hex|
      invariant 0 <= i <= |hex|
      invariant Bytes(hex) == Prepend(bytes, Bytes(hex[i..]))
      decreases |hex| - i
    {
      ghost var rest := hex[i..];
      var k := Min(2, |hex| - i);
      var byteString := hex[i..i + k];
      assert byteString == rest[..k];
      assert rest[k..] == hex[i + k..];
      var parsed := Stoi(byteString, 16);
      BytesStep(rest);
      if parsed.Err? {
        assert Bytes(rest) == Err(parsed.error);
        return Err(parsed.error);
      }
      PrependTwice(bytes, [parsed.value % 256], Bytes(hex[i + k..]));
      bytes := bytes + [parsed.value % 256];
      i := i + k;
    }
    assert hex[i..] == [];
    assert bytes + [] == bytes;
    r := Ok(bytes);
  }

  /** The first failure wins; otherwise `bs` goes in front. */
  function Prepend(bs: seq<byte>, r: Result<seq<byte>, StoiError>): (p: Result<seq<byte>, StoiError>)
    ensures r.Err? ==> p == r
    ensures r.Ok? ==> p.Ok? && |p.value| == |bs| + |r.value|
  {
    if r.Err? then r else Ok(bs + r.value)
  }

  /** Decoding undoes encoding for every byte sequence. */
  lemma {:induction false} HexRoundTrip(bs: seq<byte>)
    ensures Bytes(Hex(bs)) == Ok(bs)
  {
    if bs != [] {
      var h := Hex(bs);
      assert h[..2] == HexPair(bs[0]);
      assert h[2..] == Hex(bs[1..]);
      StoiOfHexPair(bs[0]);
      BytesStep(h);
      HexRoundTrip(bs[1..]);
      assert [bs[0]] + bs[1..] == bs;
    }
  }

  lemma ByteMod(v: int)
    requires 0 <= v < 256
    ensures v % 256 == v
  {
  }

  lemma BytesOfOneDigit(h: string)
    requires |h| == 1 && IsDigit(h[0], 16)
    ensures Bytes(h) == Ok([DigitValue(h[0])])
  {
    StoiOfOneHexDigit(h[0]);
    var v := DigitValue(h[0]);
    assert h[..1] == h && h == [h[0]] && h[1..] == [];
    assert Stoi(h[..1], 16) == Ok(v);
    ByteMod(v);
    BytesStep(h);
    assert Min(2, |h|) == 1;
    assert Bytes(h[1..]) == Ok([]);
    assert [v] + [] == [v];
  }

  lemma HexStringParts(h: string, k: int)
    requires IsHexString(h) && 0 <= k <= |h|
    ensures IsHexString(h[..k]) && IsHexString(h[k..])
  {
    forall i | 0 <= i < k
      ensures IsDigit(h[..k][i], 16)
    {
      assert h[..k][i] == h[i];
    }
    forall i | 0 <= i < |h| - k
      ensures IsDigit(h[k..][i], 16)
    {
      assert h[k..][i] == h[i + k];
    }
  }

  /** A first pair that stoi reads as a byte value is that byte. */
  lemma BytesOfPair(h: string, v: int)
    requires |h| >= 2 && Stoi(h[..2], 16) == Ok(v) && 0 <= v < 256
    ensures Bytes(h) == Prepend([v], Bytes(h[2..]))
  {
    ByteMod(v);
    BytesStep(h);
    assert Min(2, |h|) == 2;
  }

  lemma BytesOfTwoDigits(h: string)
    requires |h| >= 2 && IsDigit(h[0], 16) && IsDigit(h[1], 16)
    ensures Bytes(h) == Prepend([16 * DigitValue(h[0]) + DigitValue(h[1])], Bytes(h[2..]))
  {
    var a, b := h[0], h[1];
    assert h[..2] == [a, b];
    StoiOfTwoHexDigits(a, b);
    BytesOfPair(h, 16 * DigitValue(a) + DigitValue(b));
  }

  /** On a string of hex digits, byte i comes from digits 2i and 2i+1. */
  lemma {:induction false} BytesOfHexString(h: string)
    requires IsHexString(h)
    ensures Bytes(h).Ok?
    ensures forall i :: 0 <= i && 2 * i + 1 < |h| ==>
      Bytes(h).value[i] == 16 * DigitValue(h[2 * i]) + DigitValue(h[2 * i + 1])
  {
    if |h| == 1 {
      BytesOfOneDigit(h);
    } else if |h| >= 2 {
      var t := h[2..];
      var v := 16 * DigitValue(h[0]) + DigitValue(h[1]);
      HexStringParts(h, 2);
      BytesOfTwoDigits(h);
      BytesOfHexString(t);
      var rest := Bytes(t).value;
      var bs := Bytes(h).value;
      assert bs == [v] + rest;
      forall i | 0 <= i && 2 * i + 1 < |h|
        ensures bs[i] == 16 * DigitValue(h[2 * i]) + DigitValue(h[2 * i + 1])
      {
        if i > 0 {
          assert bs[i] == rest[i - 1];
          assert t[2 * (i - 1)] == h[2 * i];
          assert t[2 * (i - 1) + 1] == h[2 * i + 1];
        }
      }
    }
  }

  /** On a hex string of odd length, the final digit is read on its own and
      becomes the last byte. */
  lemma {:induction false} BytesOfOddTail(h: string)
    requires IsHexString(h) && |h| % 2 == 1
    ensures Bytes(h).Ok? && |Bytes(h).value| == |h| / 2 + 1
    ensures Bytes(h).value[|h| / 2] == DigitValue(h[|h| - 1])
  {
    if |h| == 1 {
      BytesOfOneDigit(h);
    } else {
      var t := h[2..];
      HexStringParts(h, 2);
      BytesOfTwoDigits(h);
      BytesOfOddTail(t);
      var bs := Bytes(h).value;
      assert bs == [16 * DigitValue(h[0]) + DigitValue(h[1])] + Bytes(t).value;
      assert bs[|h| / 2] == Bytes(t).value[|t| / 2];
      assert t[|t| - 1] == h[|h| - 1];
    }
  }

  /** An odd final digit is read on its own and becomes a byte below 16. */
  lemma OddTailExample()
    ensures Bytes("abc") == Ok([0xab, 0x0c])
  {
    var h := "abc";
    assert IsHexString(h) by {
      assert IsDigit(h[0], 16) && IsDigit(h[1], 16) && IsDigit(h[2], 16);
    }
    BytesOfTwoDigits(h);
    assert h[2..] == "c";
    BytesOfOneDigit("c");
    assert DigitValue('a') == 10 && DigitValue('b') == 11 && DigitValue('c') == 12;
    assert [0xab] + [0x0c] == [0xab, 0x0c];
  }

  // ---------------------------------------------------------------------------
  // Splitting with std::getline: each call reads up to the next delimiter (which
  // is consumed) or the end; a call that starts at the end yields nothing.

  /** Index of the first `d` in `s`, or |s| when there is none. */
  function FirstIndex(s: string, d: char): (i: nat)
    ensures i <= |s|
    ensures i < |s| ==> s[i] == d
  {
    if s == [] then 0 else if s[0] == d then 0 else 1 + FirstIndex(s[1..], d)
  }

  function Split(s: string, d: char): seq<string>
    decreases |s|
  {
    if s == [] then []
    else
      var i := FirstIndex(s, d);
      if i == |s| then [s] else [s[..i]] + Split(s[i + 1..], d)
  }

  function Join(tokens: seq<string>, d: char): string {
    if tokens == [] then []
    else if |tokens| == 1 then tokens[0]
    else tokens[0] + [d] + Join(tokens[1..], d)
  }

  /** Hash::SplitString. */
  method SplitString(str: string, delimiter: char) returns (tokens: seq<string>)
    ensures tokens == Split(str, delimiter)
  {
    tokens := [];
    var i := 0;
    assert str[i..] == str;
    while i < |str|
      invariant 0 <= i <= |str|
      invariant Split(str, delimiter) == tokens + Split(str[i..], delimiter)
      decreases |str| - i
    {
      var j := NextDelimiter(str, delimiter, i);
      SplitAt(str, delimiter, i, j);
      ghost var rest := if j < |str| then Split(str[j + 1..], delimiter) else [];
      assert tokens + ([str[i..j]] + rest) == (tokens + [str[i..j]]) + rest;
      tokens := tokens + [str[i..j]];
      if j < |str| {
        i := j + 1;
      } else {
        assert str[j..] == [];
        i := j;
      }
    }
    assert i == |str|;
    SplitOfEnd(str, delimiter);
  }

  lemma SplitOfEnd(s: string, d: char)
    ensures Split(s[|s|..], d) == []
  {
    assert s[|s|..] == [];
  }

  /** The scan inside std::getline: the first delimiter at or after i, or the end. */
  method NextDelimiter(str: string, delimiter: char, i: nat) returns (j: nat)
    requires i <= |str|
    ensures i <= j <= |str| && (j < |str| ==> str[j] == delimiter)
    ensures forall k :: i <= k < j ==> str[k] != delimiter
  {
    j := i;
    while j < |str| && str[j] != delimiter
      invariant i <= j <= |str|
      invariant forall k :: i <= k < j ==> str[k] != delimiter
    {
      j := j + 1;
    }
  }

  /** One getline call: the token runs from i to the next delimiter at j. */
  lemma SplitAt(s: string, d: char, i: nat, j: nat)
    requires i < |s| && i <= j <= |s| && (j < |s| ==> s[j] == d)
    requires forall k :: i <= k < j ==> s[k] != d
    ensures Split(s[i..], d) == [s[i..j]] + (if j < |s| then Split(s[j + 1..], d) else [])
  {
    var t := s[i..];
    FirstIndexIs(t, d, j - i);
    assert t[..j - i] == s[i..j];
    if j < |s| {
      assert t[j - i + 1..] == s[j + 1..];
    } else {
      assert t == s[i..j];
    }
  }

  lemma FirstIndexIs(s: string, d: char, i: nat)
    requires i <= |s| && (i < |s| ==> s[i] == d)
    requires forall j :: 0 <= j < i ==> s[j] != d
    ensures FirstIndex(s, d) == i
  {
    if i > 0 {
      assert s[0] != d;
      FirstIndexIs(s[1..], d, i - 1);
    }
  }

  /** Nothing before the first index is the delimiter. */
  lemma {:induction false} FirstIndexIsFirst(s: string, d: char)
    ensures forall j :: 0 <= j < FirstIndex(s, d) ==> s[j] != d
  {
    if s != [] && s[0] != d {
      FirstIndexIsFirst(s[1..], d);
      forall j | 0 < j < FirstIndex(s, d)
        ensures s[j] != d
      {
        assert s[1..][j - 1] == s[j];
      }
    }
  }

  /** No token contains the delimiter. */
  lemma {:induction false} TokensHaveNoDelimiter(s: string, d: char)
    ensures forall t :: t in Split(s, d) ==> d !in t
    decreases |s|
  {
    if s != [] {
      var i := FirstIndex(s, d);
      PrefixHasNoDelimiter(s, d);
      if i < |s| {
        TokensHaveNoDelimiter(s[i + 1..], d);
        NoDelimiterInCons(s[..i], Split(s[i + 1..], d), d);
      } else {
        assert s[..i] == s;
      }
    }
  }

  lemma PrefixHasNoDelimiter(s: string, d: char)
    ensures d !in s[..FirstIndex(s, d)]
  {
    FirstIndexIsFirst(s, d);
  }

  lemma NoDelimiterInCons(first: string, tokens: seq<string>, d: char)
    requires d !in first && forall t :: t in tokens ==> d !in t
    ensures forall t :: t in [first] + tokens ==> d !in t
  {
  }

  /** Joining the tokens with the delimiter gives the input back, unless the input
      ends in the delimiter (getline drops that trailing empty token). */
  lemma {:induction false} JoinSplit(s: string, d: char)
    requires s == [] || s[|s| - 1] != d
    ensures Join(Split(s, d), d) == s
    decreases |s|
  {
    if s != [] {
      var i := FirstIndex(s, d);
      if i < |s| {
        var rest := s[i + 1..];
        assert rest != [] && rest[|rest| - 1] == s[|s| - 1];
        JoinSplit(rest, d);
        assert Split(rest, d) != [];
        assert s == s[..i] + [d] + rest;
      }
    }
  }

  /** Consecutive delimiters give an empty token between them. */
  lemma SplitEmptyToken(x: char, y: char, d: char)
    requires x != d && y != d
    ensures Split([x, d, d, y], d) == [[x], [], [y]]
  {
    var s := [x, d, d, y];
    assert s[0..] == s && s[4..] == [];
    SplitAt(s, d, 0, 1);
    SplitAt(s, d, 2, 2);
    SplitAt(s, d, 3, 4);
    assert s[0..1] == [x] && s[2..2] == [] && s[3..4] == [y];
  }

  /** A trailing delimiter ends the last token and adds no empty one; a lone
      delimiter is one empty token; the empty string has no token. */
  lemma SplitTrailingDelimiter(x: char, d: char)
    requires x != d
    ensures Split([x, d], d) == [[x]]
    ensures Split([d], d) == [[]]
    ensures Split([], d) == []
  {
    var t := [x, d];
    assert t[0..] == t && t[0..1] == [x];
    SplitAt(t, d, 0, 1);
    SplitOfEnd(t, d);
    var u := [d];
    assert u[0..] == u && u[0..0] == [];
    SplitAt(u, d, 0, 0);
    SplitOfEnd(u, d);
  }

  // ---------------------------------------------------------------------------

  /** Hash::CompareHashes: equal length and equal bytes; returns early on the
      first size or byte mismatch. */
  method CompareHashes(hash1: seq<byte>, hash2: seq<byte>) returns (equal: bool)
    ensures equal <==> hash1 == hash2
  {
    if |hash1| != |hash2| {
      return false;
    }
    for i := 0 to |hash1|
      invariant hash1[..i] == hash2[..i]
    {
      if hash1[i] != hash2[i] {
        return false;
      }
      assert hash1[..i + 1] == hash1[..i] + [hash1[i]];
      assert hash2[..i + 1] == hash2[..i] + [hash2[i]];
    }
    assert hash1[..|hash1|] == hash1 && hash2[..|hash2|] == hash2;
    return true;
  }

  // ---------------------------------------------------------------------------

  datatype HashError =
    | InvalidFormat          // "Invalid stored password hash format."
    | BadNumber(e: StoiError) // stoi / ConvertToBytes failing on a field
    | DerivationFailed       // "PKCS5_PBKDF2_HMAC failed"

  /** PBKDF2 as a collaborator: (password, iterations, salt, key length) to a key, or None when it fails. */
  type KeyDerivation = (string, int, seq<byte>, int) -> Option<seq<byte>>

  /** What Hash::ValidatePassword computes, step by step in source order. */
  function Validation(password: string, stored: string, derive: KeyDerivation): Result<bool, HashError> {
    var parts := Split(stored, ':');
    if |parts| != 3 then Err(InvalidFormat)
    else match Stoi(parts[0], 10)
      case Err(e) => Err(BadNumber(e))
      case Ok(iterations) =>
        match Bytes(parts[1])
        case Err(e) => Err(BadNumber(e))
        case Ok(salt) =>
          match Bytes(parts[2])
          case Err(e) => Err(BadNumber(e))
          case Ok(storedHash) =>
            match derive(password, iterations, salt, |storedHash|)
            case None => Err(DerivationFailed)
            case Some(key) => Ok(storedHash == key)
  }

  /** Hash::ValidatePassword: splits "iterations:salt:hash", parses the three
      fields, derives a key as long as the stored hash and compares the two. */
  method ValidatePassword(password: string, stored: string, derive: KeyDerivation)
    returns (r: Result<bool, HashError>)
    ensures r == Validation(password, stored, derive)
    ensures r == Err(InvalidFormat) <==> |Split(stored, ':')| != 3
  {
    var parts := SplitString(stored, ':');
    if |parts| != 3 {
      return Err(InvalidFormat);
    }
    var iterations := Stoi(parts[0], 10);
    if iterations.Err? {
      return Err(BadNumber(iterations.error));
    }
    var salt := ConvertToBytes(parts[1]);
    if salt.Err? {
      return Err(BadNumber(salt.error));
    }
    var storedHash := ConvertToBytes(parts[2]);
    if storedHash.Err? {
      return Err(BadNumber(storedHash.error));
    }
    var key := derive(password, iterations.value, salt.value, |storedHash.value|);
    if key.None? {
      return Err(DerivationFailed);
    }
    var same := CompareHashes(storedHash.value, key.value);
    return Ok(same);
  }

  /** A delimiter-free prefix followed by the delimiter is one token. */
  lemma SplitCons(x: string, d: char, y: string)
    requires d !in x
    ensures Split(x + [d] + y, d) == [x] + Split(y, d)
  {
    var s := x + [d] + y;
    FirstIndexIs(s, d, |x|);
    assert s[..|x|] == x && s[|x| + 1..] == y;
  }

  /** A non-empty delimiter-free string is one token. */
  lemma SplitSingle(x: string, d: char)
    requires d !in x && x != []
    ensures Split(x, d) == [x]
  {
    FirstIndexIs(x, d, |x|);
  }

  /** Three delimiter-free fields joined by the delimiter split back into themselves. */
  lemma SplitThree(a: string, b: string, c: string, d: char)
    requires d !in a && d !in b && d !in c && c != []
    ensures Split(a + [d] + b + [d] + c, d) == [a, b, c]
  {
    assert a + [d] + b + [d] + c == a + [d] + (b + [d] + c);
    SplitCons(a, d, b + [d] + c);
    SplitCons(b, d, c);
    SplitSingle(c, d);
  }

  /** A record written as "iterations:hex(salt):hex(hash)" is accepted exactly
      when the derived key equals the hash. The hash must not be empty: an
      empty one leaves a trailing ':' that getline drops, and the record is
      then rejected as malformed. */
  lemma ValidationOfWellFormedRecord(password: string, iterations: string, n: int, salt: seq<byte>,
                                     hash: seq<byte>, derive: KeyDerivation)
    requires ':' !in iterations && Stoi(iterations, 10) == Ok(n)
    requires hash != []
    ensures derive(password, n, salt, |hash|).Some? ==>
      Validation(password, iterations + ":" + Hex(salt) + ":" + Hex(hash), derive)
        == Ok(derive(password, n, salt, |hash|).value == hash)
    ensures derive(password, n, salt, |hash|).None? ==>
      Validation(password, iterations + ":" + Hex(salt) + ":" + Hex(hash), derive) == Err(DerivationFailed)
  {
    HexIsLowerHex(salt);
    HexIsLowerHex(hash);
    HexLength(hash);
    SplitThree(iterations, Hex(salt), Hex(hash), ':');
    assert iterations + ":" + Hex(salt) + ":" + Hex(hash) == iterations + [':'] + Hex(salt) + [':'] + Hex(hash);
    HexRoundTrip(salt);
    HexRoundTrip(hash);
  }

  /** The accepted record for an empty hash: the format check fails. */
  lemma EmptyHashIsMalformed(password: string, salt: seq<byte>, derive: KeyDerivation)
    ensures Validation(password, "1:" + Hex(salt) + ":", derive) == Err(InvalidFormat)
  {
    var h := Hex(salt);
    var s := "1:" + h + ":";
    HexIsLowerHex(salt);
    assert s[0] == '1' && s[1] == ':' && s[|s| - 1] == ':';
    forall k | 2 <= k < |s| - 1
      ensures s[k] != ':'
    {
      assert s[k] == h[k - 2] && h[k - 2] in h;
    }
    SplitAt(s, ':', 0, 1);
    SplitAt(s, ':', 2, |s| - 1);
    SplitOfEnd(s, ':');
    assert s[0..] == s;
  }
}
