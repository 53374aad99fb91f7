/** Hex decoding of SMS PDUs in ril_service.cpp, over bytes. */
module HexDecode {
  import opened Options

  const INVALID_HEX_CHAR: bv8 := 16

  function HexCharToInt(c: bv8): bv8 {
    if 48 <= c <= 57 then c - 48           // '0'..'9'
    else if 65 <= c <= 70 then c - 65 + 10 // 'A'..'F'
    else if 97 <= c <= 102 then c - 97 + 10 // 'a'..'f'
    else INVALID_HEX_CHAR
  }

  predicate IsHex(c: bv8) {
    48 <= c <= 57 || 65 <= c <= 70 || 97 <= c <= 102
  }

  lemma HexCharValid(c: bv8)
    ensures IsHex(c) <==> HexCharToInt(c) != INVALID_HEX_CHAR
    ensures IsHex(c) ==> HexCharToInt(c) < 16
  {
  }

  function Join(high: bv8, low: bv8): bv8 {
    (high << 4) | low
  }

  lemma JoinSplits(high: bv8, low: bv8)
    requires high < 16 && low < 16
    ensures Join(high, low) >> 4 == high && Join(high, low) & 15 == low
  {
  }

  lemma SplitJoins(b: bv8)
    ensures Join(b >> 4, b & 15) == b && b >> 4 < 16 && b & 15 < 16
  {
  }

  /** The two characters at 2 * i are the digits, in either case, of byte i. */
  ghost predicate EncodesAt(hex: seq<bv8>, bytes: seq<bv8>, i: nat)
    requires |hex| == 2 * |bytes| && i < |bytes|
  {
    HexCharToInt(hex[2 * i]) == bytes[i] >> 4 && HexCharToInt(hex[2 * i + 1]) == bytes[i] & 15
  }

  ghost predicate Encodes(hex: seq<bv8>, bytes: seq<bv8>) {
    |hex| == 2 * |bytes| && forall i :: 0 <= i < |bytes| ==> EncodesAt(hex, bytes, i)
  }

  ghost predicate AllHex(hex: seq<bv8>) {
    forall i :: 0 <= i < |hex| ==> IsHex(hex[i])
  }

  /** A string encodes at most one byte string, */
  lemma EncodesUnique(hex: seq<bv8>, b1: seq<bv8>, b2: seq<bv8>)
    requires Encodes(hex, b1) && Encodes(hex, b2)
    ensures b1 == b2
  {
    forall i | 0 <= i < |b1| ensures b1[i] == b2[i] {
      assert EncodesAt(hex, b1, i) && EncodesAt(hex, b2, i);
      SplitJoins(b1[i]);
      SplitJoins(b2[i]);
    }
  }

  /** and only a string of hex digits of even length encodes anything. */
  lemma EncodesIsHex(hex: seq<bv8>, bytes: seq<bv8>)
    requires Encodes(hex, bytes)
    ensures AllHex(hex) && |hex| % 2 == 0
  {
    forall j | 0 <= j < |hex| ensures IsHex(hex[j]) {
      assert EncodesAt(hex, bytes, j / 2);
      SplitJoins(bytes[j / 2]);
      HexCharValid(hex[j]);
    }
  }

  /** Null iff the length is odd or a character is not hex; else the encoded bytes, written twice. */
  method ConvertHexStringToBytes(response: seq<bv8>) returns (bytes: array?<bv8>)
    ensures bytes == null <==> |response| % 2 != 0 || !AllHex(response)
    ensures bytes != null ==> fresh(bytes) && bytes.Length == |response|
    ensures bytes != null ==> Encodes(response, bytes[..|response| / 2])
    ensures bytes != null ==> bytes[..] == bytes[..|response| / 2] + bytes[..|response| / 2]
  {
    hide HexCharToInt, Join, IsHex, Encodes, AllHex;
    if |response| % 2 != 0 {
      return null;
    }
    bytes := new bv8[|response|](_ => 0);
    var n := |response| / 2;
    var i := 0;
    EncodesNothing(response, bytes[..]);
    while i < |response|
      invariant 0 <= i <= |response| && i % 2 == 0
      invariant bytes != null && fresh(bytes) && bytes.Length == |response|
      invariant AllHex(response[..i])
      invariant forall k :: 0 <= k < i / 2 ==> bytes[n + k] == bytes[k]
      invariant Encodes(response[..i], bytes[..i / 2])
    {
      var h1, h2 := HexCharToInt(response[i]), HexCharToInt(response[i + 1]);
      HexCharValid(response[i]);
      HexCharValid(response[i + 1]);
      if h1 == INVALID_HEX_CHAR || h2 == INVALID_HEX_CHAR {
        NotAllHex(response, if h1 == INVALID_HEX_CHAR then i else i + 1);
        return null;
      }
      JoinSplits(h1, h2);
      ghost var before := bytes[..i / 2];
      bytes[i / 2] := Join(h1, h2);
      bytes[(|response| + i) / 2] := Join(h1, h2);
      EncodesMore(response, i, before, Join(h1, h2));
      assert bytes[..i / 2 + 1] == before + [Join(h1, h2)];
      i := i + 2;
    }
    assert response[..i] == response;
    forall k | 0 <= k < |response| ensures bytes[k] == (bytes[..n] + bytes[..n])[k] {
      if k >= n {
        assert bytes[n + (k - n)] == bytes[k - n];
      }
    }
  }

  lemma NotAllHex(hex: seq<bv8>, i: nat)
    requires i < |hex| && !IsHex(hex[i])
    ensures !AllHex(hex)
  {
  }

  lemma EncodesNothing(hex: seq<bv8>, bytes: seq<bv8>)
    ensures Encodes(hex[..0], bytes[..0]) && AllHex(hex[..0])
  {
  }

  lemma EncodesMore(hex: seq<bv8>, i: nat, bytes: seq<bv8>, b: bv8)
    requires i + 2 <= |hex| && i == 2 * |bytes| && Encodes(hex[..i], bytes)
    requires HexCharToInt(hex[i]) == b >> 4 && HexCharToInt(hex[i + 1]) == b & 15
    ensures Encodes(hex[..i + 2], bytes + [b]) && (AllHex(hex[..i]) ==> AllHex(hex[..i + 2]))
  {
    HexCharValid(hex[i]);
    HexCharValid(hex[i + 1]);
    SplitJoins(b);
    var text, longer := hex[..i + 2], bytes + [b];
    forall k | 0 <= k < |longer| ensures EncodesAt(text, longer, k) {
      assert k < |bytes| ==> EncodesAt(hex[..i], bytes, k);
    }
  }

  /** Decoding any hex encoding of a byte string gives that string back. */
  method DecodeEncoded(hex: seq<bv8>, ghost bytes: seq<bv8>) returns (r: seq<bv8>)
    requires Encodes(hex, bytes)
    ensures r == bytes
  {
    EncodesIsHex(hex, bytes);
    var buffer := ConvertHexStringToBytes(hex);
    r := buffer[..|hex| / 2];
    EncodesUnique(hex, r, bytes);
  }

  function Digit(d: bv8, upper: bool): bv8 {
    if d < 10 then d + 48 else if upper then d - 10 + 65 else d - 10 + 97
  }

  /** The usual encoder, with the case of every digit chosen freely. */
  function Encode(bytes: seq<bv8>, upper: nat -> bool): (hex: seq<bv8>)
    ensures |hex| == 2 * |bytes|
  {
    if bytes == [] then []
    else
      var n := |bytes| - 1;
      Encode(bytes[..n], upper) + [Digit(bytes[n] >> 4, upper(2 * n)), Digit(bytes[n] & 15, upper(2 * n + 1))]
  }

  lemma DigitDecodes(d: bv8, upper: bool)
    requires d < 16
    ensures HexCharToInt(Digit(d, upper)) == d
  {
  }

  lemma {:induction false} EncodeEncodes(bytes: seq<bv8>, upper: nat -> bool)
    ensures Encodes(Encode(bytes, upper), bytes)
  {
    if bytes != [] {
      var n, hex := |bytes| - 1, Encode(bytes, upper);
      var b := bytes[n];
      EncodeEncodes(bytes[..n], upper);
      SplitJoins(b);
      DigitDecodes(b >> 4, upper(2 * n));
      DigitDecodes(b & 15, upper(2 * n + 1));
      assert hex[..2 * n] == Encode(bytes[..n], upper);
      EncodesMore(hex, 2 * n, bytes[..n], b);
      assert bytes[..n] + [b] == bytes && hex[..2 * n + 2] == hex;
    }
  }

  /** The text of a C string: what is before its first zero. */
  ghost function Text(s: seq<bv8>): seq<bv8> {
    if s == [] || s[0] == 0 then [] else [s[0]] + Text(s[1..])
  }

  lemma {:induction false} TextIs(s: seq<bv8>, n: nat)
    requires n < |s| && s[n] == 0 && 0 !in s[..n]
    ensures s[..n] == Text(s)
  {
    if n > 0 {
      assert s[0] in s[..n];
      assert s[..n] == [s[0]] + s[1..][..n - 1];
      TextIs(s[1..], n - 1);
    }
  }

  method StrLen(s: seq<bv8>) returns (n: nat)
    requires 0 in s
    ensures n < |s| && s[..n] == Text(s)
  {
    n := 0;
    while s[n] != 0
      invariant n < |s| && 0 !in s[..n] && 0 in s[n..]
      decreases |s| - n
    {
      assert s[n..] == [s[n]] + s[n + 1..];
      n := n + 1;
    }
    TextIs(s, n);
  }

  /** What newSmsInd passes on: the PDU its text encodes, or nothing if it encodes none. */
  method NewSmsInd(response: Option<seq<bv8>>, responseLen: nat) returns (pdu: Option<seq<bv8>>)
    requires response.Some? ==> 0 in response.value
    ensures pdu.Some? <==>
      && response.Some? && responseLen != 0
      && |Text(response.value)| % 2 == 0 && AllHex(Text(response.value))
    ensures pdu.Some? ==> Encodes(Text(response.value), pdu.value)
  {
    if response.None? || responseLen == 0 {
      return None;
    }
    var pduLen := StrLen(response.value);
    var bytes := ConvertHexStringToBytes(response.value[..pduLen]);
    if bytes == null {
      return None;
    }
    pdu := Some(bytes[..pduLen / 2]);
  }
}
