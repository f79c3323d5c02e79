/** Hexadecimal text (encoding/hex), and the lowercase SHA-256 digests of the contract. */
module Hex {
  import opened Wrappers
  import opened Ints
  import opened Versions

  const SHA256_DIGEST_BYTES := 32

  /** The value of a hex digit of either case. */
  function Nibble(c: char): Option<int> {
    if '0' <= c <= '9' then Some(c as int - '0' as int)
    else if 'a' <= c <= 'f' then Some(c as int - 'a' as int + 10)
    else if 'A' <= c <= 'F' then Some(c as int - 'A' as int + 10)
    else None
  }

  function HexDigit(n: int): char
    requires 0 <= n < 16
  {
    if n < 10 then ('0' as int + n) as char else ('a' as int + n - 10) as char
  }

  /** hex.DecodeString. */
  function Decode(s: string): Option<seq<byte>> {
    if s == "" then Some([])
    else if |s| == 1 || Nibble(s[0]).None? || Nibble(s[1]).None? then None
    else match Decode(s[2..])
      case None => None
      case Some(rest) => Some([16 * Nibble(s[0]).value + Nibble(s[1]).value] + rest)
  }

  /** hex.EncodeToString. */
  function Encode(b: seq<byte>): string {
    if b == [] then "" else [HexDigit(b[0] / 16), HexDigit(b[0] % 16)] + Encode(b[1..])
  }

  predicate LowerHexDigit(c: char) {
    '0' <= c <= '9' || 'a' <= c <= 'f'
  }

  predicate LowerHex(s: string) {
    forall i :: 0 <= i < |s| ==> LowerHexDigit(s[i])
  }

  lemma NibbleThenDigit(c: char)
    ensures LowerHexDigit(c) <==> Nibble(c).Some? && HexDigit(Nibble(c).value) == c
    ensures Nibble(c).Some? ==> 0 <= Nibble(c).value < 16
  {}

  lemma DigitThenNibble(n: int)
    requires 0 <= n < 16
    ensures Nibble(HexDigit(n)) == Some(n) && LowerHexDigit(HexDigit(n))
  {}

  lemma LowerHexTail(s: string)
    requires |s| >= 2
    ensures LowerHex(s) <==> LowerHexDigit(s[0]) && LowerHexDigit(s[1]) && LowerHex(s[2..])
  {
    if LowerHexDigit(s[0]) && LowerHexDigit(s[1]) && LowerHex(s[2..]) {
      forall i | 2 <= i < |s|
        ensures LowerHexDigit(s[i])
      {
        assert s[2..][i - 2] == s[i];
      }
    }
  }

  lemma {:induction false} EncodeThenDecode(b: seq<byte>)
    ensures Decode(Encode(b)) == Some(b)
    ensures LowerHex(Encode(b)) && |Encode(b)| == 2 * |b|
  {
    if b != [] {
      EncodeThenDecode(b[1..]);
      var e := Encode(b);
      assert e[2..] == Encode(b[1..]);
      DigitThenNibble(b[0] / 16);
      DigitThenNibble(b[0] % 16);
      LowerHexTail(e);
      assert [b[0]] + b[1..] == b;
    }
  }

  lemma DecodeHead(s: string, h: byte, rest: seq<byte>)
    requires |s| >= 2 && Nibble(s[0]).Some? && Nibble(s[1]).Some? && Decode(s[2..]) == Some(rest)
    requires h == 16 * Nibble(s[0]).value + Nibble(s[1]).value
    ensures Decode(s) == Some([h] + rest)
  {}

  lemma EncodeCons(h: byte, rest: seq<byte>)
    ensures Encode([h] + rest) == [HexDigit(h / 16), HexDigit(h % 16)] + Encode(rest)
  {
    assert ([h] + rest)[1..] == rest;
  }

  lemma TwoAndTail(s: string, a: char, b: char, tail: string)
    requires |s| >= 2
    ensures [a, b] + tail == s <==> a == s[0] && b == s[1] && tail == s[2..]
  {
    assert s == [s[0], s[1]] + s[2..];
    assert ([a, b] + tail)[2..] == tail;
  }

  /** Re-encoding reproduces a decodable text exactly when it reproduces its first two digits and its tail. */
  lemma EncodeHead(s: string)
    requires |s| >= 2 && Decode(s).Some?
    ensures Encode(Decode(s).value) == s <==>
            && HexDigit(Nibble(s[0]).value) == s[0] && HexDigit(Nibble(s[1]).value) == s[1]
            && Encode(Decode(s[2..]).value) == s[2..]
  {
    var h, rest := 16 * Nibble(s[0]).value + Nibble(s[1]).value, Decode(s[2..]).value;
    NibbleThenDigit(s[0]);
    NibbleThenDigit(s[1]);
    DecodeHead(s, h, rest);
    EncodeCons(h, rest);
    assert h / 16 == Nibble(s[0]).value && h % 16 == Nibble(s[1]).value;
    TwoAndTail(s, HexDigit(h / 16), HexDigit(h % 16), Encode(rest));
  }

  /** Text decodes and re-encodes to itself exactly when it is an even number of lowercase digits. */
  lemma {:induction false} DecodeThenEncode(s: string)
    ensures Decode(s).Some? ==> |s| == 2 * |Decode(s).value|
    ensures Decode(s).Some? && Encode(Decode(s).value) == s <==> |s| % 2 == 0 && LowerHex(s)
  {
    if |s| >= 2 {
      DecodeThenEncode(s[2..]);
      LowerHexTail(s);
      NibbleThenDigit(s[0]);
      NibbleThenDigit(s[1]);
      if Decode(s).Some? {
        EncodeHead(s);
      }
    }
  }

  // ---- digests ----

  predicate ValidDigest(s: string) {
    match Decode(s)
    case None => false
    case Some(b) => |b| == SHA256_DIGEST_BYTES && Encode(b) == s
  }

  /** validateDigest accepts the 64-character strings over [0-9a-f], and no other string. */
  lemma DigestsAreLowerHex(s: string)
    ensures ValidDigest(s) <==> |s| == 64 && LowerHex(s)
  {
    DecodeThenEncode(s);
  }

  /** On such strings the decoded bytes are the identity: equal bytes, equal strings. */
  lemma DigestsAreCanonical(s: string, t: string)
    requires |s| == 64 && LowerHex(s) && |t| == 64 && LowerHex(t)
    ensures Decode(s).Some? && Decode(t).Some?
    ensures Decode(s) == Decode(t) <==> s == t
  {
    DigestsAreLowerHex(s);
    DigestsAreLowerHex(t);
  }

  lemma EncodedHashIsADigest(b: seq<byte>)
    requires |b| == 32
    ensures ValidDigest(Encode(b))
  {
    EncodeThenDecode(b);
  }

  // ---- what a node holds per stream ----

  datatype StreamState = StreamState(applied: Version, etag: string)

  predicate ValidStreamState(state: StreamState) {
    if state.etag == "" then
      state.applied.Zero()
    else
      match Decode(state.etag)
      case None => false
      case Some(b) => |b| == SHA256_DIGEST_BYTES && Encode(b) == state.etag && state.applied.Committed()
  }

  /** An accepted stream state is wholly unset or wholly published: a digest exactly when there is
      a version, and never a half-zero version. */
  lemma StreamStatesAreAllOrNothing(state: StreamState)
    ensures ValidStreamState(state) <==>
            || (state.etag == "" && state.applied == NO_VERSION)
            || (|state.etag| == 64 && LowerHex(state.etag) && state.applied.Committed())
    ensures state.etag != "" && state.applied.Committed() ==> (ValidStreamState(state) <==> ValidDigest(state.etag))
  {
    DigestsAreLowerHex(state.etag);
  }
}
