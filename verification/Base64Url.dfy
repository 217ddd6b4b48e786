/** Unpadded base64url (section 5 of RFC 4648, without padding as in section 2 of RFC 7515) on bytes:
    the one-shot encoder, an independent strict decoder, and splitting at dots. */
module Base64Url {
  import opened Options

  const DOT: bv8 := 46

  // ---- Characters and sextets

  function Base64Char(v: bv8): bv8 {
    if v < 26 then v + 65
    else if v < 52 then v + 97 - 26
    else if v < 62 then v + 48 - 52
    else if v == 62 then 45
    else 95
  }

  predicate IsBase64(ch: bv8) {
    65 <= ch <= 90 || 97 <= ch <= 122 || 48 <= ch <= 57 || ch == 45 || ch == 95
  }

  function CharValue(ch: bv8): bv8 {
    if 65 <= ch <= 90 then ch - 65
    else if 97 <= ch <= 122 then ch - 97 + 26
    else if 48 <= ch <= 57 then ch - 48 + 52
    else if ch == 45 then 62
    else 63
  }

  lemma CharRoundTrip(v: bv8)
    requires v < 64
    ensures IsBase64(Base64Char(v)) && CharValue(Base64Char(v)) == v
    ensures Base64Char(v) != DOT && Base64Char(v) != 0
  {
  }

  /** The alphabet runs from A to Z, from a to z and from 0 to 9, and ends with a minus and an underscore. */
  lemma AlphabetInOrder(v: bv8)
    requires v < 64
    ensures Base64Char(0) as char == 'A' && Base64Char(25) as char == 'Z'
    ensures Base64Char(26) as char == 'a' && Base64Char(51) as char == 'z'
    ensures Base64Char(52) as char == '0' && Base64Char(61) as char == '9'
    ensures Base64Char(62) as char == '-' && Base64Char(63) as char == '_' && DOT as char == '.'
    ensures v < 61 && v != 25 && v != 51 ==> Base64Char(v + 1) == Base64Char(v) + 1
  {
  }

  lemma ValueRoundTrip(ch: bv8)
    requires IsBase64(ch)
    ensures CharValue(ch) < 64 && Base64Char(CharValue(ch)) == ch
  {
  }

  predicate AllSextets(v: seq<bv8>) { forall k :: 0 <= k < |v| ==> v[k] < 64 }

  function Chars(v: seq<bv8>): (t: seq<bv8>)
    ensures |t| == |v|
  {
    seq(|v|, k requires 0 <= k < |v| => Base64Char(v[k]))
  }

  function Values(t: seq<bv8>): (v: seq<bv8>)
    ensures |v| == |t|
  {
    seq(|t|, k requires 0 <= k < |t| => CharValue(t[k]))
  }

  predicate AllBase64(t: seq<bv8>) { forall k :: 0 <= k < |t| ==> IsBase64(t[k]) }

  lemma CharsRoundTrip(v: seq<bv8>)
    requires AllSextets(v)
    ensures AllBase64(Chars(v)) && Values(Chars(v)) == v
    ensures forall k :: 0 <= k < |v| ==> Chars(v)[k] != DOT && Chars(v)[k] != 0
  {
    forall k | 0 <= k < |v|
      ensures IsBase64(Chars(v)[k]) && Values(Chars(v))[k] == v[k] && Chars(v)[k] != DOT && Chars(v)[k] != 0
    {
      CharRoundTrip(v[k]);
    }
  }

  lemma ValuesRoundTrip(t: seq<bv8>)
    requires AllBase64(t)
    ensures AllSextets(Values(t)) && Chars(Values(t)) == t
  {
    forall k | 0 <= k < |t|
      ensures Values(t)[k] < 64 && Chars(Values(t))[k] == t[k]
    {
      ValueRoundTrip(t[k]);
    }
  }

  lemma CharsConcat(v: seq<bv8>, w: seq<bv8>)
    ensures Chars(v + w) == Chars(v) + Chars(w)
  {
  }

  // ---- Sextets and bytes

  function Sextet0(a: bv8): bv8 { a >> 2 }
  function Sextet1(a: bv8, b: bv8): bv8 { ((a & 0x03) << 4) | (b >> 4) }
  function Sextet2(b: bv8, c: bv8): bv8 { ((b & 0x0f) << 2) | (c >> 6) }
  function Sextet3(c: bv8): bv8 { c & 0x3f }

  /** The sextets of a byte string; a last group of one or two bytes is filled up with zero bits. */
  function ToSextets(b: seq<bv8>): seq<bv8> {
    if |b| == 0 then []
    else if |b| == 1 then [Sextet0(b[0]), Sextet1(b[0], 0)]
    else if |b| == 2 then [Sextet0(b[0]), Sextet1(b[0], b[1]), Sextet2(b[1], 0)]
    else [Sextet0(b[0]), Sextet1(b[0], b[1]), Sextet2(b[1], b[2]), Sextet3(b[2])] + ToSextets(b[3..])
  }

  function Byte0(v0: bv8, v1: bv8): bv8 { (v0 << 2) | (v1 >> 4) }
  function Byte1(v1: bv8, v2: bv8): bv8 { (v1 << 4) | (v2 >> 2) }
  function Byte2(v2: bv8, v3: bv8): bv8 { (v2 << 6) | v3 }

  /** The bytes behind a string of sextets, or `None` if a single sextet or unused bits are left over. */
  function FromSextets(v: seq<bv8>): Option<seq<bv8>> {
    if |v| == 0 then Some([])
    else if |v| == 1 then None
    else if |v| == 2 then (if v[1] & 0x0f == 0 then Some([Byte0(v[0], v[1])]) else None)
    else if |v| == 3 then
      (if v[2] & 0x03 == 0 then Some([Byte0(v[0], v[1]), Byte1(v[1], v[2])]) else None)
    else
      var rest := FromSextets(v[4..]);
      if rest.None? then None
      else Some([Byte0(v[0], v[1]), Byte1(v[1], v[2]), Byte2(v[2], v[3])] + rest.value)
  }

  lemma SextetsFit(a: bv8, b: bv8, c: bv8)
    ensures Sextet0(a) < 64 && Sextet1(a, b) < 64 && Sextet2(b, c) < 64 && Sextet3(c) < 64
  {
  }

  lemma BytesFromSextets(a: bv8, b: bv8, c: bv8)
    ensures Byte0(Sextet0(a), Sextet1(a, b)) == a
    ensures Byte1(Sextet1(a, b), Sextet2(b, c)) == b
    ensures Byte2(Sextet2(b, c), Sextet3(c)) == c
    ensures b == 0 ==> Sextet1(a, b) & 0x0f == 0
    ensures c == 0 ==> Sextet2(b, c) & 0x03 == 0
  {
  }

  lemma SextetsFromBytes(v0: bv8, v1: bv8, v2: bv8, v3: bv8)
    requires v0 < 64 && v1 < 64 && v2 < 64 && v3 < 64
    ensures Sextet0(Byte0(v0, v1)) == v0
    ensures Sextet1(Byte0(v0, v1), Byte1(v1, v2)) == v1
    ensures Sextet2(Byte1(v1, v2), Byte2(v2, v3)) == v2
    ensures Sextet3(Byte2(v2, v3)) == v3
    ensures v1 & 0x0f == 0 ==> Sextet1(Byte0(v0, v1), 0) == v1
    ensures v2 & 0x03 == 0 ==> Sextet2(Byte1(v1, v2), 0) == v2
  {
  }

  lemma {:induction false} ToSextetsFit(b: seq<bv8>)
    ensures AllSextets(ToSextets(b))
  {
    if |b| == 1 {
      SextetsFit(b[0], 0, 0);
    } else if |b| == 2 {
      SextetsFit(b[0], b[1], 0);
    } else if |b| > 2 {
      SextetsFit(b[0], b[1], b[2]);
      ToSextetsFit(b[3..]);
    }
  }

  lemma {:induction false} FromToSextets(b: seq<bv8>)
    ensures FromSextets(ToSextets(b)) == Some(b)
  {
    if |b| == 1 {
      BytesFromSextets(b[0], 0, 0);
      assert b == [b[0]];
    } else if |b| == 2 {
      BytesFromSextets(b[0], b[1], 0);
      assert b == [b[0], b[1]];
    } else if |b| > 2 {
      BytesFromSextets(b[0], b[1], b[2]);
      FromToSextets(b[3..]);
      assert ToSextets(b)[4..] == ToSextets(b[3..]);
      assert [b[0], b[1], b[2]] + b[3..] == b;
    }
  }

  lemma {:induction false} ToFromSextets(v: seq<bv8>)
    requires AllSextets(v) && FromSextets(v).Some?
    ensures ToSextets(FromSextets(v).value) == v
  {
    if |v| == 2 {
      SextetsFromBytes(v[0], v[1], 0, 0);
    } else if |v| == 3 {
      SextetsFromBytes(v[0], v[1], v[2], 0);
    } else if |v| > 3 {
      SextetsFromBytes(v[0], v[1], v[2], v[3]);
      ToFromSextets(v[4..]);
      var b := FromSextets(v).value;
      assert b[3..] == FromSextets(v[4..]).value;
      assert [v[0], v[1], v[2], v[3]] + v[4..] == v;
    }
  }

  // ---- Text

  function Encode(b: seq<bv8>): seq<bv8> { Chars(ToSextets(b)) }

  /** The bytes of a text, or `None` if it is not the text of any byte string. */
  function Decode(t: seq<bv8>): Option<seq<bv8>> {
    if AllBase64(t) then FromSextets(Values(t)) else None
  }

  /** Decoding and encoding are inverse to each other, on every byte string and every text: the decoder
      accepts exactly the texts the encoder writes. */
  lemma DecodeInvertsEncode(b: seq<bv8>, t: seq<bv8>)
    ensures Decode(t) == Some(b) <==> t == Encode(b)
  {
    ToSextetsFit(b);
    FromToSextets(b);
    CharsRoundTrip(ToSextets(b));
    if Decode(t) == Some(b) {
      ValuesRoundTrip(t);
      ToFromSextets(Values(t));
    }
  }

  predicate NoDot(t: seq<bv8>) {
    forall k :: 0 <= k < |t| ==> t[k] != DOT
  }

  lemma EncodeHasNoDot(b: seq<bv8>)
    ensures NoDot(Encode(b)) && forall k :: 0 <= k < |Encode(b)| ==> Encode(b)[k] != 0
  {
    ToSextetsFit(b);
    CharsRoundTrip(ToSextets(b));
  }

  lemma ConcatAssociates(q: seq<bv8>, x: seq<bv8>, y: seq<bv8>)
    ensures q + (x + y) == (q + x) + y
  {
  }

  lemma {:induction false} ToSextetsConcat(a: seq<bv8>, b: seq<bv8>)
    requires |a| % 3 == 0
    ensures ToSextets(a + b) == ToSextets(a) + ToSextets(b)
  {
    if a == [] {
      assert a + b == b;
    } else {
      var ab := a + b;
      assert ab[3..] == a[3..] + b && ab[0] == a[0] && ab[1] == a[1] && ab[2] == a[2];
      ToSextetsConcat(a[3..], b);
      var q := [Sextet0(a[0]), Sextet1(a[0], a[1]), Sextet2(a[1], a[2]), Sextet3(a[2])];
      ConcatAssociates(q, ToSextets(a[3..]), ToSextets(b));
    }
  }

  /** Whole groups encode independently of what follows. */
  lemma EncodeConcat(a: seq<bv8>, b: seq<bv8>)
    requires |a| % 3 == 0
    ensures Encode(a + b) == Encode(a) + Encode(b)
  {
    ToSextetsConcat(a, b);
    CharsConcat(ToSextets(a), ToSextets(b));
  }

  /** The dot-separated parts of a text. */
  function Split(t: seq<bv8>): (parts: seq<seq<bv8>>)
    ensures |parts| >= 1
  {
    if t == [] then [[]]
    else if t[0] == DOT then [[]] + Split(t[1..])
    else
      var rest := Split(t[1..]);
      [[t[0]] + rest[0]] + rest[1..]
  }

  lemma {:induction false} SplitFirst(a: seq<bv8>, t: seq<bv8>)
    requires NoDot(a)
    ensures Split(a + [DOT] + t) == [a] + Split(t)
    ensures Split(a) == [a]
  {
    if a == [] {
      assert a + [DOT] + t == [DOT] + t;
    } else {
      SplitFirst(a[1..], t);
      assert (a + [DOT] + t)[1..] == a[1..] + [DOT] + t;
      assert [a[0]] + a[1..] == a;
    }
  }
}
