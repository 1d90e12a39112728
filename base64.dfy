/** Base 64 encoding as defined in section 4 of RFC 4648 (alphabet A-Z, a-z, 0-9, '+', '/',
    padding '='). It stands for the `FileReader` data-URL encoding used by `blobToBase64`
    and for `atob` used by `base64ToBlob` (storage.js). */
module Base64 {
  import opened Wrappers

  /** Character of the base 64 alphabet for a 6-bit value. */
  function IndexChar(v: bv8): (c: char)
    requires v < 64
    ensures c != '='
  {
    if v < 26 then ('A' as int + v as int) as char
    else if v < 52 then ('a' as int + (v as int - 26)) as char
    else if v < 62 then ('0' as int + (v as int - 52)) as char
    else if v == 62 then '+'
    else '/'
  }

  /** 6-bit value of an alphabet character; `None` for anything outside the alphabet,
      the padding character included. */
  function CharIndex(c: char): (r: Option<bv8>)
    ensures r.Some? ==> r.value < 64
  {
    if 'A' <= c <= 'Z' then Some((c as int - 'A' as int) as bv8)
    else if 'a' <= c <= 'z' then Some((c as int - 'a' as int + 26) as bv8)
    else if '0' <= c <= '9' then Some((c as int - '0' as int + 52) as bv8)
    else if c == '+' then Some(62)
    else if c == '/' then Some(63)
    else None
  }

  lemma CharIndexOfIndexChar(v: bv8)
    requires v < 64
    ensures CharIndex(IndexChar(v)) == Some(v)
  {
  }

  /** The four characters for three bytes. */
  function EncodeTriple(b0: bv8, b1: bv8, b2: bv8): seq<char> {
    [IndexChar(b0 >> 2), IndexChar(((b0 & 3) << 4) | (b1 >> 4)),
     IndexChar(((b1 & 15) << 2) | (b2 >> 6)), IndexChar(b2 & 63)]
  }

  /** Encoding: each group of three bytes gives four characters; a final group of one or two
      bytes gives two or three characters followed by "==" or "=". */
  function Encode(s: seq<bv8>): (r: string)
    ensures |r| == 4 * ((|s| + 2) / 3)
    decreases |s|
  {
    if |s| == 0 then []
    else if |s| == 1 then [IndexChar(s[0] >> 2), IndexChar((s[0] & 3) << 4), '=', '=']
    else if |s| == 2 then
      [IndexChar(s[0] >> 2), IndexChar(((s[0] & 3) << 4) | (s[1] >> 4)),
       IndexChar((s[1] & 15) << 2), '=']
    else EncodeTriple(s[0], s[1], s[2]) + Encode(s[3..])
  }

  /** Four alphabet characters give three bytes. */
  function DecodeQuad(a: char, b: char, c: char, d: char): Option<seq<bv8>> {
    match (CharIndex(a), CharIndex(b), CharIndex(c), CharIndex(d))
    case (Some(x0), Some(x1), Some(x2), Some(x3)) =>
      Some([(x0 << 2) | (x1 >> 4), ((x1 & 15) << 4) | (x2 >> 2), ((x2 & 3) << 6) | x3])
    case _ => None
  }

  /** The last group of four may end in "==" (one byte) or "=" (two bytes). */
  function DecodeFinal(a: char, b: char, c: char, d: char): Option<seq<bv8>> {
    if c == '=' && d == '=' then
      match (CharIndex(a), CharIndex(b))
      case (Some(x0), Some(x1)) => Some([(x0 << 2) | (x1 >> 4)])
      case _ => None
    else if d == '=' then
      match (CharIndex(a), CharIndex(b), CharIndex(c))
      case (Some(x0), Some(x1), Some(x2)) =>
        Some([(x0 << 2) | (x1 >> 4), ((x1 & 15) << 4) | (x2 >> 2)])
      case _ => None
    else DecodeQuad(a, b, c, d)
  }

  /** Decoding: `None` for text whose length is not a multiple of four, for a character
      outside the alphabet, and for padding anywhere but at the end. */
  function Decode(t: string): (r: Option<seq<bv8>>)
    decreases |t|
  {
    if |t| == 0 then Some([])
    else if |t| < 4 then None
    else if |t| == 4 then DecodeFinal(t[0], t[1], t[2], t[3])
    else
      match DecodeQuad(t[0], t[1], t[2], t[3])
      case None => None
      case Some(g) =>
        match Decode(t[4..])
        case None => None
        case Some(rest) => Some(g + rest)
  }

  lemma TripleRoundTrip(b0: bv8, b1: bv8, b2: bv8)
    ensures var e := EncodeTriple(b0, b1, b2);
      DecodeQuad(e[0], e[1], e[2], e[3]) == Some([b0, b1, b2])
  {
    TripleBits(b0, b1, b2);
    CharIndexOfIndexChar(b0 >> 2);
    CharIndexOfIndexChar(((b0 & 3) << 4) | (b1 >> 4));
    CharIndexOfIndexChar(((b1 & 15) << 2) | (b2 >> 6));
    CharIndexOfIndexChar(b2 & 63);
  }

  lemma DecodeOneGroup(t: string)
    requires |t| == 4
    ensures Decode(t) == DecodeFinal(t[0], t[1], t[2], t[3])
  {
  }

  /** The bit arithmetic of one, two and three bytes survives the split into 6-bit values. */
  lemma SingleBits(b0: bv8)
    ensures ((b0 >> 2) << 2) | (((b0 & 3) << 4) >> 4) == b0
  {
  }

  lemma PairBits(b0: bv8, b1: bv8)
    ensures ((b0 >> 2) << 2) | ((((b0 & 3) << 4) | (b1 >> 4)) >> 4) == b0
    ensures (((((b0 & 3) << 4) | (b1 >> 4)) & 15) << 4) | (((b1 & 15) << 2) >> 2) == b1
  {
  }

  lemma TripleBits(b0: bv8, b1: bv8, b2: bv8)
    ensures ((b0 >> 2) << 2) | ((((b0 & 3) << 4) | (b1 >> 4)) >> 4) == b0
    ensures (((((b0 & 3) << 4) | (b1 >> 4)) & 15) << 4) | ((((b1 & 15) << 2) | (b2 >> 6)) >> 2) == b1
    ensures (((((b1 & 15) << 2) | (b2 >> 6)) & 3) << 6) | (b2 & 63) == b2
  {
  }

  lemma SingleFinal(b0: bv8)
    ensures DecodeFinal(IndexChar(b0 >> 2), IndexChar((b0 & 3) << 4), '=', '=') == Some([b0])
  {
    SingleBits(b0);
    CharIndexOfIndexChar(b0 >> 2);
    CharIndexOfIndexChar((b0 & 3) << 4);
  }

  lemma PairFinal(b0: bv8, b1: bv8)
    ensures DecodeFinal(IndexChar(b0 >> 2), IndexChar(((b0 & 3) << 4) | (b1 >> 4)),
                        IndexChar((b1 & 15) << 2), '=') == Some([b0, b1])
  {
    PairBits(b0, b1);
    CharIndexOfIndexChar(b0 >> 2);
    CharIndexOfIndexChar(((b0 & 3) << 4) | (b1 >> 4));
    CharIndexOfIndexChar((b1 & 15) << 2);
  }

  lemma SingleRoundTrip(s: seq<bv8>)
    requires |s| == 1
    ensures Decode(Encode(s)) == Some(s)
  {
    assert s == [s[0]];
    SingleFinal(s[0]);
    DecodeOneGroup(Encode(s));
  }

  lemma PairRoundTrip(s: seq<bv8>)
    requires |s| == 2
    ensures Decode(Encode(s)) == Some(s)
  {
    assert s == [s[0], s[1]];
    PairFinal(s[0], s[1]);
    DecodeOneGroup(Encode(s));
  }

  lemma GroupRoundTrip(s: seq<bv8>)
    requires |s| == 3
    ensures Decode(Encode(s)) == Some(s)
  {
    var e := EncodeTriple(s[0], s[1], s[2]);
    TripleRoundTrip(s[0], s[1], s[2]);
    assert Encode(s) == e + Encode(s[3..]) == e;
    DecodeOneGroup(e);
    assert s == [s[0], s[1], s[2]];
  }

  lemma DecodeLeadingGroup(e: string, rest: string, g: seq<bv8>, r: seq<bv8>)
    requires |e| == 4 && |rest| >= 4
    requires DecodeQuad(e[0], e[1], e[2], e[3]) == Some(g) && Decode(rest) == Some(r)
    ensures Decode(e + rest) == Some(g + r)
  {
    var t := e + rest;
    assert t[0] == e[0] && t[1] == e[1] && t[2] == e[2] && t[3] == e[3];
    assert t[4..] == rest;
  }

  lemma EncodeLeadingGroup(s: seq<bv8>)
    requires |s| > 3
    ensures Encode(s) == EncodeTriple(s[0], s[1], s[2]) + Encode(s[3..])
    ensures |Encode(s[3..])| >= 4
  {
  }

  lemma LeadingGroupRoundTrip(s: seq<bv8>)
    requires |s| > 3
    requires Decode(Encode(s[3..])) == Some(s[3..])
    ensures Decode(Encode(s)) == Some([s[0], s[1], s[2]] + s[3..])
  {
    TripleRoundTrip(s[0], s[1], s[2]);
    EncodeLeadingGroup(s);
    DecodeLeadingGroup(EncodeTriple(s[0], s[1], s[2]), Encode(s[3..]), [s[0], s[1], s[2]], s[3..]);
  }

  /** Decoding undoes encoding, for every byte sequence. */
  lemma {:induction false} DecodeEncode(s: seq<bv8>)
    ensures Decode(Encode(s)) == Some(s)
    decreases |s|
  {
    if |s| == 1 {
      SingleRoundTrip(s);
    } else if |s| == 2 {
      PairRoundTrip(s);
    } else if |s| == 3 {
      GroupRoundTrip(s);
    } else if |s| > 3 {
      DecodeEncode(s[3..]);
      LeadingGroupRoundTrip(s);
      assert [s[0], s[1], s[2]] + s[3..] == s;
    }
  }

  /** Only the empty sequence encodes to the empty text. */
  lemma EncodeEmpty(s: seq<bv8>)
    ensures Encode(s) == [] <==> s == []
  {
  }
}
