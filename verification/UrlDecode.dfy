/** Percent-decoding in the gateway (section 2.1 of RFC 3986), on bytes. */
module UrlDecoding {

  const PERCENT: bv8 := 0x25

  /** Outcome of the scan: finished; a '%' without two characters after it; an escape that is not alphanumeric, where
      the assertion in FromHex fails. `dest` is what was appended until then. */
  datatype Outcome = Done(dest: seq<bv8>) | Truncated(dest: seq<bv8>) | AssertFails(dest: seq<bv8>)

  predicate Upper(x: bv8)
  {
    0x41 <= x <= 0x5A
  }

  predicate Lower(x: bv8)
  {
    0x61 <= x <= 0x7A
  }

  predicate Digit(x: bv8)
  {
    0x30 <= x <= 0x39
  }

  /** Every letter is accepted, beyond 'F' too. */
  predicate Accepts(x: bv8)
  {
    Upper(x) || Lower(x) || Digit(x)
  }

  function FromHex(x: bv8): (y: bv8)
    requires Accepts(x)
  {
    if Upper(x) then x - 0x41 + 10
    else if Lower(x) then x - 0x61 + 10
    else x - 0x30
  }

  function Octet(high: bv8, low: bv8): (b: bv8)
    requires Accepts(high) && Accepts(low)
  {
    (FromHex(high) << 4) | FromHex(low)
  }

  /** What remains of `url` decoded, appended to `dest`. */
  function Decode(url: seq<bv8>, dest: seq<bv8>): (o: Outcome)
    decreases |url|
  {
    if url == [] then Done(dest)
    else if url[0] != PERCENT then Decode(url[1..], dest + [url[0]])
    else if |url| < 3 then Truncated(dest)
    else if !Accepts(url[1]) || !Accepts(url[2]) then AssertFails(dest)
    else Decode(url[3..], dest + [Octet(url[1], url[2])])
  }

  method UrlDecode(url: seq<bv8>, before: seq<bv8>) returns (result: Outcome)
    ensures result == Decode(url, before)
  {
    var dest := before;
    var i := 0;
    while i < |url|
      invariant 0 <= i <= |url|
      invariant Decode(url, before) == Decode(url[i..], dest)
    {
      var ch := url[i];
      if ch != PERCENT {
        dest := dest + [ch];
        i := i + 1;
        continue;
      }
      if ch == PERCENT && i + 2 < |url| {
        if !Accepts(url[i + 1]) || !Accepts(url[i + 2]) {
          return AssertFails(dest);
        }
        var high := FromHex(url[i + 1]);
        var low := FromHex(url[i + 2]);
        assert url[i..][3..] == url[i + 3..];
        dest := dest + [(high << 4) | low];
        i := i + 3;
      } else {
        return Truncated(dest);
      }
    }
    return Done(dest);
  }

  // ----- the encoder decoding is to undo -----

  /** How one byte is written: as itself, or escaped with each hex letter in either case. */
  datatype Style = Plain | Escaped(upperHigh: bool, upperLow: bool)

  function HexDigit(n: bv8, upper: bool): (x: bv8)
    requires n < 16
    ensures IsHex(x) && FromHex(x) == n
  {
    if n < 10 then 0x30 + n else if upper then 0x41 + (n - 10) else 0x61 + (n - 10)
  }

  predicate IsHex(x: bv8)
  {
    Digit(x) || 0x41 <= x <= 0x46 || 0x61 <= x <= 0x66
  }

  function Low(b: bv8): (n: bv8)
    ensures n < 16
  {
    b & 0x0F
  }

  function High(b: bv8): (n: bv8)
    ensures n < 16
  {
    b >> 4
  }

  function Written(b: bv8, s: Style): (w: seq<bv8>)
  {
    match s
    case Plain => [b]
    case Escaped(h, l) => [PERCENT, HexDigit(High(b), h), HexDigit(Low(b), l)]
  }

  /** Any byte may be escaped; '%' must be. */
  predicate Allowed(bytes: seq<bv8>, styles: seq<Style>)
  {
    |styles| == |bytes| && forall i :: 0 <= i < |bytes| && bytes[i] == PERCENT ==> styles[i] != Plain
  }

  function Encode(bytes: seq<bv8>, styles: seq<Style>): (url: seq<bv8>)
    requires |styles| == |bytes|
  {
    if bytes == [] then [] else Written(bytes[0], styles[0]) + Encode(bytes[1..], styles[1..])
  }

  lemma OctetOfNibbles(b: bv8)
    ensures (High(b) << 4) | Low(b) == b
  {
  }

  lemma DecodeWritten(b: bv8, s: Style, rest: seq<bv8>, dest: seq<bv8>)
    requires b == PERCENT ==> s != Plain
    ensures Decode(Written(b, s) + rest, dest) == Decode(rest, dest + [b])
  {
    var url := Written(b, s) + rest;
    if s.Plain? {
      assert url[1..] == rest;
    } else {
      OctetOfNibbles(b);
      assert url[3..] == rest;
      assert Octet(url[1], url[2]) == b;
    }
  }

  /** Decoding undoes every encoding and appends exactly the bytes encoded. */
  lemma {:induction false} DecodeUndoesEncode(bytes: seq<bv8>, styles: seq<Style>, dest: seq<bv8>)
    requires Allowed(bytes, styles)
    ensures Decode(Encode(bytes, styles), dest) == Done(dest + bytes)
    decreases |bytes|
  {
    if bytes == [] {
      assert dest + bytes == dest;
    } else {
      DecodeWritten(bytes[0], styles[0], Encode(bytes[1..], styles[1..]), dest);
      DecodeUndoesEncode(bytes[1..], styles[1..], dest + [bytes[0]]);
      assert dest + [bytes[0]] + bytes[1..] == dest + bytes;
    }
  }

  // ----- and the converse -----

  /** Every complete escape of the scan uses hex digits. */
  predicate HexEscapes(url: seq<bv8>)
    decreases |url|
  {
    if url == [] then true
    else if url[0] != PERCENT then HexEscapes(url[1..])
    else |url| >= 3 ==> IsHex(url[1]) && IsHex(url[2]) && HexEscapes(url[3..])
  }

  /** The scan meets a '%' with fewer than two characters after it. */
  predicate MeetsShortEscape(url: seq<bv8>)
    decreases |url|
  {
    url != [] && if url[0] != PERCENT then MeetsShortEscape(url[1..]) else |url| < 3 || MeetsShortEscape(url[3..])
  }

  /** With hex escapes only, the scan fails exactly when it meets a short escape, and never by assertion. */
  lemma {:induction false} FailsIffShortEscape(url: seq<bv8>, dest: seq<bv8>)
    requires HexEscapes(url)
    ensures Decode(url, dest).Truncated? <==> MeetsShortEscape(url)
    ensures !Decode(url, dest).AssertFails?
    decreases |url|
  {
    if url == [] {
    } else if url[0] != PERCENT {
      FailsIffShortEscape(url[1..], dest + [url[0]]);
    } else if |url| >= 3 {
      FailsIffShortEscape(url[3..], dest + [Octet(url[1], url[2])]);
    }
  }

  /** A failed scan has appended the decoding of everything before the short escape. */
  lemma {:induction false} TruncatedAfterPrefix(url: seq<bv8>, dest: seq<bv8>) returns (at: nat)
    requires Decode(url, dest).Truncated?
    ensures at < |url| < at + 3 && url[at] == PERCENT
    ensures Decode(url[..at], dest) == Done(Decode(url, dest).dest)
    decreases |url|
  {
    if url[0] == PERCENT && |url| < 3 {
      at := 0;
    } else if url[0] == PERCENT {
      var i := TruncatedAfterPrefix(url[3..], dest + [Octet(url[1], url[2])]);
      at := i + 3;
      assert url[..at][3..] == url[3..][..i];
    } else {
      var i := TruncatedAfterPrefix(url[1..], dest + [url[0]]);
      at := i + 1;
      assert url[..at][1..] == url[1..][..i];
    }
  }

  lemma HexByteIsWritten(high: bv8, low: bv8)
    requires IsHex(high) && IsHex(low)
    ensures Written(Octet(high, low), Escaped(Upper(high), Upper(low))) == [PERCENT, high, low]
  {
    var b := Octet(high, low);
    var h, l := FromHex(high), FromHex(low);
    assert h < 16 && l < 16;
    NibblesOfOctet(h, l);
  }

  lemma NibblesOfOctet(h: bv8, l: bv8)
    requires h < 16 && l < 16
    ensures High((h << 4) | l) == h && Low((h << 4) | l) == l
  {
  }

  /** Decoding succeeds only on encodings: an input with hex escapes that decodes is an encoding of its result. */
  lemma {:induction false} DecodedWasEncoded(url: seq<bv8>, dest: seq<bv8>)
    returns (bytes: seq<bv8>, styles: seq<Style>)
    requires HexEscapes(url) && !MeetsShortEscape(url)
    ensures Allowed(bytes, styles) && Encode(bytes, styles) == url
    ensures Decode(url, dest) == Done(dest + bytes)
    decreases |url|
  {
    if url == [] {
      bytes, styles := [], [];
      assert dest + [] == dest;
    } else {
      var b, s, n := url[0], Plain, 1;
      if url[0] == PERCENT {
        b, s, n := Octet(url[1], url[2]), Escaped(Upper(url[1]), Upper(url[2])), 3;
        HexByteIsWritten(url[1], url[2]);
      }
      var bs, ss := DecodedWasEncoded(url[n..], dest + [b]);
      bytes, styles := [b] + bs, [s] + ss;
      assert bytes[1..] == bs && styles[1..] == ss;
      assert url == Written(b, s) + url[n..];
      assert dest + [b] + bs == dest + bytes;
    }
  }
}
