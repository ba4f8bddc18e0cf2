/** URL-safe base64 without padding (section 5 of RFC 4648), strict and lenient decoding. */
module Base64 {
  import opened Bytes
  import opened Wrappers

  // --- the alphabet -----------------------------------------------------------------------------------

  function Symbol(v: int): Byte
    requires 0 <= v < 64
  {
    if v < 26 then (v + 65) as char
    else if v < 52 then (v + 71) as char
    else if v < 62 then (v - 4) as char
    else if v == 62 then '-' else '_'
  }

  function Value(c: Byte): (r: Option<int>)
    ensures r.Some? ==> 0 <= r.value < 64 && Symbol(r.value) == c
  {
    if 'A' <= c <= 'Z' then Some(c as int - 65)
    else if 'a' <= c <= 'z' then Some(c as int - 71)
    else if '0' <= c <= '9' then Some(c as int + 4)
    else if c == '-' then Some(62)
    else if c == '_' then Some(63)
    else None
  }

  lemma SymbolValue(v: int)
    requires 0 <= v < 64
    ensures Value(Symbol(v)) == Some(v) && !IsLineBreak(Symbol(v)) && Symbol(v) != '.'
  {
  }

  // --- encoding ------------------------------------------------------------------------------------------

  function Hi6(a: Byte): int { a as int / 4 }

  function Mid6(a: Byte, b: int): int
    requires 0 <= b < 256
  {
    a as int % 4 * 16 + b / 16
  }

  function Low6(b: Byte, c: int): int
    requires 0 <= c < 256
  {
    b as int % 16 * 4 + c / 64
  }

  /** Three bytes become four symbols; a rest of one or two bytes becomes two or three. */
  function Encode(b: Text): Text {
    if |b| == 0 then []
    else if |b| == 1 then [Symbol(Hi6(b[0])), Symbol(Mid6(b[0], 0))]
    else if |b| == 2 then [Symbol(Hi6(b[0])), Symbol(Mid6(b[0], b[1] as int)), Symbol(Low6(b[1], 0))]
    else
      [Symbol(Hi6(b[0])), Symbol(Mid6(b[0], b[1] as int)), Symbol(Low6(b[1], b[2] as int)), Symbol(b[2] as int % 64)]
      + Encode(b[3..])
  }

  /** The URL-safe alphabet: capitals, small letters, digits, minus and underscore. */
  lemma {:induction false} SymbolMeaning(v: int)
    requires 0 <= v < 64
    ensures var c := Symbol(v) as int;
      if v < 26 then c == 'A' as int + v
      else if v < 52 then c == 'a' as int + (v - 26)
      else if v < 62 then c == '0' as int + (v - 52)
      else Symbol(v) == if v == 62 then '-' else '_'
  {
  }

  /** Four symbols stand for the 24 bits of three bytes, the first one for the highest six. */
  lemma {:induction false} GroupBits(b: Text) returns (v0: int, v1: int, v2: int, v3: int)
    requires |b| >= 3
    ensures 0 <= v0 < 64 && 0 <= v1 < 64 && 0 <= v2 < 64 && 0 <= v3 < 64
    ensures Encode(b) == [Symbol(v0), Symbol(v1), Symbol(v2), Symbol(v3)] + Encode(b[3..])
    ensures ((v0 * 64 + v1) * 64 + v2) * 64 + v3 == (b[0] as int * 256 + b[1] as int) * 256 + b[2] as int
  {
    v0, v1 := Hi6(b[0]), Mid6(b[0], b[1] as int);
    v2, v3 := Low6(b[1], b[2] as int), b[2] as int % 64;
  }

  // --- decoding -------------------------------------------------------------------------------------------

  predicate IsLineBreak(c: char) {
    c == '\r' || c == '\n'
  }

  /** The decoder skips CR and LF wherever they stand, in strict mode too. */
  function Strip(t: Text): Text {
    if t == [] then []
    else if IsLineBreak(t[0]) then Strip(t[1..])
    else [t[0]] + Strip(t[1..])
  }

  function First(v0: int, v1: int): Byte
    requires 0 <= v0 < 64 && 0 <= v1 < 64
  {
    (v0 * 4 + v1 / 16) as char
  }

  function Second(v1: int, v2: int): Byte
    requires 0 <= v1 < 64 && 0 <= v2 < 64
  {
    (v1 % 16 * 4 * 4 + v2 / 4) as char
  }

  function Third(v2: int, v3: int): Byte
    requires 0 <= v2 < 64 && 0 <= v3 < 64
  {
    (v2 % 4 * 64 + v3) as char
  }

  /** Strict decoding (section 3.5 of RFC 4648) also rejects a last symbol with bits the bytes do not use. */
  function DecodeSymbols(t: Text, strict: bool): Option<Text> {
    if |t| == 0 then Some([])
    else if |t| == 1 || Value(t[0]).None? || Value(t[1]).None? then None
    else
      var v0, v1 := Value(t[0]).value, Value(t[1]).value;
      if |t| == 2 then
        if strict && v1 % 16 != 0 then None else Some([First(v0, v1)])
      else if Value(t[2]).None? then None
      else
        var v2 := Value(t[2]).value;
        if |t| == 3 then
          if strict && v2 % 4 != 0 then None else Some([First(v0, v1), Second(v1, v2)])
        else if Value(t[3]).None? then None
        else
          match DecodeSymbols(t[4..], strict)
          case None => None
          case Some(rest) => Some([First(v0, v1), Second(v1, v2), Third(v2, Value(t[3]).value)] + rest)
  }

  function Decode(t: Text, strict: bool): Option<Text> {
    DecodeSymbols(Strip(t), strict)
  }

  // --- one group ----------------------------------------------------------------------------------------------

  lemma SplitJoin(a: Byte, b: Byte, c: Byte)
    ensures 0 <= Hi6(a) < 64 && 0 <= Mid6(a, b as int) < 64 && 0 <= Low6(b, c as int) < 64
    ensures First(Hi6(a), Mid6(a, b as int)) == a
    ensures Second(Mid6(a, b as int), Low6(b, c as int)) == b
    ensures Third(Low6(b, c as int), c as int % 64) == c
  {
  }

  lemma JoinSplit(v0: int, v1: int, v2: int, v3: int)
    requires 0 <= v0 < 64 && 0 <= v1 < 64 && 0 <= v2 < 64 && 0 <= v3 < 64
    ensures Hi6(First(v0, v1)) == v0
    ensures Mid6(First(v0, v1), Second(v1, v2) as int) == v1
    ensures Low6(Second(v1, v2), Third(v2, v3) as int) == v2
    ensures Third(v2, v3) as int % 64 == v3
  {
  }

  // --- mutual inverses ------------------------------------------------------------------------------------------

  /** Symbols of the alphabet only: no line break, no dot, no separator. */
  ghost predicate Alphabetic(t: Text) {
    forall i | 0 <= i < |t| :: Value(t[i]).Some?
  }

  lemma {:induction false} EncodeAlphabetic(b: Text)
    ensures Alphabetic(Encode(b)) && (Encode(b) == [] <==> b == [])
  {
    if |b| > 0 {
      SplitJoin(b[0], if |b| > 1 then b[1] else '\0', if |b| > 2 then b[2] else '\0');
      SymbolValue(Hi6(b[0]));
      SymbolValue(Mid6(b[0], if |b| > 1 then b[1] as int else 0));
      if |b| >= 2 { SymbolValue(Low6(b[1], if |b| > 2 then b[2] as int else 0)); }
      if |b| >= 3 {
        SymbolValue(b[2] as int % 64);
        EncodeAlphabetic(b[3..]);
      }
    }
  }

  lemma {:induction false} DecodeGroup(b: Text, strict: bool)
    requires |b| >= 3 && DecodeSymbols(Encode(b[3..]), strict) == Some(b[3..])
    ensures DecodeSymbols(Encode(b), strict) == Some(b)
  {
    var t := Encode(b);
    SplitJoin(b[0], b[1], b[2]);
    SymbolValue(Hi6(b[0]));
    SymbolValue(Mid6(b[0], b[1] as int));
    SymbolValue(Low6(b[1], b[2] as int));
    SymbolValue(b[2] as int % 64);
    assert t[4..] == Encode(b[3..]);
    assert b == [b[0], b[1], b[2]] + b[3..];
  }

  lemma {:induction false} DecodeRest(b: Text, strict: bool)
    requires 1 <= |b| <= 2
    ensures DecodeSymbols(Encode(b), strict) == Some(b)
  {
    if |b| == 1 {
      SplitJoin(b[0], '\0', '\0');
      SymbolValue(Hi6(b[0]));
      SymbolValue(Mid6(b[0], 0));
      assert Mid6(b[0], 0) % 16 == 0;
      assert b == [b[0]];
    } else {
      SplitJoin(b[0], b[1], '\0');
      SymbolValue(Hi6(b[0]));
      SymbolValue(Mid6(b[0], b[1] as int));
      SymbolValue(Low6(b[1], 0));
      assert Low6(b[1], 0) % 4 == 0;
      assert b == [b[0], b[1]];
    }
  }

  /** Decoding undoes encoding for every byte length, strict or not. */
  lemma {:induction false} DecodeEncode(b: Text, strict: bool)
    ensures DecodeSymbols(Encode(b), strict) == Some(b)
  {
    if |b| >= 3 {
      DecodeEncode(b[3..], strict);
      DecodeGroup(b, strict);
    } else if |b| > 0 {
      DecodeRest(b, strict);
    }
  }

  lemma {:induction false} EncodeRest(t: Text, b: Text)
    requires |t| < 4 && DecodeSymbols(t, true) == Some(b)
    ensures Encode(b) == t
  {
    if |t| >= 2 {
      var v0, v1 := Value(t[0]).value, Value(t[1]).value;
      if |t| == 2 {
        JoinSplit(v0, v1, 0, 0);
      } else {
        JoinSplit(v0, v1, Value(t[2]).value, 0);
      }
    }
  }

  lemma {:induction false} EncodeGroup(t: Text, b: Text, rest: Text)
    requires |t| >= 4 && DecodeSymbols(t, true) == Some(b)
    requires DecodeSymbols(t[4..], true) == Some(rest) && Encode(rest) == t[4..]
    ensures Encode(b) == t
  {
    var v0, v1, v2, v3 := Value(t[0]).value, Value(t[1]).value, Value(t[2]).value, Value(t[3]).value;
    JoinSplit(v0, v1, v2, v3);
    assert b == [First(v0, v1), Second(v1, v2), Third(v2, v3)] + rest;
    assert b[3..] == rest;
    assert t == [t[0], t[1], t[2], t[3]] + t[4..];
  }

  /** Encoding undoes strict decoding: no other text decodes to the same bytes. */
  lemma {:induction false} EncodeDecode(t: Text, b: Text)
    requires DecodeSymbols(t, true) == Some(b)
    ensures Encode(b) == t
  {
    if |t| < 4 {
      EncodeRest(t, b);
    } else {
      var rest := DecodeSymbols(t[4..], true).value;
      EncodeDecode(t[4..], rest);
      EncodeGroup(t, b, rest);
    }
  }

  /** A text decodes strictly to b iff, its line breaks removed, it is the encoding of b. */
  lemma {:induction false} StrictExact(t: Text, b: Text)
    ensures Decode(t, true) == Some(b) <==> Strip(t) == Encode(b)
  {
    DecodeEncode(b, true);
    if Decode(t, true) == Some(b) {
      EncodeDecode(Strip(t), b);
    }
  }

  /** Lenient decoding is not canonical: two texts, one value. */
  lemma {:induction false} LenientNotCanonical()
    ensures Decode("QQ", false) == Decode("QR", false) == Some("A") && Decode("QR", true) == None
  {
    assert Strip("QQ") == "QQ" by { StripClean("QQ"); }
    assert Strip("QR") == "QR" by { StripClean("QR"); }
  }

  // --- line breaks ------------------------------------------------------------------------------------------------

  ghost predicate NoLineBreak(t: Text) {
    forall i | 0 <= i < |t| :: !IsLineBreak(t[i])
  }

  lemma {:induction false} StripClean(t: Text)
    ensures NoLineBreak(Strip(t)) && (NoLineBreak(t) ==> Strip(t) == t)
  {
    if t != [] {
      StripClean(t[1..]);
      if NoLineBreak(t) {
        assert NoLineBreak(t[1..]);
        assert t == [t[0]] + t[1..];
      }
    }
  }

  lemma {:induction false} StripSum(a: Text, b: Text)
    ensures Strip(a + b) == Strip(a) + Strip(b)
  {
    if a == [] {
      assert a + b == b;
    } else {
      assert (a + b)[1..] == a[1..] + b;
      StripSum(a[1..], b);
    }
  }

  lemma {:induction false} AlphabeticClean(t: Text)
    requires Alphabetic(t)
    ensures NoLineBreak(t) && Strip(t) == t && '.' !in t
  {
    forall i | 0 <= i < |t| ensures !IsLineBreak(t[i]) && t[i] != '.' {
      assert Value(t[i]).Some?;
    }
    StripClean(t);
  }
}
