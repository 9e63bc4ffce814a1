/** The unpadded URL form of base64 (RFC 4648, section 5) that carries WebAuthn's bytes, built from
    the browser's `btoa` and `atob` (RFC 4648, section 4). */
module Base64Url {
  import opened Basics

  type Byte = x: int | 0 <= x < 256

  /** A text whose characters stand for bytes. */
  predicate IsBinary(s: string) { forall i :: 0 <= i < |s| ==> s[i] as int < 256 }

  function Symbol(n: int): char
    requires 0 <= n < 64
  {
    if n < 26 then 'A' + n as char
    else if n < 52 then 'a' + (n - 26) as char
    else if n < 62 then '0' + (n - 52) as char
    else if n == 62 then '+' else '/'
  }

  /** The value of a symbol; -1 for any other character. */
  function Value(c: char): int {
    if 'A' <= c <= 'Z' then (c - 'A') as int
    else if 'a' <= c <= 'z' then 26 + (c - 'a') as int
    else if '0' <= c <= '9' then 52 + (c - '0') as int
    else if c == '+' then 62 else if c == '/' then 63 else -1
  }

  lemma ValueOfSymbol(n: int)
    requires 0 <= n < 64
    ensures Value(Symbol(n)) == n
    ensures Symbol(n) != '=' && Symbol(n) != '-' && Symbol(n) != '_'
  {
  }

  // ---------------------------------------------------------------- three bytes, four sextets

  function Sextet1(a: Byte): (n: int)
    ensures 0 <= n < 64
  {
    a / 4
  }

  function Sextet2(a: Byte, b: Byte): (n: int)
    ensures 0 <= n < 64
  {
    a % 4 * 16 + b / 16
  }

  function Sextet3(b: Byte, c: Byte): (n: int)
    ensures 0 <= n < 64
  {
    b % 16 * 4 + c / 64
  }

  function Sextet4(c: Byte): (n: int)
    ensures 0 <= n < 64
  {
    c % 64
  }

  function Byte1(n1: int, n2: int): (a: Byte)
    requires 0 <= n1 < 64 && 0 <= n2 < 64
  {
    n1 * 4 + n2 / 16
  }

  function Byte2(n2: int, n3: int): (b: Byte)
    requires 0 <= n2 < 64 && 0 <= n3 < 64
  {
    n2 % 16 * 16 + n3 / 4
  }

  function Byte3(n3: int, n4: int): (c: Byte)
    requires 0 <= n3 < 64 && 0 <= n4 < 64
  {
    n3 % 4 * 64 + n4
  }

  /** The sextets are the 24 bits in groups of six, the most significant group first. */
  lemma SextetsAreTheBits(a: Byte, b: Byte, c: Byte)
    ensures a * 65536 + b * 256 + c == Sextet1(a) * 262144 + Sextet2(a, b) * 4096 + Sextet3(b, c) * 64 + Sextet4(c)
  {
  }

  /** Bytes taken apart into sextets come back from them. */
  lemma SextetsHoldBytes(a: Byte, b: Byte, c: Byte)
    ensures Byte1(Sextet1(a), Sextet2(a, b)) == a
    ensures Byte2(Sextet2(a, b), Sextet3(b, c)) == b
    ensures Byte3(Sextet3(b, c), Sextet4(c)) == c
  {
  }

  // ---------------------------------------------------------------- btoa and atob

  function Quad(a: Byte, b: Byte, c: Byte): (q: string)
    ensures |q| == 4
  {
    [Symbol(Sextet1(a)), Symbol(Sextet2(a, b)), Symbol(Sextet3(b, c)), Symbol(Sextet4(c))]
  }

  function Btoa(s: string): (r: string)
    requires IsBinary(s)
  {
    if s == [] then []
    else if |s| == 1 then Quad(s[0] as int, 0, 0)[..2] + ['=', '=']
    else if |s| == 2 then Quad(s[0] as int, s[1] as int, 0)[..3] + ['=']
    else Quad(s[0] as int, s[1] as int, s[2] as int) + Btoa(s[3..])
  }

  /** Bits left over before the padding are dropped; a text that is not base64 is refused. */
  function Atob(s: string): (r: Option<string>)
    ensures r.Some? ==> IsBinary(r.value)
  {
    if s == [] then Some([])
    else if |s| < 4 then None
    else
      var n1, n2, n3, n4 := Value(s[0]), Value(s[1]), Value(s[2]), Value(s[3]);
      if n1 < 0 || n2 < 0 then None
      else if |s| == 4 && s[2] == '=' && s[3] == '=' then Some([Byte1(n1, n2) as char])
      else if n3 < 0 then None
      else if |s| == 4 && s[3] == '=' then Some([Byte1(n1, n2) as char, Byte2(n2, n3) as char])
      else if n4 < 0 then None
      else
        var rest := Atob(s[4..]);
        if rest.None? then None
        else Some([Byte1(n1, n2) as char, Byte2(n2, n3) as char, Byte3(n3, n4) as char] + rest.value)
  }

  lemma QuadHoldsBytes(a: Byte, b: Byte, c: Byte)
    ensures var q := Quad(a, b, c);
            && (forall i :: 0 <= i < 4 ==> 0 <= Value(q[i]) < 64 && q[i] != '=')
            && Byte1(Value(q[0]), Value(q[1])) == a
            && Byte2(Value(q[1]), Value(q[2])) == b
            && Byte3(Value(q[2]), Value(q[3])) == c
  {
    SextetsHoldBytes(a, b, c);
    ValueOfSymbol(Sextet1(a));
    ValueOfSymbol(Sextet2(a, b));
    ValueOfSymbol(Sextet3(b, c));
    ValueOfSymbol(Sextet4(c));
    hide Symbol, Value, Sextet1, Sextet2, Sextet3, Sextet4, Byte1, Byte2, Byte3;
  }

  lemma {:induction false} AtobOfBtoa(s: string)
    requires IsBinary(s)
    ensures Atob(Btoa(s)) == Some(s)
  {
    hide Quad, Value, Byte1, Byte2, Byte3;
    if |s| == 1 {
      QuadHoldsBytes(s[0] as int, 0, 0);
      assert s == [s[0]];
    } else if |s| == 2 {
      QuadHoldsBytes(s[0] as int, s[1] as int, 0);
      assert s == [s[0], s[1]];
    } else if |s| > 2 {
      QuadHoldsBytes(s[0] as int, s[1] as int, s[2] as int);
      AtobOfBtoa(s[3..]);
      assert Btoa(s)[4..] == Btoa(s[3..]);
      assert s == [s[0], s[1], s[2]] + s[3..];
    }
  }

  // ---------------------------------------------------------------- the URL form

  function ToUrlChar(c: char): char { if c == '+' then '-' else if c == '/' then '_' else c }

  function FromUrlChar(c: char): char { if c == '-' then '+' else if c == '_' then '/' else c }

  function ToUrl(s: string): string { seq(|s|, i requires 0 <= i < |s| => ToUrlChar(s[i])) }

  function FromUrl(s: string): string { seq(|s|, i requires 0 <= i < |s| => FromUrlChar(s[i])) }

  function StripPadding(s: string): string {
    if s != [] && s[|s| - 1] == '=' then StripPadding(s[..|s| - 1]) else s
  }

  function Padding(n: nat): string { seq((4 - n % 4) % 4, _ => '=') }

  function AsBinary(bytes: seq<Byte>): (s: string)
    ensures IsBinary(s)
  {
    seq(|bytes|, i requires 0 <= i < |bytes| => bytes[i] as char)
  }

  function Encoded(bytes: seq<Byte>): string { StripPadding(ToUrl(Btoa(AsBinary(bytes)))) }

  function Decoded(value: string): Option<seq<Byte>> {
    var base64 := FromUrl(value);
    var binary := Atob(base64 + Padding(|base64|));
    if binary.None? then None else Some(seq(|binary.value|, i requires 0 <= i < |binary.value| => binary.value[i] as int))
  }

  method BufferToBase64url(bytes: array<Byte>) returns (text: string)
    ensures text == Encoded(bytes[..])
  {
    var binary := "";
    for i := 0 to bytes.Length
      invariant binary == AsBinary(bytes[..i])
    {
      binary := binary + [bytes[i] as char];
    }
    assert bytes[..bytes.Length] == bytes[..];
    text := StripPadding(ToUrl(Btoa(binary)));
  }

  /** None stands for the error `atob` throws. */
  method Base64urlToBuffer(value: string) returns (bytes: Option<array<Byte>>)
    ensures bytes.Some? <==> Decoded(value).Some?
    ensures bytes.Some? ==> fresh(bytes.value) && bytes.value[..] == Decoded(value).value
  {
    var base64 := FromUrl(value);
    var binary := Atob(base64 + Padding(|base64|));
    if binary.None? {
      return None;
    }
    var filled := new Byte[|binary.value|];
    for i := 0 to |binary.value|
      invariant forall j :: 0 <= j < i ==> filled[j] == binary.value[j] as int
    {
      filled[i] := binary.value[i] as int;
    }
    return Some(filled);
  }

  /** The symbols of a base64 text, without its padding. */
  predicate IsSymbol(c: char) { Value(c) >= 0 }

  ghost predicate Unpadded(body: string) { forall i :: 0 <= i < |body| ==> IsSymbol(body[i]) }

  lemma QuadIsUnpadded(a: Byte, b: Byte, c: Byte)
    ensures Unpadded(Quad(a, b, c))
  {
    QuadHoldsBytes(a, b, c);
    hide Quad, Value;
  }

  lemma QuadBefore(quad: string, rest: string)
    requires |quad| == 4
    ensures quad + (rest + Padding(|rest|)) == quad + rest + Padding(|quad + rest|)
  {
  }

  /** A base64 text is its symbols and the padding that their number calls for. */
  lemma {:induction false} BtoaIsBodyAndPadding(s: string) returns (body: string)
    requires IsBinary(s)
    ensures Unpadded(body) && Btoa(s) == body + Padding(|body|)
  {
    hide IsSymbol, Quad;
    if |s| == 0 {
      body := [];
    } else if |s| == 1 {
      QuadIsUnpadded(s[0] as int, 0, 0);
      body := Quad(s[0] as int, 0, 0)[..2];
    } else if |s| == 2 {
      QuadIsUnpadded(s[0] as int, s[1] as int, 0);
      body := Quad(s[0] as int, s[1] as int, 0)[..3];
    } else {
      var quad := Quad(s[0] as int, s[1] as int, s[2] as int);
      QuadIsUnpadded(s[0] as int, s[1] as int, s[2] as int);
      var rest := BtoaIsBodyAndPadding(s[3..]);
      body := quad + rest;
      QuadBefore(quad, rest);
    }
  }

  lemma {:induction false} StripRemovesPadding(body: string, padding: string)
    requires (forall i :: 0 <= i < |body| ==> body[i] != '=') && (forall i :: 0 <= i < |padding| ==> padding[i] == '=')
    ensures StripPadding(body + padding) == body
  {
    if padding == [] {
      assert body + padding == body;
    } else {
      StripRemovesPadding(body, padding[..|padding| - 1]);
      assert (body + padding)[..|body + padding| - 1] == body + padding[..|padding| - 1];
    }
  }

  lemma EncodedIsBody(bytes: seq<Byte>) returns (body: string)
    ensures Unpadded(body) && Btoa(AsBinary(bytes)) == body + Padding(|body|)
    ensures Encoded(bytes) == ToUrl(body)
  {
    hide Btoa, StripPadding;
    body := BtoaIsBodyAndPadding(AsBinary(bytes));
    assert ToUrl(body + Padding(|body|)) == ToUrl(body) + Padding(|body|);
    forall i | 0 <= i < |body| ensures ToUrl(body)[i] != '=' { assert IsSymbol(body[i]); }
    StripRemovesPadding(ToUrl(body), Padding(|body|));
  }

  /** Decoding the encoding of any bytes gives the bytes back. */
  lemma DecodedOfEncoded(bytes: seq<Byte>)
    ensures Decoded(Encoded(bytes)) == Some(bytes)
  {
    var binary := AsBinary(bytes);
    var body := EncodedIsBody(bytes);
    assert FromUrl(ToUrl(body)) == body by {
      forall i | 0 <= i < |body| ensures FromUrlChar(ToUrlChar(body[i])) == body[i] { assert IsSymbol(body[i]); }
    }
    AtobOfBtoa(binary);
    hide Btoa, Atob, Encoded, FromUrl, ToUrl, Padding, IsBinary;
    var decoded := Atob(body + Padding(|body|)).value;
    assert decoded == binary;
    assert seq(|decoded|, i requires 0 <= i < |decoded| => decoded[i] as int) == bytes;
  }

  /** The text is in the URL alphabet and carries no padding. */
  lemma EncodedIsUrlSafe(bytes: seq<Byte>, i: nat)
    requires i < |Encoded(bytes)|
    ensures var c := Encoded(bytes)[i]; 'A' <= c <= 'Z' || 'a' <= c <= 'z' || '0' <= c <= '9' || c == '-' || c == '_'
  {
    var body := EncodedIsBody(bytes);
    assert IsSymbol(body[i]);
  }

  // ---------------------------------------------------------------- the text, three bytes at a time

  /** Four symbols in the URL form, whose values in base 64 are the number that three bytes are in base
      256. */
  ghost predicate Spells(q: string, a: Byte, b: Byte, c: Byte) {
    exists n1, n2, n3, n4 :: SpellsWith(q, n1, n2, n3, n4) && a * 65536 + b * 256 + c == n1 * 262144 + n2 * 4096 + n3 * 64 + n4
  }

  predicate SpellsWith(q: string, n1: int, n2: int, n3: int, n4: int) {
    && 0 <= n1 < 64 && 0 <= n2 < 64 && 0 <= n3 < 64 && 0 <= n4 < 64
    && q == [UrlSymbol(n1), UrlSymbol(n2), UrlSymbol(n3), UrlSymbol(n4)]
  }

  /** The alphabet of RFC 4648, table 2, by character codes. */
  function UrlSymbol(n: int): char
    requires 0 <= n < 64
  {
    if n < 26 then (65 + n) as char else if n < 52 then (71 + n) as char else if n < 62 then (n - 4) as char
    else if n == 62 then '-' else '_'
  }

  lemma QuadSpells(a: Byte, b: Byte, c: Byte)
    ensures Spells(ToUrl(Quad(a, b, c)), a, b, c)
  {
    var n1, n2, n3, n4 := Sextet1(a), Sextet2(a, b), Sextet3(b, c), Sextet4(c);
    SextetsAreTheBits(a, b, c);
    SymbolInUrl(n1);
    SymbolInUrl(n2);
    SymbolInUrl(n3);
    SymbolInUrl(n4);
    hide Symbol, UrlSymbol, Sextet1, Sextet2, Sextet3, Sextet4, ToUrlChar;
    assert SpellsWith(ToUrl(Quad(a, b, c)), n1, n2, n3, n4);
  }

  lemma SymbolInUrl(n: int)
    requires 0 <= n < 64
    ensures ToUrlChar(Symbol(n)) == UrlSymbol(n) && Symbol(n) != '='
  {
  }

  /** Zeros fill up one or two bytes at the end, and of their four symbols only the first two or three are
      written; before that, every three bytes are written as four symbols. */
  lemma EncodedInFull(bytes: seq<Byte>) returns (q: string)
    ensures var n := |bytes|;
            && Spells(q, if n > 0 then bytes[0] else 0, if n > 1 then bytes[1] else 0, if n > 2 then bytes[2] else 0)
            && |q| == 4
            && Encoded(bytes) == if n < 3 then q[..if n == 0 then 0 else n + 1] else q + Encoded(bytes[3..])
  {
    var n := |bytes|;
    var a, b, c := if n > 0 then bytes[0] else 0, if n > 1 then bytes[1] else 0, if n > 2 then bytes[2] else 0;
    q := ToUrl(Quad(a, b, c));
    QuadSpells(a, b, c);
    hide Quad, Spells, ToUrl;
    if n >= 3 {
      LongText(bytes);
    } else if n > 0 {
      ShortText(bytes, b);
    }
  }

  lemma LongText(bytes: seq<Byte>)
    requires |bytes| >= 3
    ensures Encoded(bytes) == ToUrl(Quad(bytes[0], bytes[1], bytes[2])) + Encoded(bytes[3..])
  {
    var binary, quad := AsBinary(bytes), Quad(bytes[0], bytes[1], bytes[2]);
    QuadHasNoPadding(bytes[0], bytes[1], bytes[2]);
    hide Quad, ToUrlChar;
    assert binary[3..] == AsBinary(bytes[3..]);
    assert Btoa(binary) == quad + Btoa(binary[3..]);
    hide Btoa;
    assert ToUrl(Btoa(binary)) == ToUrl(quad) + ToUrl(Btoa(binary[3..]));
    StripBehind(ToUrl(quad), ToUrl(Btoa(binary[3..])));
  }

  lemma ShortText(bytes: seq<Byte>, b: Byte)
    requires 1 <= |bytes| <= 2 && b == if |bytes| > 1 then bytes[1] else 0
    ensures Encoded(bytes) == ToUrl(Quad(bytes[0], b, 0))[..|bytes| + 1]
  {
    var binary, quad, n := AsBinary(bytes), Quad(bytes[0], b, 0), |bytes| + 1;
    QuadHasNoPadding(bytes[0], b, 0);
    hide Quad;
    var padding := seq(4 - n, _ => '=');
    assert Btoa(binary) == quad[..n] + padding;
    hide Btoa;
    PaddingStays();
    hide ToUrlChar;
    assert ToUrl(quad[..n] + padding) == ToUrl(quad)[..n] + padding;
    StripRemovesPadding(ToUrl(quad)[..n], padding);
  }

  lemma PaddingStays()
    ensures ToUrlChar('=') == '='
  {
  }

  lemma QuadHasNoPadding(a: Byte, b: Byte, c: Byte)
    ensures forall i :: 0 <= i < 4 ==> ToUrl(Quad(a, b, c))[i] != '='
  {
    QuadHoldsBytes(a, b, c);
    hide Quad, Value;
  }

  lemma {:induction false} StripBehind(front: string, rest: string)
    requires front != [] && front[|front| - 1] != '='
    ensures StripPadding(front + rest) == front + StripPadding(rest)
  {
    if rest != [] && rest[|rest| - 1] == '=' {
      assert (front + rest)[..|front + rest| - 1] == front + rest[..|rest| - 1];
      StripBehind(front, rest[..|rest| - 1]);
    } else if rest == [] {
      assert front + rest == front;
    }
  }
}
