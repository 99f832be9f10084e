/** Standard base64 (section 4 of RFC 4648), as `base64.StdEncoding` implements it: the decoder skips
    carriage returns and line feeds, demands padding, and does not look at the unused bits of the
    last quantum. */
module Base64 {
  import opened Common

  /** The value of a character of the alphabet: a sextet, or PAD for '='. */
  type Symbol = x: int | 0 <= x <= 64

  const PAD: Symbol := 64

  function Letter(x: Symbol): (c: char)
    ensures SymbolOf(c) == Some(x)
    ensures c != '-' && !IsNewline(c) && c as int < 128
  {
    if x < 26 then (x + 65) as char
    else if x < 52 then (x + 71) as char
    else if x < 62 then (x - 4) as char
    else if x == 62 then '+'
    else if x == 63 then '/'
    else '='
  }

  function SymbolOf(c: char): Option<Symbol> {
    var i := c as int;
    if 65 <= i <= 90 then Some(i - 65)
    else if 97 <= i <= 122 then Some(i - 71)
    else if 48 <= i <= 57 then Some(i + 4)
    else if c == '+' then Some(62)
    else if c == '/' then Some(63)
    else if c == '=' then Some(PAD)
    else None
  }

  predicate IsNewline(c: char) {
    c == '\n' || c == '\r'
  }

  function EncodeSymbols(b: Bytes): seq<Symbol> {
    if b == [] then []
    else if |b| == 1 then [b[0] / 4, b[0] % 4 * 16, PAD, PAD]
    else if |b| == 2 then [b[0] / 4, b[0] % 4 * 16 + b[1] / 16, b[1] % 16 * 4, PAD]
    else
      [b[0] / 4, b[0] % 4 * 16 + b[1] / 16, b[1] % 16 * 4 + b[2] / 64, b[2] % 64] + EncodeSymbols(b[3..])
  }

  function DecodeSymbols(s: seq<Symbol>): Option<Bytes> {
    if s == [] then Some([])
    else if |s| < 4 || s[0] == PAD || s[1] == PAD then None
    else
      var a: int, b: int, c: int, d: int := s[0], s[1], s[2], s[3];
      if c == PAD then
        if |s| == 4 && d == PAD then Some([a * 4 + b / 16]) else None
      else if d == PAD then
        if |s| == 4 then Some([a * 4 + b / 16, b % 16 * 16 + c / 4]) else None
      else match DecodeSymbols(s[4..])
        case None => None
        case Some(rest) => Some([a * 4 + b / 16, b % 16 * 16 + c / 4, c % 4 * 64 + d] + rest)
  }

  function Spell(xs: seq<Symbol>): string {
    if xs == [] then [] else [Letter(xs[0])] + Spell(xs[1..])
  }

  /** The symbols of a text, skipping line breaks; None when another character occurs. */
  function Scan(s: string): Option<seq<Symbol>> {
    if s == [] then Some([])
    else match Scan(s[1..])
      case None => None
      case Some(rest) =>
        if IsNewline(s[0]) then Some(rest)
        else match SymbolOf(s[0])
          case None => None
          case Some(x) => Some([x] + rest)
  }

  function Encode(b: Bytes): string {
    Spell(EncodeSymbols(b))
  }

  function Decode(s: string): Option<Bytes> {
    match Scan(s)
    case None => None
    case Some(xs) => DecodeSymbols(xs)
  }

  /** The alphabet of RFC 4648, then the padding character. */
  lemma AlphabetMeaning(x: Symbol)
    ensures x < 26 ==> Letter(x) as int == 'A' as int + x
    ensures 26 <= x < 52 ==> Letter(x) as int == 'a' as int + x - 26
    ensures 52 <= x < 62 ==> Letter(x) as int == '0' as int + x - 52
    ensures (x == 62 ==> Letter(x) == '+') && (x == 63 ==> Letter(x) == '/') && (x == 64 ==> Letter(x) == '=')
  {
  }

  /** Four sextets are the 24 bits of three bytes; one or two bytes are filled up with zero bits, and then padded. */
  lemma QuantumBits(b: Bytes)
    requires b != []
    ensures var s := EncodeSymbols(b);
            && |s| >= 4
            && var w: int, x: int, y: int, z: int := s[0], s[1], s[2], s[3];
            && w < 64 && x < 64
            && (|b| >= 3 ==>
                  && w * 262144 + x * 4096 + y * 64 + z == (b[0] as int) * 65536 + (b[1] as int) * 256 + b[2]
                  && y < 64 && z < 64 && s[4..] == EncodeSymbols(b[3..]))
            && (|b| == 2 ==>
                  |s| == 4 && w * 4096 + x * 64 + y == (b[0] as int) * 1024 + (b[1] as int) * 4 && y < 64 && z == 64)
            && (|b| == 1 ==> |s| == 4 && w * 64 + x == (b[0] as int) * 16 && y == 64 && z == 64)
  {
    if |b| >= 3 {
      assert EncodeSymbols(b)[4..] == EncodeSymbols(b[3..]);
    }
  }

  /** Whole quanta, with padding in at most the last two places of the last one. */
  predicate WellPadded(s: seq<Symbol>) {
    && |s| % 4 == 0
    && (forall i :: 0 <= i < |s| - 2 ==> s[i] != PAD)
    && (|s| >= 2 && s[|s| - 2] == PAD ==> s[|s| - 1] == PAD)
  }

  /** The decoder accepts exactly the well padded symbol sequences. */
  lemma {:induction false} DecodesIff(s: seq<Symbol>)
    ensures DecodeSymbols(s).Some? <==> WellPadded(s)
  {
    if |s| >= 4 {
      DecodesIff(s[4..]);
      assert forall i :: 4 <= i < |s| ==> s[i] == s[4..][i - 4];
      if |s| >= 8 && WellPadded(s) {
        assert forall i :: 0 <= i < |s[4..]| - 2 ==> s[4..][i] == s[i + 4];
      }
      if |s| >= 8 && WellPadded(s[4..]) && s[0] != PAD && s[1] != PAD && s[2] != PAD && s[3] != PAD {
        assert forall i :: 4 <= i < |s| - 2 ==> s[i] == s[4..][i - 4];
      }
    }
  }

  /** A text can be scanned exactly when every character is a line break or a symbol. */
  lemma {:induction false} ScansIff(s: string)
    ensures Scan(s).Some? <==> forall i :: 0 <= i < |s| ==> s[i] == '\n' || s[i] == '\r' || SymbolOf(s[i]).Some?
  {
    if s != [] {
      ScansIff(s[1..]);
      assert forall i :: 1 <= i < |s| ==> s[i] == s[1..][i - 1];
    }
  }

  lemma {:induction false} ScanOfSpell(xs: seq<Symbol>)
    ensures Scan(Spell(xs)) == Some(xs)
  {
    if xs != [] {
      ScanOfSpell(xs[1..]);
      assert Spell(xs)[1..] == Spell(xs[1..]);
      assert [xs[0]] + xs[1..] == xs;
    }
  }

  lemma QuantumRoundTrip(x: Byte, y: Byte, z: Byte)
    ensures var b, c := x % 4 * 16 + y / 16, y % 16 * 4 + z / 64;
            x / 4 * 4 + b / 16 == x && b % 16 * 16 + c / 4 == y && c % 4 * 64 + z % 64 == z
  {
  }

  lemma {:induction false} DecodeOfQuantum(x: Byte, y: Byte, z: Byte, more: seq<Symbol>)
    requires DecodeSymbols(more).Some?
    ensures DecodeSymbols([x / 4, x % 4 * 16 + y / 16, y % 16 * 4 + z / 64, z % 64] + more) ==
            Some([x, y, z] + DecodeSymbols(more).value)
  {
    var a: Symbol, b: Symbol, c: Symbol, d: Symbol := x / 4, x % 4 * 16 + y / 16, y % 16 * 4 + z / 64, z % 64;
    DecodeOfFour(a, b, c, d, more);
    assert a * 4 + b / 16 == x && b % 16 * 16 + c / 4 == y && c % 4 * 64 + d == z by {
      QuantumRoundTrip(x, y, z);
    }
  }

  lemma {:induction false} DecodeOfFour(a: Symbol, b: Symbol, c: Symbol, d: Symbol, more: seq<Symbol>)
    requires a != PAD && b != PAD && c != PAD && d != PAD && DecodeSymbols(more).Some?
    ensures DecodeSymbols([a, b, c, d] + more) ==
            Some([a * 4 + b / 16, b % 16 * 16 + c / 4, c % 4 * 64 + d] + DecodeSymbols(more).value)
  {
    var s := [a, b, c, d] + more;
    assert s[4..] == more;
    assert s[0] == a && s[1] == b && s[2] == c && s[3] == d;
  }

  lemma {:induction false} DecodeOfEncodeSymbols(b: Bytes)
    ensures DecodeSymbols(EncodeSymbols(b)) == Some(b)
  {
    if |b| == 1 {
      QuantumRoundTrip(b[0], 0, 0);
      assert b == [b[0]];
    } else if |b| == 2 {
      QuantumRoundTrip(b[0], b[1], 0);
      assert b == [b[0], b[1]];
    } else if |b| >= 3 {
      DecodeOfEncodeSymbols(b[3..]);
      DecodeOfQuantum(b[0], b[1], b[2], EncodeSymbols(b[3..]));
      assert b == [b[0], b[1], b[2]] + b[3..];
    }
  }

  /** Round trip: every byte string survives encoding and decoding. */
  lemma DecodeOfEncode(b: Bytes)
    ensures Decode(Encode(b)) == Some(b)
  {
    ScanOfSpell(EncodeSymbols(b));
    DecodeOfEncodeSymbols(b);
  }

  /** The characters of an encoding: no hyphen, all ASCII. */
  lemma {:induction false} SpellCharacters(xs: seq<Symbol>)
    ensures forall i :: 0 <= i < |Spell(xs)| ==> Spell(xs)[i] != '-' && Spell(xs)[i] as int < 128
  {
    if xs != [] {
      SpellCharacters(xs[1..]);
    }
  }

  /** A line break anywhere in the text makes no difference to the decoder. */
  lemma {:induction false} ScanSkipsBreak(a: string, b: string)
    ensures Scan(a + "\n" + b) == Scan(a + b)
  {
    var s := a + "\n" + b;
    if a == [] {
      assert s[1..] == b && a + b == b;
    } else {
      assert s[1..] == a[1..] + "\n" + b && (a + b)[1..] == a[1..] + b;
      ScanSkipsBreak(a[1..], b);
    }
  }
}
