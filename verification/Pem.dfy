/** A textual codec that obeys `Library.Lawful`: the encoder writes the lines of section 5 of RFC 7468
    the way `pem.Encode` does, and a plain decoder reads them back. It shows that the law the
    reconciler's theorems rest on is met by the real encoding; nothing else depends on this decoder. */
module Pem {
  import opened Common
  import Base64
  import Certificates
  import Text

  const BEGIN := "-----BEGIN CERTIFICATE-----\n"
  const END := "-----END CERTIFICATE-----\n"
  const LINE := 64

  predicate Ascii(s: string) {
    forall i :: 0 <= i < |s| ==> s[i] as int < 128
  }

  predicate NoHyphen(s: string) {
    forall i :: 0 <= i < |s| ==> s[i] != '-'
  }

  function Chars(b: Bytes): string {
    seq(|b|, i requires 0 <= i < |b| => b[i] as char)
  }

  function AsciiBytes(s: string): (b: Bytes)
    requires Ascii(s)
    ensures |b| == |s| && forall i :: 0 <= i < |s| ==> b[i] == s[i] as int
  {
    if s == [] then [] else [s[0] as int] + AsciiBytes(s[1..])
  }

  function Wrap(s: string): string {
    if s == [] then []
    else if |s| <= LINE then s + "\n"
    else s[..LINE] + "\n" + Wrap(s[LINE..])
  }

  lemma {:induction false} ScanOfWrap(s: string)
    ensures Base64.Scan(Wrap(s)) == Base64.Scan(s)
  {
    if s != [] {
      if |s| <= LINE {
        Base64.ScanSkipsBreak(s, "");
        assert s + "\n" + "" == s + "\n" && s + "" == s;
      } else {
        Base64.ScanSkipsBreak(s[..LINE], Wrap(s[LINE..]));
        ScanOfWrap(s[LINE..]);
        ScanOfConcat(s[..LINE], Wrap(s[LINE..]), s[LINE..]);
        assert s[..LINE] + s[LINE..] == s;
      }
    }
  }

  lemma {:induction false} ScanOfConcat(a: string, b: string, c: string)
    requires Base64.Scan(b) == Base64.Scan(c)
    ensures Base64.Scan(a + b) == Base64.Scan(a + c)
  {
    if a == [] {
      assert a + b == b && a + c == c;
    } else {
      assert (a + b)[1..] == a[1..] + b && (a + c)[1..] == a[1..] + c;
      ScanOfConcat(a[1..], b, c);
    }
  }

  lemma {:induction false} WrapCharacters(s: string)
    requires NoHyphen(s) && Ascii(s)
    ensures NoHyphen(Wrap(s)) && Ascii(Wrap(s))
  {
    if |s| > LINE {
      WrapCharacters(s[LINE..]);
    }
  }

  function Body(raw: Bytes): (s: string)
    ensures NoHyphen(s) && Ascii(s)
  {
    Base64.SpellCharacters(Base64.EncodeSymbols(raw));
    WrapCharacters(Base64.Encode(raw));
    Wrap(Base64.Encode(raw))
  }

  function EncodeBetween(begin: string, end: string, raw: Bytes): Bytes
    requires Ascii(begin) && Ascii(end)
  {
    AsciiBytes(begin + Body(raw) + end)
  }

  /** Where the text between the first begin line and the next end line starts and stops. */
  function Enclosed(begin: string, end: string, s: string): (r: Option<(nat, nat)>)
    ensures r.Some? ==> r.value.0 <= r.value.1 && |begin| <= r.value.0 && r.value.1 + |end| <= |s|
  {
    var p := Text.IndexOf(s, begin);
    if p < 0 then None
    else
      var start := p + |begin|;
      var q := Text.IndexOf(s[start..], end);
      if q < 0 then None else Some((start, start + q))
  }

  function DecodeBetween(begin: string, end: string, data: Bytes): (r: Option<(Bytes, Bytes)>)
    ensures r.Some? ==> |r.value.1| <= |data| - |begin| - |end|
  {
    match Enclosed(begin, end, Chars(data))
    case None => None
    case Some((start, stop)) =>
      match Base64.Decode(Chars(data[start..stop]))
      case None => None
      case Some(raw) => Some((raw, data[stop + |end|..]))
  }

  function Encode(raw: Bytes): Bytes {
    EncodeBetween(BEGIN, END, raw)
  }

  function Decode(data: Bytes): Option<(Bytes, Bytes)> {
    DecodeBetween(BEGIN, END, data)
  }

  lemma EndIsFoundAfterBody(body: string, end: string, rest: string)
    requires NoHyphen(body)
    requires end != [] && end[0] == '-'
    ensures Text.IndexOf(body + end + rest, end) == |body|
  {
    var s := body + end + rest;
    assert s[|body|..|body| + |end|] == end;
    Text.IndexOfIsFirst(s, end, |body|);
    Text.IndexOfFinds(s, end);
    var q := Text.IndexOf(s, end);
    assert s[q] == s[q..q + |end|][0];
  }

  lemma EnclosedIsBody(begin: string, body: string, end: string, rest: string)
    requires NoHyphen(body)
    requires end != [] && end[0] == '-'
    ensures Enclosed(begin, end, begin + body + end + rest) == Some((|begin|, |begin| + |body|))
  {
    var s := begin + body + end + rest;
    assert s[0..|begin|] == begin;
    Text.IndexOfIsFirst(s, begin, 0);
    assert s[|begin|..] == body + end + rest;
    EndIsFoundAfterBody(body, end, rest);
  }

  lemma DecodeOfBody(raw: Bytes)
    ensures Base64.Decode(Body(raw)) == Some(raw)
  {
    ScanOfWrap(Base64.Encode(raw));
    Base64.DecodeOfEncode(raw);
  }

  lemma CharsOfConcat(a: Bytes, t: string, rest: Bytes)
    requires |a| == |t| && forall i :: 0 <= i < |t| ==> a[i] == t[i] as int
    ensures Chars(a + rest) == t + Chars(rest)
  {
    forall i | 0 <= i < |t| ensures a[i] as char == t[i] {
    }
  }

  lemma CharsOfSlice(data: Bytes, a: nat, b: nat)
    requires a <= b <= |data|
    ensures Chars(data[a..b]) == Chars(data)[a..b]
  {
  }

  lemma SliceIsBody(begin: string, body: string, end: string, rest: string)
    ensures (begin + body + end + rest)[|begin|..|begin| + |body|] == body
  {
  }

  lemma {:induction false} DecodeOfEncode(begin: string, end: string, raw: Bytes, rest: Bytes)
    requires Ascii(begin) && Ascii(end)
    requires end != [] && end[0] == '-'
    ensures DecodeBetween(begin, end, EncodeBetween(begin, end, raw) + rest) == Some((raw, rest))
  {
    var body := Body(raw);
    var data := AsciiBytes(begin + body + end) + rest;
    CharsOfConcat(AsciiBytes(begin + body + end), begin + body + end, rest);
    EnclosedIsBody(begin, body, end, Chars(rest));
    CharsOfSlice(data, |begin|, |begin| + |body|);
    SliceIsBody(begin, body, end, Chars(rest));
    RestAfter(AsciiBytes(begin + body + end), rest);
    DecodeOfBody(raw);
  }

  lemma RestAfter(a: Bytes, rest: Bytes)
    ensures (a + rest)[|a|..] == rest
  {
  }

  /** The textual encoding satisfies the law, whatever certificates parse. */
  lemma TextualEncodingIsLawful(notAfter: Bytes -> Option<int>)
    ensures Certificates.Library(Encode, Decode, notAfter).Lawful()
  {
    var lib := Certificates.Library(Encode, Decode, notAfter);
    forall raw, rest ensures lib.pemDecode(lib.pemEncode(raw) + rest) == Some((raw, rest)) {
      DecodeOfEncode(BEGIN, END, raw, rest);
    }
  }
}
