/** Certificates, PEM bundles and the merge of `mergeAndEncode`. */
module Certificates {
  import opened Common
  import Base64

  /** A parsed certificate: its DER bytes and the NotAfter instant they carry. */
  datatype Cert = Cert(raw: Bytes, notAfter: int)

  /** The library calls the injector makes: `pem.Encode` of a certificate block, `pem.Decode` (the
      block's bytes and the unread rest) and the NotAfter that `x509.ParseCertificate` finds, or None
      where it fails. The block type is not looked at by the injector, so it is not part of the model. */
  datatype Library = Library(
    pemEncode: Bytes -> Bytes,
    pemDecode: Bytes -> Option<(Bytes, Bytes)>,
    notAfter: Bytes -> Option<int>)
  {
    /** What RFC 7468 promises of the pair: a decoded block consumes input, and an encoded block is read
        back whole whatever follows it. */
    ghost predicate Lawful() {
      && (forall data :: pemDecode(data).Some? ==> |pemDecode(data).value.1| < |data|)
      && (forall raw, rest :: pemDecode(pemEncode(raw) + rest) == Some((raw, rest)))
    }

    /** The certificates of a bundle, or None when a block is not a certificate. Reading stops
        quietly where no further block is found. */
    function Parse(bundle: Bytes): (r: Option<seq<Cert>>)
      requires Lawful()
      ensures r.Some? ==> Genuine(r.value)
      decreases |bundle|
    {
      if bundle == [] then Some([])
      else match pemDecode(bundle)
        case None => Some([])
        case Some((raw, rest)) =>
          if notAfter(raw).None? then None
          else match Parse(rest)
            case None => None
            case Some(certs) => Some([Cert(raw, notAfter(raw).value)] + certs)
    }

    /** The DER bytes of a bundle's PEM blocks, up to where no further block is found. */
    function Blocks(bundle: Bytes): seq<Bytes>
      requires Lawful()
      decreases |bundle|
    {
      if bundle == [] || pemDecode(bundle).None? then []
      else [pemDecode(bundle).value.0] + Blocks(pemDecode(bundle).value.1)
    }

    /** A bundle parses exactly when each of its blocks is a certificate, and then to those certificates in order. */
    lemma {:induction false} ParseMeaning(bundle: Bytes)
      requires Lawful()
      ensures var bs, r := Blocks(bundle), Parse(bundle);
              && (r.Some? <==> AllParse(bs))
              && (r.Some? ==> |r.value| == |bs| && forall i :: 0 <= i < |bs| ==> r.value[i].raw == bs[i])
      decreases |bundle|
    {
      if bundle != [] && pemDecode(bundle).Some? {
        var (raw, rest) := pemDecode(bundle).value;
        ParseMeaning(rest);
        AllParseOfCons(raw, Blocks(rest));
        assert Blocks(bundle) == [raw] + Blocks(rest);
      }
    }

    predicate AllParse(bs: seq<Bytes>) {
      forall i :: 0 <= i < |bs| ==> notAfter(bs[i]).Some?
    }

    lemma AllParseOfCons(raw: Bytes, bs: seq<Bytes>)
      ensures AllParse([raw] + bs) <==> notAfter(raw).Some? && AllParse(bs)
    {
      assert ([raw] + bs)[0] == raw;
      assert forall i :: 0 <= i < |bs| ==> ([raw] + bs)[i + 1] == bs[i];
    }

    /** The certificates come from parsing: NotAfter is determined by the DER bytes. */
    predicate Genuine(certs: seq<Cert>) {
      forall c :: c in certs ==> notAfter(c.raw) == Some(c.notAfter)
    }

    function EncodeBlocks(certs: seq<Cert>): Bytes {
      if certs == [] then []
      else EncodeBlocks(certs[..|certs| - 1]) + pemEncode(certs[|certs| - 1].raw)
    }

    /** The stored form of a certificate list: base64 over the concatenated PEM blocks. */
    function Render(certs: seq<Cert>): string {
      Base64.Encode(EncodeBlocks(certs))
    }

    /** The certificates a stored bundle holds, or None when it cannot be read. */
    function Stored(bundle: string): (r: Option<seq<Cert>>)
      requires Lawful()
      ensures r.Some? ==> Genuine(r.value)
    {
      match Base64.Decode(bundle)
      case None => None
      case Some(bytes) => Parse(bytes)
    }

    lemma EncodedBlockNotEmpty(raw: Bytes)
      requires Lawful()
      ensures pemEncode(raw) != []
    {
      assert pemDecode(pemEncode(raw) + []) == Some((raw, []));
    }

    lemma {:induction false} EncodeBlocksFromFront(certs: seq<Cert>)
      requires certs != []
      ensures EncodeBlocks(certs) == pemEncode(certs[0].raw) + EncodeBlocks(certs[1..])
    {
      if |certs| > 1 {
        var init := certs[..|certs| - 1];
        EncodeBlocksFromFront(init);
        assert init[1..] == certs[1..][..|certs| - 2];
      }
    }

    lemma {:induction false} ParseOfEncodeBlocks(certs: seq<Cert>)
      requires Lawful() && Genuine(certs)
      ensures Parse(EncodeBlocks(certs)) == Some(certs)
      decreases |certs|
    {
      if certs != [] {
        EncodeBlocksFromFront(certs);
        EncodedBlockNotEmpty(certs[0].raw);
        ParseOfEncodeBlocks(certs[1..]);
        var data := pemEncode(certs[0].raw) + EncodeBlocks(certs[1..]);
        assert pemDecode(data) == Some((certs[0].raw, EncodeBlocks(certs[1..])));
        assert [certs[0]] + certs[1..] == certs;
      }
    }

    /** Round trip through PEM and base64: a stored certificate list is read back exactly. */
    lemma StoredOfRender(certs: seq<Cert>)
      requires Lawful() && Genuine(certs)
      ensures Stored(Render(certs)) == Some(certs)
    {
      Base64.DecodeOfEncode(EncodeBlocks(certs));
      ParseOfEncodeBlocks(certs);
    }

    lemma RenderIsInjective(a: seq<Cert>, b: seq<Cert>)
      requires Lawful() && Genuine(a) && Genuine(b)
      requires Render(a) == Render(b)
      ensures a == b
    {
      StoredOfRender(a);
      StoredOfRender(b);
    }
  }

  /** `cert.NotAfter.Before(now)`: NotAfter itself still counts as valid (section 4.1.2.5 of RFC 5280). */
  predicate Expired(now: int, c: Cert) {
    c.notAfter < now
  }

  function Live(now: int, certs: seq<Cert>): seq<Cert> {
    if certs == [] then []
    else
      var init, last := certs[..|certs| - 1], certs[|certs| - 1];
      Live(now, init) + if Expired(now, last) then [] else [last]
  }

  /** Keep the first occurrence of every element. */
  function Distinct<T(==)>(xs: seq<T>): seq<T> {
    if xs == [] then []
    else
      var d, last := Distinct(xs[..|xs| - 1]), xs[|xs| - 1];
      if last in d then d else d + [last]
  }

  /** What a merge at `now` keeps of the stored certificates followed by the mounted ones. */
  function Select(now: int, certs: seq<Cert>): seq<Cert> {
    Distinct(Live(now, certs))
  }

  datatype MergeError = StoredNotBase64 | StoredNotParsed | MountedNotParsed | NothingLeft

  datatype MergeResult = Merged(bundle: string) | Rejected(why: MergeError)

  function Merge(lib: Library, now: int, stored: string, mounted: Bytes): MergeResult
    requires lib.Lawful()
  {
    if Base64.Decode(stored).None? then Rejected(StoredNotBase64)
    else match lib.Stored(stored)
      case None => Rejected(StoredNotParsed)
      case Some(before) =>
        match lib.Parse(mounted)
        case None => Rejected(MountedNotParsed)
        case Some(added) =>
          var kept := Select(now, before + added);
          if kept == [] then Rejected(NothingLeft) else Merged(lib.Render(kept))
  }

  // ---- Laws of selection ----

  lemma {:induction false} LiveMembers(now: int, certs: seq<Cert>, c: Cert)
    ensures c in Live(now, certs) <==> c in certs && now <= c.notAfter
  {
    if certs != [] {
      LiveMembers(now, certs[..|certs| - 1], c);
      assert certs == certs[..|certs| - 1] + [certs[|certs| - 1]];
    }
  }

  lemma {:induction false} LiveOfConcat(now: int, a: seq<Cert>, b: seq<Cert>)
    ensures Live(now, a + b) == Live(now, a) + Live(now, b)
  {
    if b == [] {
      assert a + b == a;
    } else {
      assert (a + b)[..|a + b| - 1] == a + b[..|b| - 1];
      LiveOfConcat(now, a, b[..|b| - 1]);
    }
  }

  lemma {:induction false} LiveOfLive(t1: int, t2: int, certs: seq<Cert>)
    requires t1 <= t2
    ensures Live(t2, Live(t1, certs)) == Live(t2, certs)
  {
    if certs != [] {
      var init, last := certs[..|certs| - 1], certs[|certs| - 1];
      LiveOfLive(t1, t2, init);
      LiveOfConcat(t2, Live(t1, init), if Expired(t1, last) then [] else [last]);
    }
  }

  lemma {:induction false} DistinctMembers<T>(xs: seq<T>, x: T)
    ensures x in Distinct(xs) <==> x in xs
  {
    if xs != [] {
      DistinctMembers(xs[..|xs| - 1], x);
      DistinctMembers(xs[..|xs| - 1], xs[|xs| - 1]);
      assert xs == xs[..|xs| - 1] + [xs[|xs| - 1]];
    }
  }

  ghost predicate NoRepeats<T(!new)>(xs: seq<T>) {
    forall i, j :: 0 <= i < j < |xs| ==> xs[i] != xs[j]
  }

  lemma {:induction false} DistinctHasNoRepeats<T(!new)>(xs: seq<T>)
    ensures NoRepeats(Distinct(xs))
  {
    if xs != [] {
      DistinctHasNoRepeats(xs[..|xs| - 1]);
    }
  }

  lemma {:induction false} DistinctOfNoRepeats<T(!new)>(xs: seq<T>)
    requires NoRepeats(xs)
    ensures Distinct(xs) == xs
  {
    if xs != [] {
      var init, last := xs[..|xs| - 1], xs[|xs| - 1];
      DistinctOfNoRepeats(init);
      assert xs == init + [last];
      assert last !in init;
    }
  }

  /** Deduplicating a prefix first changes nothing. */
  lemma {:induction false} DistinctOfDistinct<T>(a: seq<T>, b: seq<T>)
    ensures Distinct(Distinct(a) + b) == Distinct(a + b)
  {
    if b == [] {
      assert Distinct(a) + b == Distinct(a) && a + b == a;
      DistinctTwice(a);
    } else {
      DistinctOfDistinct(a, b[..|b| - 1]);
      assert (a + b)[..|a + b| - 1] == a + b[..|b| - 1];
      assert (Distinct(a) + b)[..|Distinct(a) + b| - 1] == Distinct(a) + b[..|b| - 1];
    }
  }

  lemma {:induction false} DistinctTwice<T>(xs: seq<T>)
    ensures Distinct(Distinct(xs)) == Distinct(xs)
  {
    if xs != [] {
      var d := Distinct(xs[..|xs| - 1]);
      DistinctTwice(xs[..|xs| - 1]);
      if xs[|xs| - 1] !in d {
        assert (d + [xs[|xs| - 1]])[..|d|] == d;
      }
    }
  }

  /** The first of two concatenated lists is, deduplicated, a prefix of the deduplicated whole. */
  lemma {:induction false} DistinctPrefix<T>(a: seq<T>, b: seq<T>)
    ensures Distinct(a) <= Distinct(a + b)
  {
    if b == [] {
      assert a + b == a;
    } else {
      DistinctPrefix(a, b[..|b| - 1]);
      assert (a + b)[..|a + b| - 1] == a + b[..|b| - 1];
    }
  }

  /** A list that adds no new element to a deduplicated list leaves it as it is. */
  lemma {:induction false} DistinctNothingNew<T>(a: seq<T>, b: seq<T>)
    requires forall x :: x in b ==> x in a
    ensures Distinct(a + b) == Distinct(a)
  {
    if b == [] {
      assert a + b == a;
    } else {
      DistinctNothingNew(a, b[..|b| - 1]);
      assert (a + b)[..|a + b| - 1] == a + b[..|b| - 1];
      DistinctMembers(a, b[|b| - 1]);
    }
  }

  /** Dropping the expired ones and keeping first occurrences commute. */
  lemma {:induction false} LiveOfDistinct(now: int, certs: seq<Cert>)
    ensures Live(now, Distinct(certs)) == Distinct(Live(now, certs))
  {
    if certs != [] {
      var init, last := certs[..|certs| - 1], certs[|certs| - 1];
      LiveOfDistinct(now, init);
      var d := Distinct(init);
      LiveMembers(now, d, last);
      var l := Live(now, init);
      if last !in d {
        LiveOfConcat(now, d, [last]);
        assert Live(now, [last]) == if Expired(now, last) then [] else [last];
      }
      if !Expired(now, last) {
        assert (l + [last])[..|l|] == l;
      } else {
        assert l + [] == l;
      }
    }
  }

  /** The algebra behind repeated refreshes: selecting, appending and selecting again at a later clock
      is one selection at the later clock. */
  lemma SelectOfSelect(t1: int, t2: int, a: seq<Cert>, b: seq<Cert>)
    requires t1 <= t2
    ensures Select(t2, Select(t1, a) + b) == Select(t2, a + b)
  {
    calc {
      Select(t2, Select(t1, a) + b);
      { LiveOfConcat(t2, Select(t1, a), b); }
      Distinct(Live(t2, Distinct(Live(t1, a))) + Live(t2, b));
      { LiveOfDistinct(t2, Live(t1, a)); LiveOfLive(t1, t2, a); }
      Distinct(Distinct(Live(t2, a)) + Live(t2, b));
      { DistinctOfDistinct(Live(t2, a), Live(t2, b)); }
      Distinct(Live(t2, a) + Live(t2, b));
      { LiveOfConcat(t2, a, b); }
      Select(t2, a + b);
    }
  }

  lemma SelectMembers(now: int, certs: seq<Cert>, c: Cert)
    ensures c in Select(now, certs) <==> c in certs && now <= c.notAfter
  {
    LiveMembers(now, certs, c);
    DistinctMembers(Live(now, certs), c);
  }

  lemma SelectGenuine(lib: Library, now: int, certs: seq<Cert>)
    requires lib.Genuine(certs)
    ensures lib.Genuine(Select(now, certs))
  {
    forall c | c in Select(now, certs) ensures lib.notAfter(c.raw) == Some(c.notAfter) {
      SelectMembers(now, certs, c);
    }
  }

  lemma {:induction false} LiveOfLiveOnly(now: int, certs: seq<Cert>)
    requires forall c :: c in certs ==> now <= c.notAfter
    ensures Live(now, certs) == certs
  {
    if certs != [] {
      LiveOfLiveOnly(now, certs[..|certs| - 1]);
      assert certs == certs[..|certs| - 1] + [certs[|certs| - 1]];
    }
  }

  lemma {:induction false} LiveOfExpiredOnly(now: int, certs: seq<Cert>)
    requires forall c :: c in certs ==> c.notAfter < now
    ensures Live(now, certs) == []
  {
    if certs != [] {
      LiveOfExpiredOnly(now, certs[..|certs| - 1]);
    }
  }
}
