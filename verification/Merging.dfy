/** `parseCertificates` and `mergeAndEncode` as loops, and what a merge means. */
module Merging {
  import opened Common
  import opened Certificates
  import Base64

  function Prefixed(found: seq<Cert>, more: Option<seq<Cert>>): Option<seq<Cert>> {
    if more.None? then None else Some(found + more.value)
  }

  lemma ParseStep(lib: Library, rest: Bytes, found: seq<Cert>)
    requires lib.Lawful() && rest != [] && lib.pemDecode(rest).Some?
    ensures var (raw, next) := lib.pemDecode(rest).value;
            match lib.notAfter(raw)
            case None => lib.Parse(rest).None?
            case Some(t) => Prefixed(found, lib.Parse(rest)) == Prefixed(found + [Cert(raw, t)], lib.Parse(next))
  {
    var (raw, next) := lib.pemDecode(rest).value;
    if lib.notAfter(raw).Some? && lib.Parse(next).Some? {
      var certs := [Cert(raw, lib.notAfter(raw).value)];
      assert found + (certs + lib.Parse(next).value) == found + certs + lib.Parse(next).value;
    }
  }

  method ParseCertificates(lib: Library, bundle: Bytes) returns (certs: Option<seq<Cert>>)
    requires lib.Lawful()
    ensures certs == lib.Parse(bundle)
  {
    var rest := bundle;
    var found: seq<Cert> := [];
    assert lib.Parse(bundle) == Prefixed(found, lib.Parse(bundle)) by {
      assert lib.Parse(bundle).Some? ==> [] + lib.Parse(bundle).value == lib.Parse(bundle).value;
    }
    while rest != []
      invariant lib.Parse(bundle) == Prefixed(found, lib.Parse(rest))
      decreases |rest|
    {
      var block := lib.pemDecode(rest);
      if block.None? {
        break;
      }
      var (raw, next) := block.value;
      ParseStep(lib, rest, found);
      var notAfter := lib.notAfter(raw);
      if notAfter.None? {
        return None;
      }
      var cert := Cert(raw, notAfter.value);
      found := found + [cert];
      rest := next;
    }
    assert found + [] == found;
    return Some(found);
  }

  function Keys(certs: seq<Cert>): set<Bytes> {
    set c | c in certs :: c.raw
  }

  /** One turn of the merging loop. */
  lemma SelectOfAppend(now: int, certs: seq<Cert>, c: Cert)
    ensures Select(now, certs + [c]) ==
            if Expired(now, c) || c in Select(now, certs) then Select(now, certs) else Select(now, certs) + [c]
  {
    assert (certs + [c])[..|certs|] == certs;
    var l := Live(now, certs);
    assert (l + [c])[..|l|] == l;
    assert l + [] == l;
  }

  lemma EncodeBlocksOfAppend(lib: Library, certs: seq<Cert>, c: Cert)
    ensures lib.EncodeBlocks(certs + [c]) == lib.EncodeBlocks(certs) + lib.pemEncode(c.raw)
  {
    assert (certs + [c])[..|certs|] == certs;
  }

  lemma KeyIdentifiesCert(lib: Library, certs: seq<Cert>, c: Cert)
    requires lib.Genuine(certs) && lib.Genuine([c])
    ensures c.raw in Keys(certs) <==> c in certs
  {
    assert c in [c];
  }

  lemma KeepStep(lib: Library, now: int, all: seq<Cert>, i: nat)
    requires lib.Genuine(all) && i < |all|
    ensures var kept, c := Select(now, all[..i]), all[i];
            && Select(now, all[..i + 1]) == (if Expired(now, c) || c.raw in Keys(kept) then kept else kept + [c])
            && lib.EncodeBlocks(kept + [c]) == lib.EncodeBlocks(kept) + lib.pemEncode(c.raw)
            && Keys(kept + [c]) == Keys(kept) + {c.raw}
  {
    var before, c := all[..i], all[i];
    assert all[..i + 1] == before + [c];
    SelectOfAppend(now, before, c);
    SelectGenuine(lib, now, before);
    assert lib.Genuine([c]) by {
      assert c in all;
    }
    KeyIdentifiesCert(lib, Select(now, before), c);
    EncodeBlocksOfAppend(lib, Select(now, before), c);
    KeysOfAppend(Select(now, before), c);
  }

  lemma KeysOfAppend(certs: seq<Cert>, c: Cert)
    ensures Keys(certs + [c]) == Keys(certs) + {c.raw}
  {
  }

  /** The loop over all certificates: skip the expired, write the first of each key. */
  method KeepCertificates(lib: Library, now: int, all: seq<Cert>) returns (buffer: Bytes)
    requires lib.Genuine(all)
    ensures buffer == lib.EncodeBlocks(Select(now, all))
  {
    var uniqueCerts: map<Bytes, bool> := map[];
    buffer := [];
    ghost var kept: seq<Cert> := [];
    for i := 0 to |all|
      invariant kept == Select(now, all[..i])
      invariant buffer == lib.EncodeBlocks(kept)
      invariant uniqueCerts.Keys == Keys(kept)
    {
      var cert := all[i];
      KeepStep(lib, now, all, i);
      if Expired(now, cert) {
        continue;
      }
      if cert.raw !in uniqueCerts {
        uniqueCerts := uniqueCerts[cert.raw := true];
        buffer := buffer + lib.pemEncode(cert.raw);
        kept := kept + [cert];
      }
    }
    assert all[..|all|] == all;
  }

  lemma EncodeBlocksEmptyIff(lib: Library, certs: seq<Cert>)
    requires lib.Lawful()
    ensures lib.EncodeBlocks(certs) == [] <==> certs == []
  {
    if certs != [] {
      lib.EncodedBlockNotEmpty(certs[|certs| - 1].raw);
    }
  }

  method MergeAndEncode(lib: Library, now: int, encoded: string, additional: Bytes) returns (r: MergeResult)
    requires lib.Lawful()
    ensures r == Merge(lib, now, encoded, additional)
  {
    var bundle0 := Base64.Decode(encoded);
    if bundle0.None? {
      return Rejected(StoredNotBase64);
    }
    var certs0 := ParseCertificates(lib, bundle0.value);
    if certs0.None? {
      return Rejected(StoredNotParsed);
    }
    var certs1 := ParseCertificates(lib, additional);
    if certs1.None? {
      return Rejected(MountedNotParsed);
    }
    var buffer := KeepCertificates(lib, now, certs0.value + certs1.value);
    EncodeBlocksEmptyIff(lib, Select(now, certs0.value + certs1.value));
    if |buffer| == 0 {
      return Rejected(NothingLeft);
    }
    return Merged(Base64.Encode(buffer));
  }

  /** No two certificates share a DER key. */
  ghost predicate DistinctKeys(certs: seq<Cert>) {
    forall i, j :: 0 <= i < j < |certs| ==> certs[i].raw != certs[j].raw
  }

  lemma DistinctKeysIsNoRepeats(lib: Library, certs: seq<Cert>)
    requires lib.Genuine(certs)
    ensures DistinctKeys(certs) <==> NoRepeats(certs)
  {
    if NoRepeats(certs) {
      forall i, j | 0 <= i < j < |certs| ensures certs[i].raw != certs[j].raw {
        assert certs[i] in certs && certs[j] in certs;
      }
    }
  }

  /** What a successful merge stores: a certificate list that reads back, holds exactly the unexpired
      certificates of both inputs, has no key twice, and starts with what is left of the stored list in
      its old order. */
  lemma {:induction false} MergeMeaning(lib: Library, now: int, stored: string, mounted: Bytes)
    requires lib.Lawful()
    requires Merge(lib, now, stored, mounted).Merged?
    ensures lib.Stored(stored).Some? && lib.Parse(mounted).Some?
    ensures var before, added := lib.Stored(stored).value, lib.Parse(mounted).value;
            var after := lib.Stored(Merge(lib, now, stored, mounted).bundle);
            && after == Some(Select(now, before + added))
            && after.value != []
            && (forall c :: c in after.value <==> (c in before || c in added) && now <= c.notAfter)
            && DistinctKeys(after.value)
            && (exists idx :: FirstOccurrences(idx, after.value, before + added))
            && Select(now, before) <= after.value
  {
    var before, added := lib.Stored(stored).value, lib.Parse(mounted).value;
    var after := Select(now, before + added);
    var idx := SelectInOrder(now, before + added);
    SelectGenuine(lib, now, before + added);
    lib.StoredOfRender(after);
    forall c ensures c in after <==> (c in before || c in added) && now <= c.notAfter {
      SelectMembers(now, before + added, c);
    }
    DistinctHasNoRepeats(Live(now, before + added));
    DistinctKeysIsNoRepeats(lib, after);
    LiveOfConcat(now, before, added);
    DistinctPrefix(Live(now, before), Live(now, added));
  }

  /** Which merges are refused, and why: the stored text is looked at first, then the file, then what is left. */
  lemma MergeOutcomeIff(lib: Library, now: int, stored: string, mounted: Bytes)
    requires lib.Lawful()
    ensures var r := Merge(lib, now, stored, mounted);
            && (r == Rejected(StoredNotBase64) <==> Base64.Decode(stored).None?)
            && (r == Rejected(StoredNotParsed) <==>
                Base64.Decode(stored).Some? && lib.Parse(Base64.Decode(stored).value).None?)
            && (r == Rejected(MountedNotParsed) <==> lib.Stored(stored).Some? && lib.Parse(mounted).None?)
            && (r.Merged? <==>
                && lib.Stored(stored).Some? && lib.Parse(mounted).Some?
                && exists c :: (c in lib.Stored(stored).value || c in lib.Parse(mounted).value) && now <= c.notAfter)
  {
    NothingLeftIff(lib, now, stored, mounted);
  }

  /** `idx` lists, in order, where in `all` each element of `part` occurs first. */
  ghost predicate FirstOccurrences(idx: seq<nat>, part: seq<Cert>, all: seq<Cert>) {
    && |idx| == |part|
    && (forall k :: 0 <= k < |idx| ==> idx[k] < |all| && all[idx[k]] == part[k] && part[k] !in all[..idx[k]])
    && (forall k, l :: 0 <= k < l < |idx| ==> idx[k] < idx[l])
  }

  lemma OccurrencesInLonger(idx: seq<nat>, part: seq<Cert>, all: seq<Cert>, c: Cert)
    requires FirstOccurrences(idx, part, all)
    ensures FirstOccurrences(idx, part, all + [c])
  {
    forall k | 0 <= k < |idx| ensures (all + [c])[idx[k]] == part[k] && part[k] !in (all + [c])[..idx[k]] {
      assert (all + [c])[..idx[k]] == all[..idx[k]];
    }
  }

  lemma OneMoreOccurrence(idx: seq<nat>, part: seq<Cert>, all: seq<Cert>, c: Cert)
    requires FirstOccurrences(idx, part, all) && c !in all
    ensures FirstOccurrences(idx + [|all|], part + [c], all + [c])
  {
    OccurrencesInLonger(idx, part, all, c);
    assert (all + [c])[..|all|] == all;
  }

  /** The merged list keeps the order of first occurrence. */
  lemma {:induction false} SelectInOrder(now: int, all: seq<Cert>) returns (idx: seq<nat>)
    ensures FirstOccurrences(idx, Select(now, all), all)
  {
    if all == [] {
      idx := [];
    } else {
      var init, c := all[..|all| - 1], all[|all| - 1];
      idx := SelectInOrder(now, init);
      assert all == init + [c];
      SelectOfAppend(now, init, c);
      SelectMembers(now, init, c);
      if c.notAfter < now || c in Select(now, init) {
        OccurrencesInLonger(idx, Select(now, init), init, c);
      } else {
        OneMoreOccurrence(idx, Select(now, init), init, c);
        idx := idx + [|init|];
      }
    }
  }

  /** A merge is refused as empty exactly when both inputs parse and every certificate has expired. */
  lemma NothingLeftIff(lib: Library, now: int, stored: string, mounted: Bytes)
    requires lib.Lawful()
    ensures Merge(lib, now, stored, mounted) == Rejected(NothingLeft) <==>
            && lib.Stored(stored).Some? && lib.Parse(mounted).Some?
            && forall c :: c in lib.Stored(stored).value || c in lib.Parse(mounted).value ==> c.notAfter < now
  {
    if lib.Stored(stored).Some? && lib.Parse(mounted).Some? {
      var all := lib.Stored(stored).value + lib.Parse(mounted).value;
      forall c ensures c in Select(now, all) <==> c in all && now <= c.notAfter {
        SelectMembers(now, all, c);
      }
      if Select(now, all) != [] {
        assert Select(now, all)[0] in Select(now, all);
      }
    }
  }

  /** A refresh leaves the object alone exactly when the stored text is the canonical rendering of a
      nonempty list without repeats or expired entries that already holds every unexpired mounted one. */
  lemma {:induction false} UpToDateIff(lib: Library, now: int, stored: string, mounted: Bytes)
    requires lib.Lawful()
    ensures Merge(lib, now, stored, mounted) == Merged(stored) <==>
            && lib.Stored(stored).Some? && lib.Parse(mounted).Some?
            && var before := lib.Stored(stored).value;
            && stored == lib.Render(before) && before != [] && DistinctKeys(before)
            && (forall c :: c in before ==> now <= c.notAfter)
            && (forall c :: c in lib.Parse(mounted).value && now <= c.notAfter ==> c in before)
  {
    if Merge(lib, now, stored, mounted) == Merged(stored) {
      MergeMeaning(lib, now, stored, mounted);
    }
    if lib.Stored(stored).Some? && lib.Parse(mounted).Some? {
      var before, added := lib.Stored(stored).value, lib.Parse(mounted).value;
      if && stored == lib.Render(before) && before != [] && DistinctKeys(before)
         && (forall c :: c in before ==> now <= c.notAfter)
         && (forall c :: c in added && now <= c.notAfter ==> c in before)
      {
        SelectWithNothingNew(lib, now, before, added);
      }
    }
  }

  lemma SelectWithNothingNew(lib: Library, now: int, before: seq<Cert>, added: seq<Cert>)
    requires lib.Genuine(before) && DistinctKeys(before)
    requires forall c :: c in before ==> now <= c.notAfter
    requires forall c :: c in added && now <= c.notAfter ==> c in before
    ensures Select(now, before + added) == before
  {
    LiveOfConcat(now, before, added);
    LiveOfLiveOnly(now, before);
    forall c | c in Live(now, added) ensures c in before {
      LiveMembers(now, added, c);
    }
    DistinctNothingNew(before, Live(now, added));
    DistinctKeysIsNoRepeats(lib, before);
    DistinctOfNoRepeats(before);
  }

  /** Fixed point: merging the result with the same file at a later clock at which none of it has expired
      gives the identical text, so the repeated refresh writes nothing. */
  lemma {:induction false} MergeFixedPoint(lib: Library, now: int, later: int, stored: string, mounted: Bytes)
    requires lib.Lawful() && now <= later
    requires Merge(lib, now, stored, mounted).Merged?
    requires forall c :: c in Select(now, lib.Stored(stored).value + lib.Parse(mounted).value) ==> later <= c.notAfter
    ensures var b := Merge(lib, now, stored, mounted).bundle;
            Merge(lib, later, b, mounted) == Merged(b)
  {
    MergeMeaning(lib, now, stored, mounted);
    UpToDateIff(lib, later, Merge(lib, now, stored, mounted).bundle, mounted);
  }
}
