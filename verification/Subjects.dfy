/** The subjects a rejected bundle is logged with: a canonical rendering of unordered digest maps. */
module Subjects {
  import opened Common

  const MAX_SUBJECTS := 5

  datatype Subject = Subject(name: string, digests: map<string, string>)

  // ---- Ordering names ----

  predicate AtMost(a: string, b: string) {
    a == [] || (b != [] && (a[0] < b[0] || (a[0] == b[0] && AtMost(a[1..], b[1..]))))
  }

  lemma AtMostIsTotal(a: string, b: string)
    ensures AtMost(a, b) || AtMost(b, a)
  {
  }

  lemma {:induction false} AtMostIsAntisymmetric(a: string, b: string)
    requires AtMost(a, b) && AtMost(b, a)
    ensures a == b
  {
    if a != [] {
      AtMostIsAntisymmetric(a[1..], b[1..]);
      assert a == [a[0]] + a[1..] && b == [b[0]] + b[1..];
    }
  }

  lemma AtMostIsTransitive(a: string, b: string, c: string)
    requires AtMost(a, b) && AtMost(b, c)
    ensures AtMost(a, c)
  {
  }

  predicate Sorted(s: seq<string>) {
    forall i, j :: 0 <= i < j < |s| ==> AtMost(s[i], s[j])
  }

  function Insert(x: string, s: seq<string>): (r: seq<string>)
    ensures multiset(r) == multiset(s) + multiset{x}
  {
    if s == [] then [x]
    else
      assert s == [s[0]] + s[1..];
      if AtMost(x, s[0]) then [x] + s else [s[0]] + Insert(x, s[1..])
  }

  lemma {:induction false} InsertKeepsSorted(x: string, s: seq<string>)
    requires Sorted(s)
    ensures Sorted(Insert(x, s))
  {
    if s != [] {
      if AtMost(x, s[0]) {
        forall j | 0 <= j < |s| ensures AtMost(x, s[j]) {
          if j > 0 {
            AtMostIsTransitive(x, s[0], s[j]);
          }
        }
      } else {
        AtMostIsTotal(x, s[0]);
        InsertKeepsSorted(x, s[1..]);
        var rest := Insert(x, s[1..]);
        forall y | y in rest ensures AtMost(s[0], y) {
          assert y in multiset(rest);
          assert y == x || y in s[1..];
        }
      }
    }
  }

  /** `slices.Sort`. */
  function Sort(s: seq<string>): (r: seq<string>)
    ensures Sorted(r) && multiset(r) == multiset(s)
  {
    if s == [] then []
    else
      assert s == [s[0]] + s[1..];
      InsertKeepsSorted(s[0], Sort(s[1..]));
      Insert(s[0], Sort(s[1..]))
  }

  /** The keys of a map in order. */
  ghost function SortedKeys(keys: set<string>): (r: seq<string>)
    ensures Sorted(r) && multiset(r) == multiset(keys)
  {
    if keys == {} then []
    else
      var k :| k in keys;
      assert keys == (keys - {k}) + {k};
      InsertKeepsSorted(k, SortedKeys(keys - {k}));
      Insert(k, SortedKeys(keys - {k}))
  }

  lemma LeastFirst(a: seq<string>, b: seq<string>)
    requires Sorted(a) && a != [] && b != [] && multiset(a) == multiset(b)
    ensures AtMost(a[0], b[0])
  {
    assert b[0] in multiset(b);
    var i :| 0 <= i < |a| && a[i] == b[0];
    if i == 0 {
      AtMostIsTotal(a[0], a[0]);
    }
  }

  lemma TailContents(a: seq<string>)
    requires a != []
    ensures a == [a[0]] + a[1..] && multiset(a[1..]) == multiset(a) - multiset{a[0]}
  {
    assert a == [a[0]] + a[1..];
  }

  /** Equal contents have one sorted order. */
  lemma {:induction false} SortedIsUnique(a: seq<string>, b: seq<string>)
    requires Sorted(a) && Sorted(b) && multiset(a) == multiset(b)
    ensures a == b
  {
    assert |a| == |multiset(a)| && |b| == |multiset(b)|;
    if a != [] {
      LeastFirst(a, b);
      LeastFirst(b, a);
      AtMostIsAntisymmetric(a[0], b[0]);
      TailContents(a);
      TailContents(b);
      SortedIsUnique(a[1..], b[1..]);
    }
  }

  /** A range over the map visits each key once, in any order. */
  ghost predicate Enumerates(order: seq<string>, m: map<string, string>) {
    multiset(order) == multiset(m.Keys)
  }

  lemma {:induction false} SortIsCanonical(order: seq<string>, m: map<string, string>)
    requires Enumerates(order, m)
    ensures Sort(order) == SortedKeys(m.Keys)
    ensures forall i :: 0 <= i < |Sort(order)| ==> Sort(order)[i] in m
  {
    SortedIsUnique(Sort(order), SortedKeys(m.Keys));
    forall i | 0 <= i < |Sort(order)| ensures Sort(order)[i] in m {
      assert Sort(order)[i] in multiset(Sort(order));
    }
  }

  // ---- Rendering ----

  function Decimal(n: nat): string {
    if n < 10 then [(n as char) + '0'] else Decimal(n / 10) + [(n % 10) as char + '0']
  }

  function Joined(pairs: seq<string>): string {
    if |pairs| == 0 then ""
    else if |pairs| == 1 then pairs[0]
    else pairs[0] + ", " + Joined(pairs[1..])
  }

  function Pair(alg: string, m: map<string, string>): string
    requires alg in m
  {
    alg + "=" + m[alg]
  }

  function Pairs(algs: seq<string>, m: map<string, string>): seq<string>
    requires forall i :: 0 <= i < |algs| ==> algs[i] in m
  {
    if algs == [] then []
    else Pairs(algs[..|algs| - 1], m) + [Pair(algs[|algs| - 1], m)]
  }

  /** A subject's line: its name and its digests in the order of their algorithms. */
  ghost function Line(s: Subject): string {
    if |s.digests| == 0 then s.name + ": <no digest>"
    else
      var algs := SortedKeys(s.digests.Keys);
      assert forall i :: 0 <= i < |algs| ==> algs[i] in multiset(algs);
      s.name + ": " + Joined(Pairs(algs, s.digests))
  }

  /** A line is the name with the digests in the order of their algorithms, whichever way that order was found. */
  lemma LineMeaning(s: Subject, algs: seq<string>)
    requires Sorted(algs) && multiset(algs) == multiset(s.digests.Keys)
    ensures forall i :: 0 <= i < |algs| ==> algs[i] in s.digests
    ensures algs == [] ==> Line(s) == s.name + ": <no digest>"
    ensures algs != [] ==> Line(s) == s.name + ": " + Joined(Pairs(algs, s.digests))
  {
    forall i | 0 <= i < |algs| ensures algs[i] in s.digests {
      assert algs[i] in multiset(algs);
    }
    assert |multiset(s.digests.Keys)| == |algs|;
    SortedIsUnique(SortedKeys(s.digests.Keys), algs);
  }

  lemma PairsMeaning(algs: seq<string>, alg: string, m: map<string, string>)
    requires alg in m && forall i :: 0 <= i < |algs| ==> algs[i] in m
    ensures Pairs([], m) == [] && Pairs(algs + [alg], m) == Pairs(algs, m) + [alg + "=" + m[alg]]
  {
    assert (algs + [alg])[..|algs|] == algs;
  }

  lemma JoinedMeaning(pair: string, rest: seq<string>)
    ensures Joined([]) == "" && Joined([pair]) == pair
    ensures rest != [] ==> Joined([pair] + rest) == pair + ", " + Joined(rest)
  {
    assert ([pair] + rest)[1..] == rest;
  }

  ghost function Lines(subjects: seq<Option<Subject>>): seq<string> {
    if subjects == [] then []
    else
      var init, last := subjects[..|subjects| - 1], subjects[|subjects| - 1];
      Lines(init) + if last.None? then [] else [Line(last.value)]
  }

  /** One line for each subject that is there, in order. */
  lemma LinesMeaning(a: seq<Option<Subject>>, s: Option<Subject>)
    ensures Lines([]) == [] && Lines(a + [s]) == Lines(a) + if s.None? then [] else [Line(s.value)]
  {
    assert (a + [s])[..|a|] == a;
  }

  function Overflow(n: nat): string {
    "... and " + Decimal(n) + " more subjects"
  }

  /** The number an overflow line states. */
  function ReadDecimal(s: string): int {
    if s == "" then 0 else 10 * ReadDecimal(s[..|s| - 1]) + s[|s| - 1] as int - '0' as int
  }

  lemma {:induction false} DecimalReads(n: nat)
    ensures ReadDecimal(Decimal(n)) == n
  {
    if n >= 10 {
      DecimalReads(n / 10);
      assert Decimal(n)[..|Decimal(n)| - 1] == Decimal(n / 10);
    } else {
      assert Decimal(n)[..0] == "";
    }
  }

  /** The overflow line is the count between fixed words. */
  lemma OverflowMeaning(n: nat)
    ensures var s := Overflow(n); |s| >= 23 && s[..8] == "... and " && s[|s| - 14..] == " more subjects"
    ensures var s := Overflow(n); |s| >= 23 && ReadDecimal(s[8..|s| - 14]) == n
  {
    DecimalReads(n);
    assert |Decimal(n)| >= 1;
    assert Overflow(n)[8..|Overflow(n)| - 14] == Decimal(n);
  }

  /** At most a fixed number of lines, then one that says how many are missing. */
  function Truncated(lines: seq<string>): (r: seq<string>)
    ensures |lines| <= 5 ==> r == lines
    ensures |lines| > 5 ==> |r| == 6 && r[..5] == lines[..5] && r[5] == Overflow(|lines| - 5)
  {
    if |lines| <= MAX_SUBJECTS then lines else lines[..MAX_SUBJECTS] + [Overflow(|lines| - MAX_SUBJECTS)]
  }

  lemma LinesStep(subjects: seq<Option<Subject>>, i: nat)
    requires i < |subjects|
    ensures Lines(subjects[..i + 1]) ==
            Lines(subjects[..i]) + if subjects[i].None? then [] else [Line(subjects[i].value)]
  {
    assert subjects[..i + 1][..i] == subjects[..i];
  }

  /** `bundleSubjects` on the subjects of a statement, nil ones among them; `orders` are the orders in which the ranges
      over the digest maps happen to go, and the result does not depend on them. */
  method BundleSubjects(subjects: seq<Option<Subject>>, orders: seq<seq<string>>) returns (r: seq<string>)
    requires |orders| == |subjects|
    requires forall i :: 0 <= i < |subjects| && subjects[i].Some? ==> Enumerates(orders[i], subjects[i].value.digests)
    ensures r == Truncated(Lines(subjects))
  {
    var lines := RenderSubjects(subjects, orders);
    if |lines| > MAX_SUBJECTS {
      r := lines[..MAX_SUBJECTS] + [Overflow(|lines| - MAX_SUBJECTS)];
    } else {
      r := lines;
    }
  }

  method RenderSubjects(subjects: seq<Option<Subject>>, orders: seq<seq<string>>) returns (lines: seq<string>)
    requires |orders| == |subjects|
    requires forall i :: 0 <= i < |subjects| && subjects[i].Some? ==> Enumerates(orders[i], subjects[i].value.digests)
    ensures lines == Lines(subjects)
  {
    lines := [];
    for i := 0 to |subjects|
      invariant lines == Lines(subjects[..i])
    {
      LinesStep(subjects, i);
      if subjects[i].Some? {
        var line := RenderSubject(subjects[i].value, orders[i]);
        lines := lines + [line];
      }
    }
    assert subjects[..|subjects|] == subjects;
  }

  method RenderSubject(s: Subject, order: seq<string>) returns (line: string)
    requires Enumerates(order, s.digests)
    ensures line == Line(s)
  {
    if |s.digests| == 0 {
      return s.name + ": <no digest>";
    }
    var algs := Sort(order);
    SortIsCanonical(order, s.digests);
    var pairs := RenderPairs(algs, s.digests);
    line := s.name + ": " + Joined(pairs);
  }

  method RenderPairs(algs: seq<string>, m: map<string, string>) returns (pairs: seq<string>)
    requires forall i :: 0 <= i < |algs| ==> algs[i] in m
    ensures pairs == Pairs(algs, m)
  {
    pairs := [];
    for k := 0 to |algs|
      invariant pairs == Pairs(algs[..k], m)
    {
      assert algs[..k + 1][..k] == algs[..k];
      pairs := pairs + [Pair(algs[k], m)];
    }
    assert algs[..|algs|] == algs;
  }
}
