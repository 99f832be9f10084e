/** String functions shared by the policy rules, the attempt trail and the PEM witness,
    with the laws that relate cutting a string at a separator to gluing it back. */
module Text {

  /** `tail` is the end of `whole`. */
  predicate IsSuffix<T(==)>(tail: seq<T>, whole: seq<T>) {
    |tail| <= |whole| && whole[|whole| - |tail|..] == tail
  }

  /** Position of the first occurrence of `t` in `s`, or -1. */
  function IndexOf(s: string, t: string): (p: int)
    ensures p == -1 || 0 <= p <= |s| - |t|
  {
    if |s| < |t| then -1
    else if s[..|t|] == t then 0
    else if s == [] then -1
    else
      var p := IndexOf(s[1..], t);
      if p < 0 then -1 else p + 1
  }

  lemma {:induction false} IndexOfFinds(s: string, t: string)
    requires IndexOf(s, t) >= 0
    ensures var p := IndexOf(s, t); s[p..p + |t|] == t
  {
    if s[..|t|] != t {
      IndexOfFinds(s[1..], t);
      var p := IndexOf(s[1..], t);
      assert s[1..][p..p + |t|] == s[p + 1..p + 1 + |t|];
    }
  }

  /** `IndexOf` answers the least position: nothing earlier matches, and -1 means nothing matches. */
  lemma {:induction false} IndexOfIsFirst(s: string, t: string, k: nat)
    requires k + |t| <= |s| && s[k..k + |t|] == t
    ensures 0 <= IndexOf(s, t) <= k
  {
    if s[..|t|] != t {
      assert k > 0;
      assert s[1..][k - 1..k - 1 + |t|] == s[k..k + |t|];
      IndexOfIsFirst(s[1..], t, k - 1);
    }
  }

  /** The pieces of `s` between occurrences of `sep`; always at least one piece. */
  function Split(s: string, sep: char): (parts: seq<string>)
    ensures |parts| > 0
  {
    if s == [] then [""]
    else
      var rest := Split(s[1..], sep);
      if s[0] == sep then [""] + rest
      else [[s[0]] + rest[0]] + rest[1..]
  }

  function Join(parts: seq<string>, sep: char): string {
    if parts == [] then ""
    else if |parts| == 1 then parts[0]
    else parts[0] + [sep] + Join(parts[1..], sep)
  }

  lemma {:induction false} SplitOfPiece(s: string, sep: char)
    requires sep !in s
    ensures Split(s, sep) == [s]
  {
    if s != [] {
      SplitOfPiece(s[1..], sep);
      assert [s[0]] + s[1..] == s;
    }
  }

  lemma {:induction false} SplitOfConcat(a: string, b: string, sep: char)
    ensures Split(a + [sep] + b, sep) == Split(a, sep) + Split(b, sep)
  {
    var s := a + [sep] + b;
    if a == [] {
      assert s[1..] == b;
    } else {
      assert s[1..] == a[1..] + [sep] + b;
      SplitOfConcat(a[1..], b, sep);
    }
  }

  lemma {:induction false} JoinOfConcat(a: seq<string>, b: seq<string>, sep: char)
    requires a != [] && b != []
    ensures Join(a + b, sep) == Join(a, sep) + [sep] + Join(b, sep)
  {
    if |a| == 1 {
      assert (a + b)[1..] == b;
    } else {
      assert (a + b)[1..] == a[1..] + b;
      JoinOfConcat(a[1..], b, sep);
    }
  }

  lemma {:induction false} JoinOfSplit(s: string, sep: char)
    ensures Join(Split(s, sep), sep) == s
  {
    if s != [] {
      JoinOfSplit(s[1..], sep);
      var rest := Split(s[1..], sep);
      if s[0] == sep {
        assert Split(s, sep)[1..] == rest;
      } else {
        assert Split(s, sep)[1..] == rest[1..];
        if |rest| > 1 {
          assert Join(rest, sep) == rest[0] + [sep] + Join(rest[1..], sep);
          assert Join(Split(s, sep), sep) == [s[0]] + rest[0] + [sep] + Join(rest[1..], sep);
        }
      }
    }
  }

  lemma {:induction false} SplitOfJoin(parts: seq<string>, sep: char)
    requires parts != []
    requires forall p :: p in parts ==> sep !in p
    ensures Split(Join(parts, sep), sep) == parts
  {
    SplitOfPiece(parts[0], sep);
    if |parts| > 1 {
      SplitOfConcat(parts[0], Join(parts[1..], sep), sep);
      SplitOfJoin(parts[1..], sep);
    }
  }

  lemma SegmentsOfSuffix(u: string, r: string, sep: char)
    requires IsSuffix([sep] + r, u)
    ensures |Split(u, sep)| > |Split(r, sep)| && IsSuffix(Split(r, sep), Split(u, sep))
  {
    var a := u[..|u| - |r| - 1];
    assert u == a + ([sep] + r) == a + [sep] + r;
    SplitOfConcat(a, r, sep);
  }

  lemma SuffixOfConcat(a: string, b: string, c: string)
    ensures IsSuffix(b + c, a + b + c)
  {
    assert a + b + c == a + (b + c);
  }

  lemma SuffixOfSegments(u: string, r: string, sep: char)
    requires |Split(u, sep)| > |Split(r, sep)| && IsSuffix(Split(r, sep), Split(u, sep))
    ensures IsSuffix([sep] + r, u)
  {
    var us, rs := Split(u, sep), Split(r, sep);
    var a := us[..|us| - |rs|];
    assert us == a + rs;
    JoinOfConcat(a, rs, sep);
    JoinOfSplit(u, sep);
    JoinOfSplit(r, sep);
    SuffixOfConcat(Join(a, sep), [sep], r);
  }

  /** The suffix test with a leading separator is exactly a test on whole segments: for all strings,
      `u` ends with separator-then-`r` when and only when `u` has more segments than `r` and ends with
      the segments of `r`. */
  lemma SuffixIsSegmentSuffix(u: string, r: string, sep: char)
    ensures IsSuffix([sep] + r, u) <==>
            |Split(u, sep)| > |Split(r, sep)| && IsSuffix(Split(r, sep), Split(u, sep))
  {
    if IsSuffix([sep] + r, u) {
      SegmentsOfSuffix(u, r, sep);
    } else if |Split(u, sep)| > |Split(r, sep)| && IsSuffix(Split(r, sep), Split(u, sep)) {
      SuffixOfSegments(u, r, sep);
    }
  }
}
