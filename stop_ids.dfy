/**
 * The candidate stop list of one run: every stop id of the static schedule,
 * with a specific-stop suffix cut off, deduplicated and sorted as Python
 * sorts strings (by code point).
 */
module StopIds {
  import opened StampText

  /**
   * `re.match(".+:[0-9]{1}", x)`: anchored at the start only, so some ':' at
   * position j >= 1 is followed by a digit and no newline comes before it.
   */
  predicate HasPointSuffix(x: string) {
    exists j :: 1 <= j < |x| - 1 && x[j] == ':' && IsDigit(x[j + 1]) && '\n' !in x[..j]
  }

  /** `x[:-2] if x != '' and re.match(...) else x`. */
  function Canonical(x: string): string {
    if x != "" && HasPointSuffix(x) then x[..|x| - 2] else x
  }

  /** Python's `<` on str: lexicographic by code point, a proper prefix first. */
  predicate Less(a: string, b: string)
    decreases |a|
  {
    if |a| == 0 then |b| > 0
    else if |b| == 0 then false
    else if a[0] != b[0] then a[0] < b[0]
    else Less(a[1..], b[1..])
  }

  predicate StrictlySorted(s: seq<string>) {
    forall i, j :: 0 <= i < j < |s| ==> Less(s[i], s[j])
  }

  lemma {:induction false} LessIrreflexive(a: string)
    ensures !Less(a, a)
    decreases |a|
  {
    if |a| > 0 {
      LessIrreflexive(a[1..]);
    }
  }

  lemma {:induction false} LessTransitive(a: string, b: string, c: string)
    requires Less(a, b) && Less(b, c)
    ensures Less(a, c)
    decreases |a|
  {
    if |a| > 0 && a[0] == b[0] && b[0] == c[0] {
      LessTransitive(a[1..], b[1..], c[1..]);
    }
  }

  lemma {:induction false} LessTotal(a: string, b: string)
    ensures a == b || Less(a, b) || Less(b, a)
    decreases |a|
  {
    if |a| > 0 && |b| > 0 && a[0] == b[0] {
      LessTotal(a[1..], b[1..]);
      if a[1..] == b[1..] {
        assert a == [a[0]] + a[1..] && b == [b[0]] + b[1..];
      }
    }
  }

  lemma {:induction false} LessAsymmetric(a: string, b: string)
    requires Less(a, b)
    ensures !Less(b, a)
  {
    if Less(b, a) {
      LessTransitive(a, b, a);
      LessIrreflexive(a);
    }
  }

  /** Insert x into a strictly sorted list, dropping it when already present. */
  function Insert(x: string, s: seq<string>): (r: seq<string>)
    requires StrictlySorted(s)
    ensures StrictlySorted(r)
    ensures forall y :: y in r <==> y == x || y in s
    decreases |s|
  {
    if |s| == 0 then [x]
    else if x == s[0] then s
    else if Less(x, s[0]) then
      assert forall j :: 0 < j < |s| ==> Less(x, s[j]) by {
        forall j | 0 < j < |s| ensures Less(x, s[j]) { LessTransitive(x, s[0], s[j]); }
      }
      [x] + s
    else
      LessTotal(x, s[0]);
      var t := Insert(x, s[1..]);
      assert forall y :: y in t ==> Less(s[0], y);
      [s[0]] + t
  }

  /** `sorted(set(xs))`: one copy of each element, in increasing order. */
  function SortedSet(xs: seq<string>): (r: seq<string>)
    ensures StrictlySorted(r)
    ensures forall y :: y in r <==> y in xs
    decreases |xs|
  {
    if |xs| == 0 then [] else Insert(xs[|xs| - 1], SortedSet(xs[..|xs| - 1]))
  }

  /** Lines 316-319: the candidate ids, canonicalised, deduplicated and sorted. */
  function Candidates(allStops: seq<string>): (r: seq<string>)
    ensures StrictlySorted(r)
    ensures forall y :: y in r <==> exists i :: 0 <= i < |allStops| && Canonical(allStops[i]) == y
  {
    var canon := seq(|allStops|, i requires 0 <= i < |allStops| => Canonical(allStops[i]));
    assert forall y :: y in canon <==> exists i :: 0 <= i < |allStops| && Canonical(allStops[i]) == y by {
      forall y ensures y in canon <==> exists i :: 0 <= i < |allStops| && Canonical(allStops[i]) == y {
        if exists i :: 0 <= i < |allStops| && Canonical(allStops[i]) == y {
          var i :| 0 <= i < |allStops| && Canonical(allStops[i]) == y;
          assert canon[i] == y;
        }
      }
    }
    SortedSet(canon)
  }

  /** A strictly sorted list holds each element once. */
  lemma SortedIsDistinct(s: seq<string>)
    requires StrictlySorted(s)
    ensures forall i, j :: 0 <= i < j < |s| ==> s[i] != s[j]
  {
    forall i, j | 0 <= i < j < |s| ensures s[i] != s[j] {
      LessIrreflexive(s[i]);
    }
  }

  /**
   * Two strictly sorted lists with the same elements are equal, so SortedSet
   * is Python's `sorted(set(xs))` whatever sort algorithm computes it.
   */
  lemma {:induction false} SortedUnique(a: seq<string>, b: seq<string>)
    requires StrictlySorted(a) && StrictlySorted(b)
    requires forall y :: y in a <==> y in b
    ensures a == b
    decreases |a|
  {
    assert |a| > 0 ==> a[0] in a;
    assert |b| > 0 ==> b[0] in b;
    if |a| > 0 && |b| > 0 {
      if a[0] != b[0] {
        FirstIsLeast(a, b[0]);
        FirstIsLeast(b, a[0]);
        LessAsymmetric(a[0], b[0]);
        assert false;
      }
      assert a[0] == b[0];
      forall y ensures y in a[1..] <==> y in b[1..] {
        if y in a[1..] {
          var i :| 1 <= i < |a| && a[i] == y;
          LessIrreflexive(a[0]);
          assert y != a[0];
          assert y in b;
        }
        if y in b[1..] {
          var i :| 1 <= i < |b| && b[i] == y;
          LessIrreflexive(b[0]);
          assert y != b[0];
          assert y in a;
        }
      }
      SortedUnique(a[1..], b[1..]);
      assert a == [a[0]] + a[1..] && b == [b[0]] + b[1..];
    } else if |a| > 0 || |b| > 0 {
      assert false;
    }
  }

  /** The head of a strictly sorted list is below every other element. */
  lemma FirstIsLeast(s: seq<string>, y: string)
    requires StrictlySorted(s) && y in s && y != s[0]
    ensures Less(s[0], y)
  {
    var j :| 0 <= j < |s| && s[j] == y;
  }

  /** An id "base:d" (base non-empty, no newline) is cut back to its base. */
  lemma CanonicalStripsPoint(base: string, d: char)
    requires base != "" && '\n' !in base && IsDigit(d)
    ensures Canonical(base + ":" + [d]) == base
  {
    var x := base + ":" + [d];
    assert x[|base|] == ':' && x[|base| + 1] == d && x[..|base|] == base;
  }

  /** An id with no ':' is its own canonical form. */
  lemma CanonicalKeepsPlain(x: string)
    requires ':' !in x
    ensures Canonical(x) == x
  {
  }

  /** Only the last two characters are cut, and only after a ':' followed by a digit. */
  lemma CanonicalShape(x: string)
    ensures Canonical(x) == x || (|x| >= 3 && Canonical(x) == x[..|x| - 2] && ':' in x)
  {
    if x != "" && HasPointSuffix(x) {
      var j :| 1 <= j < |x| - 1 && x[j] == ':' && IsDigit(x[j + 1]) && '\n' !in x[..j];
      assert x[j] in x;
    }
  }

  /** Because the pattern is not anchored at the end, "PLAZA:12" becomes "PLAZA:". */
  lemma CanonicalTwoDigitSuffix()
    ensures Canonical("PLAZA:12") == "PLAZA:"
  {
    var x := "PLAZA:12";
    assert x[5] == ':' && IsDigit(x[6]) && '\n' !in x[..5];
  }
}
