/** The order std::string's operator< uses: lexicographic, character by
    character, a proper prefix before any of its extensions. Both the
    write-in multimap and the composite (key, value) tag index are ordered
    by it. */
module StringOrder {

  /** a sorts strictly before b. */
  predicate Less(a: string, b: string)
    decreases |a|
  {
    if |a| == 0 then |b| > 0
    else if |b| == 0 then false
    else a[0] < b[0] || (a[0] == b[0] && Less(a[1..], b[1..]))
  }

  lemma {:induction false} LessIrreflexive(a: string)
    ensures !Less(a, a)
    decreases |a|
  {
    if |a| > 0 {
      LessIrreflexive(a[1..]);
    }
  }

  lemma {:induction false} LessTransitive(a: string, b: string, c: string)
    requires Less(a, b) && Less(b, c)
    ensures Less(a, c)
    decreases |a|
  {
    if |a| > 0 {
      assert |b| > 0 && |c| > 0;
      if a[0] == b[0] && b[0] == c[0] {
        LessTransitive(a[1..], b[1..], c[1..]);
      }
    }
  }

  /** Any two strings are equal or comparable: the order is total. */
  lemma {:induction false} LessTotal(a: string, b: string)
    ensures a == b || Less(a, b) || Less(b, a)
    decreases |a|
  {
    if |a| > 0 && |b| > 0 && a[0] == b[0] {
      LessTotal(a[1..], b[1..]);
      if a[1..] == b[1..] {
        assert a == [a[0]] + a[1..] && b == [b[0]] + b[1..];
      }
    }
  }

  /** Each element sorts strictly before every later one: ascending, no repeats. */
  ghost predicate StrictlyAscending(s: seq<string>)
  {
    forall i, j :: 0 <= i < j < |s| ==> Less(s[i], s[j])
  }

  lemma {:induction false} AscendingHasNoRepeats(s: seq<string>, i: int, j: int)
    requires StrictlyAscending(s)
    requires 0 <= i < |s| && 0 <= j < |s| && i != j
    ensures s[i] != s[j]
  {
    if i < j {
      LessIrreflexive(s[i]);
    } else {
      LessIrreflexive(s[j]);
    }
  }
}
