/** Strings: the order Postgres sorts hexes in, and strings.Join and strings.Split on one separator. */
module Text {

  datatype Option<+T> = None | Some(value: T)

  /** Lexicographic order by character. */
  predicate Less(a: string, b: string) {
    if a == [] || b == [] then a == [] && b != []
    else a[0] < b[0] || (a[0] == b[0] && Less(a[1..], b[1..]))
  }

  lemma {:induction false} LessTrichotomy(a: string, b: string)
    ensures Less(a, b) || Less(b, a) || a == b
    ensures !(Less(a, b) && Less(b, a))
    ensures a == b ==> !Less(a, b)
  {
    if a != [] && b != [] {
      LessTrichotomy(a[1..], b[1..]);
      assert a == [a[0]] + a[1..] && b == [b[0]] + b[1..];
    }
  }

  lemma {:induction false} LessTransitive(a: string, b: string, c: string)
    requires Less(a, b) && Less(b, c)
    ensures Less(a, c)
  {
    if a != [] && a[0] == b[0] == c[0] {
      LessTransitive(a[1..], b[1..], c[1..]);
    }
  }

  /** Alphabetical order: the first difference decides, and a prefix comes before what it starts. */
  predicate DiffersBelow(a: string, b: string, n: nat) {
    n <= |a| && n < |b| && a[..n] == b[..n] && (n == |a| || a[n] < b[n])
  }

  lemma {:induction false} LessIsAlphabetical(a: string, b: string)
    ensures Less(a, b) <==> exists n :: DiffersBelow(a, b, n)
  {
    if a != [] && b != [] {
      LessIsAlphabetical(a[1..], b[1..]);
      if n :| DiffersBelow(a[1..], b[1..], n) { DiffersFurther(a, b, n); }
      if n :| DiffersBelow(a, b, n) {
        if n > 0 { DiffersSooner(a, b, n); }
      }
    }
    if a == [] && b != [] { assert DiffersBelow(a, b, 0); }
    if a != [] && b != [] && a[0] < b[0] { assert DiffersBelow(a, b, 0); }
  }

  lemma {:induction false} DiffersFurther(a: string, b: string, n: nat)
    requires a != [] && b != [] && DiffersBelow(a[1..], b[1..], n)
    ensures a[0] == b[0] ==> DiffersBelow(a, b, n + 1)
  {
    if a[0] == b[0] {
      assert a[..n + 1] == [a[0]] + a[1..][..n];
      assert b[..n + 1] == [b[0]] + b[1..][..n];
    }
  }

  lemma {:induction false} DiffersSooner(a: string, b: string, n: nat)
    requires a != [] && b != [] && n > 0 && DiffersBelow(a, b, n)
    ensures a[0] == b[0] && DiffersBelow(a[1..], b[1..], n - 1)
  {
    assert a[..n][0] == a[0] && b[..n][0] == b[0];
    assert a[1..][..n - 1] == a[..n][1..];
    assert b[1..][..n - 1] == b[..n][1..];
  }

  function Join(parts: seq<string>, sep: char): string
    requires parts != []
  {
    if |parts| == 1 then parts[0] else parts[0] + [sep] + Join(parts[1..], sep)
  }

  /** The characters before the first `sep`, all of them when there is none. */
  function Head(s: string, sep: char): (h: string)
    ensures h <= s && sep !in h
    ensures |h| < |s| ==> s[|h|] == sep
  {
    if s == [] || s[0] == sep then [] else [s[0]] + Head(s[1..], sep)
  }

  function Split(s: string, sep: char): (parts: seq<string>)
    ensures parts != []
    decreases |s|
  {
    var h := Head(s, sep);
    if h == s then [s] else [h] + Split(s[|h| + 1..], sep)
  }

  lemma {:induction false} HeadOfJoined(h: string, rest: string, sep: char)
    requires sep !in h
    ensures Head(h, sep) == h
    ensures Head(h + [sep] + rest, sep) == h
  {
    if h != [] {
      HeadOfJoined(h[1..], rest, sep);
      assert (h + [sep] + rest)[1..] == h[1..] + [sep] + rest;
    }
  }

  /** Splitting takes a join apart exactly when no part holds the separator. */
  lemma {:induction false} SplitJoin(parts: seq<string>, sep: char)
    requires parts != []
    ensures Split(Join(parts, sep), sep) == parts <==> forall p | p in parts :: sep !in p
  {
    if forall p | p in parts :: sep !in p {
      SplitOfJoin(parts, sep);
    } else {
      SplitPartsAreClean(Join(parts, sep), sep);
    }
  }

  lemma {:induction false} SplitOfJoin(parts: seq<string>, sep: char)
    requires parts != [] && forall p | p in parts :: sep !in p
    ensures Split(Join(parts, sep), sep) == parts
  {
    if |parts| == 1 {
      HeadOfJoined(parts[0], [], sep);
    } else {
      var rest := Join(parts[1..], sep);
      var s := parts[0] + [sep] + rest;
      HeadOfJoined(parts[0], rest, sep);
      assert s[|parts[0]| + 1..] == rest;
      SplitOfJoin(parts[1..], sep);
    }
  }

  lemma {:induction false} SplitPartsAreClean(s: string, sep: char)
    ensures forall p | p in Split(s, sep) :: sep !in p
    decreases |s|
  {
    var h := Head(s, sep);
    if h != s {
      SplitPartsAreClean(s[|h| + 1..], sep);
    }
  }
}
