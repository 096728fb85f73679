/** The linear test for "at most one edit", against the recursive edit distance. */
module EditDistance {
  import opened Common

  /** The fewest insertions, deletions and replacements of a character that turn `a` into `b`. */
  function Distance(a: string, b: string): nat
    decreases |a| + |b|
  {
    if a == [] then |b|
    else if b == [] then |a|
    else
      Min(Distance(a[1..], b[1..]) + if a[0] == b[0] then 0 else 1,
          1 + Min(Distance(a[1..], b), Distance(a, b[1..])))
  }

  lemma {:induction false} ZeroMeansEqual(a: string, b: string)
    ensures Distance(a, b) == 0 <==> a == b
    decreases |a| + |b|
  {
    if a != [] && b != [] {
      ZeroMeansEqual(a[1..], b[1..]);
      assert a == [a[0]] + a[1..] && b == [b[0]] + b[1..];
    }
  }

  /** Dropping the first character of either side changes the distance by at most one. */
  lemma {:induction false} DroppingCostsOne(a: string, b: string)
    ensures a != [] ==> Distance(a[1..], b) <= Distance(a, b) + 1
    ensures b != [] ==> Distance(a, b[1..]) <= Distance(a, b) + 1
    decreases |a| + |b|
  {
    if a != [] && b != [] {
      DroppingCostsOne(a[1..], b);
      DroppingCostsOne(a, b[1..]);
      DroppingCostsOne(a[1..], b[1..]);
    }
  }

  /** A common first character never costs. */
  lemma EqualHeads(a: string, b: string)
    requires a != [] && b != [] && a[0] == b[0]
    ensures Distance(a, b) == Distance(a[1..], b[1..])
  {
    DroppingCostsOne(a[1..], b);
    DroppingCostsOne(a, b[1..]);
  }

  lemma {:induction false} AtLeastTheDifference(a: string, b: string)
    ensures |a| - |b| <= Distance(a, b) && |b| - |a| <= Distance(a, b)
    decreases |a| + |b|
  {
    if a != [] && b != [] {
      AtLeastTheDifference(a[1..], b[1..]);
      AtLeastTheDifference(a[1..], b);
      AtLeastTheDifference(a, b[1..]);
    }
  }

  /** After the first difference, one edit is enough exactly when the rests agree. */
  lemma DifferentHeads(a: string, b: string)
    requires a != [] && b != [] && a[0] != b[0]
    ensures Distance(a, b) <= 1 <==> a[1..] == b[1..] || a[1..] == b || a == b[1..]
  {
    ZeroMeansEqual(a[1..], b[1..]);
    ZeroMeansEqual(a[1..], b);
    ZeroMeansEqual(a, b[1..]);
  }

  function Differences(a: string, b: string): nat
    requires |a| == |b|
  {
    if a == [] then 0 else (if a[0] == b[0] then 0 else 1) + Differences(a[1..], b[1..])
  }

  lemma {:induction false} NoDifferences(a: string, b: string)
    requires |a| == |b|
    ensures Differences(a, b) == 0 <==> a == b
  {
    if a != [] {
      NoDifferences(a[1..], b[1..]);
      assert a == [a[0]] + a[1..] && b == [b[0]] + b[1..];
    }
  }

  /** Strings of the same length are one edit apart exactly when they differ in one place. */
  lemma {:induction false} SameLengthDistance(a: string, b: string)
    requires |a| == |b|
    ensures Distance(a, b) <= 1 <==> Differences(a, b) <= 1
  {
    if a != [] {
      if a[0] == b[0] {
        EqualHeads(a, b);
        SameLengthDistance(a[1..], b[1..]);
      } else {
        DifferentHeads(a, b);
        NoDifferences(a[1..], b[1..]);
      }
    }
  }

  lemma {:induction false} DistanceIsSymmetric(a: string, b: string)
    ensures Distance(a, b) == Distance(b, a)
    decreases |a| + |b|
  {
    if a != [] && b != [] {
      DistanceIsSymmetric(a[1..], b[1..]);
      DistanceIsSymmetric(a[1..], b);
      DistanceIsSymmetric(a, b[1..]);
    }
  }

  lemma {:induction false} DifferencesByPrefix(a: string, b: string, i: nat)
    requires |a| == |b| && i < |a|
    ensures Differences(a[..i + 1], b[..i + 1]) == Differences(a[..i], b[..i]) + if a[i] == b[i] then 0 else 1
    decreases i
  {
    if i > 0 {
      DifferencesByPrefix(a[1..], b[1..], i - 1);
      assert a[..i + 1][1..] == a[1..][..i] && b[..i + 1][1..] == b[1..][..i];
      assert a[..i][1..] == a[1..][..i - 1] && b[..i][1..] == b[1..][..i - 1];
    }
  }

  method CountDifferences(a: string, b: string) returns (n: nat)
    requires |a| == |b|
    ensures n == Differences(a, b)
  {
    n := 0;
    for i := 0 to |a|
      invariant n == Differences(a[..i], b[..i])
    {
      DifferencesByPrefix(a, b, i);
      if a[i] != b[i] {
        n := n + 1;
      }
    }
    assert a[..|a|] == a && b[..|b|] == b;
  }

  method EditDistanceAtMostOne(left: string, right: string) returns (close: bool)
    ensures close <==> Distance(left, right) <= 1
  {
    hide Distance, Differences;
    AtLeastTheDifference(left, right);
    ZeroMeansEqual(left, right);
    if |left| > |right| + 1 || |right| > |left| + 1 {
      return false;
    }
    if left == right {
      return true;
    }
    if |left| == |right| {
      SameLengthDistance(left, right);
      var n := CountDifferences(left, right);
      return n <= 1;
    }
    if |left| > |right| {
      DistanceIsSymmetric(left, right);
      close := ScanTogether(right, left);
    } else {
      close := ScanTogether(left, right);
    }
  }

  /** Two pointers; once the characters differ, the one in the longer string runs ahead. */
  method ScanTogether(l: string, r: string) returns (close: bool)
    requires |r| == |l| + 1
    ensures close <==> Distance(l, r) <= 1
  {
    hide Distance;
    var index, offset, changes := 0, 0, 0;
    while index < |l| && offset < |r|
      invariant 0 <= index <= |l| && 0 <= changes <= 1 && offset == index + changes
      invariant changes == 0 ==> Distance(l, r) == Distance(l[index..], r[offset..])
      invariant changes == 1 ==> (Distance(l, r) <= 1 <==> l[index..] == r[offset..])
      decreases |r| - offset
    {
      var a, b := l[index..], r[offset..];
      if l[index] == r[offset] {
        CommonHead(a, b);
        index := index + 1;
        offset := offset + 1;
      } else {
        changes := changes + 1;
        if changes > 1 {
          return false;
        }
        LongerRest(a, b);
        // For strings of one length both pointers would advance; such strings never get here.
        if |l| == |r| {
          assert false;
        }
        offset := offset + 1;
      }
    }
    if changes == 0 {
      RestIsLength(r[offset..]);
    }
    close := changes + (|r| - offset) <= 1;
  }

  lemma CommonHead(a: string, b: string)
    requires a != [] && b != [] && a[0] == b[0]
    ensures Distance(a, b) == Distance(a[1..], b[1..]) && (a == b <==> a[1..] == b[1..])
  {
    EqualHeads(a, b);
    assert a == [a[0]] + a[1..] && b == [b[0]] + b[1..];
  }

  lemma LongerRest(a: string, b: string)
    requires a != [] && |b| == |a| + 1 && a[0] != b[0]
    ensures Distance(a, b) <= 1 <==> a == b[1..]
  {
    DifferentHeads(a, b);
  }

  lemma RestIsLength(b: string)
    ensures Distance([], b) == |b|
  {
  }
}
