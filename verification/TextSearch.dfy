/** First occurrences in text, and markers whose occurrences cannot overlap. */
module TextSearch {
  predicate OccursAt(t: string, p: string, i: int) {
    0 <= i && i + |p| <= |t| && t[i..i + |p|] == p
  }

  lemma {:induction false} HasFirst(t: string, p: string, i: int)
    requires OccursAt(t, p, i)
    ensures exists k :: OccursAt(t, p, k) && forall j :: OccursAt(t, p, j) ==> k <= j
    decreases i
  {
    if j :| 0 <= j < i && OccursAt(t, p, j) {
      HasFirst(t, p, j);
    }
  }

  /** `t.find(p)`: the first place `p` occurs, or -1. */
  ghost function Find(t: string, p: string): (r: int)
    ensures r >= -1
    ensures r >= 0 ==> OccursAt(t, p, r)
    ensures forall j :: OccursAt(t, p, j) ==> 0 <= r <= j
  {
    if i :| OccursAt(t, p, i) then
      HasFirst(t, p, i);
      var k :| OccursAt(t, p, k) && forall j :: OccursAt(t, p, j) ==> k <= j;
      k
    else -1
  }

  /** The search itself, left to right. */
  method FindFirst(t: string, p: string) returns (r: int)
    ensures r == Find(t, p)
  {
    r := 0;
    while r + |p| <= |t|
      invariant 0 <= r
      invariant forall j :: 0 <= j < r ==> !OccursAt(t, p, j)
    {
      if t[r..r + |p|] == p {
        assert OccursAt(t, p, r);
        return;
      }
      r := r + 1;
    }
    r := -1;
  }

  ghost predicate Contains(t: string, p: string) {
    Find(t, p) >= 0
  }

  /** Its first character occurs nowhere else in it, so no two occurrences overlap. */
  predicate IsMarker(p: string) {
    p != "" && forall k :: 0 < k < |p| ==> p[k] != p[0]
  }

  lemma OccursIn(t: string, p: string, i: int, j: int)
    requires OccursAt(t, p, i) && 0 <= j < |p|
    ensures t[i + j] == p[j]
  {
    assert t[i..i + |p|][j] == t[i + j];
  }

  lemma OccursInLeft(a: string, b: string, p: string, i: int)
    requires 0 <= i && i + |p| <= |a|
    ensures OccursAt(a + b, p, i) <==> OccursAt(a, p, i)
  {
    assert (a + b)[i..i + |p|] == a[i..i + |p|];
  }

  lemma OccursInRight(a: string, b: string, p: string, i: int)
    requires i >= |a|
    ensures OccursAt(a + b, p, i) <==> OccursAt(b, p, i - |a|)
  {
    if i + |p| <= |a + b| {
      assert (a + b)[i..i + |p|] == b[i - |a|..i - |a| + |p|];
    }
  }

  /** A marker does not straddle the seam before a text that starts with the marker's own first character. */
  lemma NoStraddle(a: string, b: string, p: string, i: int)
    requires IsMarker(p) && b != "" && b[0] == p[0]
    requires OccursAt(a + b, p, i)
    ensures i + |p| <= |a| || i >= |a|
  {
    assert (a + b)[|a|] == b[0];
    if i < |a| < i + |p| {
      OccursIn(a + b, p, i, |a| - i);
    }
  }

  /** Searching across such a seam: left part first, then the right part. */
  lemma FindAcrossSeam(a: string, b: string, p: string)
    requires IsMarker(p) && b != "" && b[0] == p[0]
    ensures Find(a + b, p) ==
            if Contains(a, p) then Find(a, p) else if Contains(b, p) then |a| + Find(b, p) else -1
  {
    var r := Find(a + b, p);
    if r >= 0 {
      NoStraddle(a, b, p, r);
      if r < |a| { OccursInLeft(a, b, p, r); } else { OccursInRight(a, b, p, r); }
    }
    if Contains(a, p) {
      OccursInLeft(a, b, p, Find(a, p));
    } else if Contains(b, p) {
      OccursInRight(a, b, p, |a| + Find(b, p));
    }
  }

  /** What occurs in a prefix occurs first there. */
  lemma FindInPrefix(a: string, b: string, p: string)
    requires Contains(a, p)
    ensures Find(a + b, p) == Find(a, p)
  {
    OccursInLeft(a, b, p, Find(a, p));
    var r := Find(a + b, p);
    OccursInLeft(a, b, p, r);
  }

  /** A prefix that ends before the first occurrence is complete holds none. */
  lemma PrefixFree(t: string, p: string, n: int)
    requires 0 <= n <= |t|
    requires Contains(t, p) ==> n < Find(t, p) + |p|
    ensures !Contains(t[..n], p)
  {
    assert t == t[..n] + t[n..];
    if Contains(t[..n], p) {
      OccursInLeft(t[..n], t[n..], p, Find(t[..n], p));
    }
  }
}
