/**
 The managed block of the `.env` file: one marker-delimited section that the program rewrites
 while everything else in the file belongs to the user.
 */
module EnvFile {
  import opened TextSearch

  datatype Markers = Markers(begin: string, end: string)

  const BEGIN := "# === auth config (managed by DBShield) ==="
  const END := "# === end managed ==="
  const MARKERS := Markers(BEGIN, END)

  /** What rewriting relies on: markers that start alike, span no line and overlap neither themselves nor each other. */
  ghost predicate Fit(m: Markers) {
    && IsMarker(m.begin) && IsMarker(m.end)
    && m.begin[0] == m.end[0] != '\n'
    && '\n' !in m.begin && m.end[|m.end| - 1] != '\n' && |m.begin| > |m.end|
    && exists k :: 0 <= k < |m.begin| && k < |m.end| && m.begin[k] != m.end[k]
  }

  lemma MarkersAreMarkers()
    ensures IsMarker(BEGIN) && IsMarker(END)
    ensures |BEGIN| == 43 && |END| == 21
    ensures BEGIN[0] == END[0] == '#' && END[20] == '=' && BEGIN[6] != END[6]
  {
  }

  lemma BeginIsOneLine()
    ensures '\n' !in BEGIN
  {
  }

  lemma MarkersFit()
    ensures Fit(MARKERS)
  {
    MarkersAreMarkers();
    BeginIsOneLine();
    MarkersFitFrom(BEGIN, END);
  }

  lemma MarkersFitFrom(begin: string, end: string)
    requires IsMarker(begin) && IsMarker(end) && |begin| == 43 && |end| == 21
    requires begin[0] == end[0] == '#' && end[20] == '=' && begin[6] != end[6] && '\n' !in begin
    ensures Fit(Markers(begin, end))
  {
  }

  function StripNewlines(s: string): (r: string)
    ensures r == "" || r[0] != '\n'
    ensures |r| <= |s|
  {
    if s != "" && s[0] == '\n' then StripNewlines(s[1..]) else s
  }

  function Separator(original: string): string {
    if original == "" then "" else if original[|original| - 1] == '\n' then "\n" else "\n\n"
  }

  ghost predicate HasBlock(m: Markers, t: string) {
    Contains(t, m.begin) && Contains(t, m.end)
  }

  /** The text before the first begin marker. */
  ghost function Before(m: Markers, t: string): string
    requires HasBlock(m, t)
  {
    t[..Find(t, m.begin)]
  }

  /** The text after the first end marker. */
  ghost function AfterBlock(m: Markers, t: string): string
    requires HasBlock(m, t)
  {
    t[Find(t, m.end) + |m.end|..]
  }

  /** A block as the program prints it: begin marker first, end marker on its last line. */
  ghost predicate IsFramed(m: Markers, block: string) {
    && OccursAt(block, m.begin, 0) && OccursAt(block, m.end, |block| - |m.end| - 1)
    && block[|block| - 1] == '\n'
  }

  /** And no end marker in front of that. */
  ghost predicate WellFormed(m: Markers, block: string) {
    IsFramed(m, block) && Find(block, m.end) == |block| - |m.end| - 1
  }

  /** No marker at all, or a begin marker ahead of the first end marker: what a reader can check in the file. */
  ghost predicate IsOrderly(m: Markers, t: string) {
    (!Contains(t, m.begin) && !Contains(t, m.end)) || (HasBlock(m, t) && Find(t, m.begin) < Find(t, m.end))
  }

  /** What is read back: from the first begin marker to the end of the first end marker. */
  ghost function Extract(m: Markers, t: string): string {
    if HasBlock(m, t) && Find(t, m.begin) < Find(t, m.end) then t[Find(t, m.begin)..Find(t, m.end) + |m.end|] else ""
  }

  /** Everything in front of the place where the block goes. */
  ghost function Head(m: Markers, t: string): string {
    if HasBlock(m, t) then Before(m, t) else t + Separator(t)
  }

  ghost function Tail(m: Markers, t: string): string {
    if HasBlock(m, t) then StripNewlines(AfterBlock(m, t)) else ""
  }

  /** The new file content: the block between what comes before and what stays behind it. */
  ghost function Rewritten(m: Markers, original: string, block: string): string {
    Head(m, original) + block + Tail(m, original)
  }

  lemma SeparatorHidesNoMarker(m: Markers, t: string, p: string)
    requires Fit(m)
    requires p == m.begin || p == m.end
    ensures Find(t + Separator(t), p) == Find(t, p)
  {
    var sep := Separator(t);
    if Contains(t, p) {
      FindInPrefix(t, sep, p);
    } else if Contains(t + sep, p) {
      var i := Find(t + sep, p);
      if i + |p| <= |t| {
        OccursInLeft(t, sep, p, i);
      } else {
        OccursIn(t + sep, p, i, |p| - 1);
      }
    }
  }

  /** The two markers share no character. */
  lemma EndBeforeBegin(m: Markers, t: string, b: int, e: int)
    requires Fit(m)
    requires OccursAt(t, m.begin, b) && OccursAt(t, m.end, e) && e <= b
    ensures e + |m.end| <= b
  {
    var k :| 0 <= k < |m.begin| && k < |m.end| && m.begin[k] != m.end[k];
    OccursIn(t, m.begin, b, 0);
    if b == e {
      OccursIn(t, m.begin, b, k);
      OccursIn(t, m.end, e, k);
    } else if b < e + |m.end| {
      OccursIn(t, m.end, e, b - e);
    }
  }

  /** In an orderly file no marker is left in front of the block. */
  lemma HeadIsFreeIff(m: Markers, t: string)
    requires Fit(m)
    ensures !Contains(Head(m, t), m.begin) && !Contains(Head(m, t), m.end) <==> IsOrderly(m, t)
  {
    if HasBlock(m, t) {
      PrefixFree(t, m.begin, Find(t, m.begin));
      var b, e := Find(t, m.begin), Find(t, m.end);
      if b < e {
        PrefixFree(t, m.end, b);
      } else {
        assert t == t[..b] + t[b..];
        EndBeforeBegin(m, t, b, e);
        OccursInLeft(t[..b], t[b..], m.end, e);
      }
    } else {
      SeparatorHidesNoMarker(m, t, m.begin);
      SeparatorHidesNoMarker(m, t, m.end);
    }
  }

  /** Stripping takes line breaks from the front, and nothing else. */
  lemma {:induction false} StrippedMeaning(s: string)
    ensures var r := StripNewlines(s);
            && |r| <= |s| && s[|s| - |r|..] == r && (forall i :: 0 <= i < |s| - |r| ==> s[i] == '\n')
            && (r == "" || r[0] != '\n')
  {
    if s != "" && s[0] == '\n' {
      StrippedMeaning(s[1..]);
    }
  }

  lemma StripTwice(s: string)
    ensures StripNewlines("\n" + StripNewlines(s)) == StripNewlines(s)
  {
    var u := "\n" + StripNewlines(s);
    assert u[1..] == StripNewlines(s);
  }

  lemma {:induction false} StripKeepsFrom(a: string, b: string)
    requires b != "" && b[0] != '\n'
    ensures var r := StripNewlines(a + b);
            |r| >= |b| && r[|r| - |b|..] == b
  {
    if a == "" {
      assert a + b == b;
    } else if a[0] == '\n' {
      assert (a + b)[1..] == a[1..] + b;
      StripKeepsFrom(a[1..], b);
    }
  }

  // ---- Assembled text: head, block, tail -------------------------------------------------------

  /** Where the first marker `p` of an assembled text is. */
  lemma MarkerAssembled(p: string, head: string, block: string, tail: string)
    requires IsMarker(p) && Contains(block, p) && block[0] == p[0]
    ensures Find(head + block + tail, p) == if Contains(head, p) then Find(head, p) else |head| + Find(block, p)
  {
    assert head + block + tail == head + (block + tail);
    FindAcrossSeam(head, block + tail, p);
    FindInPrefix(block, tail, p);
  }

  lemma MarkersAssembled(m: Markers, head: string, block: string, tail: string, out: string)
    requires Fit(m) && IsFramed(m, block) && out == head + block + tail
    ensures HasBlock(m, out)
    ensures Find(out, m.begin) == if Contains(head, m.begin) then Find(head, m.begin) else |head|
    ensures Find(out, m.end) == if Contains(head, m.end) then Find(head, m.end) else |head| + Find(block, m.end)
    ensures 0 < Find(block, m.end) <= |block| - |m.end| - 1
  {
    OccursIn(block, m.begin, 0, 0);
    assert Find(block, m.begin) == 0;
    MarkerAssembled(m.begin, head, block, tail);
    MarkerAssembled(m.end, head, block, tail);
    if Find(block, m.end) == 0 {
      EndBeforeBegin(m, block, 0, 0);
    }
  }

  /** Cutting an assembled text at its seams gives the parts back. */
  lemma PartsOf(head: string, block: string, tail: string, e: nat)
    requires block != "" && block[|block| - 1] == '\n' && e == |head| + |block| - 1
    ensures var out := head + block + tail;
            out[..|head|] == head && out[|head|..e] == block[..|block| - 1] && out[e..] == "\n" + tail
  {
  }

  /** No marker in the head: everything is found where it was put. */
  lemma CleanHead(m: Markers, head: string, block: string, tail: string, out: string)
    requires Fit(m) && WellFormed(m, block) && out == head + block + tail
    requires !Contains(head, m.begin) && !Contains(head, m.end)
    ensures HasBlock(m, out) && IsOrderly(m, out)
    ensures Before(m, out) == head && AfterBlock(m, out) == "\n" + tail
    ensures Extract(m, out) == block[..|block| - 1]
  {
    MarkersAssembled(m, head, block, tail, out);
    var cut := |head| + |block| - 1;
    ValuesAt(m, out, |head|, cut - |m.end|);
    PartsOf(head, block, tail, cut);
  }

  lemma SuffixKeepsBlock(head: string, block: string, tail: string, out: string, e: nat)
    requires e <= |head| && block != "" && block[0] != '\n' && out == head + block + tail
    ensures |StripNewlines(out[e..])| >= |block| + |tail|
  {
    assert out[e..] == head[e..] + (block + tail);
    StripKeepsFrom(head[e..], block + tail);
  }

  lemma ValuesAt(m: Markers, out: string, b: nat, e: nat)
    requires HasBlock(m, out) && Find(out, m.begin) == b && Find(out, m.end) == e
    ensures Before(m, out) == out[..b] && AfterBlock(m, out) == out[e + |m.end|..]
    ensures Extract(m, out) == if b < e then out[b..e + |m.end|] else ""
  {
  }

  /** An end marker in the head: the whole block is read back as text behind it. */
  lemma StrayEnd(m: Markers, head: string, block: string, tail: string, out: string)
    requires Fit(m) && IsFramed(m, block) && out == head + block + tail
    requires !Contains(head, m.begin) && Contains(head, m.end)
    ensures HasBlock(m, out)
    ensures |Before(m, out)| == |head| && |StripNewlines(AfterBlock(m, out))| >= |block| + |tail|
    ensures Extract(m, out) == ""
  {
    MarkersAssembled(m, head, block, tail, out);
    OccursIn(block, m.begin, 0, 0);
    EndFirst(m, head, block, tail, out, Find(head, m.end));
  }

  lemma EndFirst(m: Markers, head: string, block: string, tail: string, out: string, e: nat)
    requires HasBlock(m, out) && Find(out, m.begin) == |head| && Find(out, m.end) == e && e + |m.end| <= |head|
    requires block != "" && block[0] != '\n' && out == head + block + tail
    ensures |Before(m, out)| == |head| && |StripNewlines(AfterBlock(m, out))| >= |block| + |tail|
    ensures Extract(m, out) == ""
  {
    SuffixKeepsBlock(head, block, tail, out, e + |m.end|);
  }

  /** A begin marker in the head: the head is cut short there. */
  lemma StrayBegin(m: Markers, head: string, block: string, tail: string, out: string)
    requires Fit(m) && WellFormed(m, block) && out == head + block + tail
    requires Contains(head, m.begin) && !Contains(head, m.end)
    ensures HasBlock(m, out)
    ensures |Before(m, out)| < |head| && AfterBlock(m, out) == "\n" + tail
  {
    MarkersAssembled(m, head, block, tail, out);
    var b, end := Find(head, m.begin), |head| + |block| - 1;
    ValuesAt(m, out, b, end - |m.end|);
    PartsOf(head, block, tail, end);
    assert b < |head|;
  }

  /** What is read back then is not the block: its first end marker would be too far to the left. */
  lemma StrayBeginMisreads(m: Markers, head: string, block: string, tail: string, out: string)
    requires Fit(m) && IsFramed(m, block) && out == head + block + tail
    requires Contains(head, m.begin) && !Contains(head, m.end)
    ensures Extract(m, out) != block[..|block| - 1]
  {
    MarkersAssembled(m, head, block, tail, out);
    EndTooFarLeft(m, out, Find(head, m.begin), |head|, block, Find(block, m.end));
  }

  lemma EndTooFarLeft(m: Markers, out: string, b: nat, h: nat, block: string, f: nat)
    requires HasBlock(m, out) && Find(out, m.begin) == b && Find(out, m.end) == h + f && b < h
    requires OccursAt(block, m.end, f) && f + |m.end| < |block|
    ensures Extract(m, out) != block[..|block| - 1]
  {
    if Extract(m, out) == block[..|block| - 1] {
      SliceOccurs(out, b, h + f + |m.end|, block, |block| - 1, m.end, f);
    }
  }

  lemma SliceOccurs(out: string, b: nat, e: nat, block: string, n: nat, p: string, f: nat)
    requires b <= e <= |out| && n <= |block| && out[b..e] == block[..n]
    requires OccursAt(block, p, f) && f + |p| <= n
    ensures OccursAt(out, p, b + f)
  {
    forall j | 0 <= j < |p|
      ensures out[b + f + j] == p[j]
    {
      OccursIn(block, p, f, j);
      assert out[b..e][f + j] == out[b + f + j] && block[..n][f + j] == block[f + j];
    }
  }

  predicate EndsWith(s: string, suffix: string) {
    |s| >= |suffix| && s[|s| - |suffix|..] == suffix
  }

  lemma SuffixAcross(head: string, block: string, tail: string, out: string, k: nat)
    requires out == head + block + tail && k <= |block|
    ensures out[|head| + k..] == block[k..] + tail
  {
  }

  /** With the first end marker at `f` of the block, what follows it there is text behind the block. */
  lemma AfterEarlyEnd(m: Markers, head: string, block: string, tail: string, out: string, f: nat)
    requires out == head + block + tail && HasBlock(m, out)
    requires Find(out, m.end) == |head| + f && f + |m.end| <= |block|
    ensures AfterBlock(m, out) == block[f + |m.end|..] + tail
  {
    SuffixAcross(head, block, tail, out, f + |m.end|);
  }

  /** Behind an early end marker follows the last one. */
  lemma RestOfBroken(m: Markers, block: string, tail: string, f: nat)
    requires Fit(m) && IsFramed(m, block)
    requires OccursAt(block, m.end, f) && f < |block| - |m.end| - 1
    ensures f + |m.end| <= |block| - |m.end| - 1
    ensures EndsWith(StripNewlines(block[f + |m.end|..] + tail), m.end + "\n" + tail)
  {
    var n := |block| - |m.end| - 1;
    if n < f + |m.end| {
      OccursIn(block, m.end, f, n - f);
      OccursIn(block, m.end, n, 0);
    }
    LastLine(m, block, n);
    var early, last := block[f + |m.end|..n], m.end + "\n" + tail;
    assert block[f + |m.end|..] + tail == early + last;
    assert last[0] == m.end[0];
    StripKeepsFrom(early, last);
  }

  lemma LastLine(m: Markers, block: string, n: nat)
    requires IsFramed(m, block) && n == |block| - |m.end| - 1
    ensures block[n..] == m.end + "\n"
  {
  }

  /** An end marker ahead of the last line: the block is read back short, and its rest as text behind it. */
  lemma BrokenBlock(m: Markers, head: string, block: string, tail: string, out: string)
    requires Fit(m) && IsFramed(m, block) && !WellFormed(m, block) && out == head + block + tail
    requires !Contains(head, m.begin) && !Contains(head, m.end)
    ensures HasBlock(m, out) && |Before(m, out)| == |head|
    ensures |StripNewlines(AfterBlock(m, out))| > |tail|
    ensures |Extract(m, out)| < |block| - 1
  {
    var f := Find(block, m.end);
    MarkersAssembled(m, head, block, tail, out);
    AfterEarlyEnd(m, head, block, tail, out, f);
    RestOfBroken(m, block, tail, f);
    BrokenLengths(m, |head|, out, f);
  }

  lemma BrokenLengths(m: Markers, b: nat, out: string, f: nat)
    requires HasBlock(m, out) && Find(out, m.begin) == b && Find(out, m.end) == b + f && f > 0
    ensures |Before(m, out)| == b && |Extract(m, out)| == f + |m.end|
  {
  }

  lemma LastOccurs(s: string, p: string)
    requires EndsWith(s, p + "\n")
    ensures OccursAt(s, p, |s| - |p| - 1) && s[|s| - 1] == '\n'
  {
    var k := |s| - |p| - 1;
    assert s[k..][..|p|] == p && s[k..][|p|] == '\n';
    assert s[k..k + |p|] == s[k..][..|p|];
  }

  lemma EndOfEnd(a: string, b: string, p: string)
    requires EndsWith(a + b, p) && |b| >= |p|
    ensures EndsWith(b, p)
  {
    assert (a + b)[|a + b| - |p|..] == b[|b| - |p|..];
  }

  lemma ShiftByOne(w: string, r: string, b: string)
    requires b + r == w + b && |b| >= |w|
    ensures b[|w|..] + r == w + b[|w|..]
  {
    var rest := b[|w|..];
    assert b[..|w|] == (b + r)[..|w|] == w;
    assert b == w + rest;
    assert (b + r)[|w|..] == rest + r;
    assert (w + b)[|w|..] == w + rest;
  }

  lemma SplitShort(w: string, r: string, b: string)
    requires b + r == w + b && |b| < |w|
    ensures w[..|b|] == b && r == w[|b|..] + b
  {
    assert w[..|b|] == (w + b)[..|b|] == (b + r)[..|b|] == b;
    assert r == (b + r)[|b|..] == (w + b)[|b|..] == w[|b|..] + b;
  }

  /** If `b` + `r` is `w` + `b`, the end marker at the end of `r` occurs in `w`. */
  lemma {:induction false} ShiftedMarker(m: Markers, w: string, r: string, b: string)
    requires Fit(m) && OccursAt(w, m.begin, 0) && b + r == w + b && EndsWith(r, m.end + "\n")
    ensures Contains(w, m.end)
    decreases |b|
  {
    assert |w| == |r|;
    if |b| >= |w| {
      ShiftByOne(w, r, b);
      ShiftedMarker(m, w, r, b[|w|..]);
    } else {
      SplitShort(w, r, b);
      ShortShift(m, w, r, b);
    }
  }

  lemma ShortShift(m: Markers, w: string, r: string, b: string)
    requires Fit(m) && OccursAt(w, m.begin, 0) && EndsWith(r, m.end + "\n")
    requires |b| < |w| && w[..|b|] == b && r == w[|b|..] + b
    ensures Contains(w, m.end)
  {
    LastOccurs(r, m.end);
    assert w == b + w[|b|..];
    assert b != "" ==> w[|b| - 1] == b[|b| - 1] == r[|r| - 1];
    if b == "" {
      assert r == w;
    } else if |b| > |m.end| {
      EndOfEnd(w[|b|..], b, m.end + "\n");
      LastOccurs(b, m.end);
      OccursInLeft(b, w[|b|..], m.end, |b| - |m.end| - 1);
    } else {
      OccursIn(w, m.begin, 0, |b| - 1);
    }
  }

  // ---- The laws ---------------------------------------------------------------------------------

  /** In a file that is not orderly exactly one of the markers is left in front of the block. */
  lemma StrayMarker(m: Markers, t: string)
    requires Fit(m) && !IsOrderly(m, t)
    ensures Contains(Head(m, t), m.begin) <==> !Contains(Head(m, t), m.end)
    ensures Contains(Head(m, t), m.begin) ==> !HasBlock(m, t)
  {
    HeadIsFreeIff(m, t);
    if HasBlock(m, t) {
      PrefixFree(t, m.begin, Find(t, m.begin));
    } else {
      SeparatorHidesNoMarker(m, t, m.begin);
      SeparatorHidesNoMarker(m, t, m.end);
    }
  }

  /** Put-get: a block is read back, without its final newline, exactly in orderly files and if well formed. */
  lemma ExtractAfterRewriteIff(m: Markers, t: string, block: string)
    requires Fit(m) && IsFramed(m, block)
    ensures Extract(m, Rewritten(m, t, block)) == block[..|block| - 1] <==> IsOrderly(m, t) && WellFormed(m, block)
  {
    var head, tail, out := Head(m, t), Tail(m, t), Rewritten(m, t, block);
    if IsOrderly(m, t) {
      HeadIsFreeIff(m, t);
      if WellFormed(m, block) {
        CleanHead(m, head, block, tail, out);
      } else {
        BrokenBlock(m, head, block, tail, out);
      }
    } else {
      StrayMarker(m, t);
      if Contains(head, m.begin) {
        StrayBeginMisreads(m, head, block, tail, out);
      } else {
        StrayEnd(m, head, block, tail, out);
      }
    }
  }

  lemma StripTail(m: Markers, t: string)
    ensures StripNewlines("\n" + Tail(m, t)) == Tail(m, t)
  {
    if HasBlock(m, t) {
      StripTwice(AfterBlock(m, t));
    } else {
      StripTwice("");
    }
  }

  /** The user's text survives, verbatim before the block, up to leading newlines behind it; the file stays orderly. */
  lemma UserTextSurvives(m: Markers, t: string, block: string)
    requires Fit(m) && WellFormed(m, block) && IsOrderly(m, t)
    ensures var out := Rewritten(m, t, block);
            && HasBlock(m, out) && IsOrderly(m, out)
            && Before(m, out) == (if HasBlock(m, t) then Before(m, t) else t + Separator(t))
            && StripNewlines(AfterBlock(m, out)) == (if HasBlock(m, t) then StripNewlines(AfterBlock(m, t)) else "")
  {
    HeadIsFreeIff(m, t);
    CleanHead(m, Head(m, t), block, Tail(m, t), Rewritten(m, t, block));
    StripTail(m, t);
  }

  /** A stray begin marker cuts the head: no second block makes up for what is lost. */
  lemma StrayBeginLoses(m: Markers, head: string, b1: string, b2: string, out: string)
    requires Fit(m) && IsFramed(m, b1) && out == head + b1 + ""
    requires Contains(head, m.begin) && !Contains(head, m.end)
    ensures HasBlock(m, out) && Before(m, out) + b2 + StripNewlines(AfterBlock(m, out)) != head + b2
  {
    if WellFormed(m, b1) {
      StrayBegin(m, head, b1, "", out);
      StripTwice("");
      assert |Before(m, out) + b2 + StripNewlines(AfterBlock(m, out))| < |head + b2|;
    } else {
      BrokenBehindStray(m, head, b1, out);
      if Before(m, out) + b2 + StripNewlines(AfterBlock(m, out)) == head + b2 {
        HeadAgainstRest(m, head, Find(head, m.begin), b2, StripNewlines(AfterBlock(m, out)));
      }
    }
  }

  lemma BrokenBehindStray(m: Markers, head: string, b1: string, out: string)
    requires Fit(m) && IsFramed(m, b1) && !WellFormed(m, b1) && out == head + b1 + ""
    requires Contains(head, m.begin) && !Contains(head, m.end)
    ensures HasBlock(m, out) && Before(m, out) == head[..Find(head, m.begin)]
    ensures EndsWith(StripNewlines(AfterBlock(m, out)), m.end + "\n")
  {
    var f := Find(b1, m.end);
    MarkersAssembled(m, head, b1, "", out);
    AfterEarlyEnd(m, head, b1, "", out, f);
    RestOfBroken(m, b1, "", f);
    assert m.end + "\n" + "" == m.end + "\n";
    assert out == head + b1;
    PrefixAcross(head, b1, out, Find(head, m.begin));
  }

  lemma PrefixAcross(head: string, rest: string, out: string, b: nat)
    requires out == head + rest && b <= |head|
    ensures out[..b] == head[..b]
  {
  }

  lemma HeadAgainstRest(m: Markers, head: string, b: nat, b2: string, rest: string)
    requires Fit(m) && OccursAt(head, m.begin, b) && head[..b] + b2 + rest == head + b2
    requires EndsWith(rest, m.end + "\n")
    ensures Contains(head, m.end)
  {
    var front, w := head[..b], head[b..];
    assert head == front + w;
    assert (front + b2 + rest)[b..] == b2 + rest;
    assert (head + b2)[b..] == w + b2;
    OccursInRight(front, w, m.begin, b);
    ShiftedMarker(m, w, rest, b2);
    OccursInRight(front, w, m.end, b + Find(w, m.end));
  }

  /**
   Put-put: the second rewrite, whatever its text, wins outright, exactly in orderly files and after
   a well-formed first block.
   */
  lemma SecondRewriteWinsIff(m: Markers, t: string, b1: string, b2: string)
    requires Fit(m) && IsFramed(m, b1)
    ensures Rewritten(m, Rewritten(m, t, b1), b2) == Rewritten(m, t, b2) <==> IsOrderly(m, t) && WellFormed(m, b1)
  {
    var head, tail, out := Head(m, t), Tail(m, t), Rewritten(m, t, b1);
    if IsOrderly(m, t) {
      HeadIsFreeIff(m, t);
      if WellFormed(m, b1) {
        CleanHead(m, head, b1, tail, out);
        StripTail(m, t);
        assert Head(m, out) == head && Tail(m, out) == tail;
      } else {
        BrokenBlock(m, head, b1, tail, out);
        assert |Head(m, out)| + |b2| + |Tail(m, out)| != |head| + |b2| + |tail|;
      }
    } else {
      StrayMarker(m, t);
      if Contains(head, m.begin) {
        StrayBeginLoses(m, head, b1, b2, out);
        assert head + b2 + tail == head + b2;
      } else {
        StrayEnd(m, head, b1, tail, out);
        assert |Head(m, out)| + |b2| + |Tail(m, out)| != |head| + |b2| + |tail|;
      }
    }
  }

  /** A file without a block keeps its text, and the block comes after a blank line. */
  lemma AppendedMeaning(m: Markers, t: string, block: string)
    requires !HasBlock(m, t)
    ensures Rewritten(m, t, block)
         == if t == "" then block
            else if t[|t| - 1] == '\n' then t + "\n" + block
            else t + "\n" + "\n" + block
  {
    AppendedParts(m, t, block);
    if t == "" {
      assert t + "" + block == block;
    } else if t[|t| - 1] != '\n' {
      assert t + "\n\n" + block == t + "\n" + "\n" + block;
    }
  }

  lemma BackInPlace(t: string, b: nat, e: nat, tail: string)
    requires b <= e <= |t|
    ensures t[..b] + (t[b..e] + "\n") + tail == t <==> t[e..] == "\n" + tail
  {
    var out := t[..b] + (t[b..e] + "\n") + tail;
    assert out == t[..e] + ("\n" + tail);
    assert t == t[..e] + t[e..];
    assert out[e..] == "\n" + tail;
  }

  /** Get-put: writing back the block found changes nothing exactly when one newline, and no more, follows it. */
  lemma WritingBackIsIdleIff(m: Markers, t: string)
    requires HasBlock(m, t) && IsOrderly(m, t)
    ensures Rewritten(m, t, Extract(m, t) + "\n") == t <==> AfterBlock(m, t) == "\n" + StripNewlines(AfterBlock(m, t))
  {
    var b, e := Find(t, m.begin), Find(t, m.end) + |m.end|;
    var after := AfterBlock(m, t);
    var tail := StripNewlines(after);
    assert after == t[e..] && Extract(m, t) == t[b..e] && Before(m, t) == t[..b];
    BackInPlace(t, b, e, tail);
  }

  lemma ReplacedParts(m: Markers, t: string)
    requires HasBlock(m, t)
    ensures 0 <= Find(t, m.begin) <= |t| && 0 <= Find(t, m.end) + |m.end| <= |t|
    ensures Head(m, t) == t[..Find(t, m.begin)] && Tail(m, t) == StripNewlines(t[Find(t, m.end) + |m.end|..])
  {
  }

  lemma AppendedParts(m: Markers, t: string, block: string)
    requires !HasBlock(m, t)
    ensures Rewritten(m, t, block) == t + Separator(t) + block
  {
    assert t + Separator(t) + block + "" == t + Separator(t) + block;
  }

  /** The rewrite itself: split at the first markers, or append after a blank line. */
  method RewriteText(m: Markers, original: string, block: string) returns (content: string)
    ensures content == Rewritten(m, original, block)
  {
    var begin := FindFirst(original, m.begin);
    var end := FindFirst(original, m.end);
    if begin >= 0 && end >= 0 {
      ReplacedParts(m, original);
      var before := original[..begin];
      var after := original[end + |m.end|..];
      content := before + block + StripNewlines(after);
    } else {
      AppendedParts(m, original, block);
      var ends := original != "" && original[|original| - 1] == '\n';
      var sep := if original != "" && !ends then "\n\n" else if original != "" then "\n" else "";
      content := original + sep + block;
    }
  }
}
