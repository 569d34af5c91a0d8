/** Which variables a reader of `.env` finds in the file before and after the managed block is rewritten. */
module EnvNames {
  import opened TextSearch
  import opened EnvFile
  import opened AuthBlock
  import opened AuthAgreement

  function PairNames(ps: seq<Pair>): set<string> {
    set i | 0 <= i < |ps| :: ps[i].name
  }

  /** The variables a text assigns, line by line. */
  function Names(text: string): set<string> {
    PairNames(ParseLines(text))
  }

  /** What a reader of the text makes of it; a later line wins. */
  function Reading(text: string): Environ {
    Assign(map[], ParseLines(text))
  }

  lemma ReadingKeys(text: string)
    ensures Reading(text).Keys == Names(text)
  {
    AssignKeys(map[], ParseLines(text));
  }

  lemma PairNamesConcat(a: seq<Pair>, b: seq<Pair>)
    ensures PairNames(a + b) == PairNames(a) + PairNames(b)
  {
    var all := a + b;
    assert forall i :: 0 <= i < |a| ==> all[i] == a[i];
    assert forall i :: 0 <= i < |b| ==> all[|a| + i] == b[i];
    forall n | n in PairNames(a) + PairNames(b)
      ensures n in PairNames(all)
    {
      if n in PairNames(a) {
        var i :| 0 <= i < |a| && a[i].name == n;
        assert all[i].name == n;
      } else {
        var i :| 0 <= i < |b| && b[i].name == n;
        assert all[|a| + i].name == n;
      }
    }
    forall n | n in PairNames(all)
      ensures n in PairNames(a) + PairNames(b)
    {
      var i :| 0 <= i < |all| && all[i].name == n;
      assert if i < |a| then all[i] == a[i] else all[i] == b[i - |a|];
    }
  }

  lemma OneLine(line: string)
    requires '\n' !in line
    ensures ParseLines(line) == ParseLine(line)
  {
    if line != "" {
      var n := IndexOf(line, '\n');
      assert n == |line| && line[..n] == line;
    }
  }

  lemma FirstBreak(a: string) returns (line: string, rest: string)
    requires '\n' in a
    ensures a == line + "\n" + rest && '\n' !in line && |rest| < |a|
  {
    var n := IndexOf(a, '\n');
    line, rest := a[..n], a[n + 1..];
  }

  lemma Regroup(line: string, rest: string, b: string)
    ensures line + "\n" + rest + "\n" + b == line + "\n" + (rest + "\n" + b)
  {
  }

  lemma PairsRegroup(x: seq<Pair>, y: seq<Pair>, z: seq<Pair>)
    ensures x + y + z == x + (y + z)
  {
  }

  /** Cutting a text at a line break cuts what is read from it. */
  lemma {:induction false} ParseAcross(a: string, b: string)
    ensures ParseLines(a + "\n" + b) == ParseLines(a) + ParseLines(b)
    decreases |a|
  {
    if '\n' in a {
      var line, rest := FirstBreak(a);
      ParseFirstLine(line, rest);
      Regroup(line, rest, b);
      ParseFirstLine(line, rest + "\n" + b);
      ParseAcross(rest, b);
      PairsRegroup(ParseLine(line), ParseLines(rest), ParseLines(b));
    } else {
      OneLine(a);
      ParseFirstLine(a, b);
    }
  }

  lemma NamesAcross(a: string, b: string)
    ensures Names(a + "\n" + b) == Names(a) + Names(b)
  {
    ParseAcross(a, b);
    PairNamesConcat(ParseLines(a), ParseLines(b));
  }

  lemma {:induction false} NamesOfStripped(s: string)
    ensures Names(StripNewlines(s)) == Names(s)
  {
    if s != "" && s[0] == '\n' {
      assert s == "" + "\n" + s[1..];
      NamesAcross("", s[1..]);
      NamesOfStripped(s[1..]);
    }
  }

  lemma {:induction false} IndexOfFirst(u: string, v: string, c: char)
    requires c in u
    ensures IndexOf(u + v, c) == IndexOf(u, c)
  {
    if u[0] != c {
      assert (u + v)[1..] == u[1..] + v;
      IndexOfFirst(u[1..], v, c);
    }
  }

  /** What follows the first equals sign of a line does not change the name it assigns. */
  lemma LineNameKept(u: string, v: string)
    requires '=' in u
    ensures PairNames(ParseLine(u)) == PairNames(ParseLine(u + v))
  {
    IndexOfFirst(u, v, '=');
    var i := IndexOf(u, '=');
    assert (u + v)[..i] == u[..i] && (u + v)[0] == u[0];
    if u[0] != '#' {
      assert ParseLine(u) == [Pair(u[..i], u[i + 1..])] && ParseLine(u + v) == [Pair(u[..i], (u + v)[i + 1..])];
      assert ParseLine(u)[0].name == ParseLine(u + v)[0].name == u[..i];
    }
  }

  lemma FirstLineNames(u: string, q: string)
    requires '\n' !in u && '=' in u
    ensures Names(u) <= Names(u + q)
  {
    OneLine(u);
    var s := u + q;
    if '\n' in q {
      var n := IndexOf(q, '\n');
      var q1, q2 := q[..n], q[n + 1..];
      assert s == (u + q1) + "\n" + q2;
      NamesAcross(u + q1, q2);
      OneLine(u + q1);
      LineNameKept(u, q1);
    } else {
      OneLine(s);
      LineNameKept(u, q);
    }
  }

  /** The line a marker stands on assigns the same name wherever the text goes on from the marker. */
  lemma {:induction false} NamesUpToMarker(h: string, marker: string, q: string)
    requires '\n' !in marker && '=' in marker
    ensures Names(h + marker) <= Names(h + marker + q)
    decreases |h|
  {
    if '\n' in h {
      var n := IndexOf(h, '\n');
      var line, rest := h[..n], h[n + 1..];
      assert h == line + "\n" + rest;
      assert h + marker == line + "\n" + (rest + marker);
      assert h + marker + q == line + "\n" + (rest + marker + q);
      NamesAcross(line, rest + marker);
      NamesAcross(line, rest + marker + q);
      NamesUpToMarker(rest, marker, q);
    } else {
      FirstLineNames(h + marker, q);
    }
  }

  lemma {:induction false} LinesEndLine(ps: seq<Pair>)
    requires ps != []
    ensures Lines(ps) != "" && Lines(ps)[|Lines(ps)| - 1] == '\n'
  {
    if |ps| > 1 {
      LinesEndLine(ps[1..]);
    } else {
      assert Lines(ps[1..]) == "";
    }
  }

  lemma NamesAtBreak(text: string, rest: string)
    requires text != "" && text[|text| - 1] == '\n'
    ensures Names(text + rest) == Names(text) + Names(rest)
  {
    var body := text[..|text| - 1];
    assert text == body + "\n";
    NamesAcross(body, rest);
    assert body + "\n" + "" == text;
    NamesAcross(body, "");
  }

  lemma NamesAfterLines(ps: seq<Pair>, rest: string)
    requires ps != []
    ensures Names(Lines(ps) + rest) == Names(Lines(ps)) + Names(rest)
  {
    LinesEndLine(ps);
    NamesAtBreak(Lines(ps), rest);
  }

  lemma CommentNamesNothing(line: string, rest: string)
    requires line != "" && line[0] == '#' && '\n' !in line
    ensures Names(line + "\n" + rest) == Names(rest)
  {
    CommentIsSkipped(line, rest);
  }

  lemma CutBlock(head: string, begin: string, note: string, lines: string, end: string, tail: string)
    ensures head + (begin + "\n" + note + "\n" + lines + (end + "\n")) + tail
         == (head + begin) + "\n" + (note + "\n" + (lines + (end + "\n" + tail)))
  {
  }

  /** A text around a printed block: the three comment lines assign nothing. */
  lemma NamesAround(head: string, begin: string, note: string, ps: seq<Pair>, end: string, tail: string)
    requires note != "" && note[0] == '#' && '\n' !in note
    requires end != "" && end[0] == '#' && '\n' !in end && ps != []
    ensures Names(head + (begin + "\n" + note + "\n" + Lines(ps) + (end + "\n")) + tail)
         == Names(head + begin) + Names(Lines(ps)) + Names(tail)
  {
    var rest := end + "\n" + tail;
    CutBlock(head, begin, note, Lines(ps), end, tail);
    NamesAcross(head + begin, note + "\n" + (Lines(ps) + rest));
    CommentNamesNothing(note, Lines(ps) + rest);
    NamesAfterLines(ps, rest);
    CommentNamesNothing(end, tail);
  }

  /** What the rewritten file assigns: up to the begin marker, in the block's lines, and behind the block. */
  lemma WrittenNamesAre(t: string, cfg: AuthConfig)
    ensures Names(Rewritten(MARKERS, t, Block(cfg)))
         == Names(Head(MARKERS, t) + BEGIN) + Names(Lines(Pairs(cfg))) + Names(Tail(MARKERS, t))
  {
    NoteIsOneLine();
    EndIsOneLine();
    NamesAround(Head(MARKERS, t), BEGIN, NOTE, Pairs(cfg), END, Tail(MARKERS, t));
  }

  /** The head, up to and with the new begin marker, assigns nothing that the file did not. */
  lemma HeadNames(t: string)
    ensures Names(Head(MARKERS, t) + BEGIN) <= Names(t)
  {
    BeginIsComment();
    BeginHoldsEquals();
    if HasBlock(MARKERS, t) {
      BeforeMarker(t, BEGIN, Find(t, BEGIN));
    } else {
      SeparatedNames(t, BEGIN);
    }
  }

  lemma BeforeMarker(t: string, marker: string, b: nat)
    requires OccursAt(t, marker, b) && '\n' !in marker && '=' in marker
    ensures Names(t[..b] + marker) <= Names(t)
  {
    var q := t[b + |marker|..];
    assert t == t[..b] + marker + q;
    NamesUpToMarker(t[..b], marker, q);
  }

  lemma BeginHoldsEquals()
    ensures '=' in BEGIN
  {
    assert BEGIN[2] == '=';
  }

  lemma SeparatedNames(t: string, comment: string)
    requires comment != "" && comment[0] == '#' && '\n' !in comment
    ensures Names(t + Separator(t) + comment) == Names(t)
  {
    OneLine(comment);
    assert Names(comment) == {};
    if t == "" {
      assert t + Separator(t) + comment == comment;
    } else if t[|t| - 1] == '\n' {
      NamesAcross(t, comment);
    } else {
      BlankLineNames(t, comment);
      assert t + Separator(t) + comment == t + "\n" + ("\n" + comment);
    }
  }

  lemma BlankLineNames(t: string, comment: string)
    requires Names(comment) == {}
    ensures Names(t + "\n" + ("\n" + comment)) == Names(t)
  {
    assert "" + "\n" + comment == "\n" + comment;
    NamesAcross("", comment);
    NamesAcross(t, "\n" + comment);
  }

  /** The block's own lines assign tracked variables only, when no written value spans lines. */
  lemma OneLineNames(cfg: AuthConfig)
    requires WrittenOnOneLine(cfg, ProviderKeys(cfg.provider))
    ensures Names(Lines(Pairs(cfg))) <= TRACKED
  {
    PairsPrintable(cfg);
    ParsePrintedLines(Pairs(cfg), "");
    assert Lines(Pairs(cfg)) + "" == Lines(Pairs(cfg)) && Pairs(cfg) + [] == Pairs(cfg);
    PairsAreTracked(cfg);
  }

  lemma PairsPrintable(cfg: AuthConfig)
    requires WrittenOnOneLine(cfg, ProviderKeys(cfg.provider))
    ensures Printable(Pairs(cfg))
  {
    NamesFitProvider(cfg.provider);
    ParamPairsPrintable(cfg, ProviderKeys(cfg.provider));
    FlagPairsPrintable(cfg.provider);
  }

  lemma FlagsAreTracked(p: Provider)
    ensures PairNames(FlagPairs(p)) <= FLAG_NAMES
  {
  }

  lemma ProviderNamesAreTracked(p: Provider)
    ensures ProviderNames(ProviderKeys(p)) <= TRACKED
  {
    ProviderKeysAreListed(p);
  }

  lemma PairsAreTracked(cfg: AuthConfig)
    ensures PairNames(Pairs(cfg)) <= TRACKED
  {
    var keys := ProviderKeys(cfg.provider);
    PairNamesConcat(FlagPairs(cfg.provider), ParamPairs(cfg, keys));
    FlagsAreTracked(cfg.provider);
    ParamPairNames(cfg, keys);
    ProviderNamesAreTracked(cfg.provider);
  }

  /** The variables assigned behind the first end marker of a file with a block. */
  ghost function NamesBehind(t: string): set<string> {
    if HasBlock(MARKERS, t) then Names(AfterBlock(MARKERS, t)) else {}
  }

  lemma TailNamesAre(t: string)
    ensures Names(Tail(MARKERS, t)) == NamesBehind(t)
  {
    if HasBlock(MARKERS, t) {
      NamesOfStripped(AfterBlock(MARKERS, t));
    } else {
      assert Names("") == {};
    }
  }

  /**
   For any file and configuration: rewriting the block brings in no variable outside those of the file
   and the tracked ones exactly when neither the block's own lines do (a value that spans lines may
   assign more) nor the text behind the end marker (what shares the marker's line gets its own).
   */
  lemma WrittenNamesIff(t: string, cfg: AuthConfig, names: set<string>)
    requires Names(t) <= names
    ensures Names(Rewritten(MARKERS, t, Block(cfg))) - TRACKED <= names
       <==> Names(Lines(Pairs(cfg))) - TRACKED <= names && NamesBehind(t) - TRACKED <= names
  {
    WrittenNamesAre(t, cfg);
    HeadNames(t);
    TailNamesAre(t);
  }

  /** Nothing new, then, when the end marker ends its line. */
  lemma TailNames(t: string)
    requires HasBlock(MARKERS, t)
    requires AfterBlock(MARKERS, t) == "" || AfterBlock(MARKERS, t)[0] == '\n'
    ensures NamesBehind(t) <= Names(t)
  {
    var after := AfterBlock(MARKERS, t);
    if after != "" {
      var x := t[..|t| - |after|];
      assert t == x + after && after == "" + "\n" + after[1..];
      assert t == x + "\n" + after[1..];
      NamesAcross(x, after[1..]);
      NamesAcross("", after[1..]);
    }
  }

  /** A block of nothing but its markers, with text on the second one's line: all comments, but for that text. */
  lemma MarkedLine(rest: string)
    requires '\n' !in rest
    ensures var t := BEGIN + "\n" + END + rest;
            Names(t) == {} && HasBlock(MARKERS, t) && NamesBehind(t) == Names(rest)
  {
    var t, last := BEGIN + "\n" + END + rest, END + rest;
    MarkersAreMarkers();
    BeginIsComment();
    EndIsOneLine();
    assert t == BEGIN + "\n" + last;
    CommentNamesNothing(BEGIN, last);
    OneLine(last);
    assert last[0] == '#';
    MarkedLineFind(t, rest);
    assert t[|BEGIN| + 1 + |END|..] == rest;
  }

  lemma MarkedLineFind(t: string, rest: string)
    requires t == BEGIN + "\n" + END + rest
    ensures HasBlock(MARKERS, t) && Find(t, END) == |BEGIN| + 1
  {
    MarkersAreMarkers();
    var front := BEGIN + "\n";
    assert t == front + (END + rest) && t == BEGIN + ("\n" + (END + rest));
    assert OccursAt(BEGIN, BEGIN, 0) && OccursAt(END, END, 0);
    OccursInLeft(BEGIN, "\n" + (END + rest), BEGIN, 0);
    OccursInLeft(END, rest, END, 0);
    CommentHoldsNoMarker(BEGIN, END, 6);
    EndIsOneLine();
    assert BEGIN + "\n" + "" == front;
    OneLineSeam(BEGIN, "", END);
    FindAcrossSeam(front, END + rest, END);
  }
}
