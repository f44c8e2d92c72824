/** internal/handler/management_handler.go: the last n lines of a log file, read backwards in
    chunks, against splitting the whole file into lines. */
module TailLog {

  type Text = seq<char>

  const NL: char := '\n'

  function Front(s: Text): Text
    requires s != []
  {
    s[..|s| - 1]
  }

  function Newlines(s: Text): nat {
    if s == [] then 0 else Newlines(Front(s)) + (if s[|s| - 1] == NL then 1 else 0)
  }

  /** The lines of a text: what stands between its newlines. */
  function Split(s: Text): (lines: seq<Text>)
    ensures |lines| == Newlines(s) + 1
  {
    if s == [] then [[]]
    else
      var lines := Split(Front(s));
      if s[|s| - 1] == NL then lines + [[]]
      else lines[|lines| - 1 := lines[|lines| - 1] + [s[|s| - 1]]]
  }

  function Join(lines: seq<Text>): Text {
    if lines == [] then []
    else if |lines| == 1 then lines[0]
    else Join(lines[..|lines| - 1]) + [NL] + lines[|lines| - 1]
  }

  function LastN(lines: seq<Text>, n: nat): seq<Text> {
    if |lines| > n then lines[|lines| - n..] else lines
  }

  /** Without the newlines at the end. */
  function Strip(s: Text): Text {
    if s != [] && s[|s| - 1] == NL then Strip(Front(s)) else s
  }

  /** What the log page asks for: the last n lines of the file. */
  function LastLines(content: Text, n: nat): Text {
    Join(LastN(Split(Strip(content)), n))
  }

  // ----- what the last lines are -----

  lemma {:induction false} NewlinesCount(s: Text)
    ensures Newlines(s) == multiset(s)[NL]
  {
    if s != [] {
      NewlinesCount(Front(s));
      assert s == Front(s) + [s[|s| - 1]];
    }
  }

  /** Stripping takes newlines off the end, and all of them. */
  lemma {:induction false} StripMeaning(s: Text)
    ensures Strip(s) <= s && OnlyNewlines(s[|Strip(s)|..])
    ensures Strip(s) == [] || Strip(s)[|Strip(s)| - 1] != NL
  {
    if s != [] && s[|s| - 1] == NL {
      StripMeaning(Front(s));
      var k := |Strip(Front(s))|;
      assert s[k..] == Front(s)[k..] + [NL];
    }
  }

  /** The last n lines begin at a line start, with n - 1 newlines after it, or at the start of the
      text if it has no more. */
  lemma {:induction false} CutMeaning(s: Text, n: nat)
    ensures n == 0 ==> Cut(s, n) == |s|
    ensures n > 0 && Cut(s, n) > 0 ==> s[Cut(s, n) - 1] == NL && Newlines(s[Cut(s, n)..]) == n - 1
    ensures n > 0 && Cut(s, n) == 0 ==> Newlines(s) < n
  {
    if n > 0 && s != [] {
      var c := Cut(s, n);
      if s[|s| - 1] != NL {
        CutMeaning(Front(s), n);
        assert c < |s| ==> Front(s[c..]) == Front(s)[c..];
      } else if n > 1 {
        CutMeaning(Front(s), n - 1);
        assert c < |s| ==> Front(s[c..]) == Front(s)[c..];
      }
    }
  }

  /** The last n lines of a file, on its text: strip the newlines at the end, and take what
      follows the n-th newline from the end, or all of it. */
  lemma LastLinesMeaning(content: Text, n: nat) returns (text: Text, c: nat)
    ensures text <= content && OnlyNewlines(content[|text|..]) && (text == [] || text[|text| - 1] != NL)
    ensures c <= |text| && LastLines(content, n) == text[c..]
    ensures n == 0 ==> c == |text|
    ensures n > 0 && c > 0 ==> text[c - 1] == NL && multiset(text[c..])[NL] == n - 1
    ensures n > 0 && c == 0 ==> multiset(text)[NL] < n
  {
    text := Strip(content);
    c := Cut(text, n);
    StripMeaning(content);
    CutMeaning(text, n);
    JoinLastIsCut(text, n);
    hide Strip, Cut, Split, Join, LastN, Newlines;
    NewlinesCount(text[c..]);
    NewlinesCount(text);
  }

  /** No line holds a newline. */
  lemma {:induction false} LinesHoldNone(s: Text)
    ensures forall l | l in Split(s) :: NL !in l
  {
    if s != [] {
      LinesHoldNone(Front(s));
      var lines := Split(Front(s));
      assert lines[|lines| - 1] in lines;
      if s[|s| - 1] != NL {
        assert forall l | l in Split(s) :: l in lines || l == lines[|lines| - 1] + [s[|s| - 1]];
      }
    }
  }

  // ----- the backward reader -----

  /** Where reading backwards in chunks stops: at the start of the file, or as soon as more
      than n newlines were read. */
  function ReadBack(content: Text, n: nat, chunk: nat, off: nat): (stop: nat)
    requires off <= |content| && chunk > 0
    ensures stop <= off
    decreases off
  {
    if off > 0 && Newlines(content[off..]) <= n
    then ReadBack(content, n, chunk, Earlier(chunk, off))
    else off
  }

  function StopAt(content: Text, n: nat, chunk: nat): (stop: nat)
    requires chunk > 0
    ensures stop <= |content|
  {
    ReadBack(content, n, chunk, |content|)
  }

  /** Where the next chunk begins. */
  function Earlier(chunk: nat, off: nat): (next: nat)
    requires off > 0 && chunk > 0
    ensures next < off
  {
    if chunk > off then 0 else off - chunk
  }

  lemma ReadBackStep(content: Text, n: nat, chunk: nat, off: nat)
    requires off <= |content| && chunk > 0
    ensures ReadBack(content, n, chunk, off)
            == if off > 0 && Newlines(content[off..]) <= n
               then ReadBack(content, n, chunk, Earlier(chunk, off))
               else off
  {}

  /** Reads the chunk before the part read so far. */
  method ReadChunk(content: Text, chunk: nat, off: nat, buf: Text) returns (next: nat, longer: Text)
    requires 0 < off <= |content| && chunk > 0 && buf == content[off..]
    ensures next == Earlier(chunk, off) && longer == content[next..]
  {
    var rd := if chunk > off then off else chunk;
    next := off - rd;
    longer := content[next..next + rd] + buf;
  }

  /** The reading loop: chunk by chunk from the end, counting the newlines anew each time. */
  method ReadChunks(content: Text, n: nat, chunk: nat) returns (buf: Text)
    requires chunk > 0
    ensures buf == content[StopAt(content, n, chunk)..]
  {
    buf := [];
    var off := |content|;
    var nl := 0;
    assert buf == content[off..] && nl == Newlines(buf);
    assert StopAt(content, n, chunk) == ReadBack(content, n, chunk, off);
    hide StopAt, ReadBack, Newlines, Earlier;
    while off > 0 && nl <= n
      invariant 0 <= off <= |content|
      invariant buf == content[off..] && nl == Newlines(buf)
      invariant ReadBack(content, n, chunk, off) == StopAt(content, n, chunk)
      decreases off
    {
      ReadBackStep(content, n, chunk, off);
      off, buf := ReadChunk(content, chunk, off, buf);
      nl := CountNewlines(buf);
    }
    ReadBackStep(content, n, chunk, off);
  }

  method TailLogFile(content: Text, n: nat, chunk: nat) returns (out: Text)
    requires chunk > 0
    ensures out == LastLines(content[StopAt(content, n, chunk)..], n)
  {
    if |content| == 0 {
      EmptyFile(content, n, chunk);
      return [];
    }
    var buf := ReadChunks(content, n, chunk);
    buf := TrimNewlines(buf);
    out := JoinLast(buf, n);
  }

  lemma EmptyFile(content: Text, n: nat, chunk: nat)
    requires chunk > 0 && content == []
    ensures LastLines(content[StopAt(content, n, chunk)..], n) == []
  {
    assert content[StopAt(content, n, chunk)..] == [];
    assert Split([]) == [[]];
  }

  method JoinLast(buf: Text, n: nat) returns (out: Text)
    ensures out == Join(LastN(Split(buf), n))
  {
    var lines := Split(buf);
    hide Split, Join;
    if |lines| > n {
      lines := lines[|lines| - n..];
    }
    out := Join(lines);
  }

  method TrimNewlines(s: Text) returns (buf: Text)
    ensures buf == Strip(s)
  {
    buf := s;
    while |buf| > 0 && buf[|buf| - 1] == NL
      invariant Strip(buf) == Strip(s)
      decreases |buf|
    {
      buf := buf[..|buf| - 1];
    }
  }

  method CountNewlines(s: Text) returns (c: nat)
    ensures c == Newlines(s)
  {
    c := 0;
    for i := 0 to |s|
      invariant c == Newlines(s[..i])
    {
      assert Front(s[..i + 1]) == s[..i];
      if s[i] == NL {
        c := c + 1;
      }
    }
    assert s[..|s|] == s;
  }

  // ----- lines as cuts of the text -----

  /** Where the last n lines of the text begin. */
  function Cut(s: Text, n: nat): (c: nat)
    ensures c <= |s|
  {
    if n == 0 then |s|
    else if s == [] then 0
    else if s[|s| - 1] != NL then Cut(Front(s), n)
    else if n == 1 then |s|
    else Cut(Front(s), n - 1)
  }

  lemma JoinExtend(lines: seq<Text>, c: char)
    requires lines != []
    ensures Join(lines[|lines| - 1 := lines[|lines| - 1] + [c]]) == Join(lines) + [c]
  {
    var longer := lines[|lines| - 1 := lines[|lines| - 1] + [c]];
    assert longer[..|lines| - 1] == lines[..|lines| - 1];
  }

  lemma JoinBlank(lines: seq<Text>)
    requires lines != []
    ensures Join(lines + [[]]) == Join(lines) + [NL]
  {
    assert (lines + [[]])[..|lines|] == lines;
  }

  lemma KeepReplaced(lines: seq<Text>, x: Text, n: nat)
    requires n > 0 && lines != []
    ensures LastN(lines, n) != []
    ensures LastN(lines[|lines| - 1 := x], n) == LastN(lines, n)[|LastN(lines, n)| - 1 := x]
    ensures LastN(lines, n)[|LastN(lines, n)| - 1] == lines[|lines| - 1]
  {}

  lemma KeepAppended(lines: seq<Text>, x: Text, n: nat)
    requires n > 0
    ensures LastN(lines + [x], n) == LastN(lines, n - 1) + [x]
  {}

  lemma SplitExtend(s: Text)
    requires s != [] && s[|s| - 1] != NL
    ensures Split(Front(s)) != []
    ensures var lines := Split(Front(s));
            Split(s) == lines[|lines| - 1 := lines[|lines| - 1] + [s[|s| - 1]]]
  {}

  /** What one more character does to the last n lines. */
  lemma LastNExtend(s: Text, n: nat)
    requires n > 0 && s != [] && s[|s| - 1] != NL
    ensures var kept := LastN(Split(Front(s)), n);
            && kept != []
            && LastN(Split(s), n) == kept[|kept| - 1 := kept[|kept| - 1] + [s[|s| - 1]]]
  {
    var lines := Split(Front(s));
    SplitExtend(s);
    hide Split, LastN, Newlines, Front;
    KeepReplaced(lines, lines[|lines| - 1] + [s[|s| - 1]], n);
  }

  lemma LastNBlank(s: Text, n: nat)
    requires n > 0 && s != [] && s[|s| - 1] == NL
    ensures LastN(Split(s), n) == LastN(Split(Front(s)), n - 1) + [[]]
  {
    assert Split(s) == Split(Front(s)) + [[]];
    hide Split, LastN;
    KeepAppended(Split(Front(s)), [], n);
  }

  lemma SliceSnoc(s: Text, k: nat)
    requires s != [] && k < |s|
    ensures s[k..] == Front(s)[k..] + [s[|s| - 1]]
  {}

  lemma CharStep(s: Text, n: nat)
    requires n > 0 && s != [] && s[|s| - 1] != NL
    requires Join(LastN(Split(Front(s)), n)) == Front(s)[Cut(Front(s), n)..]
    ensures Join(LastN(Split(s), n)) == s[Cut(s, n)..]
  {
    LastNExtend(s, n);
    SliceSnoc(s, Cut(Front(s), n));
    assert Cut(s, n) == Cut(Front(s), n);
    hide Split, LastN, Join, Cut;
    JoinExtend(LastN(Split(Front(s)), n), s[|s| - 1]);
  }

  lemma NewlineStep(s: Text, n: nat)
    requires n > 1 && s != [] && s[|s| - 1] == NL
    requires Join(LastN(Split(Front(s)), n - 1)) == Front(s)[Cut(Front(s), n - 1)..]
    ensures Join(LastN(Split(s), n)) == s[Cut(s, n)..]
  {
    LastNBlank(s, n);
    SliceSnoc(s, Cut(Front(s), n - 1));
    assert Cut(s, n) == Cut(Front(s), n - 1);
    assert LastN(Split(Front(s)), n - 1) != [];
    hide Split, LastN, Join, Cut;
    JoinBlank(LastN(Split(Front(s)), n - 1));
  }

  lemma LastBlankLine(s: Text)
    requires s != [] && s[|s| - 1] == NL
    ensures Join(LastN(Split(s), 1)) == []
  {
    LastNBlank(s, 1);
    assert LastN(Split(Front(s)), 0) == [];
  }

  /** Splitting, keeping the last n lines and joining is cutting. */
  lemma {:induction false} JoinLastIsCut(s: Text, n: nat)
    ensures Join(LastN(Split(s), n)) == s[Cut(s, n)..]
  {
    if n > 0 && s != [] {
      if s[|s| - 1] != NL {
        JoinLastIsCut(Front(s), n);
        CharStep(s, n);
      } else if n > 1 {
        JoinLastIsCut(Front(s), n - 1);
        NewlineStep(s, n);
      } else {
        LastBlankLine(s);
      }
    }
  }

  /** Cutting a longer text: the cut falls into t if t has n newlines, and before it otherwise. */
  lemma {:induction false} CutConcat(p: Text, t: Text, n: nat)
    requires n > 0
    ensures Newlines(t) >= n ==> Cut(p + t, n) == |p| + Cut(t, n)
    ensures Newlines(t) < n ==> Cut(t, n) == 0 && Cut(p + t, n) == Cut(p, n - Newlines(t))
  {
    if t == [] {
      assert p + t == p;
    } else {
      assert Front(p + t) == p + Front(t);
      if t[|t| - 1] != NL {
        CutConcat(p, Front(t), n);
      } else if n > 1 {
        CutConcat(p, Front(t), n - 1);
      }
    }
  }

  /** Only an empty text, or one line asked of a text that ends a line, leaves nothing. */
  lemma CutAtEnd(p: Text, n: nat)
    requires n > 0
    ensures Cut(p, n) == |p| <==> p == [] || (n == 1 && p[|p| - 1] == NL)
  {}

  /** The last n lines of p + t are those of t exactly when t has at least n newlines, or p is
      empty, or t has one newline less and p ends a line. */
  lemma SuffixSuffices(p: Text, t: Text, n: nat)
    ensures Join(LastN(Split(p + t), n)) == Join(LastN(Split(t), n))
            <==> p == [] || Newlines(t) >= n || (Newlines(t) + 1 == n && p[|p| - 1] == NL)
  {
    JoinLastIsCut(p + t, n);
    JoinLastIsCut(t, n);
    hide Join, Split, LastN;
    SuffixCut(p, t, n);
  }

  /** The same for the cuts. */
  lemma SuffixCut(p: Text, t: Text, n: nat)
    ensures (p + t)[Cut(p + t, n)..] == t[Cut(t, n)..]
            <==> p == [] || Newlines(t) >= n || (Newlines(t) + 1 == n && p[|p| - 1] == NL)
  {
    if n > 0 {
      CutConcat(p, t, n);
      if Newlines(t) >= n {
        hide Cut, Newlines;
        DropConcat(p, t, |p| + Cut(t, n));
      } else {
        var c := Cut(p, n - Newlines(t));
        CutAtEnd(p, n - Newlines(t));
        hide Cut, Newlines;
        DropConcat(p, t, c);
      }
    }
  }

  /** The rest of p + t from c on is t's own if c lies in t, and longer than t if c lies in p. */
  lemma DropConcat(p: Text, t: Text, c: nat)
    requires c <= |p + t|
    ensures c >= |p| ==> (p + t)[c..] == t[c - |p|..]
    ensures c < |p| ==> |(p + t)[c..]| > |t|
  {}

  /** Joining undoes splitting. */
  lemma {:induction false} JoinSplit(s: Text)
    ensures Join(Split(s)) == s
  {
    if s != [] {
      JoinSplit(Front(s));
      if s[|s| - 1] == NL {
        JoinBlank(Split(Front(s)));
      } else {
        JoinExtend(Split(Front(s)), s[|s| - 1]);
      }
    }
  }

  predicate OnlyNewlines(s: Text) {
    forall i | 0 <= i < |s| :: s[i] == NL
  }

  lemma {:induction false} StripConcat(p: Text, t: Text)
    ensures OnlyNewlines(t) ==> Strip(t) == [] && Strip(p + t) == Strip(p)
    ensures !OnlyNewlines(t) ==> Strip(t) != [] && Strip(p + t) == p + Strip(t)
  {
    if t == [] {
      assert p + t == p;
    } else {
      assert Front(p + t) == p + Front(t);
      if t[|t| - 1] == NL {
        StripConcat(p, Front(t));
        assert OnlyNewlines(t) <==> OnlyNewlines(Front(t));
      }
    }
  }

  lemma {:induction false} StripEnds(s: Text)
    ensures Strip(s) != [] ==> Strip(s)[|Strip(s)| - 1] != NL
    ensures Strip(s) == [] <==> OnlyNewlines(s)
  {
    if s != [] && s[|s| - 1] == NL {
      StripEnds(Front(s));
      assert OnlyNewlines(s) <==> OnlyNewlines(Front(s));
    }
  }

  /** When what was read from off onwards is enough for the last n lines. */
  predicate Enough(content: Text, n: nat, off: nat)
    requires off <= |content|
  {
    var read := content[off..];
    off == 0
    || (if OnlyNewlines(read) then n == 0 || OnlyNewlines(content)
        else Newlines(Strip(read)) >= n || (Newlines(Strip(read)) + 1 == n && content[off - 1] == NL))
  }

  /** From any offset, the part read gives the last n lines exactly when it is Enough. */
  lemma EnoughIff(content: Text, n: nat, off: nat)
    requires off <= |content|
    ensures LastLines(content[off..], n) == LastLines(content, n) <==> Enough(content, n, off)
  {
    var p, t := content[..off], content[off..];
    assert content == p + t;
    StripConcat(p, t);
    if OnlyNewlines(t) {
      var f := Strip(content);
      StripEnds(content);
      JoinLastIsCut(f, n);
      JoinLastIsCut([], n);
      assert f == Strip(p);
      if n > 0 {
        CutAtEnd(f, n);
        assert |f[Cut(f, n)..]| == |f| - Cut(f, n);
      }
    } else {
      SuffixSuffices(p, Strip(t), n);
    }
  }

  /** Reading backwards gives the last n lines of the file exactly when what was read up to
      the stopping point is Enough. */
  lemma TailCorrectIff(content: Text, n: nat, chunk: nat)
    requires chunk > 0
    ensures LastLines(content[StopAt(content, n, chunk)..], n) == LastLines(content, n)
            <==> Enough(content, n, StopAt(content, n, chunk))
  {
    EnoughIff(content, n, StopAt(content, n, chunk));
  }

  predicate EndsInBlankLine(s: Text) {
    |s| >= 2 && s[|s| - 1] == NL && s[|s| - 2] == NL
  }

  lemma {:induction false} StopReason(content: Text, n: nat, chunk: nat, off: nat)
    requires off <= |content| && chunk > 0
    ensures var stop := ReadBack(content, n, chunk, off);
            stop == 0 || Newlines(content[stop..]) > n
    decreases off
  {
    if off > 0 && Newlines(content[off..]) <= n {
      StopReason(content, n, chunk, Earlier(chunk, off));
    }
  }

  /** At most one newline is stripped from a text that does not end in a blank line. */
  lemma StripOne(t: Text)
    requires !EndsInBlankLine(t)
    ensures Newlines(t) <= Newlines(Strip(t)) + 1
    ensures OnlyNewlines(t) ==> Newlines(t) <= 1
  {
    if t != [] && t[|t| - 1] == NL {
      var f := Front(t);
      assert |t| >= 2 ==> f[|f| - 1] == t[|t| - 2];
      assert Strip(t) == Strip(f) == f;
    }
  }

  /** For every file that does not end in a blank line, every n and every chunk size, reading
      backwards gives the last n lines of the file. */
  lemma TailCorrect(content: Text, n: nat, chunk: nat)
    requires chunk > 0 && !EndsInBlankLine(content)
    ensures LastLines(content[StopAt(content, n, chunk)..], n) == LastLines(content, n)
  {
    var off := StopAt(content, n, chunk);
    StopReason(content, n, chunk, |content|);
    if off > 0 {
      StripOne(content[off..]);
    }
    TailCorrectIff(content, n, chunk);
  }

  function Repeat(c: char, k: nat): Text {
    seq(k, _ => c)
  }

  /** Files that end in a blank line can lose the beginning of the first line asked for, at
      every chunk size: the newlines at the end are counted and then stripped. */
  lemma TailTruncates(chunk: nat)
    requires chunk > 4
    ensures var content := Repeat('a', chunk) + [NL, 'b', NL, NL];
            LastLines(content[StopAt(content, 2, chunk)..], 2) != LastLines(content, 2)
  {
    var end := [NL, 'b', NL, NL];
    var content := Repeat('a', chunk) + end;
    var read := Repeat('a', chunk - 4) + end;
    assert content[4..] == read;
    assert content[|content|..] == [];
    NewlinesConcat(Repeat('a', chunk - 4), end);
    NoNewlines(chunk - 4);
    EndNewlines();
    assert Newlines(read) == 3;
    assert ReadBack(content, 2, chunk, 4) == 4;
    assert StopAt(content, 2, chunk) == 4;
    StripConcat(Repeat('a', chunk - 4), end);
    assert end[1] == 'b';
    NewlinesConcat(Repeat('a', chunk - 4), [NL, 'b']);
    assert read[|read| - 3] == 'b';
    TailCorrectIff(content, 2, chunk);
  }

  lemma EndNewlines()
    ensures var end := [NL, 'b', NL, NL];
            Newlines(end) == 3 && Strip(end) == [NL, 'b'] && Newlines([NL, 'b']) == 1
  {
    var e1, e2, e3, e4 := [NL], [NL, 'b'], [NL, 'b', NL], [NL, 'b', NL, NL];
    assert Front(e1) == [] && Front(e2) == e1 && Front(e3) == e2 && Front(e4) == e3;
    assert Newlines(e1) == 1;
    assert Newlines(e2) == 1 && Strip(e2) == e2;
    assert Newlines(e3) == 2 && Strip(e3) == e2;
  }

  lemma {:induction false} NoNewlines(k: nat)
    ensures Newlines(Repeat('a', k)) == 0
  {
    if k > 0 {
      assert Front(Repeat('a', k)) == Repeat('a', k - 1);
      NoNewlines(k - 1);
    }
  }

  lemma {:induction false} NewlinesConcat(p: Text, t: Text)
    ensures Newlines(p + t) == Newlines(p) + Newlines(t)
  {
    if t == [] {
      assert p + t == p;
    } else {
      assert Front(p + t) == p + Front(t);
      NewlinesConcat(p, Front(t));
    }
  }
}
