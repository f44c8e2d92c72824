/** internal/handler/nginx_control.go: finding the http block of an nginx configuration and
    adding the managed include to it. */
module NginxConfig {
  import opened Wrappers

  type Text = string

  // ----- the opening brace -----

  predicate IsBlank(c: char) {
    c == ' ' || c == '\t'
  }

  /** The first position from i on that is not a blank. */
  function SkipBlanks(s: Text, i: nat): (j: nat)
    requires i <= |s|
    ensures i <= j <= |s|
    decreases |s| - i
  {
    if i < |s| && IsBlank(s[i]) then SkipBlanks(s, i + 1) else i
  }

  /** Matching `[\t ]*http[\t ]*\{` from a line start: the position of the brace. */
  function OpenerAt(s: Text, i: nat): (open: Option<nat>)
    requires i <= |s|
    ensures open.Some? ==> i <= open.value < |s| && s[open.value] == '{'
  {
    var j := SkipBlanks(s, i);
    if j + 4 <= |s| && s[j..j + 4] == "http" then
      var k := SkipBlanks(s, j + 4);
      if k < |s| && s[k] == '{' then Some(k) else None
    else None
  }

  predicate LineStart(s: Text, i: nat)
    requires i <= |s|
  {
    i == 0 || s[i - 1] == '\n'
  }

  /** The leftmost match of the opener, searching from position i. */
  function FindOpener(s: Text, i: nat): (open: Option<nat>)
    requires i <= |s|
    ensures open.Some? ==> i <= open.value < |s| && s[open.value] == '{'
    decreases |s| - i
  {
    if LineStart(s, i) && OpenerAt(s, i).Some? then OpenerAt(s, i)
    else if i < |s| then FindOpener(s, i + 1)
    else None
  }

  // ----- the scanner -----

  /** Where the scanner is: in a comment, in a string opened by a quote character (just after
      a backslash or not), or in plain text. */
  datatype Mode = Plain | Comment | Quoted(quote: char, escaped: bool)

  function NextMode(m: Mode, c: char): Mode {
    match m
    case Comment => if c == '\n' then Plain else Comment
    case Quoted(q, escaped) =>
      if escaped then Quoted(q, false)
      else if c == '\\' then Quoted(q, true)
      else if c == q then Plain
      else m
    case Plain =>
      if c == '#' then Comment
      else if c == '"' || c == '\'' then Quoted(c, false)
      else Plain
  }

  /** The mode after reading s[lo..hi] in plain text. */
  function ModeAt(s: Text, lo: nat, hi: nat): Mode
    requires lo <= hi <= |s|
    decreases hi
  {
    if lo == hi then Plain else NextMode(ModeAt(s, lo, hi - 1), s[hi - 1])
  }

  /** A brace counts when it stands in plain text. */
  predicate Opens(s: Text, lo: nat, i: nat)
    requires lo <= i < |s|
  {
    s[i] == '{' && ModeAt(s, lo, i) == Plain
  }

  predicate Closes(s: Text, lo: nat, i: nat)
    requires lo <= i < |s|
  {
    s[i] == '}' && ModeAt(s, lo, i) == Plain
  }

  /** A comment lasts to the end of its line. */
  lemma {:induction false} CommentSpan(s: Text, lo: nat, i: nat, j: nat)
    requires lo <= i < j <= |s| && ModeAt(s, lo, i) == Plain && s[i] == '#'
    requires forall k | i < k < j :: s[k] != '\n'
    ensures ModeAt(s, lo, j) == Comment
    ensures j < |s| && s[j] == '\n' ==> ModeAt(s, lo, j + 1) == Plain
    decreases j
  {
    if j > i + 1 {
      CommentSpan(s, lo, i, j - 1);
    }
  }

  /** In plain text a quote character opens a string of its own kind. */
  lemma QuoteOpens(s: Text, lo: nat, i: nat)
    requires lo <= i < |s| && ModeAt(s, lo, i) == Plain && s[i] in {'"', '\''}
    ensures ModeAt(s, lo, i + 1) == Quoted(s[i], false)
  {}

  /** Anything else but a comment sign leaves plain text plain. */
  lemma PlainStays(s: Text, lo: nat, i: nat)
    requires lo <= i < |s| && ModeAt(s, lo, i) == Plain
    ensures ModeAt(s, lo, i + 1) == Plain <==> s[i] !in {'#', '"', '\''}
  {}

  /** What may stand between two quotes q: escaped characters and characters other than q. */
  predicate StringBody(t: Text, q: char) {
    t == "" || (if t[0] == '\\' then |t| >= 2 && StringBody(t[2..], q) else t[0] != q && StringBody(t[1..], q))
  }

  /** A string lasts to its closing quote; nothing inside it is plain text. */
  lemma {:induction false} StringSpan(s: Text, lo: nat, i: nat, j: nat, q: char)
    requires lo <= i <= j < |s| && ModeAt(s, lo, i) == Quoted(q, false)
    requires StringBody(s[i..j], q) && s[j] == q
    ensures forall k | i <= k <= j :: ModeAt(s, lo, k).Quoted?
    ensures q != '\\' ==> ModeAt(s, lo, j + 1) == Plain
    decreases j - i
  {
    if i < j {
      var t := s[i..j];
      if t[0] == '\\' {
        assert t[2..] == s[i + 2..j];
        assert ModeAt(s, lo, i + 1) == Quoted(q, true);
        assert ModeAt(s, lo, i + 2) == Quoted(q, false);
        StringSpan(s, lo, i + 2, j, q);
      } else {
        assert t[1..] == s[i + 1..j];
        StringSpan(s, lo, i + 1, j, q);
      }
    }
  }

  /** Opening minus closing braces of s[lo..hi]. */
  function Depth(s: Text, lo: nat, hi: nat): int
    requires lo <= hi <= |s|
    decreases hi
  {
    if lo == hi then 0
    else Depth(s, lo, hi - 1) + (if Opens(s, lo, hi - 1) then 1 else if Closes(s, lo, hi - 1) then -1 else 0)
  }

  /** The braces of one kind in plain text. */
  function Braces(s: Text, lo: nat, hi: nat, brace: char): set<nat>
    requires lo <= hi <= |s|
  {
    set i: nat | lo <= i < hi && s[i] == brace && ModeAt(s, lo, i) == Plain
  }

  lemma BracesSnoc(s: Text, lo: nat, n: nat, brace: char)
    requires lo <= n < |s|
    ensures Braces(s, lo, n + 1, brace)
            == Braces(s, lo, n, brace) + (if s[n] == brace && ModeAt(s, lo, n) == Plain then {n} else {})
    ensures n !in Braces(s, lo, n, brace)
  {
    hide ModeAt;
  }

  /** So the depth is the number of opening braces in plain text less that of closing ones. */
  lemma {:induction false} DepthCounts(s: Text, lo: nat, hi: nat)
    requires lo <= hi <= |s|
    ensures Depth(s, lo, hi) == |Braces(s, lo, hi, '{')| - |Braces(s, lo, hi, '}')|
    decreases hi
  {
    if lo < hi {
      DepthCounts(s, lo, hi - 1);
      BracesSnoc(s, lo, hi - 1, '{');
      BracesSnoc(s, lo, hi - 1, '}');
      hide Braces, ModeAt;
    }
  }

  /** end is the closing brace of the block opened at lo: the depth is positive all the way
      from the opener to it, and zero right after it. */
  ghost predicate BlockEnds(s: Text, lo: nat, end: nat) {
    && lo < end < |s|
    && Opens(s, lo, lo) && Closes(s, lo, end)
    && (forall k | lo < k <= end :: Depth(s, lo, k) > 0)
    && Depth(s, lo, end + 1) == 0
  }

  /** There is at most one such place. */
  lemma BlockEndUnique(s: Text, lo: nat, end: nat, end': nat)
    requires BlockEnds(s, lo, end) && BlockEnds(s, lo, end')
    ensures end == end'
  {
    assert Depth(s, lo, end + 1) == 0 && Depth(s, lo, end' + 1) == 0;
  }

  /** The scanner of the source: it finds the end of the block exactly when there is one. */
  method ScanBlock(config: Text, open: nat) returns (end: nat, ok: bool)
    requires open < |config| && config[open] == '{'
    ensures ok ==> BlockEnds(config, open, end)
    ensures !ok ==> end == 0 && forall e: nat :: !BlockEnds(config, open, e)
  {
    var depth := 0;
    var quote: Option<char> := None;
    var escaped, comment := false, false;
    for i := open to |config|
      invariant depth == Depth(config, open, i)
      invariant i == open ==> !comment && quote.None?
      invariant i > open ==> forall k | open < k <= i :: Depth(config, open, k) > 0
      invariant ModeAt(config, open, i)
                == if comment then Comment else if quote.Some? then Quoted(quote.value, escaped) else Plain
      invariant !(comment && quote.Some?)
      invariant quote.None? ==> !escaped
    {
      var c := config[i];
      if comment {
        if c == '\n' {
          comment := false;
        }
      } else if quote.Some? {
        if escaped {
          escaped := false;
        } else if c == '\\' {
          escaped := true;
        } else if c == quote.value {
          quote := None;
        }
      } else if c == '#' {
        comment := true;
      } else if c == '"' || c == '\'' {
        quote := Some(c);
      } else if c == '{' {
        depth := depth + 1;
      } else if c == '}' {
        depth := depth - 1;
        if depth == 0 {
          return i, true;
        }
      }
    }
    forall e: nat ensures !BlockEnds(config, open, e) {
      if open < e < |config| {
        assert Depth(config, open, e + 1) > 0;
      }
    }
    return 0, false;
  }

  // ----- the http block and the managed include -----

  ghost predicate HttpBlock(config: Text, open: nat, end: nat) {
    FindOpener(config, 0) == Some(open) && BlockEnds(config, open, end)
  }

  method NginxHTTPBlockEnd(config: Text) returns (end: nat, ok: bool)
    ensures ok ==> FindOpener(config, 0).Some? && HttpBlock(config, FindOpener(config, 0).value, end)
    ensures !ok ==> end == 0 && forall o: nat, e: nat :: !HttpBlock(config, o, e)
  {
    var open := FindOpener(config, 0);
    if open.None? {
      return 0, false;
    }
    end, ok := ScanBlock(config, open.value);
  }

  const INCLUDE: Text := "    include servers/*.conf;\n"

  /** What is put before the closing brace: the directive, on a line of its own. */
  function Insertion(config: Text, end: nat): Text
    requires 0 < end <= |config|
  {
    (if config[end - 1] != '\n' then "\n" else "") + INCLUDE
  }

  function WithInclude(config: Text, end: nat): Text
    requires 0 < end <= |config|
  {
    config[..end] + Insertion(config, end) + config[end..]
  }

  lemma WithIncludeText(config: Text, end: nat)
    requires 0 < end <= |config|
    ensures WithInclude(config, end)
            == config[..end] + (if config[end - 1] != '\n' then "\n" else "")
               + "    include servers/*.conf;\n" + config[end..]
  {}

  method AddNginxManagedInclude(config: Text) returns (out: Option<Text>)
    ensures out.None? <==> forall o: nat, e: nat :: !HttpBlock(config, o, e)
    ensures forall o: nat, e: nat | HttpBlock(config, o, e) ::
              out == Some(WithInclude(config, e))
              && out == Some(config[..e] + (if config[e - 1] != '\n' then "\n" else "")
                             + "    include servers/*.conf;\n" + config[e..])
  {
    var end, ok := NginxHTTPBlockEnd(config);
    if !ok {
      return None;
    }
    var prefix := config[..end];
    if prefix[end - 1] != '\n' {
      prefix := prefix + "\n";
    }
    assert prefix + INCLUDE + config[end..] == WithInclude(config, end);
    out := Some(prefix + INCLUDE + config[end..]);
    WithIncludeText(config, end);
    hide WithInclude, Insertion;
    forall o: nat, e: nat | HttpBlock(config, o, e) ensures e == end {
      BlockEndUnique(config, o, e, end);
    }
  }

  // ----- what the opener is -----

  /** The pattern of the source, read off the text: blanks, the word http, blanks, a brace. */
  predicate MatchesAt(s: Text, i: nat, word: nat, open: nat) {
    && i <= word && word + 4 <= open < |s|
    && (forall k | i <= k < word :: s[k] in {' ', '\t'}) && s[word..word + 4] == "http"
    && (forall k | word + 4 <= k < open :: s[k] in {' ', '\t'}) && s[open] == '{'
  }

  /** A match from a line start. */
  ghost predicate Matches(s: Text, start: nat, open: nat) {
    && start <= |s| && (start == 0 || s[start - 1] == '\n')
    && exists word: nat :: MatchesAt(s, start, word, open)
  }

  lemma {:induction false} SkipExact(s: Text, i: nat, j: nat)
    requires i <= j <= |s| && (forall k | i <= k < j :: s[k] in {' ', '\t'})
    requires j < |s| ==> s[j] !in {' ', '\t'}
    ensures SkipBlanks(s, i) == j
    decreases j - i
  {
    if i < j {
      SkipExact(s, i + 1, j);
    }
  }

  lemma OpenerExact(s: Text, i: nat, open: nat)
    requires i <= |s|
    ensures LineStart(s, i) && OpenerAt(s, i) == Some(open) <==> Matches(s, i, open)
  {
    if OpenerAt(s, i) == Some(open) {
      var word := SkipBlanks(s, i);
      SkippedAreBlank(s, i);
      SkippedAreBlank(s, word + 4);
      assert MatchesAt(s, i, word, open);
    }
    if word: nat :| MatchesAt(s, i, word, open) {
      assert s[word] == s[word..word + 4][0] == 'h';
      SkipExact(s, i, word);
      SkipExact(s, word + 4, open);
    }
  }

  /** The leftmost match from i on. */
  ghost predicate Leftmost(s: Text, i: nat, start: nat, open: nat) {
    && i <= start && Matches(s, start, open)
    && forall earlier: nat, o: nat | i <= earlier && Matches(s, earlier, o) :: start <= earlier
  }

  /** The opener is that of the leftmost match, and there is none exactly when nothing matches. */
  lemma {:induction false} FindOpenerExact(s: Text, i: nat)
    requires i <= |s|
    ensures match FindOpener(s, i)
            case None => forall start: nat, open: nat | i <= start :: !Matches(s, start, open)
            case Some(open) =>
              exists start: nat :: Leftmost(s, i, start, open)
    decreases |s| - i
  {
    forall open: nat ensures LineStart(s, i) && OpenerAt(s, i) == Some(open) <==> Matches(s, i, open) {
      OpenerExact(s, i, open);
    }
    hide OpenerAt, Matches;
    if LineStart(s, i) && OpenerAt(s, i).Some? {
      var open: nat := OpenerAt(s, i).value;
      assert FindOpener(s, i) == Some(open);
      assert Leftmost(s, i, i, open);
    } else if i < |s| {
      FindOpenerExact(s, i + 1);
      NotHere(s, i);
      assert FindOpener(s, i) == FindOpener(s, i + 1);
      if FindOpener(s, i).Some? {
        var start: nat :| Leftmost(s, i + 1, start, FindOpener(s, i).value);
        assert Leftmost(s, i, start, FindOpener(s, i).value);
      }
    } else {
      NotBehind(s);
    }
  }

  lemma NotHere(s: Text, i: nat)
    requires i < |s| && forall open: nat :: !Matches(s, i, open)
    ensures forall start: nat, open: nat :: Leftmost(s, i, start, open) <==> Leftmost(s, i + 1, start, open)
    ensures (forall start: nat, open: nat | i + 1 <= start :: !Matches(s, start, open))
            ==> forall start: nat, open: nat | i <= start :: !Matches(s, start, open)
  {
    hide Matches;
    assert forall start: nat, open: nat | Matches(s, start, open) :: start != i;
    assert forall start: nat, open: nat | i <= start && Matches(s, start, open) :: i + 1 <= start;
  }

  lemma NotBehind(s: Text)
    ensures forall start: nat, open: nat | |s| < start :: !Matches(s, start, open)
  {}

  // ----- the opener does not move -----

  lemma {:induction false} SkipLocal(s: Text, t: Text, i: nat, n: nat)
    requires i <= n < |s| && n < |t| && s[..n + 1] == t[..n + 1]
    ensures SkipBlanks(s, i) <= n ==> SkipBlanks(t, i) == SkipBlanks(s, i)
    ensures SkipBlanks(s, i) > n ==> SkipBlanks(t, i) > n
    decreases n - i
  {
    assert s[i] == s[..n + 1][i] && t[i] == t[..n + 1][i];
    if IsBlank(s[i]) && i < n {
      SkipLocal(s, t, i + 1, n);
    }
  }

  lemma {:induction false} SkippedAreBlank(s: Text, i: nat)
    requires i <= |s|
    ensures forall k | i <= k < SkipBlanks(s, i) :: IsBlank(s[k])
    decreases |s| - i
  {
    if i < |s| && IsBlank(s[i]) {
      SkippedAreBlank(s, i + 1);
    }
  }

  /** No brace before the one the opener ends with. */
  lemma OpenerSpan(s: Text, i: nat)
    requires i <= |s| && OpenerAt(s, i).Some?
    ensures forall k | i <= k < OpenerAt(s, i).value :: s[k] != '{'
  {
    var j := SkipBlanks(s, i);
    SkippedAreBlank(s, i);
    SkippedAreBlank(s, j + 4);
    assert forall k | j <= k < j + 4 :: s[k] == s[j..j + 4][k - j];
    assert forall k | 0 <= k < 4 :: "http"[k] != '{';
  }

  /** Whether an opener starts at i and ends by n depends on the text up to n only. */
  lemma OpenerLocal(s: Text, t: Text, i: nat, n: nat)
    requires i <= n < |s| && n < |t| && s[..n + 1] == t[..n + 1]
    requires OpenerAt(s, i).Some? && OpenerAt(s, i).value <= n
    ensures OpenerAt(t, i) == OpenerAt(s, i)
  {
    var j := SkipBlanks(s, i);
    SkipLocal(s, t, i, n);
    assert s[j..j + 4] == s[..n + 1][j..j + 4];
    assert t[j..j + 4] == t[..n + 1][j..j + 4];
    SkipLocal(s, t, j + 4, n);
    var k := SkipBlanks(s, j + 4);
    assert s[k] == s[..n + 1][k] == t[..n + 1][k];
  }

  /** Texts that agree up to and including the opener found in one have the same opener. */
  lemma {:induction false} FindOpenerLocal(s: Text, t: Text, i: nat, open: nat)
    requires i <= |s| && FindOpener(s, i) == Some(open)
    requires open < |t| && s[..open + 1] == t[..open + 1]
    ensures i <= |t| && FindOpener(t, i) == Some(open)
    decreases |s| - i
  {
    assert i > 0 ==> s[i - 1] == s[..open + 1][i - 1] == t[..open + 1][i - 1];
    if LineStart(s, i) && OpenerAt(s, i).Some? {
      OpenerLocal(s, t, i, open);
    } else {
      if LineStart(t, i) && OpenerAt(t, i).Some? {
        OpenerSpan(t, i);
        assert t[open] == t[..open + 1][open] == s[..open + 1][open] == '{';
        OpenerLocal(t, s, i, open);
      }
      FindOpenerLocal(s, t, i + 1, open);
    }
  }

  // ----- the scan does not change but for the insertion -----

  /** Characters that leave plain text plain and the depth as it is. */
  predicate Inert(c: char) {
    c != '#' && c != '"' && c != '\'' && c != '{' && c != '}'
  }

  lemma {:induction false} ScanLocal(s: Text, t: Text, lo: nat, hi: nat)
    requires lo <= hi <= |s| && hi <= |t| && s[..hi] == t[..hi]
    ensures ModeAt(t, lo, hi) == ModeAt(s, lo, hi) && Depth(t, lo, hi) == Depth(s, lo, hi)
    decreases hi
  {
    if lo < hi {
      assert s[..hi - 1] == s[..hi][..hi - 1] == t[..hi - 1];
      assert s[hi - 1] == s[..hi][hi - 1] == t[..hi][hi - 1];
      ScanLocal(s, t, lo, hi - 1);
    }
  }

  lemma {:induction false} ScanInert(s: Text, lo: nat, mid: nat, hi: nat)
    requires lo <= mid <= hi <= |s| && ModeAt(s, lo, mid) == Plain
    requires forall k | mid <= k < hi :: Inert(s[k])
    ensures ModeAt(s, lo, hi) == Plain && Depth(s, lo, hi) == Depth(s, lo, mid)
    decreases hi
  {
    if mid < hi {
      ScanInert(s, lo, mid, hi - 1);
    }
  }

  lemma InsertionInert(config: Text, end: nat)
    requires 0 < end <= |config|
    ensures forall k | 0 <= k < |Insertion(config, end)| :: Inert(Insertion(config, end)[k])
  {
    assert |INCLUDE| == 28;
    assert forall k | 0 <= k < 28 :: Inert(INCLUDE[k]);
  }

  /** After adding the include, the scanner finds the same block again, with its end moved by
      exactly the inserted length; and all of the insertion lies in plain text directly inside
      the block, at depth 1. */
  lemma IncludeStaysInBlock(config: Text, open: nat, end: nat)
    requires HttpBlock(config, open, end)
    ensures var n := |Insertion(config, end)|;
            HttpBlock(WithInclude(config, end), open, end + n)
    ensures forall k | end <= k <= end + |Insertion(config, end)| ::
              ModeAt(WithInclude(config, end), open, k) == Plain && Depth(WithInclude(config, end), open, k) == 1
  {
    var out, n := WithInclude(config, end), |Insertion(config, end)|;
    assert out[..end] == config[..end];
    assert config[..open + 1] == config[..end][..open + 1] == out[..open + 1];
    FindOpenerLocal(config, out, 0, open);
    forall k | open <= k <= end
      ensures ModeAt(out, open, k) == ModeAt(config, open, k) && Depth(out, open, k) == Depth(config, open, k)
    {
      assert config[..k] == config[..end][..k] == out[..k];
      ScanLocal(config, out, open, k);
    }
    InsertionInert(config, end);
    assert forall k | end <= k < end + n :: out[k] == Insertion(config, end)[k - end];
    assert Depth(config, open, end) == 1;
    forall k | end <= k <= end + n
      ensures ModeAt(out, open, k) == Plain && Depth(out, open, k) == 1
    {
      ScanInert(out, open, end, k);
    }
    assert out[end + n] == config[end];
    assert out[open] == config[open];
  }
}
