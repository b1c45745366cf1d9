/**
 * Comment removal applied to the grammar text before it is parsed
 * (`Diagrams._preprocess_grammar`): first every line comment matched by
 * `(#+|!!)[^\n]+\n`, then the block comment matched by `/\*{3}.+\*{3}/`
 * in DOTALL mode. Each substitution is written as the left-to-right scan
 * that Python's `re.sub` performs for its pattern, and each scan is proved
 * equal to a declarative reference definition.
 */
module Preprocess {
  import opened Wrappers

  // ------------------------------------------------------------------
  // Line comments: `(#+|!!)[^\n]+\n`
  // ------------------------------------------------------------------

  /** Index of the first newline of `s`, if there is one. */
  function NewlineIndex(s: string): (r: Option<nat>)
    ensures r.Some? ==> r.value < |s| && s[r.value] == '\n'
    ensures r.Some? ==> forall k :: 0 <= k < r.value ==> s[k] != '\n'
    ensures r.None? <==> '\n' !in s
  {
    if |s| == 0 then None
    else if s[0] == '\n' then Some(0)
    else
      match NewlineIndex(s[1..])
      case Some(j) => Some(j + 1)
      case None => None
  }

  /** Length of the comment marker at the head of `s` that the rest of the
      pattern is matched after: one for a `#` (the regex backtracks `#+` to a
      single `#` when needed, the other `#`s being absorbed by `[^\n]+`), two
      for `!!`, zero when `s` starts with neither. */
  function MarkerLength(s: string): nat
  {
    if |s| >= 1 && s[0] == '#' then 1
    else if |s| >= 2 && s[0] == '!' && s[1] == '!' then 2
    else 0
  }

  /** Length of the line-comment match at the head of `s`, if one starts
      there: a marker, at least one character that is not a newline, and the
      first newline, which ends the match. */
  function LineCommentLength(s: string): (r: Option<nat>)
    ensures r.Some? ==> 3 <= r.value <= |s| && s[r.value - 1] == '\n'
    ensures r.Some? ==> s[0] == '#' || (s[0] == '!' && s[1] == '!')
    ensures r.Some? ==> forall k :: 0 <= k < r.value - 1 ==> s[k] != '\n'
  {
    var m := MarkerLength(s);
    if m == 0 then None
    else
      match NewlineIndex(s)
      case Some(j) => if j > m then Some(j + 1) else None
      case None => None
  }

  /** `re.sub(r"(#+|!!)[^\n]+\n", "", s)`: scan from the left; where a match
      starts, drop it and resume after it, otherwise keep one character. */
  function StripLineComments(s: string): (r: string)
    ensures |r| <= |s|
  {
    if |s| == 0 then []
    else
      match LineCommentLength(s)
      case Some(n) => StripLineComments(s[n..])
      case None => [s[0]] + StripLineComments(s[1..])
  }

  /** Whether a line comment starts at index `i` of `line`, a line without its
      newline: a `#` with at least one character after it, or `!!` with at
      least one character after it. */
  predicate CommentStartsAt(line: string, i: nat)
  {
    (i + 2 <= |line| && line[i] == '#')
    || (i + 3 <= |line| && line[i] == '!' && line[i + 1] == '!')
  }

  /** The first index of `line` at which a line comment starts. */
  function FirstCommentStart(line: string): (r: Option<nat>)
    ensures r.Some? ==> r.value < |line| && CommentStartsAt(line, r.value)
    ensures r.Some? ==> forall k: nat :: k < r.value ==> !CommentStartsAt(line, k)
    ensures r.None? ==> forall k: nat :: k < |line| ==> !CommentStartsAt(line, k)
  {
    if |line| == 0 then None
    else if CommentStartsAt(line, 0) then Some(0)
    else
      match FirstCommentStart(line[1..])
      case Some(i) =>
        assert forall k: nat :: 0 < k <= i ==> (CommentStartsAt(line, k) <==> CommentStartsAt(line[1..], k - 1));
        Some(i + 1)
      case None =>
        assert forall k: nat :: 0 < k < |line| ==> (CommentStartsAt(line, k) <==> CommentStartsAt(line[1..], k - 1));
        None
  }

  /** What a newline-terminated line becomes: cut at its first comment, the
      comment taking the newline with it; kept whole when it has none. */
  function StripLine(line: string): string
  {
    match FirstCommentStart(line)
    case Some(i) => line[..i]
    case None => line + "\n"
  }

  /** Reference definition of line-comment removal: every newline-terminated
      line is cut at its first comment; a last line without a newline is
      kept as it is. */
  function StripByLines(s: string): string
    decreases |s|
  {
    match NewlineIndex(s)
    case None => s
    case Some(k) => StripLine(s[..k]) + StripByLines(s[k + 1..])
  }

  /** Text with no newline holds no match, so the scan keeps it. */
  lemma {:induction false} NoNewlineKept(s: string)
    requires '\n' !in s
    ensures StripLineComments(s) == s
  {
    if |s| > 0 {
      assert '\n' !in s[1..];
      NoNewlineKept(s[1..]);
    }
  }

  /** The first newline after a line is the one that ends it. */
  lemma NewlineEndsLine(line: string, rest: string)
    requires '\n' !in line
    ensures NewlineIndex(line + "\n" + rest) == Some(|line|)
  {
    var s := line + "\n" + rest;
    assert s[|line|] == '\n';
    assert forall k :: 0 <= k < |line| ==> s[k] == line[k];
  }

  /** Where no comment starts at its head, a line keeps its first character. */
  lemma {:induction false} StripLineKeepsHead(line: string)
    requires |line| > 0 && !CommentStartsAt(line, 0)
    ensures StripLine(line) == [line[0]] + StripLine(line[1..])
  {
    var tail := line[1..];
    match FirstCommentStart(tail)
    case Some(i) =>
      assert CommentStartsAt(line, i + 1) by {
        assert CommentStartsAt(tail, i);
      }
      forall k: nat | 0 < k <= i
        ensures !CommentStartsAt(line, k)
      {
        assert !CommentStartsAt(tail, k - 1);
      }
      assert FirstCommentStart(line) == Some(i + 1);
      assert line[..i + 1] == [line[0]] + tail[..i];
    case None =>
      forall k: nat | 0 < k < |line|
        ensures !CommentStartsAt(line, k)
      {
        assert !CommentStartsAt(tail, k - 1);
      }
      assert FirstCommentStart(line) == None;
      assert line + "\n" == [line[0]] + (tail + "\n");
  }

  /** How the scan starts on a line followed by its newline: a comment at
      the head of the line takes the whole line; otherwise the first character
      is kept. */
  lemma ScanLineHead(line: string, rest: string)
    requires |line| > 0 && '\n' !in line
    ensures CommentStartsAt(line, 0) ==> StripLineComments(line + "\n" + rest) == StripLineComments(rest)
    ensures !CommentStartsAt(line, 0) ==>
      StripLineComments(line + "\n" + rest) == [line[0]] + StripLineComments(line[1..] + "\n" + rest)
  {
    var s := line + "\n" + rest;
    NewlineEndsLine(line, rest);
    assert s[0] == line[0];
    assert |line| >= 2 ==> s[1] == line[1];
    if CommentStartsAt(line, 0) {
      assert LineCommentLength(s) == Some(|line| + 1);
      assert s[|line| + 1..] == rest;
    } else {
      assert LineCommentLength(s) == None;
      assert s[1..] == line[1..] + "\n" + rest;
    }
  }

  /** An empty line is kept as its newline. */
  lemma EmptyLineKept(line: string, rest: string)
    requires |line| == 0
    ensures StripLineComments(line + "\n" + rest) == StripLine(line) + StripLineComments(rest)
  {
    var s := line + "\n" + rest;
    assert s[0] == '\n' && s[1..] == rest;
    assert LineCommentLength(s) == None;
    assert FirstCommentStart(line) == None;
  }

  /** A line with a comment at its head goes away with its newline. */
  lemma CommentedLineRemoved(line: string, rest: string)
    requires |line| > 0 && '\n' !in line && CommentStartsAt(line, 0)
    ensures StripLineComments(line + "\n" + rest) == StripLine(line) + StripLineComments(rest)
  {
    ScanLineHead(line, rest);
    assert FirstCommentStart(line) == Some(0);
  }

  /** Concatenation is associative (kept apart so that proofs over long
      contexts need not rediscover it). */
  lemma AppendAssoc(a: string, b: string, c: string)
    ensures a + (b + c) == a + b + c
  {
  }

  /** Associativity, regrouping four parts. */
  lemma AppendAssoc4(a: string, b: string, c: string, d: string)
    ensures a + ((b + c) + d) == a + b + c + d
  {
  }

  /** The scan turns one line and its newline into `StripLine` of it, then
      goes on with the rest of the text. */
  lemma {:induction false} OneLine(line: string, rest: string)
    requires '\n' !in line
    ensures StripLineComments(line + "\n" + rest) == StripLine(line) + StripLineComments(rest)
  {
    if |line| == 0 {
      EmptyLineKept(line, rest);
    } else if CommentStartsAt(line, 0) {
      CommentedLineRemoved(line, rest);
    } else {
      ScanLineHead(line, rest);
      OneLine(line[1..], rest);
      StripLineKeepsHead(line);
      AppendAssoc([line[0]], StripLine(line[1..]), StripLineComments(rest));
    }
  }

  /** The scan agrees with the line-by-line reference on every text. */
  lemma {:induction false} StripLineCommentsByLines(s: string)
    ensures StripLineComments(s) == StripByLines(s)
    decreases |s|
  {
    match NewlineIndex(s)
    case None =>
      NoNewlineKept(s);
    case Some(k) =>
      assert '\n' !in s[..k];
      assert s == s[..k] + "\n" + s[k + 1..];
      OneLine(s[..k], s[k + 1..]);
      StripLineCommentsByLines(s[k + 1..]);
  }

  /** Cutting a text at its first newline, `k`, leaves a line and a tail. */
  lemma CutAtNewline(a: string, b: string, k: nat)
    requires k < |a| && a[k] == '\n' && forall i :: 0 <= i < k ==> a[i] != '\n'
    ensures '\n' !in a[..k]
    ensures a == a[..k] + "\n" + a[k + 1..]
    ensures a + b == a[..k] + "\n" + (a[k + 1..] + b)
  {
  }

  /** Line comments never cross a newline: text that ends with one is
      stripped independently of what follows it. */
  lemma {:induction false} StripLineCommentsSplits(a: string, b: string)
    requires |a| == 0 || a[|a| - 1] == '\n'
    ensures StripLineComments(a + b) == StripLineComments(a) + StripLineComments(b)
    decreases |a|
  {
    if |a| == 0 {
      assert a + b == b;
    } else {
      assert '\n' in a;
      var k := NewlineIndex(a).value;
      var line, tail := a[..k], a[k + 1..];
      CutAtNewline(a, b, k);
      assert |tail| == 0 || tail[|tail| - 1] == '\n';
      OneLine(line, tail + b);
      OneLine(line, tail);
      StripLineCommentsSplits(tail, b);
      AppendAssoc(StripLine(line), StripLineComments(tail), StripLineComments(b));
    }
  }

  /** A line whose first comment starts at the marker is cut right before
      the marker. */
  lemma CutAtMarker(text: string, marker: string, comment: string)
    requires '\n' !in text && '\n' !in comment
    requires marker == "#" || marker == "!!"
    requires FirstCommentStart(text + marker + comment) == Some(|text|)
    ensures '\n' !in text + marker + comment
    ensures StripLine(text + marker + comment) == text
  {
    var line := text + marker + comment;
    assert forall k :: 0 <= k < |line| ==> line[k] == (if k < |text| then text[k] else if k < |text| + |marker| then marker[k - |text|] else comment[k - |text| - |marker|]);
    assert line[..|text|] == text;
  }

  /** Regroups a text around the line that holds a comment. */
  lemma CommentLineRegrouped(before: string, text: string, marker: string, comment: string, rest: string)
    ensures before + text + marker + comment + "\n" + rest == before + ((text + marker + comment) + "\n" + rest)
  {
  }

  /** A `#` or `!!` that starts the first comment of its line is removed
      together with the rest of the line and its newline, wherever in the
      line it starts. */
  lemma CommentRemovedWithNewline(before: string, text: string, marker: string, comment: string, rest: string)
    requires |before| == 0 || before[|before| - 1] == '\n'
    requires '\n' !in text && '\n' !in comment
    requires marker == "#" || marker == "!!"
    requires FirstCommentStart(text + marker + comment) == Some(|text|)
    ensures StripLineComments(before + text + marker + comment + "\n" + rest)
         == StripLineComments(before) + text + StripLineComments(rest)
  {
    var line := text + marker + comment;
    CutAtMarker(text, marker, comment);
    CommentLineRegrouped(before, text, marker, comment, rest);
    StripLineCommentsSplits(before, line + "\n" + rest);
    OneLine(line, rest);
    AppendAssoc(StripLineComments(before), text, StripLineComments(rest));
  }

  /** A line that ends with `#` and has no comment is kept with its
      newline. */
  lemma HashAtEndOfLine(text: string)
    requires '\n' !in text && FirstCommentStart(text + "#") == None
    ensures '\n' !in text + "#"
    ensures StripLine(text + "#") == text + "#\n"
  {
    var line := text + "#";
    assert forall k :: 0 <= k < |text| ==> line[k] == text[k];
  }

  /** Regroups a text around the line that ends with `#`. */
  lemma HashLineRegrouped(before: string, text: string, rest: string)
    ensures before + text + "#\n" + rest == before + ((text + "#") + "\n" + rest)
  {
  }

  /** A `#` that is the last character of its line, in a line with no
      comment, is kept, newline and all. */
  lemma LoneHashKept(before: string, text: string, rest: string)
    requires |before| == 0 || before[|before| - 1] == '\n'
    requires '\n' !in text && FirstCommentStart(text + "#") == None
    ensures StripLineComments(before + text + "#\n" + rest)
         == StripLineComments(before) + text + "#\n" + StripLineComments(rest)
  {
    var line := text + "#";
    HashAtEndOfLine(text);
    HashLineRegrouped(before, text, rest);
    StripLineCommentsSplits(before, line + "\n" + rest);
    OneLine(line, rest);
    AppendAssoc4(StripLineComments(before), text, "#\n", StripLineComments(rest));
  }

  /** A last line without a newline is kept whole, even when it holds a
      marker. */
  lemma UnterminatedLineKept(before: string, last: string)
    requires |before| == 0 || before[|before| - 1] == '\n'
    requires '\n' !in last
    ensures StripLineComments(before + last) == StripLineComments(before) + last
  {
    StripLineCommentsSplits(before, last);
    NoNewlineKept(last);
  }

  // ------------------------------------------------------------------
  // Block comment: `/\*{3}.+\*{3}/` with DOTALL
  // ------------------------------------------------------------------

  // `/***` starts at index `i` of `s`.
  predicate OpensAt(s: string, i: nat)
  {
    i + 4 <= |s| && s[i] == '/' && s[i + 1] == '*' && s[i + 2] == '*' && s[i + 3] == '*'
  }

  // `***/` starts at index `q` of `s`.
  predicate ClosesAt(s: string, q: nat)
  {
    q + 4 <= |s| && s[q] == '*' && s[q + 1] == '*' && s[q + 2] == '*' && s[q + 3] == '/'
  }

  // The first `/***` of `s` at or after index `from`.
  function FirstOpenFrom(s: string, from: nat): (r: Option<nat>)
    requires from <= |s|
    ensures r.Some? ==> from <= r.value && OpensAt(s, r.value)
    ensures r.Some? ==> forall k: nat :: from <= k < r.value ==> !OpensAt(s, k)
    ensures r.None? ==> forall k: nat :: from <= k ==> !OpensAt(s, k)
    decreases |s| - from
  {
    if from == |s| then None
    else if OpensAt(s, from) then Some(from)
    else FirstOpenFrom(s, from + 1)
  }

  // The last `***/` of `s` that starts before index `n`.
  function LastCloseBelow(s: string, n: nat): (r: Option<nat>)
    requires n <= |s|
    ensures r.Some? ==> r.value < n && ClosesAt(s, r.value)
    ensures r.Some? ==> forall k: nat :: r.value < k < n ==> !ClosesAt(s, k)
    ensures r.None? ==> forall k: nat :: k < n ==> !ClosesAt(s, k)
  {
    if n == 0 then None
    else if ClosesAt(s, n - 1) then Some(n - 1)
    else LastCloseBelow(s, n - 1)
  }

  // The last `***/` of `s`.
  function LastClose(s: string): (r: Option<nat>)
    ensures r.Some? ==> ClosesAt(s, r.value)
    ensures r.Some? ==> forall k: nat :: r.value < k ==> !ClosesAt(s, k)
    ensures r.None? ==> forall k: nat :: !ClosesAt(s, k)
  {
    LastCloseBelow(s, |s|)
  }

  // End (exclusive) of the block-comment match that starts at index `i`, if
  // one does: the greedy `.+` reaches the last `***/` of the text, which
  // must start at least five characters after `i`.
  function BlockCommentEnd(s: string, i: nat): (r: Option<nat>)
    requires i <= |s|
    ensures r.Some? ==> i + 9 <= r.value <= |s|
  {
    if !OpensAt(s, i) then None
    else
      match LastClose(s)
      case Some(q) => if q >= i + 5 then Some(q + 4) else None
      case None => None
  }

  /** The scan of `re.sub(r"/\*{3}.+\*{3}/", "", s, flags=re.DOTALL)` from
      index `i` on. */
  function StripBlockCommentFrom(s: string, i: nat): (r: string)
    requires i <= |s|
    ensures |r| <= |s| - i
    decreases |s| - i
  {
    if i == |s| then []
    else
      match BlockCommentEnd(s, i)
      case Some(e) => StripBlockCommentFrom(s, e)
      case None => [s[i]] + StripBlockCommentFrom(s, i + 1)
  }

  /** Block-comment removal: the scan from the start of the text. It never
      lengthens the text. */
  function StripBlockComment(s: string): (r: string)
    ensures |r| <= |s|
  {
    StripBlockCommentFrom(s, 0)
  }

  // Reference definition of block-comment removal: everything from the
  // first `/***` through the last `***/` is cut, provided that `***/`
  // starts at least five characters after the `/***`; otherwise the text
  // is kept. At most one cut is made.
  function RemoveBlock(s: string): string
  {
    match FirstOpenFrom(s, 0)
    case None => s
    case Some(p) =>
      match LastClose(s)
      case Some(q) => if q >= p + 5 then s[..p] + s[q + 4..] else s
      case None => s
  }

  /** Where no match starts, the scan copies the text. */
  lemma {:induction false} CopiedWithoutMatch(s: string, i: nat, p: nat)
    requires i <= p <= |s|
    requires forall k: nat :: i <= k < p ==> BlockCommentEnd(s, k).None?
    ensures StripBlockCommentFrom(s, i) == s[i..p] + StripBlockCommentFrom(s, p)
    decreases p - i
  {
    if i < p {
      ScanCopiesOne(s, i);
      CopiedWithoutMatch(s, i + 1, p);
      PrependOne(s, i, p, StripBlockCommentFrom(s, p));
    }
  }

  /** Where no match starts at `i`, the scan copies `s[i]`. */
  lemma ScanCopiesOne(s: string, i: nat)
    requires i < |s| && BlockCommentEnd(s, i).None?
    ensures StripBlockCommentFrom(s, i) == [s[i]] + StripBlockCommentFrom(s, i + 1)
  {
  }

  /** Putting `s[i]` back in front of the slice that follows it. */
  lemma PrependOne(s: string, i: nat, p: nat, tail: string)
    requires i < p <= |s|
    ensures [s[i]] + (s[i + 1..p] + tail) == s[i..p] + tail
  {
    assert s[i..p] == [s[i]] + s[i + 1..p];
  }

  /** No match starts before the first opening delimiter. */
  lemma NoMatchBeforeOpen(s: string, p: nat)
    requires p <= |s|
    requires forall k: nat :: k < p ==> !OpensAt(s, k)
    ensures forall k: nat :: k < p ==> BlockCommentEnd(s, k).None?
  {
  }

  /** No match starts where the last closing delimiter is less than five
      characters ahead. */
  lemma NoMatchPastClose(s: string, from: nat)
    requires from <= |s|
    requires LastClose(s).None? || LastClose(s).value < from + 5
    ensures forall k: nat :: from <= k <= |s| ==> BlockCommentEnd(s, k).None?
  {
  }

  /** Where no match starts anywhere, the scan keeps the text. */
  lemma BlockScanKeeps(s: string)
    requires forall k: nat :: k <= |s| ==> BlockCommentEnd(s, k).None?
    ensures StripBlockComment(s) == s
  {
    CopiedWithoutMatch(s, 0, |s|);
    assert s[0..|s|] == s;
  }

  /** Where the first opening delimiter has a closing one at least five
      characters on, the scan cuts from it through the last closing one. */
  lemma BlockScanCuts(s: string, p: nat, q: nat)
    requires FirstOpenFrom(s, 0) == Some(p) && LastClose(s) == Some(q) && q >= p + 5
    ensures StripBlockComment(s) == s[..p] + s[q + 4..]
  {
    var e := q + 4;
    assert BlockCommentEnd(s, p) == Some(e);
    NoMatchBeforeOpen(s, p);
    CopiedWithoutMatch(s, 0, p);
    ScanJumps(s, p, e);
    NoMatchPastClose(s, e);
    ScanKeepsRest(s, e);
    assert StripBlockCommentFrom(s, 0) == s[0..p] + s[e..];
    assert s[0..p] == s[..p];
  }

  /** A match from `p` to `e` makes the scan go on at `e`. */
  lemma ScanJumps(s: string, p: nat, e: nat)
    requires p < |s| && BlockCommentEnd(s, p) == Some(e)
    ensures StripBlockCommentFrom(s, p) == StripBlockCommentFrom(s, e)
  {
  }

  /** Where no match starts from `from` on, the scan keeps the rest. */
  lemma ScanKeepsRest(s: string, from: nat)
    requires from <= |s|
    requires forall k: nat :: from <= k <= |s| ==> BlockCommentEnd(s, k).None?
    ensures StripBlockCommentFrom(s, from) == s[from..]
  {
    CopiedWithoutMatch(s, from, |s|);
    assert s[from..|s|] + [] == s[from..];
  }

  /** The block-comment scan agrees with the reference definition. */
  lemma StripBlockCommentIsRemoveBlock(s: string)
    ensures StripBlockComment(s) == RemoveBlock(s)
  {
    var first, last := FirstOpenFrom(s, 0), LastClose(s);
    if first.Some? && last.Some? && last.value >= first.value + 5 {
      BlockScanCuts(s, first.value, last.value);
    } else if first.Some? {
      NoMatchBeforeOpen(s, first.value);
      NoMatchPastClose(s, first.value);
      BlockScanKeeps(s);
    } else {
      NoMatchBeforeOpen(s, |s|);
      BlockScanKeeps(s);
    }
  }

  /** The cut spans whatever lies between two separate block comments. */
  lemma TextBetweenBlockCommentsRemoved()
    ensures StripBlockComment("a/*** x ***/b/*** y ***/") == "a"
  {
    var s := "a/*** x ***/b/*** y ***/";
    var n := |s|;
    assert !OpensAt(s, 0) && OpensAt(s, 1);
    assert FirstOpenFrom(s, 1) == Some(1);
    assert FirstOpenFrom(s, 0) == Some(1);
    assert ClosesAt(s, n - 4);
    assert LastCloseBelow(s, n - 3) == Some(n - 4);
    assert LastCloseBelow(s, n - 2) == Some(n - 4);
    assert LastCloseBelow(s, n - 1) == Some(n - 4);
    assert LastClose(s) == Some(n - 4);
    BlockScanCuts(s, 1, n - 4);
    assert s[..1] + s[n..] == "a";
  }

  /** A block comment with no character between its delimiters is kept. */
  lemma EmptyBlockCommentKept()
    ensures StripBlockComment("/****/") == "/****/"
  {
    var s := "/****/";
    StripBlockCommentIsRemoveBlock(s);
    assert OpensAt(s, 0);
    assert FirstOpenFrom(s, 0) == Some(0);
    assert ClosesAt(s, 2);
    assert LastClose(s) == Some(2);
  }

  // ------------------------------------------------------------------
  // The whole preprocessing step
  // ------------------------------------------------------------------

  /** `_preprocess_grammar`: line comments are removed first, then the block
      comment. Neither pass lengthens the text. */
  function PreprocessGrammar(s: string): (r: string)
    ensures |r| <= |s|
  {
    StripBlockComment(StripLineComments(s))
  }

  /** Preprocessing is the line-by-line cut followed by the block cut. */
  lemma PreprocessGrammarByReference(s: string)
    ensures PreprocessGrammar(s) == RemoveBlock(StripByLines(s))
  {
    StripLineCommentsByLines(s);
    StripBlockCommentIsRemoveBlock(StripLineComments(s));
  }

  /** A single `!` is no marker: the line is kept. */
  lemma SingleBangKept()
    ensures StripLineComments("!b\n") == "!b\n"
  {
  }

  /** The comment `#a` goes with its newline. */
  lemma HashLineRemoved()
    ensures StripLineComments("#a\n!b\n") == "!b\n"
  {
    SingleBangKept();
  }

  /** `!` in front of the kept line `!b` (a step kept apart for speed). */
  lemma BangThenLine(c: char, t: string)
    requires c == '!' && t == "!b\n"
    ensures [c] + t == "!!b\n"
  {
  }

  /** Removing `#a` leaves the two `!` next to each other. */
  lemma CommentRemovalJoinsBangs()
    ensures StripLineComments("!#a\n!b\n") == "!!b\n"
  {
    var s := "!#a\n!b\n";
    assert LineCommentLength(s) == None;
    assert s[1..] == "#a\n!b\n";
    HashLineRemoved();
    BangThenLine(s[0], StripLineComments(s[1..]));
  }

  /** Text without a `/` has no block comment to lose. */
  lemma NoBlockCommentInJoined()
    ensures StripBlockComment("!!b\n") == "!!b\n"
    ensures StripBlockComment("") == ""
  {
  }

  /** The joined `!!` is a marker and takes its line with it. */
  lemma JoinedBangsRemoved()
    ensures StripLineComments("!!b\n") == ""
  {
  }

  /** Preprocessing is not idempotent: removing the comment `#a` brings two
      `!` together into a marker, which a second pass removes with its line. */
  lemma PreprocessNotIdempotent()
    ensures PreprocessGrammar("!#a\n!b\n") == "!!b\n"
    ensures PreprocessGrammar("!!b\n") == ""
  {
    CommentRemovalJoinsBangs();
    NoBlockCommentInJoined();
    JoinedBangsRemoved();
  }
}
