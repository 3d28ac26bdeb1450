/**
 * The Straight Bloom switch of src/index.ts: when any of the sniper spread
 * lines occurs in DefaultGame.ini they are all taken out, otherwise they
 * are put back right after the "# Straight Bloom" comment of the last
 * "[AssetHotfix]" section.
 */
module StraightBloom {
  import opened Text
  import opened IniLines

  const AssetHotfix := "[AssetHotfix]"
  const BloomComment := "# Straight Bloom"

  /** `sniperSpreadLines.some(line => content.includes(line))`. */
  predicate HasSniperLines(content: string, sniper: seq<string>) {
    exists i :: 0 <= i < |sniper| && Contains(content, sniper[i])
  }

  // ---------------------------------------------------------------------
  // switching off

  /** `content.replace(line + '\n', '').replace(line, '')` for one line. */
  function RemoveLine(content: string, line: string): string {
    ReplaceFirst(ReplaceFirst(content, line + "\n", ""), line, "")
  }

  /** `RemoveLine` for every sniper line, in their order. */
  function RemoveLines(content: string, sniper: seq<string>): string
    decreases |sniper|
  {
    if sniper == [] then content else RemoveLines(RemoveLine(content, sniper[0]), sniper[1..])
  }

  predicate NotNewline(c: char) {
    c != '\n'
  }

  /** No two '\n' follow each other. */
  predicate NoDoubleNewline(s: string) {
    forall i :: 0 <= i < |s| - 1 ==> !(s[i] == '\n' && s[i + 1] == '\n')
  }

  /**
   * `s.replace(/\n\n+/g, '\n')`: every run of '\n' becomes one '\n'. Nothing
   * but '\n' is removed, and no two of them are left side by side.
   */
  function CollapseNewlines(s: string): (r: string)
    ensures |s| > 0 ==> |r| > 0 && r[0] == s[0]
    ensures NoDoubleNewline(r)
    ensures Filter(r, NotNewline) == Filter(s, NotNewline)
    decreases |s|
  {
    if |s| == 0 then ""
    else if |s| >= 2 && s[0] == '\n' && s[1] == '\n' then
      var r := CollapseNewlines(s[1..]);
      assert Filter(s, NotNewline) == Filter(s[1..], NotNewline);
      r
    else
      var rest := CollapseNewlines(s[1..]);
      var r := [s[0]] + rest;
      assert r[1..] == rest;
      FilterAppend([s[0]], rest, NotNewline);
      assert s == [s[0]] + s[1..];
      FilterAppend([s[0]], s[1..], NotNewline);
      r
  }

  /** Text in which no two '\n' follow each other is left as it is. */
  lemma {:induction false} CollapseKeeps(s: string)
    requires NoDoubleNewline(s)
    ensures CollapseNewlines(s) == s
    decreases |s|
  {
    if |s| > 0 {
      assert NoDoubleNewline(s[1..]) by {
        forall i | 0 <= i < |s[1..]| - 1 ensures !(s[1..][i] == '\n' && s[1..][i + 1] == '\n') {
          assert s[1..][i] == s[i + 1] && s[1..][i + 1] == s[i + 2];
        }
      }
      CollapseKeeps(s[1..]);
      assert s == [s[0]] + s[1..];
    }
  }

  /**
   * Shortening a run of '\n' by one does not change the result, so every
   * run, however long, ends up as a single '\n'; with `CollapseKeeps` this
   * fixes the result for every text.
   */
  lemma {:induction false} CollapseRun(a: string, b: string)
    ensures CollapseNewlines(a + "\n\n" + b) == CollapseNewlines(a + "\n" + b)
    decreases |a|
  {
    var s := a + "\n\n" + b;
    var t := a + "\n" + b;
    if |a| == 0 {
      assert s[1..] == t;
    } else {
      assert s[1..] == a[1..] + "\n\n" + b;
      assert t[1..] == a[1..] + "\n" + b;
      assert s[0] == t[0] == a[0];
      assert s[1] == t[1];
      CollapseRun(a[1..], b);
    }
  }

  /** A run of `n` '\n' between two texts collapses like a single '\n'. */
  lemma {:induction false} CollapseRunOf(a: string, n: nat, b: string)
    requires n >= 1
    ensures CollapseNewlines(a + Repeat('\n', n) + b) == CollapseNewlines(a + "\n" + b)
    decreases n
  {
    if n == 1 {
      assert Repeat('\n', 1) == "\n";
    } else {
      assert a + Repeat('\n', n) + b == a + "\n\n" + (Repeat('\n', n - 2) + b);
      CollapseRun(a, Repeat('\n', n - 2) + b);
      assert a + "\n" + (Repeat('\n', n - 2) + b) == a + Repeat('\n', n - 1) + b;
      CollapseRunOf(a, n - 1, b);
    }
  }

  /** Collapsing twice is collapsing once. */
  lemma CollapseIdempotent(s: string)
    ensures CollapseNewlines(CollapseNewlines(s)) == CollapseNewlines(s)
  {
    CollapseKeeps(CollapseNewlines(s));
  }

  /** The text with Straight Bloom switched off. */
  function Disabled(content: string, sniper: seq<string>): (r: string)
    ensures NoDoubleNewline(r)
  {
    CollapseNewlines(RemoveLines(content, sniper))
  }

  /** `p + q` occurring somewhere means `p` occurs there. */
  lemma OccursPrefix(s: string, p: string, q: string, j: int)
    requires OccursAt(s, p + q, j)
    ensures OccursAt(s, p, j)
  {
    assert s[j..j + |p|] == (p + q)[..|p|];
  }

  /** Where the first `line` is followed by '\n', removing the first `line + '\n'` removes it there. */
  lemma RemoveFirstLineText(h: string, line: string, t: string)
    requires IndexOf(h + (line + "\n") + t, line) == |h|
    ensures ReplaceFirst(h + (line + "\n") + t, line + "\n", "") == h + t
  {
    var s := h + (line + "\n") + t;
    MiddleOccurs(h, line + "\n", t);
    var i := IndexOf(s, line + "\n");
    if i < |h| {
      OccursPrefix(s, line, "\n", i);
    }
    assert s[..|h|] == h && s[|h| + |line| + 1..] == t;
  }

  /** The text of lines around a line that another line follows. */
  lemma SoleLineText(pre: seq<string>, line: string, post: seq<string>)
    requires post != []
    ensures Join(pre + [line] + post, '\n') == Before(pre, '\n') + (line + "\n") + Join(post, '\n')
  {
    JoinAround(pre, line, post, '\n');
  }

  /** A line that no earlier line holds first occurs where that line starts. */
  lemma SoleLineFirst(pre: seq<string>, line: string, post: seq<string>)
    requires |line| > 0 && '\n' !in line && post != []
    requires forall i :: 0 <= i < |pre| ==> !Contains(pre[i], line)
    ensures IndexOf(Before(pre, '\n') + (line + "\n") + Join(post, '\n'), line) == |Before(pre, '\n')|
  {
    SoleLineText(pre, line, post);
    assert OccursAt(line, line, 0);
    FirstInLine(pre, line, post, line);
  }

  /**
   * A sniper line that is a whole line of the text, followed by another line,
   * and that occurs nowhere else, is removed together with its '\n'.
   */
  lemma RemoveSoleLine(pre: seq<string>, line: string, post: seq<string>)
    requires |line| > 0 && '\n' !in line && post != []
    requires forall i :: 0 <= i < |pre| ==> !Contains(pre[i], line)
    requires forall i :: 0 <= i < |post| ==> !Contains(post[i], line)
    ensures RemoveLine(Join(pre + [line] + post, '\n'), line) == Join(pre + post, '\n')
  {
    SoleLineText(pre, line, post);
    SoleLineFirst(pre, line, post);
    RemoveFirstLineText(Before(pre, '\n'), line, Join(post, '\n'));
    JoinAfterBefore(pre, post, '\n');
    NotInJoin(pre + post, '\n', line);
    RemoveLineVia(Join(pre + [line] + post, '\n'), line, Join(pre + post, '\n'));
  }

  /** The two removals of `RemoveLine` when the first takes the line and the second finds nothing left. */
  lemma RemoveLineVia(s: string, line: string, k: string)
    requires ReplaceFirst(s, line + "\n", "") == k && !Contains(k, line)
    ensures RemoveLine(s, line) == k
  {
  }

  // ---------------------------------------------------------------------
  // switching on

  /** A line reading "[AssetHotfix]" once trimmed. */
  predicate IsHotfixHeader(line: string) {
    Trim(line) == AssetHotfix
  }

  /** A line reading "# Straight Bloom" once trimmed. */
  predicate IsBloomComment(line: string) {
    Trim(line) == BloomComment
  }

  /** The last of the first `n` lines that `marks`, or -1. */
  function LastMarked(lines: seq<string>, marks: string -> bool, n: nat): (i: int)
    requires n <= |lines|
    ensures i == -1 ==> forall j :: 0 <= j < n ==> !marks(lines[j])
    ensures i != -1 ==> (0 <= i < n && marks(lines[i]) && forall j :: i < j < n ==> !marks(lines[j]))
  {
    if n == 0 then -1
    else if marks(lines[n - 1]) then n - 1
    else LastMarked(lines, marks, n - 1)
  }

  /** The first line at or after `from` that `marks`, or -1. */
  function FirstMarked(lines: seq<string>, marks: string -> bool, from: nat): (i: int)
    requires from <= |lines|
    ensures i == -1 ==> forall j :: from <= j < |lines| ==> !marks(lines[j])
    ensures i != -1 ==> (from <= i < |lines| && marks(lines[i]) && forall j :: from <= j < i ==> !marks(lines[j]))
    decreases |lines| - from
  {
    if from == |lines| then -1
    else if marks(lines[from]) then from
    else FirstMarked(lines, marks, from + 1)
  }

  /** Line `a` is the last line that `marks`. */
  predicate LastAt(lines: seq<string>, marks: string -> bool, a: int) {
    0 <= a < |lines| && marks(lines[a]) && forall j :: a < j < |lines| ==> !marks(lines[j])
  }

  /** No line strictly between lines `a` and `b` `marks`. */
  predicate NoneBetween(lines: seq<string>, marks: string -> bool, a: int, b: int)
    requires b <= |lines|
  {
    forall j :: a < j < b && 0 <= j ==> !marks(lines[j])
  }

  /** The first line that `comment` marks below the last line that `header` marks, or -1. */
  function BelowLast(lines: seq<string>, header: string -> bool, comment: string -> bool): (b: int)
    ensures b == -1 || 0 <= b < |lines|
  {
    var a := LastMarked(lines, header, |lines|);
    if a == -1 then -1 else FirstMarked(lines, comment, a + 1)
  }

  /**
   * The line found is marked by `comment`, below the last `header` line with
   * no `comment` line in between; there is none exactly when no line is a
   * header or no comment follows the last header.
   */
  lemma BelowLastMarks(lines: seq<string>, header: string -> bool, comment: string -> bool)
    ensures var b := BelowLast(lines, header, comment);
      b != -1 ==> (comment(lines[b]) && exists a :: LastAt(lines, header, a) && a < b && NoneBetween(lines, comment, a, b))
    ensures BelowLast(lines, header, comment) == -1 <==>
      ((forall j :: 0 <= j < |lines| ==> !header(lines[j]))
       || exists a :: LastAt(lines, header, a) && NoneBetween(lines, comment, a, |lines|))
  {
    var a := LastMarked(lines, header, |lines|);
    if a != -1 {
      assert LastAt(lines, header, a);
      var b := FirstMarked(lines, comment, a + 1);
      if b != -1 {
        assert NoneBetween(lines, comment, a, b);
        forall a' | LastAt(lines, header, a') ensures !NoneBetween(lines, comment, a', |lines|) {
          assert a' == a;
          assert comment(lines[b]);
        }
      } else {
        assert NoneBetween(lines, comment, a, |lines|);
      }
    }
  }

  /** Where the sniper lines go: after the bloom comment under the last hotfix header, or -1 when either is missing. */
  function BloomLine(lines: seq<string>): (b: int)
    ensures b == -1 || 0 <= b < |lines|
  {
    BelowLast(lines, IsHotfixHeader, IsBloomComment)
  }

  /** The lines with `sniper` put right after line `b`. */
  function Spliced(lines: seq<string>, sniper: seq<string>, b: nat): (r: seq<string>)
    requires b < |lines|
    ensures |r| == |lines| + |sniper|
  {
    lines[..b + 1] + sniper + lines[b + 1..]
  }

  /** Lines without '\n' spliced with lines without '\n' split back into exactly those lines. */
  lemma SplicedSplit(lines: seq<string>, sniper: seq<string>, b: nat)
    requires b < |lines|
    requires forall i :: 0 <= i < |lines| ==> '\n' !in lines[i]
    requires forall i :: 0 <= i < |sniper| ==> '\n' !in sniper[i]
    ensures Split(Join(Spliced(lines, sniper, b), '\n'), '\n') == Spliced(lines, sniper, b)
  {
    var all := Spliced(lines, sniper, b);
    forall i | 0 <= i < |all| ensures '\n' !in all[i] {
      if i <= b {
        assert all[i] == lines[i];
      } else if i < b + 1 + |sniper| {
        assert all[i] == sniper[i - b - 1];
      } else {
        assert all[i] == lines[i - |sniper|];
      }
    }
    SplitJoin(all, '\n');
  }

  /** The spliced text contains the first sniper line. */
  lemma SplicedContains(lines: seq<string>, sniper: seq<string>, b: nat)
    requires b < |lines| && sniper != []
    ensures Contains(Join(Spliced(lines, sniper, b), '\n'), sniper[0])
  {
    var pre := lines[..b + 1];
    var post := sniper[1..] + lines[b + 1..];
    assert Spliced(lines, sniper, b) == pre + [sniper[0]] + post;
    LineInJoin(pre, sniper[0], post, '\n');
  }

  /** The text with Straight Bloom switched on. */
  function Enabled(content: string, sniper: seq<string>): string {
    var lines := Split(content, '\n');
    var b := BloomLine(lines);
    if b == -1 then content else Join(Spliced(lines, sniper, b), '\n')
  }

  /**
   * Switching on puts the sniper lines, in order, as lines right after the
   * first "# Straight Bloom" below the last "[AssetHotfix]"; without either
   * marker the text stays as it is.
   */
  lemma EnabledLines(content: string, sniper: seq<string>)
    requires forall i :: 0 <= i < |sniper| ==> '\n' !in sniper[i]
    ensures var lines := Split(content, '\n');
      var b := BloomLine(lines);
      (b == -1 ==> Enabled(content, sniper) == content)
      && (b != -1 ==> Split(Enabled(content, sniper), '\n') == Spliced(lines, sniper, b))
  {
    var lines := Split(content, '\n');
    var b := BloomLine(lines);
    if b != -1 {
      SplicedSplit(lines, sniper, b);
    }
  }

  /** After switching on with both markers present, the next switch finds the lines and switches off. */
  lemma EnabledHasLines(content: string, sniper: seq<string>)
    requires sniper != []
    requires BloomLine(Split(content, '\n')) != -1
    ensures HasSniperLines(Enabled(content, sniper), sniper)
  {
    var lines := Split(content, '\n');
    SplicedContains(lines, sniper, BloomLine(lines));
  }

  /** The text and which way the switch went: true when it was switched on. */
  function Toggled(content: string, sniper: seq<string>): (r: (string, bool))
    ensures r.1 <==> !HasSniperLines(content, sniper)
  {
    if HasSniperLines(content, sniper) then (Disabled(content, sniper), false) else (Enabled(content, sniper), true)
  }

  // ---------------------------------------------------------------------
  // the loops of the source

  /** The backward scan for the last "[AssetHotfix]" line. */
  method FindLastHotfix(lines: seq<string>) returns (index: int)
    ensures index == LastMarked(lines, IsHotfixHeader, |lines|)
  {
    index := -1;
    var i := |lines| - 1;
    while i >= 0
      invariant -1 <= i < |lines|
      invariant LastMarked(lines, IsHotfixHeader, |lines|) == LastMarked(lines, IsHotfixHeader, i + 1)
    {
      if IsHotfixHeader(lines[i]) {
        index := i;
        return;
      }
      i := i - 1;
    }
  }

  /** The forward scan for the first "# Straight Bloom" line from `from` on. */
  method FindBloomComment(lines: seq<string>, from: nat) returns (index: int)
    requires from <= |lines|
    ensures index == FirstMarked(lines, IsBloomComment, from)
  {
    index := -1;
    var i := from;
    while i < |lines|
      invariant from <= i <= |lines|
      invariant FirstMarked(lines, IsBloomComment, from) == FirstMarked(lines, IsBloomComment, i)
    {
      if IsBloomComment(lines[i]) {
        index := i;
        return;
      }
      i := i + 1;
    }
  }

  /** The `some` scan: whether any sniper line occurs in the text. */
  method AnySniperLine(content: string, sniper: seq<string>) returns (hasLines: bool)
    ensures hasLines == HasSniperLines(content, sniper)
  {
    hasLines := false;
    var k := 0;
    while k < |sniper| && !hasLines
      invariant 0 <= k <= |sniper|
      invariant hasLines <==> exists i :: 0 <= i < k && Contains(content, sniper[i])
    {
      hasLines := Contains(content, sniper[k]);
      k := k + 1;
    }
  }

  /** The `forEach` that removes every sniper line in turn. */
  method RemoveEach(content: string, sniper: seq<string>) returns (result: string)
    ensures result == RemoveLines(content, sniper)
  {
    result := content;
    var i := 0;
    while i < |sniper|
      invariant 0 <= i <= |sniper|
      invariant RemoveLines(result, sniper[i..]) == RemoveLines(content, sniper)
    {
      assert sniper[i..][1..] == sniper[i + 1..];
      result := RemoveLine(result, sniper[i]);
      i := i + 1;
    }
  }

  /** `toggleStraightBloom` on the text of DefaultGame.ini. */
  method Toggle(content: string, sniper: seq<string>) returns (result: string, enabled: bool)
    ensures (result, enabled) == Toggled(content, sniper)
  {
    var hasLines := AnySniperLine(content, sniper);
    result := content;
    if hasLines {
      result := RemoveEach(content, sniper);
      result := CollapseNewlines(result);
      enabled := false;
    } else {
      result := EnableAfterComment(content, sniper);
      enabled := true;
    }
  }

  /** The two scans of the switching-on branch and the splice after the comment line. */
  method EnableAfterComment(content: string, sniper: seq<string>) returns (result: string)
    ensures result == Enabled(content, sniper)
  {
    result := content;
    var lines := Split(content, '\n');
    var a := FindLastHotfix(lines);
    assert a == LastMarked(lines, IsHotfixHeader, |lines|);
    if a != -1 {
      var b := FindBloomComment(lines, a + 1);
      assert b == BloomLine(lines);
      if b != -1 {
        result := Join(Spliced(lines, sniper, b), '\n');
      }
    } else {
      assert BloomLine(lines) == -1;
    }
  }
}
