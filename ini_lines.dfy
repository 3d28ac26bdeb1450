/**
 * INI text as the editor in src/index.ts sees it: a string whose lines are
 * separated by '\n'. The lemmas here relate an edit of one line to an edit
 * of the whole text.
 */
module IniLines {
  import opened Text

  /** Joining two non-empty lists of lines: the first joined, the separator, the second joined. */
  lemma {:induction false} JoinAppend(a: seq<string>, b: seq<string>, sep: char)
    requires |a| >= 1 && |b| >= 1
    ensures Join(a + b, sep) == Join(a, sep) + [sep] + Join(b, sep)
    decreases |a|
  {
    if |a| == 1 {
      assert (a + b)[1..] == b;
    } else {
      JoinAppend(a[1..], b, sep);
      assert (a + b)[1..] == a[1..] + b;
    }
  }

  /** The text before a line: the lines before it, each followed by the separator. */
  function Before(pre: seq<string>, sep: char): string {
    if pre == [] then "" else Join(pre, sep) + [sep]
  }

  /** The text after a line: the separator, then the lines after it. */
  function After(post: seq<string>, sep: char): string {
    if post == [] then "" else [sep] + Join(post, sep)
  }

  /** A line of a joined text sits between the text of the lines before it and that of the lines after it. */
  lemma JoinAround(pre: seq<string>, x: string, post: seq<string>, sep: char)
    ensures Join(pre + [x] + post, sep) == Before(pre, sep) + x + After(post, sep)
  {
    if post != [] {
      JoinAppend([x], post, sep);
    }
    assert Join([x] + post, sep) == x + After(post, sep);
    if pre != [] {
      assert pre + [x] + post == pre + ([x] + post);
      JoinAppend(pre, [x] + post, sep);
    }
  }

  /** The middle piece of a concatenation occurs right after the first piece. */
  lemma MiddleOccurs(h: string, m: string, t: string)
    ensures OccursAt(h + m + t, m, |h|)
  {
    assert (h + m + t)[|h|..|h| + |m|] == m;
  }

  /** Lines after a non-empty first part: its text, the separator, then theirs. */
  lemma JoinAfterBefore(pre: seq<string>, post: seq<string>, sep: char)
    requires post != []
    ensures Join(pre + post, sep) == Before(pre, sep) + Join(post, sep)
  {
    if pre == [] {
      assert pre + post == post;
    } else {
      JoinAppend(pre, post, sep);
    }
  }

  /** An occurrence is a position; `Contains` finds one exactly when there is one. */
  lemma OccursContains(s: string, p: string, j: int)
    requires OccursAt(s, p, j)
    ensures Contains(s, p)
  {
  }

  /**
   * An occurrence in `a + sep + b` lies wholly inside `a`, wholly inside `b`,
   * or covers the separator, which the pattern then holds.
   */
  lemma SplitOccurrence(a: string, b: string, sep: char, p: string, j: int)
    requires OccursAt(a + [sep] + b, p, j)
    ensures (j + |p| <= |a| && OccursAt(a, p, j)) || (j > |a| && OccursAt(b, p, j - |a| - 1)) || sep in p
  {
    var s := a + [sep] + b;
    if j + |p| <= |a| {
      assert s[j..j + |p|] == a[j..j + |p|];
    } else if j > |a| {
      assert s[j..j + |p|] == b[j - |a| - 1..j - |a| - 1 + |p|];
    } else {
      assert p[|a| - j] == s[|a|];
    }
  }

  /** A pattern without the separator that no line holds does not occur in their join. */
  lemma {:induction false} NotInJoin(parts: seq<string>, sep: char, p: string)
    requires |p| > 0 && sep !in p
    requires forall i :: 0 <= i < |parts| ==> !Contains(parts[i], p)
    ensures !Contains(Join(parts, sep), p)
    decreases |parts|
  {
    if |parts| >= 2 {
      NotInJoin(parts[1..], sep, p);
      var s := Join(parts, sep);
      if Contains(s, p) {
        var j := IndexOf(s, p);
        SplitOccurrence(parts[0], Join(parts[1..], sep), sep, p, j);
        if j + |p| <= |parts[0]| {
          OccursContains(parts[0], p, j);
        } else {
          OccursContains(Join(parts[1..], sep), p, j - |parts[0]| - 1);
        }
      }
    }
  }

  /** Every line of a joined text occurs in it. */
  lemma LineInJoin(pre: seq<string>, x: string, post: seq<string>, sep: char)
    ensures Contains(Join(pre + [x] + post, sep), x)
  {
    JoinAround(pre, x, post, sep);
    var s := Before(pre, sep) + x + After(post, sep);
    assert s[|Before(pre, sep)|..|Before(pre, sep)| + |x|] == x;
    OccursContains(s, x, |Before(pre, sep)|);
  }

  /** No earlier line holds the pattern, so it does not start before the line. */
  lemma NoneBefore(pre: seq<string>, rest: string, pat: string, j: int)
    requires |pat| > 0 && '\n' !in pat
    requires forall i :: 0 <= i < |pre| ==> !Contains(pre[i], pat)
    requires 0 <= j < |Before(pre, '\n')|
    ensures !OccursAt(Before(pre, '\n') + rest, pat, j)
  {
    if OccursAt(Before(pre, '\n') + rest, pat, j) {
      NotInJoin(pre, '\n', pat);
      assert Before(pre, '\n') + rest == Join(pre, '\n') + ['\n'] + rest;
      SplitOccurrence(Join(pre, '\n'), rest, '\n', pat, j);
      OccursContains(Join(pre, '\n'), pat, j);
    }
  }

  /** An occurrence that starts and ends inside the middle piece is one in that piece. */
  lemma InsideMiddle(h: string, x: string, t: string, pat: string, j: int)
    requires |h| <= j && j + |pat| <= |h| + |x|
    requires OccursAt(h + x + t, pat, j)
    ensures OccursAt(x, pat, j - |h|)
  {
    assert (h + x + t)[j..j + |pat|] == x[j - |h|..j - |h| + |pat|];
  }

  /**
   * The first occurrence of a one-line pattern is in the first line that
   * holds it, at the place it first occurs in that line.
   */
  lemma FirstInLine(pre: seq<string>, x: string, post: seq<string>, pat: string)
    requires |pat| > 0 && '\n' !in pat && Contains(x, pat)
    requires forall i :: 0 <= i < |pre| ==> !Contains(pre[i], pat)
    ensures IndexOf(Join(pre + [x] + post, '\n'), pat) == |Before(pre, '\n')| + IndexOf(x, pat)
  {
    JoinAround(pre, x, post, '\n');
    var h := Before(pre, '\n');
    var t := After(post, '\n');
    forall j | 0 <= j < |h| ensures !OccursAt(h + x + t, pat, j) {
      assert h + x + t == h + (x + t);
      NoneBefore(pre, x + t, pat, j);
    }
    FirstInMiddle(h, x, t, pat);
  }

  /** A pattern that does not occur in the head is found where it first occurs in the middle. */
  lemma FirstInMiddle(h: string, x: string, t: string, pat: string)
    requires |pat| > 0 && Contains(x, pat)
    requires forall j :: 0 <= j < |h| ==> !OccursAt(h + x + t, pat, j)
    ensures IndexOf(h + x + t, pat) == |h| + IndexOf(x, pat)
  {
    var k := IndexOf(x, pat);
    assert OccursAt(h + x + t, pat, |h| + k) by {
      assert (h + x + t)[|h| + k..|h| + k + |pat|] == x[k..k + |pat|];
    }
    var i := IndexOf(h + x + t, pat);
    if |h| <= i < |h| + k {
      InsideMiddle(h, x, t, pat, i);
    }
  }

  /**
   * Replacing the first occurrence of a one-line pattern that is itself a
   * line, and that no earlier line holds, replaces exactly that line.
   */
  lemma ReplaceFirstLine(pre: seq<string>, pat: string, post: seq<string>, rep: string)
    requires |pat| > 0 && '\n' !in pat
    requires forall i :: 0 <= i < |pre| ==> !Contains(pre[i], pat)
    ensures ReplaceFirst(Join(pre + [pat] + post, '\n'), pat, rep) == Join(pre + [rep] + post, '\n')
  {
    assert OccursAt(pat, pat, 0);
    FirstInLine(pre, pat, post, pat);
    JoinAround(pre, pat, post, '\n');
    JoinAround(pre, rep, post, '\n');
    var h := Before(pre, '\n');
    var s := h + pat + After(post, '\n');
    assert s[..|h|] == h && s[|h| + |pat|..] == After(post, '\n');
  }

  /** `xs.filter(keep)`. */
  function Filter<T(!new)>(xs: seq<T>, keep: T -> bool): (r: seq<T>)
    ensures |r| <= |xs|
    ensures forall x :: x in r <==> x in xs && keep(x)
    decreases |xs|
  {
    if |xs| == 0 then []
    else (if keep(xs[0]) then [xs[0]] else []) + Filter(xs[1..], keep)
  }

  /** Filtering works element by element, keeping order: filtering joined lists joins the filtered lists. */
  lemma {:induction false} FilterAppend<T(!new)>(a: seq<T>, b: seq<T>, keep: T -> bool)
    ensures Filter(a + b, keep) == Filter(a, keep) + Filter(b, keep)
    decreases |a|
  {
    if |a| > 0 {
      assert (a + b)[0] == a[0];
      assert (a + b)[1..] == a[1..] + b;
      FilterAppend(a[1..], b, keep);
    } else {
      assert a + b == b;
    }
  }

  /** A list whose every element is kept is kept as it is. */
  lemma {:induction false} FilterAll<T(!new)>(xs: seq<T>, keep: T -> bool)
    requires forall i :: 0 <= i < |xs| ==> keep(xs[i])
    ensures Filter(xs, keep) == xs
    decreases |xs|
  {
    if |xs| > 0 {
      FilterAll(xs[1..], keep);
      assert xs == [xs[0]] + xs[1..];
    }
  }

  /**
   * Filtering lines after some were emptied: when the lines that stay
   * non-blank are exactly the ones `keep` accepts, and those were not
   * touched, dropping the blank ones is filtering the originals by `keep`.
   */
  lemma {:induction false} FilterBlanked(xs: seq<string>, ys: seq<string>, keep: string -> bool)
    requires |xs| == |ys|
    requires forall i :: 0 <= i < |xs| ==> NonBlank(ys[i]) == keep(xs[i])
    requires forall i :: 0 <= i < |xs| && keep(xs[i]) ==> ys[i] == xs[i]
    ensures Filter(ys, NonBlank) == Filter(xs, keep)
    decreases |xs|
  {
    if |xs| > 0 {
      FilterBlanked(xs[1..], ys[1..], keep);
    }
  }

  /**
   * Dropping the blank lines after some lines were emptied: the lines that
   * `keep` accepts before the last, in their order, then the last line as it
   * was left.
   */
  lemma DropBlankedLines(lines: seq<string>, blanked: seq<string>, keep: string -> bool)
    requires |lines| == |blanked| >= 1
    requires forall i :: 0 <= i < |lines| ==> NonBlank(blanked[i]) == keep(lines[i])
    requires forall i :: 0 <= i < |lines| && keep(lines[i]) ==> blanked[i] == lines[i]
    ensures DropBlankLines(blanked) == Filter(lines[..|lines| - 1], keep) + [blanked[|blanked| - 1]]
  {
    DropBlankLinesInOrder(blanked);
    FilterBlanked(lines[..|lines| - 1], blanked[..|lines| - 1], keep);
  }

  /** `f` applied to every line. */
  function MapLines(xs: seq<string>, f: string -> string): (r: seq<string>)
    ensures |r| == |xs|
    ensures forall i :: 0 <= i < |xs| ==> r[i] == f(xs[i])
  {
    seq(|xs|, i requires 0 <= i < |xs| => f(xs[i]))
  }

  /** A line `/^\s*\n/` would remove: nothing but whitespace. */
  predicate Blank(line: string) {
    forall i :: 0 <= i < |line| ==> IsSpace(line[i])
  }

  /** A line `/^\s*\n/` keeps. */
  predicate NonBlank(line: string) {
    !Blank(line)
  }

  /**
   * `text.replace(/^\s*\n/gm, '')` on '\n'-separated lines: every blank line
   * that a '\n' ends is dropped; the last line has none and stays.
   */
  function DropBlankLines(lines: seq<string>): (r: seq<string>)
    requires |lines| >= 1
    ensures |r| >= 1 && r[|r| - 1] == lines[|lines| - 1]
    ensures forall i :: 0 <= i < |r| - 1 ==> !Blank(r[i])
    ensures forall x :: x in r ==> x in lines
    ensures forall i :: 0 <= i < |lines| - 1 && !Blank(lines[i]) ==> lines[i] in r
  {
    if |lines| == 1 then lines
    else if Blank(lines[0]) then DropBlankLines(lines[1..])
    else [lines[0]] + DropBlankLines(lines[1..])
  }

  /** The lines kept are the non-blank lines before the last, in their order, then the last line. */
  lemma {:induction false} DropBlankLinesInOrder(lines: seq<string>)
    requires |lines| >= 1
    ensures DropBlankLines(lines) == Filter(lines[..|lines| - 1], NonBlank) + [lines[|lines| - 1]]
    decreases |lines|
  {
    if |lines| > 1 {
      var tl := lines[1..];
      assert lines[..|lines| - 1] == [lines[0]] + tl[..|tl| - 1];
      assert tl[|tl| - 1] == lines[|lines| - 1];
      DropBlankLinesInOrder(tl);
      KeptInOrder(lines[0], tl[..|tl| - 1], lines[|lines| - 1], DropBlankLines(tl));
    }
  }

  /** One line more in front: it is kept exactly when it is not blank. */
  lemma KeptInOrder(first: string, init: seq<string>, last: string, kept: seq<string>)
    requires kept == Filter(init, NonBlank) + [last]
    ensures (if Blank(first) then kept else [first] + kept) == Filter([first] + init, NonBlank) + [last]
  {
    var xs := [first] + init;
    assert xs[0] == first && xs[1..] == init;
  }

  /**
   * `content.indexOf('[AssetHotfix]')`, then `content.indexOf('\n', at) + 1`:
   * the position just after the line holding the first "[AssetHotfix]", or
   * 0 when no '\n' follows it; -1 when there is no "[AssetHotfix]".
   */
  function HotfixInsertPoint(content: string): (p: int)
    ensures p == -1 <==> !Contains(content, "[AssetHotfix]")
    ensures p != -1 ==> 0 <= p <= |content|
    ensures p > 0 ==> (content[p - 1] == '\n' && IndexOf(content, "[AssetHotfix]") < p
      && forall j :: IndexOf(content, "[AssetHotfix]") <= j < p - 1 ==> content[j] != '\n')
    ensures p == 0 ==> forall j :: IndexOf(content, "[AssetHotfix]") <= j < |content| ==> content[j] != '\n'
  {
    var at := IndexOf(content, "[AssetHotfix]");
    if at == -1 then -1
    else
      var nl := IndexFrom(content, "\n", at);
      assert forall j :: at <= j < |content| && content[j] == '\n' ==> OccursAt(content, "\n", j) by {
        forall j | at <= j < |content| && content[j] == '\n' ensures OccursAt(content, "\n", j) {
          assert content[j..j + 1] == "\n";
        }
      }
      nl + 1
  }

  /**
   * The text with `line` and a '\n' put at the insert point, and whether there
   * was an "[AssetHotfix]" to put it after; without one the text is unchanged.
   */
  function InsertAfterHotfix(content: string, line: string): (r: (string, bool))
    ensures !r.1 <==> !Contains(content, "[AssetHotfix]")
    ensures !r.1 ==> r.0 == content
    ensures r.1 ==> var p := HotfixInsertPoint(content);
      0 <= p <= |content| && r.0 == content[..p] + line + "\n" + content[p..]
  {
    var p := HotfixInsertPoint(content);
    if p == -1 then (content, false) else (content[..p] + line + "\n" + content[p..], true)
  }

  /** The insert point of a text whose first "[AssetHotfix]" is on a line that some '\n' ends is just after that '\n'. */
  lemma InsertPointAfterLine(content: string, start: nat, len: nat)
    requires 0 <= start && start + len < |content| && content[start + len] == '\n'
    requires start <= IndexOf(content, "[AssetHotfix]") <= start + len
    requires forall j :: start <= j < start + len ==> content[j] != '\n'
    ensures HotfixInsertPoint(content) == start + len + 1
  {
  }

  /**
   * In a text made of a head, a line without '\n' holding the first
   * "[AssetHotfix]", a '\n' and a tail, the new line goes right before the tail.
   */
  lemma InsertBeforeTail(h: string, marked: string, tail: string, line: string)
    requires '\n' !in marked
    requires |h| <= IndexOf(h + marked + "\n" + tail, "[AssetHotfix]") <= |h| + |marked|
    ensures InsertAfterHotfix(h + marked + "\n" + tail, line).0 == h + marked + "\n" + line + "\n" + tail
  {
    var c := h + marked + "\n" + tail;
    assert forall j :: |h| <= j < |h| + |marked| ==> c[j] == marked[j - |h|];
    InsertPointAfterLine(c, |h|, |marked|);
    assert c[..|h| + |marked| + 1] == h + marked + "\n";
    assert c[|h| + |marked| + 1..] == tail;
  }

  /** The text before a line that follows `marked`. */
  lemma BeforeAppend(pre: seq<string>, marked: string)
    ensures Before(pre + [marked], '\n') == Before(pre, '\n') + marked + "\n"
  {
    if pre != [] {
      JoinAppend(pre, [marked], '\n');
    }
  }

  /** The lines with `line` after `marked`, as text. */
  lemma JoinWithLineAfter(pre: seq<string>, marked: string, line: string, post: seq<string>)
    requires post != []
    ensures Join(pre + [marked, line] + post, '\n') == Before(pre, '\n') + marked + "\n" + line + "\n" + Join(post, '\n')
  {
    JoinAround(pre + [marked], line, post, '\n');
    BeforeAppend(pre, marked);
    assert pre + [marked] + [line] + post == pre + [marked, line] + post;
  }

  /**
   * When "[AssetHotfix]" sits on a line that does not end the text, the new
   * line becomes the line right after it.
   */
  lemma InsertAfterMarkerLine(pre: seq<string>, marked: string, post: seq<string>, line: string)
    requires Contains(marked, "[AssetHotfix]") && '\n' !in marked
    requires forall i :: 0 <= i < |pre| ==> !Contains(pre[i], "[AssetHotfix]")
    requires post != []
    ensures InsertAfterHotfix(Join(pre + [marked] + post, '\n'), line).0 == Join(pre + [marked, line] + post, '\n')
  {
    var h := Before(pre, '\n');
    var tail := Join(post, '\n');
    JoinAround(pre, marked, post, '\n');
    assert Join(pre + [marked] + post, '\n') == h + marked + "\n" + tail;
    FirstInLine(pre, marked, post, "[AssetHotfix]");
    InsertBeforeTail(h, marked, tail, line);
    JoinWithLineAfter(pre, marked, line, post);
  }

  /** Text before a position that ends a line, and text from it on, read as lines. */
  lemma JoinAtLineStart(content: string, p: nat, line: string)
    requires 0 < p <= |content| && content[p - 1] == '\n'
    ensures content[..p] + line + "\n" + content[p..]
      == Join(Split(content[..p - 1], '\n') + [line] + Split(content[p..], '\n'), '\n')
  {
    var a := Split(content[..p - 1], '\n');
    var b := Split(content[p..], '\n');
    JoinSplit(content[..p - 1], '\n');
    JoinSplit(content[p..], '\n');
    JoinAround(a, line, b, '\n');
    assert content[..p] == content[..p - 1] + "\n";
  }

  /** Separator-free lines, split back: `line` is among them. */
  lemma LineOfJoin(all: seq<string>, k: nat, line: string)
    requires k < |all| && all[k] == line
    requires forall i :: 0 <= i < |all| ==> '\n' !in all[i]
    ensures line in Split(Join(all, '\n'), '\n')
  {
    SplitJoin(all, '\n');
  }

  /** A line put in front of the text is its first line. */
  lemma LineInFront(content: string, line: string)
    requires '\n' !in line
    ensures line in Split(line + "\n" + content, '\n')
  {
    var b := Split(content, '\n');
    JoinSplit(content, '\n');
    JoinAround([], line, b, '\n');
    assert [] + [line] + b == [line] + b;
    LineOfJoin([line] + b, 0, line);
  }

  /** A line put in right after a '\n' is a line of the new text. */
  lemma LineAfterNewline(content: string, p: nat, line: string)
    requires '\n' !in line && 0 < p <= |content| && content[p - 1] == '\n'
    ensures line in Split(content[..p] + line + "\n" + content[p..], '\n')
  {
    var a := Split(content[..p - 1], '\n');
    var b := Split(content[p..], '\n');
    JoinAtLineStart(content, p, line);
    LineOfJoin(a + [line] + b, |a|, line);
  }

  /** A line put in at the start of the text or right after a '\n' is a line of the new text. */
  lemma LineAtLineStart(content: string, p: nat, line: string)
    requires '\n' !in line && p <= |content|
    requires p == 0 || content[p - 1] == '\n'
    ensures line in Split(content[..p] + line + "\n" + content[p..], '\n')
  {
    if p == 0 {
      LineInFront(content, line);
      assert content[..0] + line + "\n" + content[0..] == line + "\n" + content;
    } else {
      LineAfterNewline(content, p, line);
    }
  }

  /** The inserted line is a line of the new text. */
  lemma InsertedIsLine(content: string, line: string)
    requires '\n' !in line && Contains(content, "[AssetHotfix]")
    ensures line in Split(InsertAfterHotfix(content, line).0, '\n')
  {
    LineAtLineStart(content, HotfixInsertPoint(content), line);
  }
}
