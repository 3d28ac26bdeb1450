/**
 * The CurveTable lines of DefaultGame.ini, as src/index.ts reads and edits
 * them. A CurveTable line is `+CurveTable=<path>;RowUpdate;<key>;<idx>;<value>`;
 * the regular expressions of the source are written here as predicates on
 * one line of the '\n'-separated text.
 */
module CurveTables {
  import opened Wrappers
  import opened Text
  import opened Numbers
  import opened IniLines

  const Prefix := "+CurveTable="
  const RowUpdate := ";RowUpdate;"
  const DefaultPath := "/Game/Athena/Balance/DataTables/AthenaGameData"

  /** The four captures of `/^\+CurveTable=(.+?);RowUpdate;(.+?);(\d+);(.+)$/`. */
  datatype Row = Row(path: string, key: string, idx: string, value: string)

  /** `<key>;<idx>;<value>`. */
  function Fields(r: Row): string {
    r.key + ";" + r.idx + ";" + r.value
  }

  /** What follows the path: `;RowUpdate;<key>;<idx>;<value>`. */
  function AfterPath(r: Row, mid: string): string {
    mid + Fields(r)
  }

  /** The line a record stands for: the whole match. */
  function RowText(r: Row): string {
    Prefix + (r.path + AfterPath(r, RowUpdate))
  }

  /** The shape the pattern demands of its captures: none empty, the index all digits, nothing spanning lines. */
  predicate WellFormed(r: Row) {
    |r.path| > 0 && |r.key| > 0 && |r.idx| > 0 && |r.value| > 0 && AllDigits(r.idx)
    && '\n' !in r.path && '\n' !in r.key && '\n' !in r.value
  }

  // ---------------------------------------------------------------------
  // parsing one line the way the lazy pattern does

  /** `(\d+);(.+)$` at the start of `u`: the digit run, then ';', then at least one character. */
  function ParseTail(u: string): (r: Option<(string, string)>)
    ensures r.Some? ==> (AllDigits(r.value.0) && |r.value.0| > 0 && |r.value.1| > 0
      && u == r.value.0 + ";" + r.value.1)
  {
    var j := DigitRun(u, 0);
    if 0 < j && j + 1 < |u| && u[j] == ';' then
      assert u == u[..j] + ";" + u[j + 1..];
      Some((u[..j], u[j + 1..]))
    else None
  }

  /** `(.+?);` followed by the tail: the shortest key of at least `k` characters for which the rest parses. */
  function ParseKey(t: string, k: nat): (r: Option<(string, string, string)>)
    requires k >= 1
    ensures r.Some? ==> (|r.value.0| >= k && AllDigits(r.value.1) && |r.value.1| > 0 && |r.value.2| > 0
      && t == r.value.0 + ";" + r.value.1 + ";" + r.value.2)
    decreases |t| - k
  {
    if k >= |t| then None
    else if t[k] == ';' && ParseTail(t[k + 1..]).Some? then
      var (idx, value) := ParseTail(t[k + 1..]).value;
      assert t == t[..k] + ";" + t[k + 1..];
      Some((t[..k], idx, value))
    else ParseKey(t, k + 1)
  }

  /** `(.+?)` then `mid` then the rest: the shortest path of at least `n` characters for which the rest parses. */
  function ParsePath(s: string, mid: string, n: nat): (r: Option<Row>)
    requires n >= 1
    ensures r.Some? ==> (|r.value.path| >= n && |r.value.key| > 0 && AllDigits(r.value.idx) && |r.value.idx| > 0
      && |r.value.value| > 0 && s == r.value.path + AfterPath(r.value, mid))
    decreases |s| - n
  {
    if n >= |s| then None
    else if OccursAt(s, mid, n) && ParseKey(s[n + |mid|..], 1).Some? then
      var (key, idx, value) := ParseKey(s[n + |mid|..], 1).value;
      assert s[n + |mid|..] == Fields(Row(s[..n], key, idx, value));
      PathThenRest(s, mid, n, Row(s[..n], key, idx, value));
      Some(Row(s[..n], key, idx, value))
    else ParsePath(s, mid, n + 1)
  }

  /** A text with `mid` at `n` and a record's fields after it is the record's path and the rest. */
  lemma PathThenRest(s: string, mid: string, n: nat, r: Row)
    requires OccursAt(s, mid, n) && r.path == s[..n]
    requires s[n + |mid|..] == Fields(r)
    ensures s == r.path + AfterPath(r, mid)
  {
    Reassemble(s, mid, n);
    assert s == s[..n] + mid + s[n + |mid|..];
  }

  /** In `a + (m + t)`, `m` occurs right after `a` and `t` follows it. */
  lemma Around(a: string, m: string, t: string)
    ensures var s := a + (m + t);
      OccursAt(s, m, |a|) && s[..|a|] == a && s[|a| + |m|..] == t
  {
    var s := a + (m + t);
    assert s[|a|..|a| + |m|] == m;
  }

  /** A pattern does not occur where the text disagrees with its first character. */
  lemma NotAt(s: string, m: string, n: nat)
    requires |m| > 0 && n < |s| && s[n] != m[0]
    ensures !OccursAt(s, m, n)
  {
  }

  /** Every character of a part of `a + b` is a character of the whole. */
  lemma CharsOfParts(a: string, b: string)
    ensures forall c :: c in a || c in b ==> c in a + b
  {
    forall c | c in a || c in b ensures c in a + b {
      if c in a {
        var i :| 0 <= i < |a| && a[i] == c;
        assert (a + b)[i] == c;
      } else {
        var i :| 0 <= i < |b| && b[i] == c;
        assert (a + b)[|a| + i] == c;
      }
    }
  }

  /** One line matched against the CurveTable pattern; `None` when it does not match. */
  function ParseRow(line: string): (r: Option<Row>)
    ensures r.Some? ==> WellFormed(r.value) && RowText(r.value) == line
  {
    if '\n' in line || !StartsWith(line, Prefix) then None
    else
      var rest := line[|Prefix|..];
      var r := ParsePath(rest, RowUpdate, 1);
      if r.Some? then
        var row := r.value;
        assert line == Prefix + rest;
        CharsOfParts(row.path, AfterPath(row, RowUpdate));
        CharsOfParts(RowUpdate + row.key + ";" + row.idx + ";", row.value);
        CharsOfParts(RowUpdate + row.key, ";" + row.idx + ";");
        CharsOfParts(RowUpdate, row.key);
        CharsOfParts(Prefix, rest);
        r
      else None
  }

  /** The tail of a record's text parses back into its index and value. */
  lemma TailParses(idx: string, value: string)
    requires |idx| > 0 && AllDigits(idx) && |value| > 0
    ensures ParseTail(idx + ";" + value) == Some((idx, value))
  {
    var u := idx + ";" + value;
    assert u[0..|idx|] == idx;
    DigitRunOf(u, 0, idx);
    assert u[..|idx|] == idx && u[|idx| + 1..] == value;
  }

  /** When some key of at least `k` characters is followed by a tail that parses, the key search succeeds. */
  lemma {:induction false} KeyFound(t: string, k: nat, key: string, rest: string)
    requires 1 <= k <= |key| && t == key + ";" + rest && ParseTail(rest).Some?
    ensures ParseKey(t, k).Some?
    decreases |key| - k
  {
    if k < |key| && !(t[k] == ';' && ParseTail(t[k + 1..]).Some?) {
      KeyFound(t, k + 1, key, rest);
    } else if k == |key| {
      assert t[k] == ';' && t[k + 1..] == rest;
    }
  }

  /** When the key has no ';', the search stops exactly at its end. */
  lemma {:induction false} KeyExact(t: string, k: nat, key: string, idx: string, value: string)
    requires 1 <= k <= |key| && ';' !in key
    requires |idx| > 0 && AllDigits(idx) && |value| > 0
    requires t == key + ";" + idx + ";" + value
    ensures ParseKey(t, k) == Some((key, idx, value))
    decreases |key| - k
  {
    if k < |key| {
      assert t[k] == key[k];
      KeyExact(t, k + 1, key, idx, value);
    } else {
      TailParses(idx, value);
      assert t[k + 1..] == idx + ";" + value by {
        assert t == key + ";" + (idx + ";" + value);
      }
      assert t[..k] == key;
    }
  }

  /** One step of the path search: it succeeds here or further on. */
  lemma PathStep(s: string, mid: string, n: nat)
    requires 1 <= n < |s|
    ensures ParsePath(s, mid, n).Some? <==>
      (OccursAt(s, mid, n) && ParseKey(s[n + |mid|..], 1).Some?) || ParsePath(s, mid, n + 1).Some?
  {
  }

  /** When `mid` occurs at some `p >= n` and what follows it parses, the path search from `n` succeeds. */
  lemma {:induction false} PathFound(s: string, mid: string, n: nat, p: nat)
    requires 1 <= n <= p && OccursAt(s, mid, p) && p < |s|
    requires ParseKey(s[p + |mid|..], 1).Some?
    ensures ParsePath(s, mid, n).Some?
    decreases p - n
  {
    PathStep(s, mid, n);
    if n < p {
      PathFound(s, mid, n + 1, p);
    }
  }

  /** When neither path nor key holds ';', the path search stops exactly at the path's end. */
  lemma {:induction false} PathExact(s: string, n: nat, r: Row)
    requires 1 <= n <= |r.path| && ';' !in r.path && ';' !in r.key
    requires |r.key| > 0 && |r.idx| > 0 && AllDigits(r.idx) && |r.value| > 0
    requires s == r.path + AfterPath(r, RowUpdate)
    ensures ParsePath(s, RowUpdate, n) == Some(r)
    decreases |r.path| - n
  {
    Around(r.path, RowUpdate, Fields(r));
    if n < |r.path| {
      assert s[n] == r.path[n];
      NotAt(s, RowUpdate, n);
      PathExact(s, n + 1, r);
    } else {
      KeyExact(Fields(r), 1, r.key, r.idx, r.value);
    }
  }

  /** A record's text holds no '\n' and starts with the prefix, the rest following it. */
  lemma RowTextShape(r: Row)
    requires WellFormed(r)
    ensures var line := RowText(r);
      '\n' !in line && StartsWith(line, Prefix) && line[|Prefix|..] == r.path + AfterPath(r, RowUpdate)
  {
    var line := RowText(r);
    assert '\n' !in Prefix && '\n' !in RowUpdate;
    assert '\n' !in Fields(r);
    assert line[..|Prefix|] == Prefix;
  }

  /** A line that has no '\n' and starts with the prefix is parsed by the path search on what follows the prefix. */
  lemma ParseRowOf(line: string)
    requires '\n' !in line && StartsWith(line, Prefix)
    ensures ParseRow(line) == ParsePath(line[|Prefix|..], RowUpdate, 1)
  {
  }

  /** The pattern accepts a line exactly when it is the text of a well-formed record. */
  lemma RowParses(r: Row)
    requires WellFormed(r)
    ensures ParseRow(RowText(r)).Some?
  {
    RowTextShape(r);
    ParseRowOf(RowText(r));
    PathOfRowParses(r);
  }

  /** The path search succeeds on what follows the prefix in a record's text. */
  lemma PathOfRowParses(r: Row)
    requires WellFormed(r)
    ensures ParsePath(r.path + AfterPath(r, RowUpdate), RowUpdate, 1).Some?
  {
    var rest := r.path + AfterPath(r, RowUpdate);
    TailParses(r.idx, r.value);
    assert Fields(r) == r.key + ";" + (r.idx + ";" + r.value);
    KeyFound(Fields(r), 1, r.key, r.idx + ";" + r.value);
    Around(r.path, RowUpdate, Fields(r));
    assert rest[|r.path| + |RowUpdate|..] == Fields(r);
    PathFound(rest, RowUpdate, 1, |r.path|);
  }

  /** A record without ';' in its path and key is read back from its own text. */
  lemma RowRoundTrip(r: Row)
    requires WellFormed(r) && ';' !in r.path && ';' !in r.key
    ensures ParseRow(RowText(r)) == Some(r)
  {
    var rest := r.path + AfterPath(r, RowUpdate);
    RowTextShape(r);
    ParseRowOf(RowText(r));
    PathExact(rest, 1, r);
  }

  // ---------------------------------------------------------------------
  // the line patterns

  /** `;RowUpdate;<key>;` at `i`, past the prefix, then digits and a ';'. */
  predicate KeyAt(line: string, key: string, i: int) {
    var m := RowUpdate + key + ";";
    |Prefix| <= i && OccursAt(line, m, i)
    && var e := DigitRun(line, i + |m|); i + |m| < e < |line| && line[e] == ';'
  }

  /** `^\+CurveTable=.*;RowUpdate;<key>;\d+;.*$`: a line for `key` with any index and value. */
  predicate KeyLine(line: string, key: string) {
    StartsWith(line, Prefix) && exists i :: |Prefix| <= i <= |line| && KeyAt(line, key, i)
  }

  /** `^\+CurveTable=.*;RowUpdate;<key>;\d+;<value>$`: a line for `key` holding exactly `value`. */
  predicate ExactLine(line: string, key: string, value: string) {
    StartsWith(line, Prefix)
    && exists i :: (|Prefix| <= i <= |line| && KeyAt(line, key, i)
      && line[DigitRun(line, i + |RowUpdate + key + ";"|) + 1..] == value)
  }

  /** `^\+CurveTable=.*;RowUpdate;<key>;0;.*$`: a line for `key` at index 0. */
  predicate ZeroLine(line: string, key: string) {
    StartsWith(line, Prefix) && Contains(line[|Prefix|..], RowUpdate + key + ";0;")
  }

  /** `^\+CurveTable=.*;RowUpdate;.*$`: an active CurveTable line. */
  predicate Active(line: string) {
    StartsWith(line, Prefix) && Contains(line[|Prefix|..], RowUpdate)
  }

  /**
   * Where the unanchored `\+CurveTable=.*;RowUpdate;<key>;0;.*` starts in a
   * line, or -1: at the first "+CurveTable=" when the rest of the line holds
   * `;RowUpdate;<key>;0;`.
   */
  function ZeroMatchStart(line: string, key: string): (p: int)
    ensures p == -1 || (OccursAt(line, Prefix, p) && Contains(line[p + |Prefix|..], RowUpdate + key + ";0;"))
  {
    var p := IndexOf(line, Prefix);
    if p != -1 && Contains(line[p + |Prefix|..], RowUpdate + key + ";0;") then p else -1
  }

  /** The lines of a text. */
  function Lines(content: string): (lines: seq<string>)
    ensures |lines| >= 1
    ensures forall i :: 0 <= i < |lines| ==> '\n' !in lines[i]
  {
    Split(content, '\n')
  }

  /** Digits, a ';' and a value from position `j` on: the digit run ends at the ';' and the value follows it. */
  lemma DigitsField(line: string, j: nat, idx: string, value: string)
    requires j <= |line| && line[j..] == idx + (";" + value) && |idx| > 0 && AllDigits(idx)
    ensures DigitRun(line, j) == j + |idx| && line[j + |idx|] == ';' && line[j + |idx| + 1..] == value
  {
    assert line[j..j + |idx|] == idx;
    assert line[j + |idx|] == (idx + (";" + value))[|idx|];
    DigitRunOf(line, j, idx);
    assert line[j + |idx| + 1..] == (idx + (";" + value))[|idx| + 1..];
  }

  /** A record's text read as a prefix, path, the key marker and the index and value. */
  lemma RowTextParts(r: Row)
    ensures RowText(r) == (Prefix + r.path) + ((RowUpdate + r.key + ";") + (r.idx + (";" + r.value)))
  {
  }

  /** A line made of a head of at least the prefix's length, the key marker, digits, ';' and a value. */
  lemma KeyAtOf(line: string, a: string, key: string, idx: string, value: string, i: nat)
    requires line == a + ((RowUpdate + key + ";") + (idx + (";" + value)))
    requires i == |a| >= |Prefix| && |idx| > 0 && AllDigits(idx) && StartsWith(line, Prefix)
    ensures KeyAt(line, key, i) && line[DigitRun(line, i + |RowUpdate + key + ";"|) + 1..] == value
    ensures KeyLine(line, key) && ExactLine(line, key, value)
  {
    var m := RowUpdate + key + ";";
    Around(a, m, idx + (";" + value));
    DigitsField(line, |a| + |m|, idx, value);
    KeyAtWitness(line, key, value, i);
  }

  /** A position holding the key marker makes the line a key line, and an exact line for what follows the index. */
  lemma KeyAtWitness(line: string, key: string, value: string, i: int)
    requires StartsWith(line, Prefix) && i <= |line| && KeyAt(line, key, i)
    requires line[DigitRun(line, i + |RowUpdate + key + ";"|) + 1..] == value
    ensures KeyLine(line, key) && ExactLine(line, key, value)
  {
  }

  /** A record's own text is a line for its key, and one holding exactly its value. */
  lemma RowLineMatches(r: Row)
    requires WellFormed(r)
    ensures KeyLine(RowText(r), r.key) && ExactLine(RowText(r), r.key, r.value)
  {
    RowTextShape(r);
    RowTextParts(r);
    KeyAtOf(RowText(r), Prefix + r.path, r.key, r.idx, r.value, |Prefix| + |r.path|);
  }

  // ---------------------------------------------------------------------
  // curves.json

  /** One entry of curves.json; `None` is a field the entry does not have. */
  datatype Curve = Curve(
    name: string,
    key: string,
    value: Option<string>,
    pathPart: Option<string>,
    kind: string,
    staticValue: Option<string>,
    isCustom: bool,
    isDeleted: bool,
    deletedLine: Option<string>)

  /**
   * `Math.max(...ids.map(k => parseInt(k)).filter(n => !isNaN(n)), 0)`: the
   * largest integer an id starts with, and 0 when none is larger.
   */
  ghost function MaxId(ids: set<string>): (m: nat)
    ensures forall k :: k in ids && ParseIntAuto(k).Some? ==> ParseIntAuto(k).value <= m
    ensures m == 0 || exists k :: k in ids && ParseIntAuto(k) == Some(m)
    decreases ids
  {
    if ids == {} then 0
    else
      var k :| k in ids;
      var rest := MaxId(ids - {k});
      if ParseIntAuto(k).Some? && ParseIntAuto(k).value > rest then ParseIntAuto(k).value else rest
  }

  /** A number that bounds every integer id, is at least 0 and is 0 or attained, is the maximum. */
  lemma MaxIdUnique(ids: set<string>, m: int)
    requires m >= 0
    requires forall k :: k in ids && ParseIntAuto(k).Some? ==> ParseIntAuto(k).value <= m
    requires m == 0 || exists k :: k in ids && ParseIntAuto(k) == Some(m)
    ensures m == MaxId(ids)
  {
  }

  /** `String(maxId + 1)`: the id a new curve gets. */
  ghost function NextId(ids: set<string>): string {
    IdAfter(MaxId(ids))
  }

  /** `String(m + 1)`, which reads back as `m + 1`. */
  function IdAfter(m: nat): (id: string)
    ensures ParseIntAuto(id) == Some(m + 1)
  {
    ParseNatText(m + 1);
    NatText(m + 1)
  }

  /** The decimal text of a number reads back as that number. */
  lemma ParseNatText(n: nat)
    ensures ParseIntAuto(NatText(n)) == Some(n)
  {
    NatTextValue(n);
    ParseIntAutoDigits(NatText(n));
  }

  /** The new id is not taken, and as a number it is greater than every integer id. */
  lemma NextIdFresh(ids: set<string>)
    ensures NextId(ids) !in ids
    ensures ParseIntAuto(NextId(ids)) == Some(MaxId(ids) + 1)
    ensures forall k :: k in ids && ParseIntAuto(k).Some? ==> ParseIntAuto(k).value < MaxId(ids) + 1
  {
    var t := NextId(ids);
    assert ParseIntAuto(t) == Some(MaxId(ids) + 1);
  }

  /**
   * `parseInt(k)` honours a `0x` prefix: an id "0x" followed by hexadecimal
   * digits raises the maximum to at least their value in base 16 ("0x10"
   * counts as 16, where a base-10 reading would count 0).
   */
  lemma HexIdRaisesMax(ids: set<string>, h: string)
    requires |h| > 0 && AllRadixDigits(h, 16) && "0x" + h in ids
    ensures MaxId(ids) >= RadixValue(h, 16)
    ensures ParseIntAuto(NextId(ids)).value > RadixValue(h, 16)
  {
    ParseIntHex(h, "");
    assert "0x" + h + "" == "0x" + h;
  }

  /** `s.replace(/([A-Z])/g, ' $1')`: a space before every capital letter. */
  function SpaceCaps(s: string): (r: string)
    ensures |r| >= |s|
    ensures forall c :: c in r ==> c in s || c == ' '
    ensures (forall i :: 0 <= i < |s| ==> !('A' <= s[i] <= 'Z')) ==> r == s
    decreases |s|
  {
    if s == [] then []
    else
      var rest := SpaceCaps(s[1..]);
      assert forall c :: c in s[1..] ==> c in s;
      if 'A' <= s[0] <= 'Z' then [' ', s[0]] + rest else [s[0]] + rest
  }

  /** `key.split('.').pop()`: what follows the last '.'. */
  function LastPiece(key: string): (r: string)
    ensures '.' !in r
    ensures '.' !in key ==> r == key
  {
    var parts := Split(key, '.');
    if '.' !in key then
      SplitJoin([key], '.');
      parts[|parts| - 1]
    else parts[|parts| - 1]
  }

  /** The readable name an imported custom curve gets from its key. */
  function AutoName(key: string): string {
    Trim(SpaceCaps(LastPiece(key)))
  }

  /** The entry an import adds for a key no curve has. */
  function ImportedCurve(row: Row): (c: Curve)
    ensures c.isCustom && !c.isDeleted && c.key == row.key
  {
    Curve("Imported: " + AutoName(row.key), row.key, Some(row.value), Some(row.path), "custom", None, true, false, None)
  }

  /** Deleting `isDeleted` and `deletedLine` from a curve that is marked deleted. */
  function ClearDeleted(curves: map<string, Curve>, id: string): (r: map<string, Curve>)
    ensures r.Keys == curves.Keys
    ensures id in r ==> !r[id].isDeleted
    ensures forall k :: k in curves && k != id ==> r[k] == curves[k]
  {
    if id in curves && curves[id].isDeleted then curves[id := curves[id].(isDeleted := false, deletedLine := None)]
    else curves
  }

  /**
   * `defaultCurvesByKey`: every key of curves.json maps to an id whose curve
   * has that key. Which id wins when two curves share a key is the
   * iteration order of the object, which the model leaves open.
   */
  predicate Indexes(byKey: map<string, string>, curves: map<string, Curve>) {
    (forall k :: k in byKey ==> byKey[k] in curves && curves[byKey[k]].key == k)
    && (forall id :: id in curves ==> curves[id].key in byKey)
  }

  // ---------------------------------------------------------------------
  // importCurveTables

  /** The counters of an import. */
  datatype Counts = Counts(updated: nat, enabled: nat, skipped: nat, customs: nat)

  function Total(c: Counts): nat {
    c.updated + c.enabled + c.skipped + c.customs
  }

  /** The two files an import edits: DefaultGame.ini and curves.json. */
  datatype Store = Store(content: string, curves: map<string, Curve>)

  /** A line for the record's key holding exactly its value. */
  predicate ExactFor(row: Row, line: string) {
    ExactLine(line, row.key, row.value)
  }

  /** A line for the record's key. */
  predicate KeyFor(row: Row, line: string) {
    KeyLine(line, row.key)
  }

  /** `exactLineRegex.test(content)`. */
  predicate HasExact(content: string, row: Row) {
    exists i :: 0 <= i < |Lines(content)| && ExactFor(row, Lines(content)[i])
  }

  /** `keyExistsRegex.test(content)`. */
  predicate HasKey(content: string, row: Row) {
    exists i :: 0 <= i < |Lines(content)| && KeyFor(row, Lines(content)[i])
  }

  /** The lines with every line for the record's key replaced by the record's own line. */
  function UpdateLines(lines: seq<string>, row: Row): (r: seq<string>)
    ensures |r| == |lines|
    ensures forall i :: 0 <= i < |lines| ==> r[i] == if KeyFor(row, lines[i]) then RowText(row) else lines[i]
  {
    seq(|lines|, i requires 0 <= i < |lines| => if KeyFor(row, lines[i]) then RowText(row) else lines[i])
  }

  /** `content.replace(keyExistsRegex, fullLine)`: every line for the key becomes the imported line; the curves stay. */
  function UpdateKey(s: Store, row: Row): (r: Store)
    ensures r.curves == s.curves
  {
    Store(Join(UpdateLines(Lines(s.content), row), '\n'), s.curves)
  }

  /** A known key without a line: the line goes in after "[AssetHotfix]" and the curve's deleted state is cleared. */
  function EnableKnown(s: Store, row: Row, id: string): (r: (Store, bool))
    ensures r.0.curves.Keys == s.curves.Keys
    ensures forall k :: k in s.curves && k != id ==> r.0.curves[k] == s.curves[k]
    ensures r.1 <==> Contains(s.content, "[AssetHotfix]")
  {
    var ins := InsertAfterHotfix(s.content, RowText(row));
    (Store(ins.0, ClearDeleted(s.curves, id)), ins.1)
  }

  /** A new curve under the next id, and its line after "[AssetHotfix]". */
  ghost function AddNew(s: Store, c: Curve, line: string): (r: (Store, bool))
    ensures r.0.curves.Keys == s.curves.Keys + {NextId(s.curves.Keys)}
    ensures forall k :: k in s.curves ==> r.0.curves[k] == s.curves[k]
    ensures r.0.curves[NextId(s.curves.Keys)] == c
    ensures r.0.content == InsertAfterHotfix(s.content, line).0
    ensures r.1 <==> Contains(s.content, "[AssetHotfix]")
  {
    var id := NextId(s.curves.Keys);
    NextIdFresh(s.curves.Keys);
    var ins := InsertAfterHotfix(s.content, line);
    (Store(ins.0, s.curves[id := c]), ins.1)
  }

  /** An unknown key: a new custom curve under the next id, and the line after "[AssetHotfix]". */
  ghost function AddImported(s: Store, row: Row): (r: (Store, bool))
    ensures r.0.curves.Keys == s.curves.Keys + {NextId(s.curves.Keys)}
    ensures forall k :: k in s.curves ==> r.0.curves[k] == s.curves[k]
    ensures r.1 <==> Contains(s.content, "[AssetHotfix]")
  {
    AddNew(s, ImportedCurve(row), RowText(row))
  }

  /**
   * One match of the import file, as the `forEach` body handles it: an
   * exact duplicate is skipped; a key already in the text has all its lines
   * replaced; a known key is otherwise put in after "[AssetHotfix]" and its
   * deleted state cleared; an unknown key becomes a new custom curve. A
   * counter goes up only for what was done.
   */
  ghost function ImportRow(s: Store, byKey: map<string, string>, row: Row, c: Counts): (r: (Store, Counts))
    ensures var d := r.1;
      d.updated >= c.updated && d.enabled >= c.enabled && d.skipped >= c.skipped && d.customs >= c.customs
      && Total(d) <= Total(c) + 1
    ensures HasExact(s.content, row) ==> r == (s, c.(skipped := c.skipped + 1))
    ensures s.curves.Keys <= r.0.curves.Keys
    ensures forall id :: id in s.curves && id !in byKey.Values ==> r.0.curves[id] == s.curves[id]
  {
    if HasExact(s.content, row) then (s, c.(skipped := c.skipped + 1))
    else if row.key in byKey then
      if HasKey(s.content, row) then (UpdateKey(s, row), c.(updated := c.updated + 1))
      else
        var e := EnableKnown(s, row, byKey[row.key]);
        (e.0, if e.1 then c.(enabled := c.enabled + 1) else c)
    else
      if HasKey(s.content, row) then (UpdateKey(s, row), c.(updated := c.updated + 1))
      else
        var a := AddImported(s, row);
        (a.0, if a.1 then c.(customs := c.customs + 1) else c)
  }

  /** The matches handled in order. */
  ghost function ImportAll(s: Store, byKey: map<string, string>, rows: seq<Row>, c: Counts): (r: (Store, Counts))
    ensures Total(r.1) <= Total(c) + |rows|
    ensures s.curves.Keys <= r.0.curves.Keys
    decreases |rows|
  {
    if rows == [] then (s, c)
    else
      var next := ImportRow(s, byKey, rows[0], c);
      ImportAll(next.0, byKey, rows[1..], next.1)
  }

  /** `[...importContent.matchAll(curveTableRegex)]`: the records of the lines that match, in order. */
  function Matches(lines: seq<string>): (rows: seq<Row>)
    ensures |rows| <= |lines|
    ensures forall i :: 0 <= i < |rows| ==> WellFormed(rows[i]) && RowText(rows[i]) in lines
    decreases |lines|
  {
    if lines == [] then []
    else
      var rest := Matches(lines[1..]);
      var r := ParseRow(lines[0]);
      if r.Some? then [r.value] + rest else rest
  }

  /** The matched line of a record has no '\n'. */
  lemma RowTextOneLine(r: Row)
    requires WellFormed(r)
    ensures '\n' !in RowText(r)
  {
    RowTextShape(r);
  }

  /** Updating a key turns every line for it, and only those, into the imported line. */
  lemma UpdateKeyLines(s: Store, row: Row)
    requires WellFormed(row)
    ensures Lines(UpdateKey(s, row).content) == UpdateLines(Lines(s.content), row)
  {
    RowTextOneLine(row);
    SplitJoin(UpdateLines(Lines(s.content), row), '\n');
  }

  /** A text that has the record's own line as one of its lines holds an exact line for it. */
  lemma HasOwnLine(content: string, row: Row, i: nat)
    requires WellFormed(row) && i < |Lines(content)| && Lines(content)[i] == RowText(row)
    ensures HasExact(content, row)
  {
    RowLineMatches(row);
    assert ExactFor(row, Lines(content)[i]);
  }

  /** After an update of a key that has a line, the text holds the record's own line. */
  lemma UpdateWritesLine(s: Store, row: Row)
    requires WellFormed(row) && HasKey(s.content, row)
    ensures HasExact(UpdateKey(s, row).content, row)
  {
    var i :| 0 <= i < |Lines(s.content)| && KeyFor(row, Lines(s.content)[i]);
    UpdateKeyLines(s, row);
    HasOwnLine(UpdateKey(s, row).content, row, i);
  }

  /** After an insert after "[AssetHotfix]", the text holds the record's own line. */
  lemma InsertWritesLine(content: string, row: Row)
    requires WellFormed(row) && Contains(content, "[AssetHotfix]")
    ensures HasExact(InsertAfterHotfix(content, RowText(row)).0, row)
  {
    var text := InsertAfterHotfix(content, RowText(row)).0;
    RowTextOneLine(row);
    InsertedIsLine(content, RowText(row));
    var i :| 0 <= i < |Lines(text)| && Lines(text)[i] == RowText(row);
    HasOwnLine(text, row, i);
  }

  /** A match that is not a duplicate, with a line for its key or an "[AssetHotfix]" to go after, is written. */
  lemma ImportWrites(s: Store, byKey: map<string, string>, row: Row, c: Counts)
    requires WellFormed(row)
    requires HasKey(s.content, row) || Contains(s.content, "[AssetHotfix]")
    ensures HasExact(ImportRow(s, byKey, row, c).0.content, row)
  {
    var r := ImportRow(s, byKey, row, c);
    if HasExact(s.content, row) {
    } else if HasKey(s.content, row) {
      assert r.0 == UpdateKey(s, row);
      UpdateWritesLine(s, row);
    } else if row.key in byKey {
      assert r.0.content == InsertAfterHotfix(s.content, RowText(row)).0;
      InsertWritesLine(s.content, row);
    } else {
      assert r.0.content == InsertAfterHotfix(s.content, RowText(row)).0;
      InsertWritesLine(s.content, row);
    }
  }

  /**
   * Once a match has been written, by an update or by an insert after
   * "[AssetHotfix]", importing it again is skipped as a duplicate and
   * changes nothing.
   */
  lemma ImportThenSkip(s: Store, byKey: map<string, string>, row: Row, c: Counts)
    requires WellFormed(row)
    requires HasKey(s.content, row) || Contains(s.content, "[AssetHotfix]")
    ensures var r := ImportRow(s, byKey, row, c);
      ImportRow(r.0, byKey, row, r.1) == (r.0, r.1.(skipped := r.1.skipped + 1))
  {
    ImportWrites(s, byKey, row, c);
  }

  // ---------------------------------------------------------------------
  // toggleAllModifications

  /** The lines with each line that `keep` selects commented out with ';'. */
  function Commented(lines: seq<string>, keep: string -> bool): (r: seq<string>)
    ensures |r| == |lines|
    ensures forall i :: 0 <= i < |lines| ==> r[i] == if keep(lines[i]) then ";" + lines[i] else lines[i]
  {
    seq(|lines|, i requires 0 <= i < |lines| => if keep(lines[i]) then ";" + lines[i] else lines[i])
  }

  /** The text once every active CurveTable line is commented out. */
  function DisabledText(content: string): string {
    Join(Commented(Lines(content), Active), '\n')
  }

  /** The backup's `curveTableLines`: the active lines, in text order. */
  function Recorded(content: string): (r: seq<string>)
    ensures forall l :: l in r <==> l in Lines(content) && Active(l)
  {
    Filter(Lines(content), Active)
  }

  /** The restore: `content.replace(";" + line, line)` for each recorded line in turn. */
  function RestoreAll(content: string, recorded: seq<string>): string
    decreases |recorded|
  {
    if recorded == [] then content
    else RestoreAll(ReplaceFirst(content, ";" + recorded[0], recorded[0]), recorded[1..])
  }

  /** How a commented-out CurveTable line starts. */
  const DisabledMark := ";+CurveTable="

  /** Lines without '\n' none of which holds a commented-out CurveTable start. */
  predicate Unmarked(lines: seq<string>) {
    forall i :: 0 <= i < |lines| ==> '\n' !in lines[i] && !Contains(lines[i], DisabledMark)
  }

  /** A selection of CurveTable lines only. */
  ghost predicate CurveLinesOnly(keep: string -> bool) {
    forall l :: keep(l) ==> StartsWith(l, Prefix)
  }

  /** Containment is transitive. */
  lemma ContainsTrans(a: string, b: string, c: string)
    requires Contains(a, b) && Contains(b, c)
    ensures Contains(a, c)
  {
    var i := IndexOf(a, b);
    var j := IndexOf(b, c);
    forall k | 0 <= k < |c| ensures a[i + j + k] == c[k] {
      assert a[i + j + k] == a[i..i + |b|][j + k] == b[j + k];
      assert b[j + k] == b[j..j + |c|][k];
    }
    assert a[i + j..i + j + |c|] == c;
    OccursContains(a, c, i + j);
  }

  /** A text holding a commented-out CurveTable line holds the mark. */
  lemma DisabledHasMark(x: string, b: string)
    requires StartsWith(b, Prefix) && Contains(x, ";" + b)
    ensures Contains(x, DisabledMark)
  {
    assert (";" + b)[..|DisabledMark|] == ";" + b[..|Prefix|];
    OccursContains(";" + b, DisabledMark, 0);
    ContainsTrans(x, ";" + b, DisabledMark);
  }

  /** Commenting out a list line by line: the first line, then the rest. */
  lemma CommentedCons(b: string, tail: seq<string>, keep: string -> bool)
    ensures Commented([b] + tail, keep) == [if keep(b) then ";" + b else b] + Commented(tail, keep)
  {
  }

  /** The restore handles the first recorded line, then the rest. */
  lemma RestoreCons(content: string, r: string, rest: seq<string>)
    ensures RestoreAll(content, [r] + rest) == RestoreAll(ReplaceFirst(content, ";" + r, r), rest)
  {
    assert ([r] + rest)[1..] == rest;
  }

  /** The selected lines of a list: the first line if selected, then those of the rest. */
  lemma FilterCons(b: string, tail: seq<string>, keep: string -> bool)
    ensures keep(b) ==> Filter([b] + tail, keep) == [b] + Filter(tail, keep)
    ensures !keep(b) ==> Filter([b] + tail, keep) == Filter(tail, keep)
  {
    assert ([b] + tail)[1..] == tail;
    assert [] + Filter(tail, keep) == Filter(tail, keep);
  }

  /** The restore step for one commented line: its ";" + line is found first on its own line, below lines already back. */
  lemma RestoreStep(done: seq<string>, b: string, post: seq<string>)
    requires Unmarked(done) && StartsWith(b, Prefix) && '\n' !in b
    ensures ReplaceFirst(Join(done + [";" + b] + post, '\n'), ";" + b, b) == Join(done + [b] + post, '\n')
  {
    forall i | 0 <= i < |done| ensures !Contains(done[i], ";" + b) {
      if Contains(done[i], ";" + b) {
        DisabledHasMark(done[i], b);
      }
    }
    ReplaceFirstLine(done, ";" + b, post, b);
  }

  /** Commenting out below `done` when the first line of the rest is selected. */
  lemma CommentedSelectedJoin(done: seq<string>, b: string, tail: seq<string>, keep: string -> bool)
    requires keep(b)
    ensures Join(done + Commented([b] + tail, keep), '\n') == Join(done + [";" + b] + Commented(tail, keep), '\n')
  {
    CommentedCons(b, tail, keep);
    assert done + Commented([b] + tail, keep) == done + [";" + b] + Commented(tail, keep);
  }

  /** Commenting out below `done` when the first line of the rest is not selected. */
  lemma CommentedUnselectedJoin(done: seq<string>, b: string, tail: seq<string>, keep: string -> bool)
    requires !keep(b)
    ensures Join(done + Commented([b] + tail, keep), '\n') == Join(done + [b] + Commented(tail, keep), '\n')
  {
    CommentedCons(b, tail, keep);
    assert done + Commented([b] + tail, keep) == done + [b] + Commented(tail, keep);
  }

  /** Moving the first line of the rest to the lines done leaves the text as it is. */
  lemma JoinShift(done: seq<string>, b: string, tail: seq<string>)
    ensures Join(done + ([b] + tail), '\n') == Join(done + [b] + tail, '\n')
  {
    assert done + ([b] + tail) == done + [b] + tail;
  }

  /** The induction step for a selected first line of `rest`. */
  lemma RestoreSelected(done: seq<string>, b: string, tail: seq<string>, keep: string -> bool)
    requires Unmarked(done) && keep(b) && StartsWith(b, Prefix) && '\n' !in b
    requires RestoreAll(Join(done + [b] + Commented(tail, keep), '\n'), Filter(tail, keep))
      == Join(done + [b] + tail, '\n')
    ensures RestoreAll(Join(done + Commented([b] + tail, keep), '\n'), Filter([b] + tail, keep))
      == Join(done + ([b] + tail), '\n')
  {
    var post := Commented(tail, keep);
    CommentedSelectedJoin(done, b, tail, keep);
    FilterCons(b, tail, keep);
    RestoreCons(Join(done + [";" + b] + post, '\n'), b, Filter(tail, keep));
    RestoreStep(done, b, post);
    JoinShift(done, b, tail);
  }

  /** The induction step for a first line of `rest` that is not selected. */
  lemma RestoreUnselected(done: seq<string>, b: string, tail: seq<string>, keep: string -> bool)
    requires !keep(b)
    requires RestoreAll(Join(done + [b] + Commented(tail, keep), '\n'), Filter(tail, keep))
      == Join(done + [b] + tail, '\n')
    ensures RestoreAll(Join(done + Commented([b] + tail, keep), '\n'), Filter([b] + tail, keep))
      == Join(done + ([b] + tail), '\n')
  {
    CommentedUnselectedJoin(done, b, tail, keep);
    FilterCons(b, tail, keep);
    JoinShift(done, b, tail);
  }

  /**
   * Restoring the selected lines of `rest`, below lines `done` that are
   * already back, brings back every commented line of `rest`: each
   * ";" + line is found first on its own line.
   */
  lemma {:induction false} RestoreFrom(done: seq<string>, rest: seq<string>, keep: string -> bool)
    requires Unmarked(done) && Unmarked(rest) && CurveLinesOnly(keep)
    ensures RestoreAll(Join(done + Commented(rest, keep), '\n'), Filter(rest, keep)) == Join(done + rest, '\n')
    decreases |rest|
  {
    if rest == [] {
      assert done + Commented(rest, keep) == done + rest;
    } else {
      var b := rest[0];
      var tail := rest[1..];
      assert rest == [b] + tail;
      assert Unmarked(done + [b]) by {
        assert forall i :: 0 <= i < |done| ==> (done + [b])[i] == done[i];
      }
      assert Unmarked(tail) by {
        assert forall i :: 0 <= i < |tail| ==> tail[i] == rest[i + 1];
      }
      RestoreFrom(done + [b], tail, keep);
      if keep(b) {
        RestoreSelected(done, b, tail, keep);
      } else {
        RestoreUnselected(done, b, tail, keep);
      }
    }
  }

  /** A line of a text holds what the line holds. */
  lemma LineContains(content: string, i: nat, p: string)
    requires i < |Lines(content)| && Contains(Lines(content)[i], p)
    ensures Contains(content, p)
  {
    JoinSplit(content, '\n');
    PartContains(Lines(content), i, p);
  }

  /** A joined text holds what one of its parts holds. */
  lemma PartContains(parts: seq<string>, i: nat, p: string)
    requires i < |parts| && Contains(parts[i], p)
    ensures Contains(Join(parts, '\n'), p)
  {
    SplitAround(parts, i);
    LineInJoin(parts[..i], parts[i], parts[i + 1..], '\n');
    ContainsTrans(Join(parts, '\n'), parts[i], p);
  }

  /**
   * Restoring what the disable recorded gives back the text as it was
   * before the disable, provided no line already held ";+CurveTable=".
   */
  lemma RestoreUndoesDisable(content: string)
    requires !Contains(content, DisabledMark)
    ensures RestoreAll(DisabledText(content), Recorded(content)) == content
  {
    var lines := Lines(content);
    forall i | 0 <= i < |lines| ensures !Contains(lines[i], DisabledMark) {
      if Contains(lines[i], DisabledMark) {
        LineContains(content, i, DisabledMark);
      }
    }
    RestoreFrom([], lines, Active);
    assert [] + lines == lines;
    assert [] + Commented(lines, Active) == Commented(lines, Active);
    JoinSplit(content, '\n');
  }

  /** `content.replace(new RegExp(`^${escaped}$`, 'gm'), rep)`: every line equal to `line` becomes `rep`. */
  function ReplaceWholeLines(content: string, line: string, rep: string): string {
    Join(ReplacedLines(Lines(content), line, rep), '\n')
  }

  /** The lines with each one equal to `line` replaced by `rep`. */
  function ReplacedLines(lines: seq<string>, line: string, rep: string): (r: seq<string>)
    ensures |r| == |lines|
    ensures forall j :: 0 <= j < |lines| ==> r[j] == if lines[j] == line then rep else lines[j]
  {
    seq(|lines|, j requires 0 <= j < |lines| => if lines[j] == line then rep else lines[j])
  }

  /** The lines with each active line that is in `done` commented out: the disable loop part way. */
  function CommentedAmong(lines: seq<string>, done: seq<string>): (r: seq<string>)
    ensures |r| == |lines|
    ensures forall j :: 0 <= j < |lines| ==> r[j] == if Active(lines[j]) && lines[j] in done then ";" + lines[j] else lines[j]
  {
    seq(|lines|, j requires 0 <= j < |lines| => if Active(lines[j]) && lines[j] in done then ";" + lines[j] else lines[j])
  }

  /** Lines of a text with some of them commented out hold no '\n'. */
  lemma CommentedAmongLines(lines: seq<string>, done: seq<string>)
    requires forall j :: 0 <= j < |lines| ==> '\n' !in lines[j]
    ensures |lines| >= 1 ==> Lines(Join(CommentedAmong(lines, done), '\n')) == CommentedAmong(lines, done)
  {
    var c := CommentedAmong(lines, done);
    forall j | 0 <= j < |c| ensures '\n' !in c[j] {
      assert forall x :: x in ";" + lines[j] ==> x == ';' || x in lines[j];
    }
    if |lines| >= 1 {
      SplitJoin(c, '\n');
    }
  }

  /**
   * One round of the disable loop: commenting out every line equal to the
   * next active match comments out exactly the lines that match has, since
   * a line already commented out starts with ';' and no longer equals it.
   */
  lemma DisableStep(lines: seq<string>, done: seq<string>, m: string)
    requires |lines| >= 1 && forall j :: 0 <= j < |lines| ==> '\n' !in lines[j]
    requires Active(m)
    ensures ReplaceWholeLines(Join(CommentedAmong(lines, done), '\n'), m, ";" + m)
      == Join(CommentedAmong(lines, done + [m]), '\n')
  {
    var cur := CommentedAmong(lines, done);
    CommentedAmongLines(lines, done);
    var next := ReplacedLines(cur, m, ";" + m);
    var after := CommentedAmong(lines, done + [m]);
    forall j | 0 <= j < |lines| ensures next[j] == after[j] {
      CommentStepAt(lines[j], done, m);
    }
    assert next == after;
  }

  /** One line through one round of the disable loop. */
  lemma CommentStepAt(l: string, done: seq<string>, m: string)
    requires Active(m)
    ensures var c := if Active(l) && l in done then ";" + l else l;
      (if c == m then ";" + m else c) == if Active(l) && l in done + [m] then ";" + l else l
  {
    assert l in done + [m] <==> l in done || l == m;
    if Active(l) && l in done {
      assert (";" + l)[0] == ';' && m[0] == '+';
    }
  }

  /** Once every active line is among those done, the loop has produced the disabled text. */
  lemma DisableAll(content: string, done: seq<string>)
    requires forall l :: l in Lines(content) && Active(l) ==> l in done
    ensures Join(CommentedAmong(Lines(content), done), '\n') == DisabledText(content)
  {
    var lines := Lines(content);
    assert CommentedAmong(lines, done) == Commented(lines, Active) by {
      forall j | 0 <= j < |lines| ensures CommentedAmong(lines, done)[j] == Commented(lines, Active)[j] {
        assert lines[j] in lines;
      }
    }
  }

  /** Before the loop nothing is commented out. */
  lemma DisableNone(content: string)
    ensures Join(CommentedAmong(Lines(content), []), '\n') == content
  {
    assert CommentedAmong(Lines(content), []) == Lines(content);
    JoinSplit(content, '\n');
  }

  /** A commented-out line is not active. */
  lemma CommentedInactive(line: string)
    ensures !Active(";" + line)
  {
    assert |Prefix| > 0 && Prefix[0] == '+';
    assert (";" + line)[0] == ';';
  }

  /** After the disable no line is active, and each line is the old one, commented out exactly when it was active. */
  lemma DisableLeavesNoneActive(content: string)
    ensures |Lines(DisabledText(content))| == |Lines(content)|
    ensures forall i :: 0 <= i < |Lines(content)| ==>
      !Active(Lines(DisabledText(content))[i])
      && (Active(Lines(content)[i]) ==> Lines(DisabledText(content))[i] == ";" + Lines(content)[i])
      && (!Active(Lines(content)[i]) ==> Lines(DisabledText(content))[i] == Lines(content)[i])
  {
    var lines := Lines(content);
    var d := Commented(lines, Active);
    forall i | 0 <= i < |d| ensures '\n' !in d[i] {
      assert Active(lines[i]) ==> forall c :: c in ";" + lines[i] ==> c == ';' || c in lines[i];
    }
    SplitJoin(d, '\n');
    forall i | 0 <= i < |lines| && Active(lines[i]) ensures !Active(";" + lines[i]) {
      CommentedInactive(lines[i]);
    }
  }

  // ---------------------------------------------------------------------
  // modifyCurveTables, action 2: delete

  /** `content.match(regex)[0]`: the first line for `key` at index 0. */
  function FirstZero(lines: seq<string>, key: string): (r: Option<string>)
    ensures r.None? <==> forall i :: 0 <= i < |lines| ==> !ZeroLine(lines[i], key)
    ensures r.Some? ==> exists i :: (0 <= i < |lines| && lines[i] == r.value && ZeroLine(lines[i], key)
      && forall j :: 0 <= j < i ==> !ZeroLine(lines[j], key))
    decreases |lines|
  {
    if lines == [] then None
    else if ZeroLine(lines[0], key) then Some(lines[0])
    else
      var r := FirstZero(lines[1..], key);
      FirstZeroShift(lines, key, r);
      r
  }

  /** The first match in the lines after a non-matching first line is the first match overall. */
  lemma FirstZeroShift(lines: seq<string>, key: string, r: Option<string>)
    requires |lines| > 0 && !ZeroLine(lines[0], key)
    requires r.Some? ==> exists i :: (0 <= i < |lines[1..]| && lines[1..][i] == r.value && ZeroLine(lines[1..][i], key)
      && forall j :: 0 <= j < i ==> !ZeroLine(lines[1..][j], key))
    ensures r.Some? ==> exists i :: (0 <= i < |lines| && lines[i] == r.value && ZeroLine(lines[i], key)
      && forall j :: 0 <= j < i ==> !ZeroLine(lines[j], key))
  {
    if r.Some? {
      var i :| 0 <= i < |lines[1..]| && lines[1..][i] == r.value && ZeroLine(lines[1..][i], key)
        && forall j :: 0 <= j < i ==> !ZeroLine(lines[1..][j], key);
      assert lines[i + 1] == r.value;
      assert forall j :: 0 < j < i + 1 ==> lines[j] == lines[1..][j - 1];
    }
  }

  /** `content.replace(regex, '')`: every line for `key` at index 0 emptied. */
  function ZeroBlanked(lines: seq<string>, key: string): (r: seq<string>)
    ensures |r| == |lines|
    ensures forall i :: 0 <= i < |lines| ==> r[i] == if ZeroLine(lines[i], key) then "" else lines[i]
  {
    seq(|lines|, i requires 0 <= i < |lines| => if ZeroLine(lines[i], key) then "" else lines[i])
  }

  /** The lines for `key` removed, then the blank lines. */
  function DeleteText(content: string, key: string): string {
    Join(DropBlankLines(ZeroBlanked(Lines(content), key)), '\n')
  }

  /**
   * Action 2 on curve `id`: when a line for its key at index 0 exists, the
   * first one is stored as the curve's `deletedLine`, the curve is marked
   * deleted, and every such line is removed; otherwise nothing changes.
   */
  function DeleteCurve(s: Store, id: string): (r: (Store, bool))
    requires id in s.curves
    ensures !r.1 ==> r.0 == s
    ensures r.0.curves.Keys == s.curves.Keys
    ensures forall k :: k in s.curves && k != id ==> r.0.curves[k] == s.curves[k]
  {
    var c := s.curves[id];
    var m := FirstZero(Lines(s.content), c.key);
    if m.None? then (s, false)
    else (Store(DeleteText(s.content, c.key), s.curves[id := c.(isDeleted := true, deletedLine := m)]), true)
  }

  /** Lines that are "" or lines of a text hold no '\n', and the text they join splits back into them. */
  lemma LinesOfKept(lines: seq<string>, kept: seq<string>)
    requires |kept| >= 1
    requires forall i :: 0 <= i < |lines| ==> '\n' !in lines[i]
    requires forall x :: x in kept ==> x in lines || x == ""
    ensures Lines(Join(kept, '\n')) == kept
  {
    forall i | 0 <= i < |kept| ensures '\n' !in kept[i] {
      assert kept[i] in kept;
    }
    SplitJoin(kept, '\n');
  }

  /**
   * A delete happens exactly when some line is for the key at index 0; the
   * stored line is the first such line; afterwards no line is for the key at
   * index 0, every remaining line was a line before, and every other line
   * that was not blank is kept.
   */
  lemma DeleteRemovesLines(s: Store, id: string)
    requires id in s.curves
    ensures var key := s.curves[id].key; var r := DeleteCurve(s, id);
      (r.1 <==> exists i :: 0 <= i < |Lines(s.content)| && ZeroLine(Lines(s.content)[i], key))
      && (r.1 ==> r.0.curves[id].isDeleted && r.0.curves[id].deletedLine == FirstZero(Lines(s.content), key))
      && (r.1 ==> forall l :: l in Lines(r.0.content) ==> !ZeroLine(l, key) && (l in Lines(s.content) || l == ""))
      && (r.1 ==> forall i :: (0 <= i < |Lines(s.content)| - 1 && !ZeroLine(Lines(s.content)[i], key)
        && !Blank(Lines(s.content)[i])) ==> Lines(s.content)[i] in Lines(r.0.content))
      && (r.1 ==> r.0.content == DeleteText(s.content, key))
  {
    var key := s.curves[id].key;
    var lines := Lines(s.content);
    var blanked := ZeroBlanked(lines, key);
    var kept := DropBlankLines(blanked);
    forall x | x in kept ensures x in lines || x == "" {
      assert x in blanked;
    }
    LinesOfKept(lines, kept);
    forall x | x in kept ensures !ZeroLine(x, key) {
      assert x in blanked;
    }
    forall i | 0 <= i < |lines| - 1 && !ZeroLine(lines[i], key) && !Blank(lines[i])
      ensures lines[i] in kept
    {
      assert blanked[i] == lines[i];
    }
  }

  /**
   * The text a delete leaves: the old lines in their order without the lines
   * for the key at index 0 and without the blank lines, except that the last
   * line stays, emptied when it was for the key.
   */
  lemma DeleteTextLines(content: string, key: string)
    ensures var lines := Lines(content); var last := lines[|lines| - 1];
      Lines(DeleteText(content, key))
        == Filter(lines[..|lines| - 1], l => NonBlank(l) && !ZeroLine(l, key)) + [if ZeroLine(last, key) then "" else last]
  {
    var lines := Lines(content);
    var kept := DropBlankLines(ZeroBlanked(lines, key));
    assert DeleteText(content, key) == Join(kept, '\n');
    ZeroBlankedSplits(lines, key);
    ZeroBlankedInOrder(lines, key);
  }

  /** The lines left by emptying the key's lines and dropping blank ones join into a text that splits back into them. */
  lemma ZeroBlankedSplits(lines: seq<string>, key: string)
    requires |lines| >= 1 && forall i :: 0 <= i < |lines| ==> '\n' !in lines[i]
    ensures Lines(Join(DropBlankLines(ZeroBlanked(lines, key)), '\n')) == DropBlankLines(ZeroBlanked(lines, key))
  {
    KeptLinesSplit(lines, ZeroBlanked(lines, key));
  }

  /** Dropping the blank lines once the key's lines are emptied keeps the other non-blank lines in order. */
  lemma ZeroBlankedInOrder(lines: seq<string>, key: string)
    requires |lines| >= 1
    ensures var last := lines[|lines| - 1];
      DropBlankLines(ZeroBlanked(lines, key))
        == Filter(lines[..|lines| - 1], l => NonBlank(l) && !ZeroLine(l, key)) + [if ZeroLine(last, key) then "" else last]
  {
    var blanked := ZeroBlanked(lines, key);
    var keep := l => NonBlank(l) && !ZeroLine(l, key);
    forall i | 0 <= i < |lines|
      ensures NonBlank(blanked[i]) == keep(lines[i]) && (keep(lines[i]) ==> blanked[i] == lines[i])
    {
      if ZeroLine(lines[i], key) {
        assert blanked[i] == "";
      } else {
        assert blanked[i] == lines[i];
      }
    }
    DropBlankedLines(lines, blanked, keep);
  }

  /** The blank lines dropped from emptied lines of a text join into a text whose lines they are. */
  lemma KeptLinesSplit(lines: seq<string>, blanked: seq<string>)
    requires |lines| == |blanked| >= 1
    requires forall i :: 0 <= i < |lines| ==> '\n' !in lines[i]
    requires forall i :: 0 <= i < |lines| ==> blanked[i] == lines[i] || blanked[i] == ""
    ensures Lines(Join(DropBlankLines(blanked), '\n')) == DropBlankLines(blanked)
  {
    var kept := DropBlankLines(blanked);
    forall x | x in kept ensures x in lines || x == "" {
      assert x in blanked;
    }
    LinesOfKept(lines, kept);
  }

  // ---------------------------------------------------------------------
  // modifyCurveTables, action 6: clear

  /** `content.replace(/^\+CurveTable=.*$/gm, '')`: every CurveTable line emptied. */
  function PrefixBlanked(lines: seq<string>): (r: seq<string>)
    ensures |r| == |lines|
    ensures forall i :: 0 <= i < |lines| ==> r[i] == if StartsWith(lines[i], Prefix) then "" else lines[i]
  {
    seq(|lines|, i requires 0 <= i < |lines| => if StartsWith(lines[i], Prefix) then "" else lines[i])
  }

  /** The CurveTable lines removed, then the blank lines. */
  function ClearText(content: string): string {
    Join(DropBlankLines(PrefixBlanked(Lines(content))), '\n')
  }

  /** The curves with every custom one deleted. */
  function ClearCustom(curves: map<string, Curve>): (r: map<string, Curve>)
    ensures forall k :: k in r <==> k in curves && !curves[k].isCustom
    ensures forall k :: k in r ==> r[k] == curves[k]
  {
    map k | k in curves && !curves[k].isCustom :: curves[k]
  }

  /** Action 6: only a "Y" (either case) confirms; anything else, or a cancelled prompt, changes nothing. */
  function ClearAll(s: Store, confirm: Option<string>): (r: (Store, bool))
    ensures !r.1 ==> r.0 == s
    ensures r.1 <==> confirm == Some("y") || confirm == Some("Y")
  {
    if confirm == Some("y") || confirm == Some("Y") then (Store(ClearText(s.content), ClearCustom(s.curves)), true)
    else (s, false)
  }

  /**
   * After a clear no line is a CurveTable line, every remaining line was a
   * line before, every other line that was not blank is kept, and no curve
   * is custom.
   */
  lemma ClearRemovesAll(s: Store)
    ensures var r := ClearAll(s, Some("Y")).0;
      (forall l :: l in Lines(r.content) ==> !StartsWith(l, Prefix) && (l in Lines(s.content) || l == ""))
      && (forall i :: (0 <= i < |Lines(s.content)| - 1 && !StartsWith(Lines(s.content)[i], Prefix)
        && !Blank(Lines(s.content)[i])) ==> Lines(s.content)[i] in Lines(r.content))
      && (forall k :: k in r.curves ==> !r.curves[k].isCustom)
      && r.content == ClearText(s.content)
  {
    var lines := Lines(s.content);
    var blanked := PrefixBlanked(lines);
    var kept := DropBlankLines(blanked);
    forall x | x in kept ensures x in lines || x == "" {
      assert x in blanked;
    }
    LinesOfKept(lines, kept);
    forall x | x in kept ensures !StartsWith(x, Prefix) {
      assert x in blanked;
    }
    forall i | 0 <= i < |lines| - 1 && !StartsWith(lines[i], Prefix) && !Blank(lines[i])
      ensures lines[i] in kept
    {
      assert blanked[i] == lines[i];
    }
  }

  /**
   * The text a clear leaves: the old lines in their order without the
   * CurveTable lines and without the blank lines, except that the last line
   * stays, emptied when it was a CurveTable line.
   */
  lemma ClearTextLines(content: string)
    ensures var lines := Lines(content); var last := lines[|lines| - 1];
      Lines(ClearText(content))
        == Filter(lines[..|lines| - 1], l => NonBlank(l) && !StartsWith(l, Prefix)) + [if StartsWith(last, Prefix) then "" else last]
  {
    var lines := Lines(content);
    var kept := DropBlankLines(PrefixBlanked(lines));
    assert ClearText(content) == Join(kept, '\n');
    PrefixBlankedSplits(lines);
    PrefixBlankedInOrder(lines);
  }

  /** The lines left by emptying the CurveTable lines and dropping blank ones join into a text that splits back into them. */
  lemma PrefixBlankedSplits(lines: seq<string>)
    requires |lines| >= 1 && forall i :: 0 <= i < |lines| ==> '\n' !in lines[i]
    ensures Lines(Join(DropBlankLines(PrefixBlanked(lines)), '\n')) == DropBlankLines(PrefixBlanked(lines))
  {
    KeptLinesSplit(lines, PrefixBlanked(lines));
  }

  /** Dropping the blank lines once the CurveTable lines are emptied keeps the other non-blank lines in order. */
  lemma PrefixBlankedInOrder(lines: seq<string>)
    requires |lines| >= 1
    ensures var last := lines[|lines| - 1];
      DropBlankLines(PrefixBlanked(lines))
        == Filter(lines[..|lines| - 1], l => NonBlank(l) && !StartsWith(l, Prefix)) + [if StartsWith(last, Prefix) then "" else last]
  {
    var blanked := PrefixBlanked(lines);
    var keep := l => NonBlank(l) && !StartsWith(l, Prefix);
    forall i | 0 <= i < |lines|
      ensures NonBlank(blanked[i]) == keep(lines[i]) && (keep(lines[i]) ==> blanked[i] == lines[i])
    {
      if StartsWith(lines[i], Prefix) {
        assert blanked[i] == "";
      } else {
        assert blanked[i] == lines[i];
      }
    }
    DropBlankedLines(lines, blanked, keep);
  }

  // ---------------------------------------------------------------------
  // modifyCurveTables, action 1: add or update

  /** `selectedCurve.pathPart || DefaultPath`. */
  function PathOf(c: Curve): (p: string)
    ensures |p| > 0
    ensures c.pathPart.Some? && c.pathPart.value != "" ==> p == c.pathPart.value
  {
    if c.pathPart.Some? && c.pathPart.value != "" then c.pathPart.value else DefaultPath
  }

  /** The line action 1 writes for a curve and a value. */
  function CurveLine(c: Curve, value: string): string {
    RowText(Row(PathOf(c), c.key, "0", value))
  }

  /**
   * The value action 1 writes: a static curve's `staticValue` (the text
   * "undefined" when it has none); otherwise what was entered, where a
   * cancelled or empty answer gives `None`.
   */
  function NewValue(c: Curve, entered: Option<string>): (v: Option<string>)
    ensures c.kind == "static" ==> v.Some?
    ensures c.kind != "static" ==> (v.Some? <==> entered.Some? && entered.value != "")
    ensures c.kind != "static" && v.Some? ==> v == entered
  {
    if c.kind == "static" then Some(if c.staticValue.Some? then c.staticValue.value else "undefined")
    else if entered.None? || entered.value == "" then None
    else entered
  }

  /**
   * `content.replace(existingLineRegex, curveLine)`: the unanchored pattern
   * matches from a line's first "+CurveTable=" to its end, and that part
   * becomes the curve line.
   */
  function UpdateZeroLines(lines: seq<string>, key: string, line: string): (r: seq<string>)
    ensures |r| == |lines|
    ensures forall i :: 0 <= i < |lines| ==> r[i] == (var p := ZeroMatchStart(lines[i], key);
      if p == -1 then lines[i] else lines[i][..p] + line)
  {
    seq(|lines|, i requires 0 <= i < |lines| => var p := ZeroMatchStart(lines[i], key);
      if p == -1 then lines[i] else lines[i][..p] + line)
  }

  /** `existingLineRegex.test(content)`. */
  predicate HasZeroMatch(content: string, key: string) {
    exists i :: 0 <= i < |Lines(content)| && ZeroMatchStart(Lines(content)[i], key) != -1
  }

  /** Update every line for the key if there is one, otherwise insert the line after "[AssetHotfix]". */
  function PutCurveLine(content: string, key: string, line: string): string {
    if HasZeroMatch(content, key) then Join(UpdateZeroLines(Lines(content), key, line), '\n')
    else InsertAfterHotfix(content, line).0
  }

  /** Action 1 on curve `id`: `None` when the value prompt was cancelled. */
  function AddOrUpdate(s: Store, id: string, entered: Option<string>): (r: Option<Store>)
    requires id in s.curves
    ensures r.None? <==> NewValue(s.curves[id], entered).None?
    ensures r.Some? ==> r.value.curves == ClearDeleted(s.curves, id) && !r.value.curves[id].isDeleted
  {
    var c := s.curves[id];
    var v := NewValue(c, entered);
    if v.None? then None
    else Some(Store(PutCurveLine(s.content, c.key, CurveLine(c, v.value)), ClearDeleted(s.curves, id)))
  }

  /**
   * When some line is for the key, those lines end in the new curve line and
   * no other line changes; otherwise, when there is an "[AssetHotfix]", the
   * curve line becomes a line of its own.
   */
  lemma CurveLineWritten(content: string, key: string, line: string)
    requires '\n' !in line
    ensures HasZeroMatch(content, key) ==> Lines(PutCurveLine(content, key, line)) == UpdateZeroLines(Lines(content), key, line)
    ensures !HasZeroMatch(content, key) && Contains(content, "[AssetHotfix]") ==> line in Lines(PutCurveLine(content, key, line))
    ensures !HasZeroMatch(content, key) && !Contains(content, "[AssetHotfix]") ==> PutCurveLine(content, key, line) == content
  {
    var lines := Lines(content);
    if HasZeroMatch(content, key) {
      var up := UpdateZeroLines(lines, key, line);
      forall i | 0 <= i < |up| ensures '\n' !in up[i] {
        var p := ZeroMatchStart(lines[i], key);
        if p != -1 {
          assert forall c :: c in lines[i][..p] ==> c in lines[i];
        }
      }
      SplitJoin(up, '\n');
    } else if Contains(content, "[AssetHotfix]") {
      InsertedIsLine(content, line);
    }
  }

  // ---------------------------------------------------------------------
  // modifyCurveTables, action 4: add a custom curve

  /** What action 4 ends in. */
  datatype Outcome = Cancelled | Invalid | Added(store: Store, id: string)

  /** The entry action 4 adds for a named, parsed line. */
  function CustomCurve(name: string, row: Row): (c: Curve)
    ensures c.isCustom && !c.isDeleted && c.key == row.key && c.value == Some(row.value)
  {
    Curve(name, row.key, Some(row.value), Some(row.path), "custom", None, true, false, None)
  }

  /**
   * Action 4 with the two prompt answers; the paste prompt only accepts text
   * starting with "+CurveTable=". The trimmed paste is parsed; a parsed line
   * becomes a new custom curve under the next id and is put in after
   * "[AssetHotfix]".
   */
  ghost function AddCustom(s: Store, name: Option<string>, paste: Option<string>): (r: Outcome)
    requires paste.Some? ==> StartsWith(paste.value, Prefix)
    ensures r.Cancelled? <==> name.None? || name.value == "" || paste.None?
    ensures r.Invalid? ==> ParseRow(Trim(paste.value)).None?
    ensures r.Added? ==> (r.id !in s.curves && r.store.curves.Keys == s.curves.Keys + {r.id}
      && (forall k :: k in s.curves ==> r.store.curves[k] == s.curves[k])
      && r.store.content == InsertAfterHotfix(s.content, Trim(paste.value)).0)
  {
    if name.None? || name.value == "" || paste.None? then Cancelled
    else
      var line := Trim(paste.value);
      var row := ParseRow(line);
      if row.None? then Invalid
      else
        NextIdFresh(s.curves.Keys);
        Added(AddNew(s, CustomCurve(name.value, row.value), line).0, NextId(s.curves.Keys))
  }

  /**
   * A custom curve added from a pasted line at index 0 writes that same line
   * again when action 1 is run on it with its stored value, and the pasted
   * line is a line of the text when there is an "[AssetHotfix]".
   */
  lemma CustomLineRoundTrip(s: Store, name: Option<string>, paste: Option<string>)
    requires paste.Some? ==> StartsWith(paste.value, Prefix)
    requires AddCustom(s, name, paste).Added?
    ensures var r := AddCustom(s, name, paste); var c := r.store.curves[r.id];
      c.isCustom && c.value.Some?
      && (ParseRow(Trim(paste.value)).value.idx == "0" ==> CurveLine(c, c.value.value) == Trim(paste.value))
      && (Contains(s.content, "[AssetHotfix]") ==> Trim(paste.value) in Lines(r.store.content))
  {
    var line := Trim(paste.value);
    var row := ParseRow(line).value;
    var c := CustomCurve(name.value, row);
    assert AddCustom(s, name, paste).store.curves[NextId(s.curves.Keys)] == c;
    assert PathOf(c) == row.path;
    RowTextOneLine(row);
    if Contains(s.content, "[AssetHotfix]") {
      InsertedIsLine(s.content, line);
    }
  }
}
