/**
 * The interactive backend console of src/index.ts as an object: the two
 * files its menu actions edit (DefaultGame.ini and curves.json), the backup
 * file of the CurveTable toggle, and the module state behind the status
 * line (`lastStatusMessage`, `lastDisplayedMessage`, `shouldRefreshMenu`).
 *
 * Each method is one menu action with the prompt answers and the files it
 * reads passed in; the menus, the prompts themselves and the screen output
 * are not modelled.
 */
module HotfixConsole {
  import opened Wrappers
  import opened Text
  import opened Numbers
  import opened IniLines
  import StraightBloom
  import opened CurveTables
  import StatusClock

  // ---------------------------------------------------------------------
  // status lines

  const BloomDisabledMsg := "\U{1b}[32m\U{2713} Straight Bloom disabled!\U{1b}[0m"
  const BloomEnabledMsg := "\U{1b}[32m\U{2713} Straight Bloom enabled!\U{1b}[0m"
  const NoIniFilesMsg := "\U{1b}[33m\U{2717} No .ini files found in imports folder. Please add a file first.\U{1b}[0m"
  const ImportCancelledMsg := "\U{1b}[33mImport cancelled.\U{1b}[0m"
  const NoCurveTablesMsg := "\U{1b}[33m\U{2717} No curvetables found in the selected file.\U{1b}[0m"
  const CurvesOffMsg := "\U{1b}[33m\U{2717} CurveTables are currently disabled. Toggle them on first to modify.\U{1b}[0m"
  const InvalidFormatMsg := "\U{1b}[31m\U{2717} Invalid curvetable format. Expected: +CurveTable=/path;RowUpdate;key;0;value\U{1b}[0m"
  const CustomAddedMsg := "\U{1b}[32m\U{2713} Custom curvetable added successfully!\U{1b}[0m"
  const CancelledMsg := "\U{1b}[33mCancelled.\U{1b}[0m"
  const ClearedMsg := "\U{1b}[32m\U{2713} All curvetables cleared!\U{1b}[0m"
  const RemovedMsg := "\U{1b}[32m\U{2713} CurveTable removed successfully!\U{1b}[0m"
  const NotFoundMsg := "\U{1b}[33mCurveTable not found in INI file.\U{1b}[0m"
  const UpdatedMsg := "\U{1b}[32m\U{2713} CurveTable added/updated successfully!\U{1b}[0m"
  const RestoredMsg := "\U{1b}[32m\U{2713} CurveTables restored!\U{1b}[0m"
  const BackedUpMsg := "\U{1b}[32m\U{2713} CurveTables disabled! Backup created.\U{1b}[0m"

  /** The status of a toggle that failed with `error`. */
  function BloomFailedMsg(error: string): string {
    "\U{1b}[31m\U{2717} Failed to toggle Straight Bloom: " + error + "\U{1b}[0m"
  }

  /** `parts.join(', ')`. */
  function CommaJoin(parts: seq<string>): string
    decreases |parts|
  {
    if |parts| == 0 then ""
    else if |parts| == 1 then parts[0]
    else parts[0] + ", " + CommaJoin(parts[1..])
  }

  /** The counters an import reports, in the status line's order, leaving out those that stayed 0. */
  function CountParts(c: Counts): (parts: seq<string>)
    ensures |parts| <= 4
    ensures c == Counts(0, 0, 0, 0) ==> parts == []
  {
    (if c.enabled > 0 then [NatText(c.enabled) + " enabled"] else [])
    + (if c.customs > 0 then [NatText(c.customs) + " custom added"] else [])
    + (if c.updated > 0 then [NatText(c.updated) + " updated"] else [])
    + (if c.skipped > 0 then [NatText(c.skipped) + " skipped (duplicates)"] else [])
  }

  /** The status line after an import. */
  function ImportStatus(c: Counts): string {
    "\U{1b}[32m\U{2713} Import complete! " + CommaJoin(CountParts(c)) + ".\U{1b}[0m"
  }

  // ---------------------------------------------------------------------
  // loops over curves.json

  /**
   * `String(Math.max(...ids.map(k => parseInt(k)).filter(n => !isNaN(n)), 0) + 1)`,
   * the maximum taken one id at a time.
   */
  method NextCurveId(ids: set<string>) returns (id: string)
    ensures id == NextId(ids)
  {
    var m: nat := 0;
    var rest := ids;
    while rest != {}
      invariant rest <= ids && BoundsIds(ids - rest, m)
      decreases |rest|
    {
      var k :| k in rest;
      m := TakeId(ids, rest, k, m);
      rest := rest - {k};
    }
    BoundsGiveNext(ids, m);
    id := IdAfter(m);
  }

  /** `m` is at least 0, bounds every integer id of `ids`, and is 0 or one of them. */
  ghost predicate BoundsIds(ids: set<string>, m: int) {
    m >= 0
    && (forall k :: k in ids && ParseIntAuto(k).Some? ==> ParseIntAuto(k).value <= m)
    && (m == 0 || exists k :: k in ids && ParseIntAuto(k) == Some(m))
  }

  /** The bound of all the ids gives the next id. */
  lemma BoundsGiveNext(ids: set<string>, m: nat)
    requires BoundsIds(ids, m)
    ensures NextId(ids) == IdAfter(m)
  {
    MaxIdUnique(ids, m);
  }

  /** Taking one more id into the maximum: `Math.max` of the maximum so far and the id's integer, when it has one. */
  method TakeId(ghost ids: set<string>, ghost rest: set<string>, k: string, m: nat) returns (next: nat)
    requires k in rest && rest <= ids && BoundsIds(ids - rest, m)
    ensures BoundsIds(ids - (rest - {k}), next)
  {
    var n := ParseIntAuto(k);
    next := if n.Some? && n.value > m then n.value else m;
    assert ids - (rest - {k}) == (ids - rest) + {k};
  }

  /**
   * `defaultCurvesByKey`, filled entry by entry; the entries are taken in
   * an order the model leaves open, so which id a shared key keeps is not
   * fixed.
   */
  method BuildIndex(curves: map<string, Curve>) returns (byKey: map<string, string>)
    ensures Indexes(byKey, curves)
  {
    byKey := map[];
    var rest := curves.Keys;
    while rest != {}
      invariant rest <= curves.Keys
      invariant forall k :: k in byKey ==> byKey[k] in curves && curves[byKey[k]].key == k
      invariant forall id :: id in curves && id !in rest ==> curves[id].key in byKey
      decreases |rest|
    {
      var id :| id in rest;
      byKey := byKey[curves[id].key := id];
      rest := rest - {id};
    }
  }

  /** An unknown key without a line for it: the import adds the imported curve under the next id. */
  lemma ImportNewRow(s: Store, byKey: map<string, string>, row: Row, c: Counts)
    requires !HasExact(s.content, row) && !HasKey(s.content, row) && row.key !in byKey
    ensures var ins := InsertAfterHotfix(s.content, RowText(row));
      ImportRow(s, byKey, row, c)
      == (Store(ins.0, s.curves[NextId(s.curves.Keys) := ImportedCurve(row)]), if ins.1 then c.(customs := c.customs + 1) else c)
  {
    var ins := InsertAfterHotfix(s.content, RowText(row));
    var a := AddImported(s, row);
    assert ImportRow(s, byKey, row, c) == (a.0, if a.1 then c.(customs := c.customs + 1) else c);
    assert a == AddNew(s, ImportedCurve(row), RowText(row));
    assert a == (Store(ins.0, s.curves[NextId(s.curves.Keys) := ImportedCurve(row)]), ins.1);
  }

  /** What the file prompt of an import ended in. */
  datatype ImportChoice = NoIniFiles | SelectionCancelled | Chosen(importContent: string)

  /** `confirm.toUpperCase() === 'Y'` on an answer the Y/N prompt accepted. */
  predicate Yes(answer: Option<string>) {
    answer == Some("y") || answer == Some("Y")
  }

  class Console {
    /** static/hotfixes/DefaultGame.ini. */
    var ini: string
    /** responses/curves.json. */
    var curves: map<string, Curve>
    /** The recorded lines of responses/modifications-backup.json, when that file exists. */
    var backup: Option<seq<string>>
    var lastStatusMessage: string
    var lastDisplayedMessage: string
    var shouldRefreshMenu: bool

    /** The console at start-up, over the files as they are. */
    constructor (ini: string, curves: map<string, Curve>, backup: Option<seq<string>>)
      ensures this.ini == ini && this.curves == curves && this.backup == backup
      ensures lastStatusMessage == "" && lastDisplayedMessage == "" && !shouldRefreshMenu
    {
      this.ini := ini;
      this.curves := curves;
      this.backup := backup;
      lastStatusMessage := "";
      lastDisplayedMessage := "";
      shouldRefreshMenu := false;
    }

    /** The files a CurveTable action edits. */
    function Files(): Store
      reads this
    {
      Store(ini, curves)
    }

    /** `areModificationsEnabled()`: the CurveTables are on exactly when there is no backup. */
    function ModificationsEnabled(): bool
      reads this
    {
      backup.None?
    }

    /**
     * `setStatusMessage`: the message is stored with its timestamp; only a
     * message that differs from the last displayed one becomes the displayed
     * one and asks for a menu refresh.
     */
    method SetStatusMessage(message: string, hours: nat, minutes: nat, seconds: nat, zone: string)
      requires hours < 24 && minutes < 60 && seconds < 60
      modifies this`lastStatusMessage, this`lastDisplayedMessage, this`shouldRefreshMenu
      ensures lastStatusMessage == StatusClock.StatusLine(message, hours, minutes, seconds, zone)
      ensures message != old(lastDisplayedMessage) ==> lastDisplayedMessage == message && shouldRefreshMenu
      ensures message == old(lastDisplayedMessage) ==>
        lastDisplayedMessage == old(lastDisplayedMessage) && shouldRefreshMenu == old(shouldRefreshMenu)
    {
      lastStatusMessage := StatusClock.StatusLine(message, hours, minutes, seconds, zone);
      if message != lastDisplayedMessage {
        lastDisplayedMessage := message;
        shouldRefreshMenu := true;
      }
    }

    /** The main menu's check: a pending refresh is taken once and cleared. */
    method ConsumeRefresh() returns (refresh: bool)
      modifies this`shouldRefreshMenu
      ensures refresh == old(shouldRefreshMenu) && !shouldRefreshMenu
    {
      refresh := shouldRefreshMenu;
      shouldRefreshMenu := false;
    }

    /**
     * Menu action 1, `toggleStraightBloom`, with the `lines` of sniper.json
     * (`None` when that file cannot be read, which fails with `error`).
     */
    method ToggleStraightBloom(sniper: Option<seq<string>>, error: string)
      modifies this`ini, this`lastStatusMessage
      ensures sniper.None? ==> ini == old(ini) && lastStatusMessage == BloomFailedMsg(error)
      ensures sniper.Some? ==> ((ini, !StraightBloom.HasSniperLines(old(ini), sniper.value))
        == StraightBloom.Toggled(old(ini), sniper.value))
      ensures sniper.Some? ==> (lastStatusMessage
        == if StraightBloom.HasSniperLines(old(ini), sniper.value) then BloomDisabledMsg else BloomEnabledMsg)
    {
      if sniper.None? {
        lastStatusMessage := BloomFailedMsg(error);
      } else {
        var result, enabled := StraightBloom.Toggle(ini, sniper.value);
        ini := result;
        lastStatusMessage := if enabled then BloomEnabledMsg else BloomDisabledMsg;
      }
    }

    /** One match of an import, as the `forEach` body handles it. */
    method ImportOne(byKey: map<string, string>, row: Row, counts: Counts) returns (next: Counts)
      modifies this`ini, this`curves
      ensures (Files(), next) == ImportRow(old(Files()), byKey, row, counts)
    {
      var s := Files();
      var r: (Store, Counts);
      if HasExact(s.content, row) {
        r := (s, counts.(skipped := counts.skipped + 1));
        assert r == ImportRow(s, byKey, row, counts);
      } else if HasKey(s.content, row) {
        r := (UpdateKey(s, row), counts.(updated := counts.updated + 1));
        assert r == ImportRow(s, byKey, row, counts);
      } else if row.key in byKey {
        var e := EnableKnown(s, row, byKey[row.key]);
        r := (e.0, if e.1 then counts.(enabled := counts.enabled + 1) else counts);
        assert r == ImportRow(s, byKey, row, counts);
      } else {
        var id := NextCurveId(s.curves.Keys);
        var ins := InsertAfterHotfix(s.content, RowText(row));
        r := (Store(ins.0, s.curves[id := ImportedCurve(row)]), if ins.1 then counts.(customs := counts.customs + 1) else counts);
        ImportNewRow(s, byKey, row, counts);
        assert r == ImportRow(s, byKey, row, counts);
      }
      ini, curves, next := r.0.content, r.0.curves, r.1;
    }

    /**
     * CurveTable action 5, `importCurveTables`: every CurveTable line of the
     * chosen file is imported in order, once the import is confirmed. Unlike
     * the other actions it has no "CurveTables are off" branch of its own:
     * `modifyCurveTables` returns with that status before showing the menu
     * (src/index.ts:685-688), so action 5 (line 819) runs only with no backup.
     */
    method ImportCurveTables(choice: ImportChoice, confirm: Option<string>)
      modifies this`ini, this`curves, this`lastStatusMessage
      ensures !(choice.Chosen? && Matches(Lines(choice.importContent)) != [] && Yes(confirm)) ==> Files() == old(Files())
      ensures choice.NoIniFiles? ==> lastStatusMessage == NoIniFilesMsg
      ensures choice.SelectionCancelled? ==> lastStatusMessage == ImportCancelledMsg
      ensures choice.Chosen? && Matches(Lines(choice.importContent)) == [] ==> lastStatusMessage == NoCurveTablesMsg
      ensures choice.Chosen? && Matches(Lines(choice.importContent)) != [] && !Yes(confirm) ==> lastStatusMessage == ImportCancelledMsg
      ensures choice.Chosen? && Matches(Lines(choice.importContent)) != [] && Yes(confirm) ==>
        exists byKey :: Indexes(byKey, old(curves))
          && var r := ImportAll(old(Files()), byKey, Matches(Lines(choice.importContent)), Counts(0, 0, 0, 0));
          Files() == r.0 && lastStatusMessage == ImportStatus(r.1)
    {
      if choice.NoIniFiles? {
        lastStatusMessage := NoIniFilesMsg;
        return;
      }
      if choice.SelectionCancelled? {
        lastStatusMessage := ImportCancelledMsg;
        return;
      }
      var rows := Matches(Lines(choice.importContent));
      if rows == [] {
        lastStatusMessage := NoCurveTablesMsg;
        return;
      }
      if !Yes(confirm) {
        lastStatusMessage := ImportCancelledMsg;
        return;
      }
      var byKey := BuildIndex(curves);
      ghost var start := Files();
      var counts := Counts(0, 0, 0, 0);
      for i := 0 to |rows|
        invariant ImportAll(Files(), byKey, rows[i..], counts) == ImportAll(start, byKey, rows, Counts(0, 0, 0, 0))
      {
        assert rows[i..][1..] == rows[i + 1..];
        counts := ImportOne(byKey, rows[i], counts);
      }
      assert rows[|rows|..] == [];
      lastStatusMessage := ImportStatus(counts);
    }

    /** CurveTable action 1 on curve `id`, with the answer of the value prompt. */
    method AddOrUpdateCurve(id: string, entered: Option<string>)
      requires id in curves
      modifies this`ini, this`curves, this`lastStatusMessage
      ensures old(backup).Some? ==> Files() == old(Files()) && lastStatusMessage == CurvesOffMsg
      ensures old(backup).None? && AddOrUpdate(old(Files()), id, entered).None? ==>
        Files() == old(Files()) && lastStatusMessage == old(lastStatusMessage)
      ensures old(backup).None? && AddOrUpdate(old(Files()), id, entered).Some? ==>
        Files() == AddOrUpdate(old(Files()), id, entered).value && lastStatusMessage == UpdatedMsg
    {
      if backup.Some? {
        lastStatusMessage := CurvesOffMsg;
        return;
      }
      var r := AddOrUpdate(Files(), id, entered);
      if r.Some? {
        ini, curves := r.value.content, r.value.curves;
        lastStatusMessage := UpdatedMsg;
      }
    }

    /** CurveTable action 2 on curve `id`. */
    method DeleteCurveTable(id: string)
      requires id in curves
      modifies this`ini, this`curves, this`lastStatusMessage
      ensures old(backup).Some? ==> Files() == old(Files()) && lastStatusMessage == CurvesOffMsg
      ensures old(backup).None? ==> (Files() == DeleteCurve(old(Files()), id).0
        && lastStatusMessage == if DeleteCurve(old(Files()), id).1 then RemovedMsg else NotFoundMsg)
    {
      if backup.Some? {
        lastStatusMessage := CurvesOffMsg;
        return;
      }
      var r := DeleteCurve(Files(), id);
      ini, curves := r.0.content, r.0.curves;
      lastStatusMessage := if r.1 then RemovedMsg else NotFoundMsg;
    }

    /** CurveTable action 4 with the answers of the name and paste prompts. */
    method AddCustomCurve(name: Option<string>, paste: Option<string>)
      requires paste.Some? ==> StartsWith(paste.value, Prefix)
      modifies this`ini, this`curves, this`lastStatusMessage
      ensures old(backup).Some? ==> Files() == old(Files()) && lastStatusMessage == CurvesOffMsg
      ensures old(backup).None? ==> match AddCustom(old(Files()), name, paste)
        case Cancelled => Files() == old(Files()) && lastStatusMessage == old(lastStatusMessage)
        case Invalid => Files() == old(Files()) && lastStatusMessage == InvalidFormatMsg
        case Added(s, _) => Files() == s && lastStatusMessage == CustomAddedMsg
    {
      if backup.Some? {
        lastStatusMessage := CurvesOffMsg;
        return;
      }
      if name.None? || name.value == "" || paste.None? {
        return;
      }
      var line := Trim(paste.value);
      var row := ParseRow(line);
      if row.None? {
        lastStatusMessage := InvalidFormatMsg;
        return;
      }
      var id := NextCurveId(curves.Keys);
      NextIdFresh(curves.Keys);
      ini, curves := InsertAfterHotfix(ini, line).0, curves[id := CustomCurve(name.value, row.value)];
      lastStatusMessage := CustomAddedMsg;
    }

    /** CurveTable action 6 with the answer of the confirmation prompt. */
    method ClearCurves(confirm: Option<string>)
      modifies this`ini, this`curves, this`lastStatusMessage
      ensures old(backup).Some? ==> Files() == old(Files()) && lastStatusMessage == CurvesOffMsg
      ensures old(backup).None? ==> (Files() == ClearAll(old(Files()), confirm).0
        && lastStatusMessage == if Yes(confirm) then ClearedMsg else CancelledMsg)
    {
      if backup.Some? {
        lastStatusMessage := CurvesOffMsg;
        return;
      }
      var r := ClearAll(Files(), confirm);
      ini, curves := r.0.content, r.0.curves;
      lastStatusMessage := if r.1 then ClearedMsg else CancelledMsg;
    }

    /**
     * Menu action 2, `toggleAllModifications`. With a backup, each recorded
     * line gets its ';' back and the backup goes; without one, each active
     * CurveTable line, taken in text order, is commented out wherever it
     * occurs as a whole line, and the lines are recorded in a new backup.
     */
    method ToggleAllModifications()
      modifies this`ini, this`backup, this`lastStatusMessage
      ensures old(backup).Some? ==> (ini == RestoreAll(old(ini), old(backup).value)
        && backup.None? && lastStatusMessage == RestoredMsg)
      ensures old(backup).None? ==> (ini == DisabledText(old(ini))
        && backup == Some(Recorded(old(ini))) && lastStatusMessage == BackedUpMsg)
    {
      if backup.Some? {
        ini := RestoreLines(ini, backup.value);
        backup := None;
        lastStatusMessage := RestoredMsg;
      } else {
        var recorded;
        ini, recorded := CommentOut(ini);
        backup := Some(recorded);
        lastStatusMessage := BackedUpMsg;
      }
    }
  }

  /** The restore loop: each recorded line gets its ';' back at its first commented occurrence. */
  method RestoreLines(content: string, recorded: seq<string>) returns (r: string)
    ensures r == RestoreAll(content, recorded)
  {
    r := content;
    for i := 0 to |recorded|
      invariant RestoreAll(r, recorded[i..]) == RestoreAll(content, recorded)
    {
      assert recorded[i..][1..] == recorded[i + 1..];
      r := ReplaceFirst(r, ";" + recorded[i], recorded[i]);
    }
    assert recorded[|recorded|..] == [];
  }

  /**
   * The disable loop: every active CurveTable line, in text order, is
   * replaced by its commented form wherever it is a whole line
   * (`new RegExp('^' + escaped + '$', 'gm')`), and the lines are recorded.
   */
  method CommentOut(content: string) returns (r: string, recorded: seq<string>)
    ensures r == DisabledText(content) && recorded == Recorded(content)
  {
    var lines := Lines(content);
    recorded := Filter(lines, Active);
    r := content;
    DisableNone(content);
    assert recorded[..0] == [];
    for i := 0 to |recorded|
      invariant r == Join(CommentedAmong(lines, recorded[..i]), '\n')
    {
      PrefixSnoc(recorded, i);
      assert recorded[i] in recorded;
      DisableStep(lines, recorded[..i], recorded[i]);
      r := ReplaceWholeLines(r, recorded[i], ";" + recorded[i]);
    }
    assert recorded[..|recorded|] == recorded;
    DisableAll(content, recorded);
  }
}
