/**
 * Cloud storage in src/routes/cloudstorage.ts: the hotfix files the game
 * downloads, adjusted per client version, with a cache of the raw file
 * texts, and the per-season client settings file of each account.
 *
 * File contents are inputs (`None` when a read fails).
 */
module CloudStorage {
  import opened Wrappers
  import opened Text
  import opened Numbers
  import opened GameVersion
  import opened IniLines

  // ---------------------------------------------------------------------
  // the season filter

  /** A `+DataTable=` or `+CurveTable=` hotfix line, leading and trailing whitespace ignored. */
  predicate IsTableLine(line: string) {
    var t := Trim(line);
    StartsWith(t, "+DataTable=") || StartsWith(t, "+CurveTable=")
  }

  /** The lines that are not table hotfixes, in their order. */
  function KeepNonTable(lines: seq<string>): seq<string> {
    Filter(lines, l => !IsTableLine(l))
  }

  /** The season 6 and earlier form of DefaultGame.ini: every table hotfix line dropped. */
  function DropTableLines(content: string): string {
    Join(KeepNonTable(Split(content, '\n')), '\n')
  }

  /** Dropping the table lines a second time changes nothing. */
  lemma DropTableLinesIdempotent(content: string)
    ensures DropTableLines(DropTableLines(content)) == DropTableLines(content)
  {
    var kept := KeepNonTable(Split(content, '\n'));
    assert forall i :: 0 <= i < |kept| ==> '\n' !in kept[i] && !IsTableLine(kept[i]) by {
      forall i | 0 <= i < |kept|
        ensures '\n' !in kept[i] && !IsTableLine(kept[i])
      {
        assert kept[i] in kept;
        assert kept[i] in Split(content, '\n');
      }
    }
    if |kept| == 0 {
      assert DropTableLines(content) == "";
      assert Split("", '\n') == [""];
      assert !IsTableLine("");
      FilterAll([""], l => !IsTableLine(l));
    } else {
      SplitJoin(kept, '\n');
      FilterAll(kept, l => !IsTableLine(l));
    }
  }

  /** A file without table hotfix lines passes the filter unchanged. */
  lemma DropTableLinesNone(content: string)
    requires forall i :: 0 <= i < |Split(content, '\n')| ==> !IsTableLine(Split(content, '\n')[i])
    ensures DropTableLines(content) == content
  {
    FilterAll(Split(content, '\n'), l => !IsTableLine(l));
    JoinSplit(content, '\n');
  }

  // ---------------------------------------------------------------------
  // the build replacements

  /** The text of a `+FrontEndPlaylistData` line of DefaultGame.ini for `playlist` up to its `bEnabled` flag. */
  function EntryHead(playlist: string): string {
    "+FrontEndPlaylistData=(PlaylistName=" + playlist + ", PlaylistAccess=(bEnabled="
  }

  /** The text of such a line after the flag. */
  const EntryTail: string := ", CategoryIndex=1, DisplayPriority=-999))"

  /** The whole line, with the flag set to `enabled`. */
  function PlaylistEntry(playlist: string, enabled: bool): string {
    EntryHead(playlist) + (if enabled then "true" else "false") + EntryTail
  }

  /** `replacements[version.build]`: which build enables which playlist. */
  const Replacements: seq<(Decimal, string)> := [
    (Decimal(73, -1), "Playlist_Music_Low"),
    (Decimal(74, -1), "Playlist_Music_High"),
    (Decimal(851, -2), "Playlist_Music_Med"),
    (Decimal(94, -1), "Playlist_Music_Higher"),
    (Decimal(941, -2), "Playlist_Music_Higher"),
    (Decimal(104, -1), "Playlist_Music_Highest"),
    (Decimal(113, -1), "Playlist_Music_Lowest"),
    (Decimal(1241, -2), "Playlist_Music_High"),
    (Decimal(1261, -2), "Playlist_Fritter_64")]

  /** The playlist of the first entry whose build is numerically `build`. */
  function PlaylistFor(table: seq<(Decimal, string)>, build: Decimal): (r: Option<string>)
    ensures r.None? <==> forall i :: 0 <= i < |table| ==> !Same(table[i].0, build)
    ensures r.Some? ==> exists i :: 0 <= i < |table| && Same(table[i].0, build) && table[i].1 == r.value
    decreases |table|
  {
    if |table| == 0 then None
    else if Same(table[0].0, build) then Some(table[0].1)
    else
      var r := PlaylistFor(table[1..], build);
      assert forall i :: 1 <= i < |table| ==> table[1..][i - 1] == table[i];
      r
  }

  /**
   * The replacement, as `(find, replace)`, for a client build; NaN has none.
   * The two differ only in the flag: `bEnabled=false` becomes `bEnabled=true`.
   */
  function ReplacementFor(build: Option<Decimal>): (r: Option<(string, string)>)
    ensures r.Some? ==> exists p :: r.value.0 == EntryHead(p) + "false" + EntryTail
                                  && r.value.1 == EntryHead(p) + "true" + EntryTail
    ensures build.None? ==> r.None?
  {
    if build.None? then None
    else
      match PlaylistFor(Replacements, build.value)
      case None => None
      case Some(p) => Some((PlaylistEntry(p, false), PlaylistEntry(p, true)))
  }

  /** The text served for `fileName` from its raw content, for a client of version `ver`. */
  function Served(fileName: string, ver: Version, raw: string): string {
    if fileName != "DefaultGame.ini" then raw
    else
      var filtered := if ver.season.Some? && ver.season.value <= 6 then DropTableLines(raw) else raw;
      match ReplacementFor(ver.build)
      case None => filtered
      case Some((find, rep)) => ReplaceFirst(filtered, find, rep)
  }

  /** Every file but DefaultGame.ini is served as it is stored. */
  lemma OtherFilesRaw(fileName: string, ver: Version, raw: string)
    requires fileName != "DefaultGame.ini"
    ensures Served(fileName, ver, raw) == raw
  {
  }

  /** For seasons after 6, or a NaN season, and builds outside the table, DefaultGame.ini is served raw. */
  lemma LateUnlistedRaw(ver: Version, raw: string)
    requires ver.season.None? || ver.season.value > 6
    requires ver.build.None? || forall i :: 0 <= i < |Replacements| ==> !Same(Replacements[i].0, ver.build.value)
    ensures Served("DefaultGame.ini", ver, raw) == raw
  {
  }

  /**
   * For a listed build only the first occurrence of the disabled entry is
   * enabled; the text before it and after it is kept.
   */
  lemma ListedBuildFirstOnly(ver: Version, raw: string, p: string)
    requires ver.season.None? || ver.season.value > 6
    requires ReplacementFor(ver.build) == Some((PlaylistEntry(p, false), PlaylistEntry(p, true)))
    ensures var i := IndexOf(raw, PlaylistEntry(p, false));
      var r := Served("DefaultGame.ini", ver, raw);
      (i == -1 ==> r == raw)
      && (i != -1 ==> r == raw[..i] + PlaylistEntry(p, true) + raw[i + |PlaylistEntry(p, false)|..])
  {
    var find := PlaylistEntry(p, false);
    var i := IndexOf(raw, find);
    if i != -1 {
      var r := ReplaceFirst(raw, find, PlaylistEntry(p, true));
      assert r == r[..i] + r[i..];
    }
  }

  /** The hotfix files read so far, by file name, as they are on disk. */
  class HotfixServer {
    var cache: map<string, string>

    constructor()
      ensures cache == map[]
    {
      cache := map[];
    }

    /**
     * `GET /fortnite/api/cloudstorage/system/:file`, where `disk` is the file
     * as a read would find it. A cached file is not read again; `None` is the
     * not-found answer of a failed read.
     */
    method SystemFile(fileName: string, ver: Version, disk: Option<string>) returns (r: Option<string>)
      modifies this
      ensures fileName in old(cache) ==> cache == old(cache) && r == Some(Served(fileName, ver, old(cache)[fileName]))
      ensures fileName !in old(cache) && disk.Some? ==>
        cache == old(cache)[fileName := disk.value] && r == Some(Served(fileName, ver, disk.value))
      ensures fileName !in old(cache) && disk.None? ==> cache == old(cache) && r.None?
    {
      var raw: string;
      if fileName in cache {
        raw := cache[fileName];
      } else {
        if disk.None? {
          return None;
        }
        raw := disk.value;
        cache := cache[fileName := raw];
      }
      r := Some(Served(fileName, ver, raw));
    }
  }

  // ---------------------------------------------------------------------
  // client settings

  newtype byte = x: int | 0 <= x < 256

  /** `ClientSettings-<season>.Sav`, the one name the list, upload and download use. */
  function SettingsFile(ver: Version): (name: string)
    ensures StartsWith(name, "ClientSettings-")
  {
    "ClientSettings-" + MaybeIntText(ver.season) + ".Sav"
  }

  /** Different seasons keep different settings files. */
  lemma SettingsFilePerSeason(a: Version, b: Version)
    requires a.season.Some? && b.season.Some? && a.season != b.season
    ensures SettingsFile(a) != SettingsFile(b)
  {
    var p := "ClientSettings-";
    var x := SettingsFile(a);
    var y := SettingsFile(b);
    assert x[|p|..|x| - 4] == IntText(a.season.value);
    if x == y {
      assert y[|p|..|y| - 4] == IntText(b.season.value);
      IntTextInjective(a.season.value, b.season.value);
    }
  }

  /**
   * `Buffer.byteLength` of the file read as latin1: each byte is one
   * character, and characters from 0x80 on take two bytes in UTF-8.
   */
  function ListedLength(data: seq<byte>): (n: nat)
    ensures |data| <= n <= 2 * |data|
    ensures n == |data| <==> forall i :: 0 <= i < |data| ==> data[i] < 0x80
    decreases |data|
  {
    if |data| == 0 then 0
    else
      var rest := ListedLength(data[1..]);
      assert forall i :: 1 <= i < |data| ==> data[1..][i - 1] == data[i];
      (if data[0] < 0x80 then 1 else 2) + rest
  }

  /** One entry of the settings list. */
  datatype SettingsEntry = SettingsEntry(uniqueFilename: string, accountId: string, length: nat)

  /** The settings files of one account, by file name. */
  type Settings = map<string, seq<byte>>

  /** `GET /fortnite/api/cloudstorage/user/:accountId`: the season's file, if there is one. */
  function ListSettings(files: Settings, accountId: string, ver: Version): (r: seq<SettingsEntry>)
    ensures |r| <= 1
    ensures |r| == 1 <==> SettingsFile(ver) in files
    ensures |r| == 1 ==> r[0].uniqueFilename == "ClientSettings.Sav" && r[0].accountId == accountId
  {
    var name := SettingsFile(ver);
    if name in files then [SettingsEntry("ClientSettings.Sav", accountId, ListedLength(files[name]))] else []
  }

  /** Only `clientsettings.sav`, in any ASCII case, is accepted for upload. */
  predicate AcceptedName(filename: string) {
    Lower(filename) == "clientsettings.sav"
  }

  /**
   * `PUT /fortnite/api/cloudstorage/user/:accountId/:file` with body `body`:
   * the files afterwards (the write the handler starts) and whether it was accepted.
   */
  function PutSettings(files: Settings, filename: string, ver: Version, body: seq<byte>): (r: (Settings, bool))
    ensures r.1 <==> AcceptedName(filename)
    ensures !r.1 ==> r.0 == files
    ensures r.1 ==> (r.0.Keys == files.Keys + {SettingsFile(ver)}
                     && forall n :: n in files && n != SettingsFile(ver) ==> r.0[n] == files[n])
  {
    if !AcceptedName(filename) then (files, false)
    else (files[SettingsFile(ver) := body], true)
  }

  /** `GET /fortnite/api/cloudstorage/user/:accountId/:file`: the season's file, `None` answering `[]`. */
  function GetSettings(files: Settings, ver: Version): (r: Option<seq<byte>>)
    ensures r.Some? <==> SettingsFile(ver) in files
  {
    var name := SettingsFile(ver);
    if name in files then Some(files[name]) else None
  }

  /** An accepted upload is what the same season downloads next, and what it lists. */
  lemma PutThenGet(files: Settings, filename: string, ver: Version, body: seq<byte>, accountId: string)
    requires AcceptedName(filename)
    ensures GetSettings(PutSettings(files, filename, ver, body).0, ver) == Some(body)
    ensures ListSettings(PutSettings(files, filename, ver, body).0, accountId, ver)
      == [SettingsEntry("ClientSettings.Sav", accountId, ListedLength(body))]
  {
  }

  /** A rejected upload changes nothing any season downloads. */
  lemma RejectedPutKeeps(files: Settings, filename: string, ver: Version, body: seq<byte>, other: Version)
    requires !AcceptedName(filename)
    ensures GetSettings(PutSettings(files, filename, ver, body).0, other) == GetSettings(files, other)
  {
  }
}
