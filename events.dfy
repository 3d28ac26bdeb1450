/**
 * The arena endpoints of src/routes/events.ts: the event download, which
 * rewrites the season 13 identifiers of the stored events and templates for
 * the client's season and builds the player's arena record, and the score
 * report, which stores the reported Hype in the player's profile.
 *
 * Files are inputs: a file that is missing or not valid JSON is `None`,
 * otherwise it is the parsed value. The config file is given as the value of
 * its `SaveArenaPoints` entry (`Undefined` when the entry is missing).
 */
module Events {
  import opened Wrappers
  import opened Text
  import opened Numbers
  import opened Json
  import opened GameVersion

  /** `xs.map(f)` where a call of `f` may throw: one failure fails the whole map. */
  function MapAll<T, U>(xs: seq<T>, f: T -> Option<U>): (r: Option<seq<U>>)
    ensures r.Some? <==> forall i :: 0 <= i < |xs| ==> f(xs[i]).Some?
    ensures r.Some? ==> |r.value| == |xs| && forall i :: 0 <= i < |xs| ==> r.value[i] == f(xs[i]).value
    decreases |xs|
  {
    if |xs| == 0 then Some([])
    else
      match f(xs[0])
      case None => None
      case Some(y) =>
        var rest := MapAll(xs[1..], f);
        assert forall i :: 1 <= i < |xs| ==> xs[1..][i - 1] == xs[i];
        match rest
        case None => None
        case Some(ys) => Some([y] + ys)
  }

  // ---------------------------------------------------------------------
  // the season rewrite

  /** `s.replace(/S13/g, `S${season}`)`. */
  function Reseason(s: string, season: string): string {
    ReplaceAll(s, "S13", "S" + season)
  }

  /** For a season 13 client the rewrite changes nothing. */
  lemma ReseasonThirteen(s: string)
    ensures Reseason(s, "13") == s
  {
    assert "S" + "13" == "S13";
    ReplaceAllSelf(s, "S13");
  }

  /** Text without "S13" is left as it is for every season. */
  lemma ReseasonWithoutMarker(s: string, season: string)
    requires !Contains(s, "S13")
    ensures Reseason(s, season) == s
  {
  }

  /** The rewrite of the field `name` when it holds a string; any other field, or a non-string value, is kept. */
  function ReseasonField(m: map<string, Value>, name: string, season: string): (r: map<string, Value>)
    ensures r.Keys == m.Keys
    ensures forall k :: k in m && k != name ==> r[k] == m[k]
    ensures name in m && m[name].Str? ==> r[name] == Str(Reseason(m[name].s, season))
    ensures name in m && !m[name].Str? ==> r[name] == m[name]
  {
    if name in m && m[name].Str? then m[name := Str(Reseason(m[name].s, season))] else m
  }

  /** `token.replace(...)` inside a token list: a token that is not a string has no `replace` and throws. */
  function ReseasonToken(t: Value, season: string): (r: Option<Value>)
    ensures r.Some? <==> t.Str?
  {
    if t.Str? then Some(Str(Reseason(t.s, season))) else None
  }

  /** The rewrite of every token of the list in field `name`, when that field holds an array. */
  function ReseasonTokens(m: map<string, Value>, name: string, season: string): (r: Option<map<string, Value>>)
    ensures !(name in m && m[name].Arr?) ==> r == Some(m)
    ensures name in m && m[name].Arr? ==>
      (r.Some? <==> forall i :: 0 <= i < |m[name].elems| ==> m[name].elems[i].Str?)
    ensures r.Some? ==> r.value.Keys == m.Keys && forall k :: k in m && k != name ==> r.value[k] == m[k]
    ensures r.Some? && name in m && m[name].Arr? ==>
      var ts := m[name].elems;
      r.value[name].Arr? && |r.value[name].elems| == |ts|
      && forall i :: 0 <= i < |ts| ==> r.value[name].elems[i] == Str(Reseason(ts[i].s, season))
  {
    if name in m && m[name].Arr? then
      match MapAll(m[name].elems, t => ReseasonToken(t, season))
      case None => None
      case Some(ts) => Some(m[name := Arr(ts)])
    else Some(m)
  }

  /** Different natural numbers have different decimal texts. */
  lemma NatTextsDistinct()
    ensures forall m: nat, n: nat :: NatText(m) == NatText(n) ==> m == n
  {
    forall m: nat, n: nat | NatText(m) == NatText(n)
      ensures m == n
    {
      NatTextInjective(m, n);
    }
  }

  /** The index properties of a list of values: "0", "1", ... */
  function Indexed(vs: seq<Value>): (m: map<string, Value>)
    ensures forall i :: 0 <= i < |vs| ==> NatText(i) in m && m[NatText(i)] == vs[i]
    ensures forall k :: k in m ==> IndexKey(k).Some? && IndexKey(k).value < |vs|
    decreases |vs|
  {
    if |vs| == 0 then map[]
    else
      var n := |vs| - 1;
      var m := Indexed(vs[..n]);
      NatTextsDistinct();
      IndexKeyOfNat(n);
      m[NatText(n) := vs[n]]
  }

  /**
   * `{...v}`: the own properties of an object, the indices of an array or
   * of a string's characters; null, undefined, booleans and numbers
   * contribute nothing.
   */
  function Spread(v: Value): (m: map<string, Value>)
    ensures v.Obj? ==> m == v.fields
    ensures v.Arr? ==> m == Indexed(v.elems)
    ensures !v.Obj? && !v.Arr? && !v.Str? ==> m == map[]
  {
    match v
    case Obj(f) => f
    case Arr(es) => Indexed(es)
    case Str(s) => Indexed(seq(|s|, i requires 0 <= i < |s| => Str([s[i]])))
    case _ => map[]
  }

  /** One event window: a shallow copy with its two ids and two token lists rewritten. */
  function ReseasonWindow(w: Value, season: string): (r: Option<Value>)
    ensures r.Some? ==> r.value.Obj? && r.value.fields.Keys == Spread(w).Keys
  {
    var o := ReseasonField(ReseasonField(Spread(w), "eventTemplateId", season), "eventWindowId", season);
    match ReseasonTokens(o, "requireAllTokens", season)
    case None => None
    case Some(o') =>
      match ReseasonTokens(o', "requireNoneTokensCaller", season)
      case None => None
      case Some(o'') => Some(Obj(o''))
  }

  /**
   * One event, deep-cloned through JSON first: `eventId` rewritten, every
   * window rewritten when `eventWindows` is an array. Cloning undefined
   * throws in `JSON.parse`, and reading `eventId` of null throws.
   */
  function ReseasonEvent(evt: Value, season: string): (r: Option<Value>)
    ensures r.Some? ==> !Nullish(evt)
  {
    var e := Clone(evt);
    match e
    case Undefined => None
    case Null => None
    case Obj(m) =>
      var m' := ReseasonField(m, "eventId", season);
      if "eventWindows" in m' && m'["eventWindows"].Arr? then
        match MapAll(m'["eventWindows"].elems, w => ReseasonWindow(w, season))
        case None => None
        case Some(ws) => Some(Obj(m'["eventWindows" := Arr(ws)]))
      else Some(Obj(m'))
    case _ => Some(e)
  }

  /** One template: a shallow copy with `eventTemplateId` rewritten. */
  function ReseasonTemplate(t: Value, season: string): (r: Value)
    ensures r.Obj? && r.fields.Keys == Spread(t).Keys
  {
    Obj(ReseasonField(Spread(t), "eventTemplateId", season))
  }

  /** `[...v]`: the elements of an array or the characters of a string; any other value is not iterable. */
  function Elements(v: Value): (r: Option<seq<Value>>)
    ensures v.Arr? ==> r == Some(v.elems)
    ensures r.Some? <==> v.Arr? || v.Str?
  {
    match v
    case Arr(es) => Some(es)
    case Str(s) => Some(seq(|s|, i requires 0 <= i < |s| => Str([s[i]])))
    case _ => None
  }

  /** A token field that is missing, not an array, or an array of strings: one the rewrite cannot fail on. */
  predicate TokensAreText(m: map<string, Value>, name: string) {
    name in m && m[name].Arr? ==> forall i :: 0 <= i < |m[name].elems| ==> m[name].elems[i].Str?
  }

  /** A window object whose token lists hold only strings. */
  predicate PlainWindow(w: Value) {
    w.Obj? && TokensAreText(w.fields, "requireAllTokens") && TokensAreText(w.fields, "requireNoneTokensCaller")
  }

  /** At season 13 a plain window is copied unchanged. */
  lemma WindowThirteen(w: Value)
    requires PlainWindow(w)
    ensures ReseasonWindow(w, "13") == Some(w)
  {
    var m := w.fields;
    FieldThirteen(m, "eventTemplateId");
    var o := ReseasonField(m, "eventTemplateId", "13");
    FieldThirteen(o, "eventWindowId");
    TokensThirteen(m, "requireAllTokens");
    TokensThirteen(m, "requireNoneTokensCaller");
  }

  /** At season 13 a JSON event object whose windows are plain is its own rewrite. */
  lemma EventThirteen(evt: Value)
    requires IsJson(evt) && evt.Obj?
    requires "eventWindows" in evt.fields && evt.fields["eventWindows"].Arr? ==>
      forall i :: 0 <= i < |evt.fields["eventWindows"].elems| ==> PlainWindow(evt.fields["eventWindows"].elems[i])
    ensures ReseasonEvent(evt, "13") == Some(evt)
  {
    CloneOfJson(evt);
    var m := evt.fields;
    FieldThirteen(m, "eventId");
    if "eventWindows" in m && m["eventWindows"].Arr? {
      var ws := m["eventWindows"].elems;
      forall i | 0 <= i < |ws|
        ensures ReseasonWindow(ws[i], "13") == Some(ws[i])
      {
        WindowThirteen(ws[i]);
      }
      var r := MapAll(ws, w => ReseasonWindow(w, "13"));
      assert r.value == ws;
      assert m["eventWindows" := Arr(ws)] == m;
    }
  }

  lemma FieldThirteen(m: map<string, Value>, name: string)
    ensures ReseasonField(m, name, "13") == m
  {
    if name in m && m[name].Str? {
      ReseasonThirteen(m[name].s);
    }
  }

  lemma TokensThirteen(m: map<string, Value>, name: string)
    requires TokensAreText(m, name)
    ensures ReseasonTokens(m, name, "13") == Some(m)
  {
    if name in m && m[name].Arr? {
      var ts := m[name].elems;
      var r := ReseasonTokens(m, name, "13").value;
      forall i | 0 <= i < |ts|
        ensures r[name].elems[i] == ts[i]
      {
        ReseasonThirteen(ts[i].s);
      }
      assert r[name].elems == ts;
      assert r == m;
    }
  }

  // ---------------------------------------------------------------------
  // the player's arena record

  /** `config.SaveArenaPoints === "true" || config.SaveArenaPoints === true`. */
  predicate SavesArenaPoints(setting: Value) {
    setting == Str("true") || setting == Bool(true)
  }

  /** `v?.name`. */
  function Chain(v: Value, name: string): (r: Value)
    ensures Nullish(v) ==> r == Undefined
    ensures v.Obj? ==> r == if name in v.fields then v.fields[name] else Undefined
  {
    if Nullish(v) then Undefined else Field(v, name).value
  }

  /** The Hype a download reports: `profile?.stats?.attributes?.arena_hype || 0` when saving, else 0. */
  function ArenaHype(save: bool, profileFile: Option<Value>): (h: Value)
    ensures !save || profileFile.None? ==> h == Num(0)
    ensures Truthy(h) || h == Num(0)
  {
    if save && profileFile.Some? then
      Or(Chain(Chain(Chain(profileFile.value, "stats"), "attributes"), "arena_hype"), Num(0))
    else Num(0)
  }

  /** A saving server reports the Hype stored in the profile, if it is truthy. */
  lemma HypeFromProfile(profile: Value, stats: Value, attributes: Value)
    requires profile.Obj? && "stats" in profile.fields && profile.fields["stats"] == stats
    requires stats.Obj? && "attributes" in stats.fields && stats.fields["attributes"] == attributes
    requires attributes.Obj?
    ensures var stored := if "arena_hype" in attributes.fields then attributes.fields["arena_hype"] else Undefined;
      ArenaHype(true, Some(profile)) == if Truthy(stored) then stored else Num(0)
  {
  }

  /** The team key of one division, e.g. `epicgames_Arena_S24_Solo:Arena_S24_Division3_Solo`. */
  function TeamKey(season: string, division: nat): string {
    "epicgames_Arena_S" + season + "_Solo:Arena_S" + season + "_Division" + NatText(division) + "_Solo"
  }

  /** Different divisions have different team keys. */
  lemma TeamKeyInjective(season: string, i: nat, j: nat)
    requires TeamKey(season, i) == TeamKey(season, j)
    ensures i == j
  {
    var p := "epicgames_Arena_S" + season + "_Solo:Arena_S" + season + "_Division";
    var a := TeamKey(season, i);
    var b := TeamKey(season, j);
    assert a == p + NatText(i) + "_Solo";
    assert b == p + NatText(j) + "_Solo";
    assert a[|p|..|a| - 5] == NatText(i);
    assert b[|p|..|b| - 5] == NatText(j);
    NatTextInjective(i, j);
  }

  /** The teams of divisions 1 to `n`, each made of the player alone. */
  function Teams(season: string, accountId: string, n: nat): (r: map<string, Value>)
    ensures r.Keys == set j: nat | 1 <= j <= n :: TeamKey(season, j)
    ensures |r| == n
    ensures forall k :: k in r ==> r[k] == Arr([Str(accountId)])
  {
    if n == 0 then map[]
    else
      var r := Teams(season, accountId, n - 1);
      assert TeamKey(season, n) !in r by {
        if TeamKey(season, n) in r {
          var j: nat :| 1 <= j <= n - 1 && TeamKey(season, j) == TeamKey(season, n);
          TeamKeyInjective(season, j, n);
        }
      }
      r[TeamKey(season, n) := Arr([Str(accountId)])]
  }

  /** The `player` part of the download. */
  function Player(accountId: string, season: string, hype: Value): Value {
    Obj(map[
      "accountId" := Str(accountId),
      "gameId" := Str("Fortnite"),
      "groupIdentity" := Obj(map[]),
      "pendingPayouts" := Arr([]),
      "pendingPenalties" := Obj(map[]),
      "persistentScores" := Obj(map["Hype" := hype]),
      "teams" := Obj(Teams(season, accountId, 10)),
      "tokens" := Arr([Str("ARENA_S" + season + "_Division1")])])
  }

  /** The player owns exactly ten teams, Division1 to Division10, and one Division1 token. */
  lemma PlayerTeams(accountId: string, season: string, hype: Value)
    ensures var p := Player(accountId, season, hype).fields;
      p["teams"].Obj? && |p["teams"].fields| == 10
      && (forall d: nat :: 1 <= d <= 10 ==> TeamKey(season, d) in p["teams"].fields)
      && (forall k :: k in p["teams"].fields ==> p["teams"].fields[k] == Arr([Str(accountId)]))
      && p["tokens"] == Arr([Str("ARENA_S" + season + "_Division1")])
      && p["persistentScores"] == Obj(map["Hype" := hype])
  {
  }

  /**
   * `GET /api/v1/events/Fortnite/download/:accountId` for a client of
   * version `ver`. Any failure (a missing or broken file, events that are not
   * an array, templates that are not iterable, a throwing rewrite) answers `[]`.
   */
  function Download(accountId: string, ver: Version, eventsFile: Option<Value>, templatesFile: Option<Value>,
                    config: Option<Value>, profileFile: Option<Value>): (r: Value)
  {
    if eventsFile.None? || templatesFile.None? || config.None? || !eventsFile.value.Arr? then Arr([])
    else
      var season := MaybeIntText(ver.season);
      var hype := ArenaHype(SavesArenaPoints(config.value), profileFile);
      var events := MapAll(eventsFile.value.elems, e => ReseasonEvent(e, season));
      var templates := Elements(templatesFile.value);
      if events.None? || templates.None? then Arr([])
      else
        var ts := templates.value;
        Obj(map[
          "events" := Arr(events.value),
          "player" := Player(accountId, season, hype),
          "templates" := Arr(seq(|ts|, i requires 0 <= i < |ts| => ReseasonTemplate(ts[i], season)))])
  }

  /** What a download holds when it succeeds: events and templates rewritten one for one, in order. */
  lemma DownloadContents(accountId: string, ver: Version, events: seq<Value>, templates: seq<Value>,
                         setting: Value, profileFile: Option<Value>)
    requires forall i :: 0 <= i < |events| ==> ReseasonEvent(events[i], MaybeIntText(ver.season)).Some?
    ensures var r := Download(accountId, ver, Some(Arr(events)), Some(Arr(templates)), Some(setting), profileFile);
      var season := MaybeIntText(ver.season);
      r.Obj? && r.fields.Keys == {"events", "player", "templates"}
      && r.fields["events"].Arr? && |r.fields["events"].elems| == |events|
      && (forall i :: 0 <= i < |events| ==> r.fields["events"].elems[i] == ReseasonEvent(events[i], season).value)
      && r.fields["templates"].Arr? && |r.fields["templates"].elems| == |templates|
      && (forall i :: 0 <= i < |templates| ==> r.fields["templates"].elems[i] == ReseasonTemplate(templates[i], season))
      && r.fields["player"] == Player(accountId, season, ArenaHype(SavesArenaPoints(setting), profileFile))
  {
  }

  /** A download fails, answering `[]`, exactly when a file is unusable or an event cannot be rewritten. */
  lemma DownloadFails(accountId: string, ver: Version, eventsFile: Option<Value>, templatesFile: Option<Value>,
                      config: Option<Value>, profileFile: Option<Value>)
    ensures Download(accountId, ver, eventsFile, templatesFile, config, profileFile) == Arr([]) <==>
      eventsFile.None? || templatesFile.None? || config.None? || !eventsFile.value.Arr?
      || !(templatesFile.value.Arr? || templatesFile.value.Str?)
      || exists i :: 0 <= i < |eventsFile.value.elems| && ReseasonEvent(eventsFile.value.elems[i], MaybeIntText(ver.season)).None?
  {
  }

  // ---------------------------------------------------------------------
  // the score report

  /** The answer and the profile written, if any. */
  datatype ScoreResult = ScoreResult(status: int, success: bool, written: Option<Value>)

  /** The profile the report updates: the account's own, else the template with the account id set. */
  function LoadedProfile(accountId: string, profileFile: Option<Value>, templateFile: Option<Value>): (r: Option<Value>)
    ensures profileFile.Some? ==> r == profileFile
    ensures profileFile.None? && templateFile.Some? && templateFile.value.Obj? ==>
      r == Some(Obj(templateFile.value.fields["accountId" := Str(accountId)]))
    ensures profileFile.None? && templateFile.None? ==> r.None?
  {
    match profileFile
    case Some(p) => Some(p)
    case None =>
      match templateFile
      case None => None
      case Some(t) => Put(t, Str("accountId"), Str(accountId))
  }

  /**
   * `stats` and `stats.attributes` created when falsy, then
   * `stats.attributes.arena_hype = hype`, as the saved JSON shows it. On an
   * array the writes land on named properties, which `JSON.stringify`
   * drops; writing to any other value throws.
   */
  function WithHype(p: Value, hype: Value): (r: Option<Value>)
    ensures r.Some? ==> p.Arr? || p.Obj?
  {
    match p
    case Arr(_) => Some(p)
    case Obj(m) =>
      var stats := if "stats" in m && Truthy(m["stats"]) then m["stats"] else Obj(map[]);
      (match stats
       case Arr(_) => Some(p)
       case Obj(sm) =>
         var attributes := if "attributes" in sm && Truthy(sm["attributes"]) then sm["attributes"] else Obj(map[]);
         (match attributes
          case Arr(_) => Some(p)
          case Obj(am) => Some(Obj(m["stats" := Obj(sm["attributes" := Obj(am["arena_hype" := hype])])]))
          case _ => None)
       case _ => None)
    case _ => None
  }

  /** On a falsy or object `stats.attributes` the Hype lands there, and nothing else changes. */
  lemma WithHypeWrites(p: Value, hype: Value)
    requires p.Obj?
    requires var s := Chain(p, "stats"); !Truthy(s) || s.Obj?
    requires var s := Chain(p, "stats"); s.Obj? ==> var a := Chain(s, "attributes"); !Truthy(a) || a.Obj?
    ensures WithHype(p, hype).Some?
    ensures var q := WithHype(p, hype).value;
      GetPath(q, [Str("stats"), Str("attributes"), Str("arena_hype")]) == Some(hype)
      && q.Obj? && q.fields.Keys == p.fields.Keys + {"stats"}
      && (forall k :: k in p.fields && k != "stats" ==> q.fields[k] == p.fields[k])
  {
    var q := WithHype(p, hype).value;
    var stats := q.fields["stats"];
    assert Get(q, Str("stats")) == Some(stats);
    var attributes := stats.fields["attributes"];
    assert Get(stats, Str("attributes")) == Some(attributes);
    assert Get(attributes, Str("arena_hype")) == Some(hype);
    assert [Str("stats"), Str("attributes"), Str("arena_hype")][1..] == [Str("attributes"), Str("arena_hype")];
    assert [Str("attributes"), Str("arena_hype")][1..] == [Str("arena_hype")];
    assert [Str("arena_hype")][1..] == [];
  }

  /** `POST /api/v1/events/Fortnite/:eventId/:eventWindowId/:accountId` with request body `body`. */
  function ReportScore(accountId: string, body: Option<Value>, config: Option<Value>,
                       profileFile: Option<Value>, templateFile: Option<Value>): (r: ScoreResult)
    ensures r.success <==> r.status == 200
    ensures r.written.Some? ==> r.success
  {
    if body.None? || config.None? then ScoreResult(500, false, None)
    else if !(SavesArenaPoints(config.value) && Truthy(body.value) && TypeofObject(Field(body.value, "finalScores").value)) then
      ScoreResult(200, true, None)
    else
      var scores := Field(body.value, "finalScores").value;
      if scores.Null? then ScoreResult(500, false, None)
      else
        var hype := Field(scores, "Hype").value;
        if hype.Undefined? then ScoreResult(200, true, None)
        else
          match LoadedProfile(accountId, profileFile, templateFile)
          case None => ScoreResult(200, true, None)
          case Some(p) => ScoreResult(200, true, WithHype(p, hype))
  }

  /**
   * The report answers `{success: false}` with status 500 exactly when the
   * body or the config cannot be read, or when saving is on and the body's
   * `finalScores` is null (reading its `Hype` throws).
   */
  lemma ReportFails(accountId: string, body: Option<Value>, config: Option<Value>,
                    profileFile: Option<Value>, templateFile: Option<Value>)
    ensures !ReportScore(accountId, body, config, profileFile, templateFile).success <==>
      body.None? || config.None?
      || (SavesArenaPoints(config.value) && Truthy(body.value) && Field(body.value, "finalScores").value.Null?)
  {
  }

  /**
   * A profile is written only when saving is on, the body is truthy, its
   * `finalScores` is an object or array and that has a defined `Hype`.
   */
  lemma WrittenOnlyWhenReported(accountId: string, body: Value, setting: Value,
                                profileFile: Option<Value>, templateFile: Option<Value>)
    ensures ReportScore(accountId, Some(body), Some(setting), profileFile, templateFile).written.Some? ==>
      SavesArenaPoints(setting) && Truthy(body)
      && (Field(body, "finalScores").value.Arr? || Field(body, "finalScores").value.Obj?)
      && !Field(Field(body, "finalScores").value, "Hype").value.Undefined?
  {
  }

  /** A reported Hype is handed to the profile write, and the request succeeds whether or not the write does. */
  lemma ReportStoresHype(accountId: string, body: Value, setting: Value,
                         profileFile: Option<Value>, templateFile: Option<Value>)
    requires SavesArenaPoints(setting) && body.Obj? && "finalScores" in body.fields
    requires var s := body.fields["finalScores"]; s.Obj? && "Hype" in s.fields && !s.fields["Hype"].Undefined?
    requires LoadedProfile(accountId, profileFile, templateFile).Some?
    ensures ReportScore(accountId, Some(body), Some(setting), profileFile, templateFile)
      == ScoreResult(200, true, WithHype(LoadedProfile(accountId, profileFile, templateFile).value,
                                         body.fields["finalScores"].fields["Hype"]))
  {
  }
}
