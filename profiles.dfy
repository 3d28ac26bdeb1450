/**
 * Profile documents, the change records an operation reports, and the
 * response envelope of the profile endpoints (src/routes/mcp.ts).
 *
 * A stored profile is a JSON document with the revision counters `rvn` and
 * `commandRevision`, an `items` object (item id to item), and
 * `stats.attributes` (attribute name to value); any other top-level or
 * `stats` fields are carried along untouched. A missing part, or one holding
 * a falsy JSON value, is `None`.
 */
module Profiles {
  import opened Wrappers
  import opened Json

  /** The `stats` object of a stored profile. */
  datatype Stats = Stats(attributes: Option<map<string, Value>>, rest: map<string, Value>)

  /** A profile as stored on disk, in a template file or in the cache. */
  datatype Profile = Profile(
    rvn: Option<int>,
    commandRevision: Option<int>,
    items: Option<map<string, Value>>,
    stats: Option<Stats>,
    rest: map<string, Value>)

  /** The working copy of a profile once the defaults are filled in: every part is present. */
  datatype Doc = Doc(
    rvn: int,
    commandRevision: int,
    items: map<string, Value>,
    attributes: map<string, Value>,
    statsRest: map<string, Value>,
    rest: map<string, Value>)

  /** The profile created when neither a stored profile nor a template exists. */
  const EmptyProfile: Profile :=
    Profile(Some(0), Some(0), Some(map[]), Some(Stats(Some(map[]), map[])), map[])

  /** The defaults of mcp.ts: missing counters are 0, missing `items`, `stats` and `stats.attributes` are empty. */
  function Normalize(p: Profile): (d: Doc)
    ensures d.rvn == p.rvn.GetOr(0) && d.commandRevision == p.commandRevision.GetOr(0)
    ensures d.items == p.items.GetOr(map[])
    ensures p.stats.None? ==> d.attributes == map[] && d.statsRest == map[]
    ensures p.stats.Some? ==> d.attributes == p.stats.value.attributes.GetOr(map[]) && d.statsRest == p.stats.value.rest
    ensures d.rest == p.rest
  {
    var s := p.stats.GetOr(Stats(None, map[]));
    Doc(p.rvn.GetOr(0), p.commandRevision.GetOr(0), p.items.GetOr(map[]), s.attributes.GetOr(map[]), s.rest, p.rest)
  }

  /** The working copy as a stored document again. */
  function ToProfile(d: Doc): Profile {
    Profile(Some(d.rvn), Some(d.commandRevision), Some(d.items), Some(Stats(Some(d.attributes), d.statsRest)), d.rest)
  }

  /** Storing a working copy and filling in its defaults gives it back. */
  lemma NormalizeToProfile(d: Doc)
    ensures Normalize(ToProfile(d)) == d
  {
  }

  /** A stored profile with every part present is unchanged by the defaults. */
  lemma ToProfileNormalize(p: Profile)
    requires p.rvn.Some? && p.commandRevision.Some? && p.items.Some?
    requires p.stats.Some? && p.stats.value.attributes.Some?
    ensures ToProfile(Normalize(p)) == p
  {
  }

  /** Filling in the defaults twice is the same as once. */
  lemma NormalizeIdempotent(p: Profile)
    ensures Normalize(ToProfile(Normalize(p))) == Normalize(p)
  {
    NormalizeToProfile(Normalize(p));
  }

  /** The empty profile is already normal. */
  lemma EmptyProfileNormal()
    ensures Normalize(EmptyProfile) == Doc(0, 0, map[], map[], map[], map[])
    ensures ToProfile(Normalize(EmptyProfile)) == EmptyProfile
  {
  }

  function CloneStats(s: Stats): Stats {
    Stats(match s.attributes case Some(a) => Some(CloneFields(a)) case None => None, CloneFields(s.rest))
  }

  /** `JSON.parse(JSON.stringify(profile))` on a stored profile. */
  function CloneProfile(p: Profile): Profile {
    Profile(p.rvn, p.commandRevision,
      match p.items case Some(m) => Some(CloneFields(m)) case None => None,
      match p.stats case Some(s) => Some(CloneStats(s)) case None => None,
      CloneFields(p.rest))
  }

  predicate FieldsAreJson(m: map<string, Value>) {
    forall k :: k in m ==> IsJson(m[k])
  }

  /** A profile that `JSON.stringify` reproduces exactly. */
  predicate ProfileIsJson(p: Profile) {
    (p.items.Some? ==> FieldsAreJson(p.items.value))
    && (p.stats.Some? ==> (p.stats.value.attributes.Some? ==> FieldsAreJson(p.stats.value.attributes.value))
                          && FieldsAreJson(p.stats.value.rest))
    && FieldsAreJson(p.rest)
  }

  /** A clone is JSON, and a clone of JSON is the same profile, so cloning twice is cloning once. */
  lemma CloneProfileFacts(p: Profile)
    ensures ProfileIsJson(CloneProfile(p))
    ensures ProfileIsJson(p) ==> CloneProfile(p) == p
    ensures CloneProfile(CloneProfile(p)) == CloneProfile(p)
  {
    var c := CloneProfile(p);
    if ProfileIsJson(p) {
      if p.items.Some? { CloneFieldsOfJson(p.items.value); }
      if p.stats.Some? {
        if p.stats.value.attributes.Some? { CloneFieldsOfJson(p.stats.value.attributes.value); }
        CloneFieldsOfJson(p.stats.value.rest);
      }
      CloneFieldsOfJson(p.rest);
    }
    if c.items.Some? { CloneFieldsOfJson(c.items.value); }
    if c.stats.Some? {
      if c.stats.value.attributes.Some? { CloneFieldsOfJson(c.stats.value.attributes.value); }
      CloneFieldsOfJson(c.stats.value.rest);
    }
    CloneFieldsOfJson(c.rest);
  }

  // ---------------------------------------------------------------------
  // change records and responses

  /** One entry of `profileChanges`. */
  datatype Change =
    | StatModified(name: string, value: Value)
    | ItemAdded(addedId: string, item: Value)
    | ItemAttrChanged(itemId: Value, attributeName: string, attributeValue: Value)
    | FullProfileUpdate(profile: Profile)

  /** The JSON body of a successful profile request. `multiUpdate` is absent from the public query. */
  datatype Envelope = Envelope(
    profileRevision: int,
    profileId: string,
    profileChangesBaseRevision: int,
    profileChanges: seq<Change>,
    profileCommandRevision: int,
    serverTime: string,
    multiUpdate: Option<seq<Value>>,
    responseVersion: int)

  /** What a profile endpoint answers: 404 without a profile id, 500 when the handler throws. */
  datatype Response = NotFound | ServerError | Found(envelope: Envelope)
}
