/**
 * The profile operation engine of src/routes/mcp.ts as functions on the
 * request's working copy: one function per operation, the dispatch on the
 * operation name, the load step with its cache, and the whole POST request.
 *
 * Every function returns `None` where the JavaScript handler throws (a
 * TypeError on a property of null or undefined, a write to a primitive, a
 * missing method); the request then answers 500.
 */
module McpOps {
  import opened Wrappers
  import opened Text
  import opened Numbers
  import opened Json
  import opened Profiles

  /** What an operation handler leaves behind: the new working copy and the changes it recorded. */
  datatype Outcome = Outcome(doc: Doc, changes: seq<Change>)

  /** `profile.stats.attributes[name]`. */
  function Attr(d: Doc, name: string): Value {
    if name in d.attributes then d.attributes[name] else Undefined
  }

  /** `v[name]` on a value known to be neither null nor undefined. */
  function Prop(v: Value, name: string): Value
    requires !Nullish(v)
  {
    Field(v, name).value
  }

  /** `profile.items[id]`. */
  function ItemAt(items: map<string, Value>, id: string): Value {
    if id in items then items[id] else Undefined
  }

  /** `profile.rvn += 1; profile.commandRevision += 1`. */
  function Bump(d: Doc): Doc {
    d.(rvn := d.rvn + 1, commandRevision := d.commandRevision + 1)
  }

  // ---------------------------------------------------------------------
  // the templateId index (mcp.ts:79-86)

  /** `item?.templateId`. */
  function TemplateIdOf(item: Value): Value {
    if item.Obj? && "templateId" in item.fields then item.fields["templateId"] else Undefined
  }

  /** A truthy templateId that is not a string: `toLowerCase` is not a function. */
  predicate BadTemplate(item: Value) {
    Truthy(TemplateIdOf(item)) && !TemplateIdOf(item).Str?
  }

  /** The item carries a non-empty string templateId. */
  predicate IsIndexed(item: Value) {
    TemplateIdOf(item).Str? && TemplateIdOf(item).s != ""
  }

  /** The key the item is indexed under. */
  function TemplateKey(item: Value): string
    requires IsIndexed(item)
  {
    Lower(TemplateIdOf(item).s)
  }

  /** The item is indexed under the lower-cased key `t`. */
  predicate IndexedAs(item: Value, t: string) {
    var tid := TemplateIdOf(item);
    tid.Str? && tid.s != "" && Lower(tid.s) == t
  }

  /**
   * `index` is what the loop builds: its keys are exactly the lower-cased
   * templateIds of the items, and each key maps to an item carrying it. Which
   * of several such items wins depends on the key order of `items`.
   */
  predicate IsTemplateIndex(items: map<string, Value>, index: map<string, string>) {
    (forall id :: id in items && IsIndexed(items[id]) ==> TemplateKey(items[id]) in index)
    && (forall t :: t in index ==> index[t] in items && IndexedAs(items[index[t]], t))
  }

  /** `templateIdIndex.get(itemToSlot.toLowerCase()) || ""`. */
  function FavoriteId(index: map<string, string>, s: string): string {
    if Lower(s) in index then index[Lower(s)] else ""
  }

  // ---------------------------------------------------------------------
  // stat-only operations

  /** SetAffiliateName (mcp.ts:107-125). */
  function SetAffiliateName(d: Doc, body: Value, now: string): Option<Outcome> {
    var name :- Field(body, "affiliateName");
    var attrs := d.attributes["mtx_affiliate_set_time" := Str(now)]["mtx_affiliate" := name];
    Some(Outcome(Bump(d.(attributes := attrs)),
      [StatModified("mtx_affiliate_set_time", Str(now)), StatModified("mtx_affiliate", name)]))
  }

  /** SetCosmeticLockerBanner and SetBattleRoyaleBanner (mcp.ts:126-161). */
  function SetBanner(d: Doc, body: Value): Option<Outcome> {
    if Nullish(body) then None
    else
    var icon := Prop(body, "homebaseBannerIconId");
    var color := Prop(body, "homebaseBannerColorId");
    var attrs := d.attributes["banner_icon" := icon]["banner_color" := color];
    Some(Outcome(Bump(d.(attributes := attrs)),
      [StatModified("banner_icon", icon), StatModified("banner_color", color)]))
  }

  // ---------------------------------------------------------------------
  // EquipBattleRoyaleCustomization (mcp.ts:162-303)

  /** The slots with a single favourite, and the attribute each one sets. */
  const SimpleSlots: map<string, string> := map[
    "Character" := "favorite_character",
    "Backpack" := "favorite_backpack",
    "Pickaxe" := "favorite_pickaxe",
    "Glider" := "favorite_glider",
    "SkyDiveContrail" := "favorite_skydivecontrail",
    "MusicPack" := "favorite_musicpack",
    "LoadingScreen" := "favorite_loadingscreen"]

  /** `if (arr[i] == null) arr[i] = ""`. */
  function FillHole(v: Value): Value {
    if Nullish(v) then Str("") else v
  }

  /** The elements after the hole-filling loop. */
  function Filled(es: seq<Value>): (r: seq<Value>)
    ensures |r| == |es|
    ensures forall i :: 0 <= i < |r| ==> !Nullish(r[i])
    ensures forall i :: 0 <= i < |es| && !Nullish(es[i]) ==> r[i] == es[i]
  {
    seq(|es|, i requires 0 <= i < |es| => FillHole(es[i]))
  }

  /** The hole-filling loop applied to what `arr` holds; a non-array has no `length` to loop over. */
  function FillHolesIn(v: Value): Value {
    if v.Arr? then Arr(Filled(v.elems)) else v
  }

  /** The number of Dance or ItemWrap slots that index -1 fills. */
  function SlotCount(dance: bool): nat {
    if dance then 6 else 7
  }

  /** The new favourite list for Dance or ItemWrap, before holes are filled. */
  function SlotList(current: Value, indexWithinSlot: Value, item: Value, dance: bool): Option<Value> {
    if indexWithinSlot == Num(-1) then Some(Arr(seq(SlotCount(dance), _ => item)))
    else Put(Or(current, Arr([])), Or(indexWithinSlot, Num(0)), item)
  }

  /** The `slotName` switch of Equip: which favourite attribute changes, and how. */
  function EquipSlot(d: Doc, body: Value): Option<Outcome> {
    if Nullish(body) then None
    else
    var item := Prop(body, "itemToSlot");
    var slot := Prop(body, "slotName");
    if slot.Str? && slot.s in SimpleSlots then
      var stat := SimpleSlots[slot.s];
      Some(Outcome(d.(attributes := d.attributes[stat := item]), [StatModified(stat, item)]))
    else if slot == Str("Dance") || slot == Str("ItemWrap") then
      var dance := slot == Str("Dance");
      var stat := if dance then "favorite_dance" else "favorite_itemwraps";
      var index := Prop(body, "indexWithinSlot");
      var list :- SlotList(Attr(d, stat), index, item, dance);
      var filled := FillHolesIn(list);
      Some(Outcome(d.(attributes := d.attributes[stat := filled]), [StatModified(stat, filled)]))
    else
      Some(Outcome(d, []))
  }

  // ---------------------------------------------------------------------
  // variant upsert (mcp.ts:266-300 and 314-351)

  /** How the loop treats one entry of `variantUpdates`. */
  datatype Entry = Skip | Fail | Upsert(channel: Value, active: Value, owned: Value)

  /**
   * Entries that are not objects, or lack a truthy `channel` or `active`, are
   * skipped; `null` passes the `typeof` test and then throws on `.channel`.
   */
  function Classify(e: Value): Entry {
    if !TypeofObject(e) then Skip
    else if e.Null? then Fail
    else
      var ch := Field(e, "channel").value;
      var active := Field(e, "active").value;
      if !Truthy(ch) || !Truthy(active) then Skip
      else Upsert(ch, active, Or(Field(e, "owned").value, Arr([])))
  }

  /** `x.channel` for an element that is not null or undefined. */
  function ChannelOf(x: Value): Value {
    if Nullish(x) then Undefined else Field(x, "channel").value
  }

  /** The result of `variants.findIndex(x => x.channel == channel)`, or the TypeError it meets first. */
  datatype Search = Located(index: nat) | Absent | Crashed

  function FindChannel(es: seq<Value>, ch: Value, from: nat): (r: Search)
    requires from <= |es|
    ensures r.Located? ==> from <= r.index < |es| && !Nullish(es[r.index]) && LooseEq(ChannelOf(es[r.index]), ch)
    ensures r.Located? || r.Absent? ==>
      forall j :: from <= j < (if r.Located? then r.index else |es|) ==> !Nullish(es[j]) && !LooseEq(ChannelOf(es[j]), ch)
    ensures r.Crashed? ==> exists j :: from <= j < |es| && Nullish(es[j])
    decreases |es| - from
  {
    if from == |es| then Absent
    else if Nullish(es[from]) then Crashed
    else if LooseEq(ChannelOf(es[from]), ch) then Located(from)
    else FindChannel(es, ch, from + 1)
  }

  /** The entry pushed for a channel not yet present. */
  function NewVariant(ch: Value, active: Value, owned: Value): Value {
    Obj(map["channel" := ch, "active" := active, "owned" := owned])
  }

  /** One upsert into the `variants` array. */
  function UpsertOne(es: seq<Value>, ch: Value, active: Value, owned: Value): Option<seq<Value>> {
    match FindChannel(es, ch, 0)
    case Crashed => None
    case Absent => Some(es + [NewVariant(ch, active, owned)])
    case Located(i) =>
      var e :- Put(es[i], Str("active"), active);
      Some(es[i := e])
  }

  /**
   * One iteration of the loop over `variantUpdates`. With `create` (the locker
   * operation), a falsy `variants` is first replaced by `[]`.
   */
  function UpsertStep(v: Value, e: Value, create: bool): Option<Value> {
    match Classify(e)
    case Skip => Some(v)
    case Fail => None
    case Upsert(ch, active, owned) =>
      var arr := if create && !Truthy(v) then Arr([]) else v;
      if !arr.Arr? then None
      else
        var es :- UpsertOne(arr.elems, ch, active, owned);
        Some(Arr(es))
  }

  /** The loop over `variantUpdates` from entry `i` on. */
  function UpsertFrom(v: Value, entries: seq<Value>, i: nat, create: bool): Option<Value>
    requires i <= |entries|
    decreases |entries| - i
  {
    if i == |entries| then Some(v)
    else
      var v' :- UpsertStep(v, entries[i], create);
      UpsertFrom(v', entries, i + 1, create)
  }

  /** What `profile.items[id] = { attributes: { variants: [] } }` stores. */
  const FreshVariantsItem: Value := Obj(map["attributes" := Obj(map["variants" := Arr([])])])

  function VariantsPath(key: string): seq<Value> {
    [Str(key), Str("attributes"), Str("variants")]
  }

  /**
   * The variant part of both locker operations: make sure the item exists,
   * run the loop, and read back `profile.items[key].attributes.variants` for
   * the change record. The new items and that value.
   */
  function VariantsUpdate(items: map<string, Value>, key: string, entries: seq<Value>, create: bool)
    : Option<(map<string, Value>, Value)>
  {
    var items1 := if Truthy(ItemAt(items, key)) then items else items[key := FreshVariantsItem];
    var root := Obj(items1);
    var path := VariantsPath(key);
    var cur :- GetPath(root, path);
    if forall i :: 0 <= i < |entries| ==> Classify(entries[i]).Skip? then
      Some((items1, cur))
    else
      var upd :- UpsertFrom(cur, entries, 0, create);
      var root' :- PutPath(root, path, upd);
      var v :- GetPath(root', path);
      Some((root'.fields, v))
  }

  /** The `variantUpdates` part of Equip. */
  function EquipVariants(d: Doc, body: Value): Option<Outcome> {
    if Nullish(body) then None
    else
    var vs := Prop(body, "variantUpdates");
    var id := Prop(body, "itemToSlot");
    if !vs.Arr? then Some(Outcome(d, []))
    else
      var r :- VariantsUpdate(d.items, ToText(id), vs.elems, false);
      Some(Outcome(d.(items := r.0), [ItemAttrChanged(id, "variants", r.1)]))
  }

  /** EquipBattleRoyaleCustomization: the slot, then the variants, then the bump, whatever the slot name. */
  function Equip(d: Doc, body: Value): Option<Outcome> {
    var o1 :- EquipSlot(d, body);
    var o2 :- EquipVariants(o1.doc, body);
    Some(Outcome(Bump(o2.doc), o1.changes + o2.changes))
  }

  // ---------------------------------------------------------------------
  // SetCosmeticLockerSlot (mcp.ts:304-462)

  /** `profile.items[lockerItem].attributes.locker_slots_data.slots[cat].items`. */
  function SlotItemsPath(locker: Value, cat: string): seq<Value> {
    [locker, Str("attributes"), Str("locker_slots_data"), Str("slots"), Str(cat), Str("items")]
  }

  /** `profile.items[lockerItem].attributes.locker_slots_data`. */
  function LockerDataPath(locker: Value): seq<Value> {
    [locker, Str("attributes"), Str("locker_slots_data")]
  }

  /** Set position `k` of a list slot and of its favourite attribute (created as `[]` when falsy). */
  function LockerIndexed(items: map<string, Value>, attrs: map<string, Value>, locker: Value,
                         cat: string, stat: string, k: Value, s: string, fav: Value)
    : Option<(map<string, Value>, map<string, Value>)>
  {
    var root :- PutPath(Obj(items), SlotItemsPath(locker, cat) + [k], Str(s));
    var cur := if stat in attrs then attrs[stat] else Undefined;
    var favs := if Truthy(cur) then cur else Arr([]);
    var favs' :- Put(favs, k, fav);
    Some((root.fields, attrs[stat := favs']))
  }

  /** The ItemWrap loop over the seven wrap slots from `i` on (its branch is never reached). */
  function LockerWrapAll(items: map<string, Value>, attrs: map<string, Value>, locker: Value,
                         s: string, fav: Value, i: nat)
    : Option<(map<string, Value>, map<string, Value>)>
    decreases 7 - i
  {
    if i >= 7 then Some((items, attrs))
    else
      var r :- LockerIndexed(items, attrs, locker, "ItemWrap", "favorite_itemwraps", Num(i), s, fav);
      LockerWrapAll(r.0, r.1, locker, s, fav, i + 1)
  }

  /** The `category` switch of the locker operation: new items and attributes. */
  function LockerCategory(items: map<string, Value>, attrs: map<string, Value>, cat: Value,
                          locker: Value, s: string, fav: Value, slotIndex: Value)
    : Option<(map<string, Value>, map<string, Value>)>
  {
    if cat.Str? && cat.s in SimpleSlots then
      var root :- PutPath(Obj(items), SlotItemsPath(locker, cat.s), Arr([Str(s)]));
      Some((root.fields, attrs[SimpleSlots[cat.s] := fav]))
    else if cat == Str("Dance") then
      var k := Or(slotIndex, Num(0));
      if AtLeast(k, 0) && AtMost(k, 5) then
        LockerIndexed(items, attrs, locker, "Dance", "favorite_dance", k, s, fav)
      else Some((items, attrs))
    else if cat == Str("ItemWrap") then
      var k := Or(slotIndex, Num(0));
      if AtLeast(k, 0) then
        if AtMost(k, 7) then
          LockerIndexed(items, attrs, locker, "ItemWrap", "favorite_itemwraps", k, s, fav)
        else if LooseEq(k, Num(-1)) then
          LockerWrapAll(items, attrs, locker, s, fav, 0)
        else Some((items, attrs))
      else Some((items, attrs))
    else Some((items, attrs))
  }

  /** The guard of the locker operation: category, lockerItem and itemToSlot all truthy. */
  predicate LockerGuard(body: Value) {
    !Nullish(body)
    && Truthy(Field(body, "category").value)
    && Truthy(Field(body, "lockerItem").value)
    && Truthy(Field(body, "itemToSlot").value)
  }

  /** The variant part of the locker operation, run only for an item found through the index. */
  function LockerVariants(items: map<string, Value>, vs: Value, found: string)
    : Option<(map<string, Value>, seq<Change>)>
  {
    if vs.Arr? && found != "" then
      var r :- VariantsUpdate(items, found, vs.elems, true);
      Some((r.0, [ItemAttrChanged(Str(found), "variants", r.1)]))
    else Some((items, []))
  }

  /** SetCosmeticLockerSlot. */
  function LockerSlot(d: Doc, body: Value, index: map<string, string>): Option<Outcome> {
    if Nullish(body) then None
    else
    var cat := Prop(body, "category");
    var locker := Prop(body, "lockerItem");
    var item := Prop(body, "itemToSlot");
    if !(Truthy(cat) && Truthy(locker) && Truthy(item)) then Some(Outcome(d, []))
    else if !item.Str? then None
    else
      var s := item.s;
      var found := FavoriteId(index, s);
      var vs := Prop(body, "variantUpdates");
      var r1 :- LockerVariants(d.items, vs, found);
      var fav := Str(if found != "" then found else s);
      var slotIndex := Prop(body, "slotIndex");
      var r2 :- LockerCategory(r1.0, d.attributes, cat, locker, s, fav, slotIndex);
      var data :- GetPath(Obj(r2.0), LockerDataPath(locker));
      Some(Outcome(Bump(d.(items := r2.0, attributes := r2.1)),
        r1.1 + [ItemAttrChanged(locker, "locker_slots_data", data)]))
  }

  // ---------------------------------------------------------------------
  // PutModularCosmeticLoadout (mcp.ts:465-519)

  /** The item a new loadout gets. */
  function LoadoutItem(loadoutType: Value): Value {
    Obj(map["templateId" := loadoutType, "attributes" := Obj(map[]), "quantity" := Num(1)])
  }

  /** Make sure `loadout_presets` exists, recording a change when it is created. */
  function EnsurePresets(attrs: map<string, Value>): (map<string, Value>, seq<Change>) {
    if "loadout_presets" in attrs then (attrs, [])
    else (attrs["loadout_presets" := Obj(map[])], [StatModified("loadout_presets", Obj(map[]))])
  }

  /**
   * `profile.items[loadoutId].attributes = JSON.parse(loadoutData)` when that
   * item exists, with its `slots` recorded; a missing item is left alone. No
   * item is added or removed.
   */
  function WriteLoadoutData(items: map<string, Value>, loadoutId: Value, parsed: Option<Value>): (r: Option<(map<string, Value>, seq<Change>)>)
    ensures r.Some? ==> r.value.0.Keys == items.Keys
    ensures !Truthy(ItemAt(items, ToText(loadoutId))) ==> r == Some((items, []))
  {
    var lid := ToText(loadoutId);
    if Truthy(ItemAt(items, lid)) then
      var data :- parsed;
      var item' :- Put(items[lid], Str("attributes"), data);
      var attrsValue := if Nullish(item') then Undefined else Prop(item', "attributes");
      var slots :- Field(attrsValue, "slots");
      Some((items[lid := item'], [ItemAttrChanged(loadoutId, "slots", slots)]))
    else Some((items, []))
  }

  /**
   * PutModularCosmeticLoadout. `freshId` stands for the `uuidv4()` result and
   * `parsed` for `JSON.parse(loadoutData)` (`None` when that throws). The
   * `itemAdded` record holds the item object itself, so it shows the item as
   * it is when the response is sent.
   */
  function PutModular(d: Doc, body: Value, freshId: string, parsed: Option<Value>): Option<Outcome> {
    if Nullish(body) then None
    else
    var loadoutType := Prop(body, "loadoutType");
    var presetId := Prop(body, "presetId");
    var (attrs1, ch1) := EnsurePresets(d.attributes);
    var presets := attrs1["loadout_presets"];
    var has :- HasOwn(presets, loadoutType);
    var items2 := if has then d.items else d.items[freshId := LoadoutItem(loadoutType)];
    var presets2 :- if has then Some(presets)
                    else Put(presets, loadoutType, Obj(map[ToText(presetId) := Str(freshId)]));
    var attrs2 := attrs1["loadout_presets" := presets2];
    var entry := if Nullish(presets2) then Undefined else Get(presets2, loadoutType).value;
    var loadoutId :- Get(entry, presetId);
    var r :- WriteLoadoutData(items2, loadoutId, parsed);
    var items3 := r.0;
    var added := if has then [] else [ItemAdded(freshId, items3[freshId]), StatModified("loadout_presets", presets2)];
    Some(Outcome(d.(items := items3, attributes := attrs2), ch1 + added + r.1))
  }

  // ---------------------------------------------------------------------
  // dispatch and the request

  /** The operation names that take the bump rule, and the locker operation when its guard holds. */
  predicate Bumps(operation: string, body: Value) {
    operation in {"SetAffiliateName", "SetCosmeticLockerBanner", "SetBattleRoyaleBanner", "EquipBattleRoyaleCustomization"}
    || (operation == "SetCosmeticLockerSlot" && LockerGuard(body))
  }

  /** The `switch` on the operation name (mcp.ts:90-522); every other name changes nothing. */
  function Dispatch(operation: string, d: Doc, body: Value, index: map<string, string>,
                    now: string, freshId: string, parsed: Option<Value>): Option<Outcome>
  {
    match operation
    case "SetAffiliateName" => SetAffiliateName(d, body, now)
    case "SetCosmeticLockerBanner" => SetBanner(d, body)
    case "SetBattleRoyaleBanner" => SetBanner(d, body)
    case "EquipBattleRoyaleCustomization" => Equip(d, body)
    case "SetCosmeticLockerSlot" => LockerSlot(d, body, index)
    case "PutModularCosmeticLoadout" => PutModular(d, body, freshId, parsed)
    case _ => Some(Outcome(d, []))
  }

  /**
   * One POST request. `body` is the parsed request body (`None` when it is not
   * JSON), `now` the server time, `freshId` the id `uuidv4()` would return and
   * `parsedLoadout` the result of parsing `loadoutData`.
   */
  datatype Request = Request(
    accountId: string,
    profileId: string,
    operation: string,
    body: Option<Value>,
    now: string,
    freshId: string,
    parsedLoadout: Option<Value>)

  /** The stored profile and the account's template, as read from disk (`None` when missing or unreadable). */
  datatype Files = Files(stored: Option<Profile>, template: Option<Profile>)

  /** `${accountId}_${profileId}`. */
  function CacheKey(accountId: string, profileId: string): string {
    accountId + "_" + profileId
  }

  /**
   * The load step (mcp.ts:39-72): a cached profile is cloned; otherwise the
   * stored profile, else the template, else the empty profile, is cached as
   * read and the request works on a clone. The working profile and the cache.
   */
  function LoadStep(cache: map<string, Profile>, key: string, files: Files): (Profile, map<string, Profile>) {
    if key in cache then (CloneProfile(cache[key]), cache)
    else
      var p := if files.stored.Some? then files.stored.value else files.template.GetOr(EmptyProfile);
      (CloneProfile(p), cache[key := p])
  }

  /** Some item's templateId makes the index loop throw. */
  predicate AnyBadTemplate(items: map<string, Value>) {
    exists id :: id in items && BadTemplate(items[id])
  }

  /** The change list sent: a single full profile for QueryProfile or when nothing was recorded (mcp.ts:524-530). */
  function ChangesSent(operation: string, o: Outcome): seq<Change> {
    if operation == "QueryProfile" || |o.changes| == 0 then [FullProfileUpdate(ToProfile(o.doc))] else o.changes
  }

  /** The response and the new cache for one POST request, given the index the loop built. */
  function Serve(cache: map<string, Profile>, req: Request, files: Files, index: map<string, string>)
    : (Response, map<string, Profile>)
  {
    if req.body.None? then (ServerError, cache)
    else if req.profileId == "" then (NotFound, cache)
    else
      var key := CacheKey(req.accountId, req.profileId);
      var (p, cache1) := LoadStep(cache, key, files);
      var d := Normalize(p);
      if AnyBadTemplate(d.items) then (ServerError, cache1)
      else
        match Dispatch(req.operation, d, req.body.value, index, req.now, req.freshId, req.parsedLoadout)
        case None => (ServerError, cache1)
        case Some(o) =>
          var env := Envelope(o.doc.rvn, req.profileId, d.rvn, ChangesSent(req.operation, o),
                              o.doc.commandRevision, req.now, Some([]), 1);
          (Found(env), cache1[key := CloneProfile(ToProfile(o.doc))])
  }

  /** The working copy a request operates on: the loaded profile with its defaults. */
  function LoadedDoc(cache: map<string, Profile>, req: Request, files: Files): Doc {
    Normalize(LoadStep(cache, CacheKey(req.accountId, req.profileId), files).0)
  }

  /**
   * The public QueryProfile (POST and GET, mcp.ts:555-654): the cached profile
   * as it is, else the stored one (which is then cached), else the template
   * or the empty profile (not cached).
   */
  function QueryPublic(cache: map<string, Profile>, accountId: string, profileId: string, files: Files, now: string)
    : (Response, map<string, Profile>)
  {
    if profileId == "" then (NotFound, cache)
    else
      var key := CacheKey(accountId, profileId);
      var (p, cache') :=
        if key in cache then (cache[key], cache)
        else if files.stored.Some? then (files.stored.value, cache[key := files.stored.value])
        else (files.template.GetOr(EmptyProfile), cache);
      var rvn := p.rvn.GetOr(0);
      (Found(Envelope(rvn, profileId, rvn, [FullProfileUpdate(p)], p.commandRevision.GetOr(0), now, None, 1)), cache')
  }
}
