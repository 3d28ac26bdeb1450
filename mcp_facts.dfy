/**
 * Properties of the profile operations of src/routes/mcp.ts: which
 * operations move the revision counters, what the variant upsert keeps and
 * sets, which locker indices are written, how the favourite is found through
 * the template index, what the loadout operation adds, and what a request
 * answers and caches.
 */
module McpFacts {
  import opened Wrappers
  import opened Text
  import opened Json
  import opened Profiles
  import opened McpOps

  // ---------------------------------------------------------------------
  // revision counters

  /** How much an operation moves each revision counter. */
  function BumpOf(op: string, body: Value): int {
    if Bumps(op, body) then 1 else 0
  }

  /** Both counters move by one exactly for the operations that bump, and otherwise stay. */
  lemma BumpRule(op: string, d: Doc, body: Value, index: map<string, string>, now: string,
                 freshId: string, parsed: Option<Value>)
    requires Dispatch(op, d, body, index, now, freshId, parsed).Some?
    ensures var o := Dispatch(op, d, body, index, now, freshId, parsed).value;
      o.doc.rvn == d.rvn + BumpOf(op, body) && o.doc.commandRevision == d.commandRevision + BumpOf(op, body)
  {
    if op in {"SetAffiliateName", "SetCosmeticLockerBanner", "SetBattleRoyaleBanner", "EquipBattleRoyaleCustomization"} {
      StatOpsBump(op, d, body, index, now, freshId, parsed);
    } else {
      OtherOpsBump(op, d, body, index, now, freshId, parsed);
    }
  }

  lemma StatOpsBump(op: string, d: Doc, body: Value, index: map<string, string>, now: string,
                    freshId: string, parsed: Option<Value>)
    requires op in {"SetAffiliateName", "SetCosmeticLockerBanner", "SetBattleRoyaleBanner", "EquipBattleRoyaleCustomization"}
    requires Dispatch(op, d, body, index, now, freshId, parsed).Some?
    ensures var o := Dispatch(op, d, body, index, now, freshId, parsed).value;
      o.doc.rvn == d.rvn + 1 && o.doc.commandRevision == d.commandRevision + 1
  {
    if op == "EquipBattleRoyaleCustomization" {
      EquipBumps(d, body);
    }
  }

  lemma OtherOpsBump(op: string, d: Doc, body: Value, index: map<string, string>, now: string,
                     freshId: string, parsed: Option<Value>)
    requires op !in {"SetAffiliateName", "SetCosmeticLockerBanner", "SetBattleRoyaleBanner", "EquipBattleRoyaleCustomization"}
    requires Dispatch(op, d, body, index, now, freshId, parsed).Some?
    ensures var o := Dispatch(op, d, body, index, now, freshId, parsed).value;
      var b := if op == "SetCosmeticLockerSlot" && LockerGuard(body) then 1 else 0;
      o.doc.rvn == d.rvn + b && o.doc.commandRevision == d.commandRevision + b
  {
    if op == "SetCosmeticLockerSlot" {
      LockerBumps(d, body, index);
    } else if op == "PutModularCosmeticLoadout" {
      PutModularKeepsCounters(d, body, freshId, parsed);
    }
  }

  /** Equip bumps both counters once, whatever the slot. */
  lemma EquipBumps(d: Doc, body: Value)
    requires Equip(d, body).Some?
    ensures Equip(d, body).value.doc.rvn == d.rvn + 1
    ensures Equip(d, body).value.doc.commandRevision == d.commandRevision + 1
  {
    var o1 := EquipSlot(d, body).value;
    assert o1.doc.rvn == d.rvn && o1.doc.commandRevision == d.commandRevision;
    var o2 := EquipVariants(o1.doc, body).value;
    assert o2.doc.rvn == d.rvn && o2.doc.commandRevision == d.commandRevision;
  }

  /** The loadout operation never moves the counters. */
  lemma PutModularKeepsCounters(d: Doc, body: Value, freshId: string, parsed: Option<Value>)
    requires PutModular(d, body, freshId, parsed).Some?
    ensures PutModular(d, body, freshId, parsed).value.doc.rvn == d.rvn
    ensures PutModular(d, body, freshId, parsed).value.doc.commandRevision == d.commandRevision
  {
  }

  /** The locker operation bumps when its guard holds and changes nothing at all when it does not. */
  lemma LockerBumps(d: Doc, body: Value, index: map<string, string>)
    requires LockerSlot(d, body, index).Some?
    ensures var o := LockerSlot(d, body, index).value;
      (LockerGuard(body) ==> o.doc == Bump(o.doc.(rvn := d.rvn, commandRevision := d.commandRevision)))
      && (!LockerGuard(body) ==> o == Outcome(d, []))
  {
  }

  // ---------------------------------------------------------------------
  // variant upsert

  /** No two entries of a variants array have loosely equal channels. */
  predicate DistinctChannels(es: seq<Value>) {
    forall i, j :: 0 <= i < j < |es| ==> !LooseEq(ChannelOf(es[i]), ChannelOf(es[j]))
  }

  /** Writing `active` leaves an object's channel as it was. */
  lemma ActiveKeepsChannel(e: Value, active: Value)
    requires e.Obj?
    ensures Put(e, Str("active"), active).Some?
    ensures ChannelOf(Put(e, Str("active"), active).value) == ChannelOf(e)
  {
    assert ToText(Str("active")) == "active";
    assert ToText(Str("channel")) == "channel";
  }

  /** An element whose channel matches a truthy one is an object. */
  lemma MatchIsObject(e: Value, ch: Value)
    requires !Nullish(e) && !Nullish(ch) && LooseEq(ChannelOf(e), ch)
    ensures e.Obj?
  {
    assert ToText(Str("channel")) == "channel";
  }

  /**
   * One upsert either appends a new entry for a channel no entry matches, or
   * sets `active` on the first matching entry and leaves every other entry alone.
   */
  lemma UpsertOneEffect(es: seq<Value>, ch: Value, active: Value, owned: Value)
    requires !Nullish(ch)
    requires UpsertOne(es, ch, active, owned).Some?
    ensures var r := UpsertOne(es, ch, active, owned).value;
      (r == es + [NewVariant(ch, active, owned)] && forall j :: 0 <= j < |es| ==> !LooseEq(ChannelOf(es[j]), ch))
      || (|r| == |es| && (exists i :: 0 <= i < |es| && es[i].Obj? && LooseEq(ChannelOf(es[i]), ch)
                                  && r[i] == Obj(es[i].fields["active" := active])
                                  && (forall j :: 0 <= j < i ==> !LooseEq(ChannelOf(es[j]), ch))
                                  && (forall j :: 0 <= j < |es| && j != i ==> r[j] == es[j])))
  {
    match FindChannel(es, ch, 0)
    case Absent =>
    case Located(i) =>
      MatchIsObject(es[i], ch);
      assert ToText(Str("active")) == "active";
    case Crashed =>
  }

  /** An upsert keeps the channels of a variants array distinct. */
  lemma UpsertOneDistinct(es: seq<Value>, ch: Value, active: Value, owned: Value)
    requires !Nullish(ch) && DistinctChannels(es)
    requires UpsertOne(es, ch, active, owned).Some?
    ensures DistinctChannels(UpsertOne(es, ch, active, owned).value)
  {
    var r := UpsertOne(es, ch, active, owned).value;
    match FindChannel(es, ch, 0)
    case Absent =>
      assert ToText(Str("channel")) == "channel";
      assert ChannelOf(r[|es|]) == ch;
      forall i, j | 0 <= i < j < |r|
        ensures !LooseEq(ChannelOf(r[i]), ChannelOf(r[j]))
      {
        if j < |es| {
          assert r[i] == es[i] && r[j] == es[j];
        } else {
          assert r[i] == es[i];
        }
      }
    case Located(k) =>
      MatchIsObject(es[k], ch);
      ActiveKeepsChannel(es[k], active);
      forall i, j | 0 <= i < j < |r|
        ensures !LooseEq(ChannelOf(r[i]), ChannelOf(r[j]))
      {
        assert ChannelOf(r[i]) == ChannelOf(es[i]);
        assert ChannelOf(r[j]) == ChannelOf(es[j]);
      }
  }

  /** The whole loop keeps the channels distinct, starting from distinct channels or from nothing. */
  lemma {:induction false} UpsertFromDistinct(v: Value, entries: seq<Value>, i: nat, create: bool)
    requires i <= |entries|
    requires v.Arr? ==> DistinctChannels(v.elems)
    requires UpsertFrom(v, entries, i, create).Some?
    ensures var r := UpsertFrom(v, entries, i, create).value;
      r.Arr? ==> DistinctChannels(r.elems)
    decreases |entries| - i
  {
    if i < |entries| {
      var step := UpsertStep(v, entries[i], create).value;
      match Classify(entries[i]) {
        case Skip =>
        case Fail =>
        case Upsert(ch, active, owned) =>
          var arr := if create && !Truthy(v) then Arr([]) else v;
          UpsertOneDistinct(arr.elems, ch, active, owned);
      }
      UpsertFromDistinct(step, entries, i + 1, create);
    }
  }

  /** The entries that are not skipped. */
  function Kept(entries: seq<Value>): (r: seq<Value>)
    ensures forall k :: 0 <= k < |r| ==> !Classify(r[k]).Skip?
    ensures |r| <= |entries|
  {
    if |entries| == 0 then []
    else if Classify(entries[0]).Skip? then Kept(entries[1..])
    else [entries[0]] + Kept(entries[1..])
  }

  /** The loop read from position `|p| + i` of `p + xs` is the loop read from position `i` of `xs`. */
  lemma {:induction false} UpsertFromShift(v: Value, p: seq<Value>, xs: seq<Value>, i: nat, create: bool)
    requires i <= |xs|
    ensures UpsertFrom(v, p + xs, |p| + i, create) == UpsertFrom(v, xs, i, create)
    decreases |xs| - i
  {
    if i < |xs| {
      assert (p + xs)[|p| + i] == xs[i];
      match UpsertStep(v, xs[i], create)
      case None =>
      case Some(v') => UpsertFromShift(v', p, xs, i + 1, create);
    }
  }

  /** Skipped entries have no effect: the loop over all entries is the loop over the kept ones. */
  lemma {:induction false} SkippedEntriesIgnored(v: Value, entries: seq<Value>, i: nat, create: bool)
    requires i <= |entries|
    ensures UpsertFrom(v, entries, i, create) == UpsertFrom(v, Kept(entries[i..]), 0, create)
    decreases |entries| - i
  {
    if i < |entries| {
      var tail := entries[i..];
      assert tail[0] == entries[i];
      assert tail[1..] == entries[i + 1..];
      if Classify(entries[i]).Skip? {
        SkippedEntriesIgnored(v, entries, i + 1, create);
      } else {
        var kept := [entries[i]] + Kept(entries[i + 1..]);
        assert Kept(tail) == kept;
        match UpsertStep(v, entries[i], create)
        case None =>
        case Some(v') =>
          SkippedEntriesIgnored(v', entries, i + 1, create);
          UpsertFromShift(v', [entries[i]], Kept(entries[i + 1..]), 0, create);
      }
    } else {
      assert entries[i..] == [];
    }
  }

  // ---------------------------------------------------------------------
  // Equip

  /** A simple slot sets exactly its favourite attribute to the item and records it. */
  lemma EquipSimpleSlot(d: Doc, body: Value)
    requires body.Obj? && EquipSlot(d, body).Some?
    requires Field(body, "slotName").value.Str? && Field(body, "slotName").value.s in SimpleSlots
    ensures var o := EquipSlot(d, body).value;
      var stat := SimpleSlots[Field(body, "slotName").value.s];
      o.doc.attributes == d.attributes[stat := Field(body, "itemToSlot").value]
      && o.doc.items == d.items
      && o.changes == [StatModified(stat, Field(body, "itemToSlot").value)]
  {
    assert Field(body, "slotName").value != Str("Dance") && Field(body, "slotName").value != Str("ItemWrap");
  }

  /**
   * Index -1 of Dance or ItemWrap fills every slot (6 dances, 7 wraps) with the
   * item, an empty string standing in for a null or undefined item.
   */
  lemma EquipFillAll(d: Doc, body: Value, dance: bool)
    requires body.Obj?
    requires Field(body, "slotName").value == Str(if dance then "Dance" else "ItemWrap")
    requires Field(body, "indexWithinSlot").value == Num(-1)
    ensures EquipSlot(d, body).Some?
    ensures var stat := if dance then "favorite_dance" else "favorite_itemwraps";
      var o := EquipSlot(d, body).value;
      var list := o.doc.attributes[stat];
      list.Arr? && |list.elems| == SlotCount(dance)
      && (forall i :: 0 <= i < |list.elems| ==> list.elems[i] == FillHole(Field(body, "itemToSlot").value))
  {
  }

  /** Writing index `n` of an array list and filling its holes. */
  lemma SlotListSets(cur: Value, key: Value, item: Value, dance: bool, n: nat)
    requires key != Num(-1)
    requires IndexKey(ToText(Or(key, Num(0)))) == Some(n)
    requires cur.Arr? || !Truthy(cur)
    ensures SlotList(cur, key, item, dance).Some?
    ensures var base := Or(cur, Arr([])).elems;
      var list := FillHolesIn(SlotList(cur, key, item, dance).value);
      list.Arr? && |list.elems| == (if n < |base| then |base| else n + 1)
      && list.elems[n] == FillHole(item)
      && (forall j :: 0 <= j < |base| && j != n && !Nullish(base[j]) ==> list.elems[j] == base[j])
      && (forall j :: 0 <= j < |list.elems| ==> !Nullish(list.elems[j]))
  {
    var base := Or(cur, Arr([]));
    assert SlotList(cur, key, item, dance) == Some(Arr(SetElem(base.elems, n, item)));
  }

  /**
   * Any other index `n` of a Dance or ItemWrap list that already is an array
   * (or is missing) puts the item at `n`; the list keeps every other non-empty
   * entry and has no holes.
   */
  lemma EquipSetsIndex(d: Doc, body: Value, dance: bool, n: nat)
    requires body.Obj?
    requires Field(body, "slotName").value == Str(if dance then "Dance" else "ItemWrap")
    requires Field(body, "indexWithinSlot").value != Num(-1)
    requires IndexKey(ToText(Or(Field(body, "indexWithinSlot").value, Num(0)))) == Some(n)
    requires var cur := Attr(d, if dance then "favorite_dance" else "favorite_itemwraps");
      cur.Arr? || !Truthy(cur)
    ensures EquipSlot(d, body).Some?
    ensures var stat := if dance then "favorite_dance" else "favorite_itemwraps";
      var list := SlotList(Attr(d, stat), Field(body, "indexWithinSlot").value, Field(body, "itemToSlot").value, dance);
      var attrs := EquipSlot(d, body).value.doc.attributes;
      list.Some? && stat in attrs && attrs[stat] == FillHolesIn(list.value)
  {
    var stat := if dance then "favorite_dance" else "favorite_itemwraps";
    SlotListSets(Attr(d, stat), Field(body, "indexWithinSlot").value, Field(body, "itemToSlot").value, dance, n);
    assert Field(body, "slotName").value.s !in SimpleSlots;
  }

  // ---------------------------------------------------------------------
  // SetCosmeticLockerSlot

  /** Dance writes only slot indices 0 to 5; any other index leaves items and attributes as they were. */
  lemma LockerDanceRange(items: map<string, Value>, attrs: map<string, Value>, locker: Value,
                         s: string, fav: Value, slotIndex: Value)
    requires var k := Or(slotIndex, Num(0)); !(AtLeast(k, 0) && AtMost(k, 5))
    ensures LockerCategory(items, attrs, Str("Dance"), locker, s, fav, slotIndex) == Some((items, attrs))
  {
  }

  /**
   * ItemWrap writes only slot indices 0 to 7. The branch meant for -1 sits
   * under the test `>= 0` and is never taken, so -1 changes nothing.
   */
  lemma LockerWrapRange(items: map<string, Value>, attrs: map<string, Value>, locker: Value,
                        s: string, fav: Value, slotIndex: Value)
    requires var k := Or(slotIndex, Num(0)); !(AtLeast(k, 0) && AtMost(k, 7))
    ensures LockerCategory(items, attrs, Str("ItemWrap"), locker, s, fav, slotIndex) == Some((items, attrs))
  {
    var k := Or(slotIndex, Num(0));
    if AtLeast(k, 0) {
      NonNegativeNotMinusOne(k);
    }
  }

  /** In particular, ItemWrap with slot index -1 leaves the locker and the favourites alone. */
  lemma LockerWrapMinusOne(items: map<string, Value>, attrs: map<string, Value>, locker: Value, s: string, fav: Value)
    ensures LockerCategory(items, attrs, Str("ItemWrap"), locker, s, fav, Num(-1)) == Some((items, attrs))
  {
    LockerWrapRange(items, attrs, locker, s, fav, Num(-1));
  }

  /**
   * Through a template index, the favourite is the id of an item whose
   * templateId lower-cases to the lower-cased item name when there is one, and
   * the name itself (an empty id) when there is none.
   */
  lemma FavoriteLookup(items: map<string, Value>, index: map<string, string>, s: string)
    requires IsTemplateIndex(items, index)
    ensures (exists id :: id in items && IndexedAs(items[id], Lower(s))) ==>
      Lower(s) in index && index[Lower(s)] in items && IndexedAs(items[index[Lower(s)]], Lower(s))
      && FavoriteId(index, s) == index[Lower(s)]
    ensures !(exists id :: id in items && IndexedAs(items[id], Lower(s))) ==> FavoriteId(index, s) == ""
  {
    if exists id :: id in items && IndexedAs(items[id], Lower(s)) {
      var id :| id in items && IndexedAs(items[id], Lower(s));
      assert IsIndexed(items[id]) && TemplateKey(items[id]) == Lower(s);
    }
  }

  /** A simple locker category stores the item in its slot and the favourite found through the index. */
  lemma LockerSimpleCategory(items: map<string, Value>, attrs: map<string, Value>, cat: string,
                             locker: Value, s: string, fav: Value, slotIndex: Value)
    requires cat in SimpleSlots
    requires ObjectsAlong(Obj(items), SlotItemsPath(locker, cat))
    ensures LockerCategory(items, attrs, Str(cat), locker, s, fav, slotIndex).Some?
    ensures var r := LockerCategory(items, attrs, Str(cat), locker, s, fav, slotIndex).value;
      GetPath(Obj(r.0), SlotItemsPath(locker, cat)) == Some(Arr([Str(s)]))
      && r.1 == attrs[SimpleSlots[cat] := fav]
  {
    PutPathThenGet(Obj(items), SlotItemsPath(locker, cat), Arr([Str(s)]));
    var root := PutPath(Obj(items), SlotItemsPath(locker, cat), Arr([Str(s)])).value;
    assert Obj(root.fields) == root;
  }

  // ---------------------------------------------------------------------
  // PutModularCosmeticLoadout

  /** The presets object an operation sees. */
  function PresetsOf(d: Doc): Value {
    Attr(d, "loadout_presets")
  }

  /**
   * A new loadout item is added exactly when the loadout type has no preset
   * yet; otherwise the set of items stays the same.
   */
  lemma PutModularItems(d: Doc, body: Value, freshId: string, parsed: Option<Value>)
    requires PutModular(d, body, freshId, parsed).Some?
    ensures var o := PutModular(d, body, freshId, parsed).value;
      var presets := EnsurePresets(d.attributes).0["loadout_presets"];
      var has := HasOwn(presets, Field(body, "loadoutType").value).value;
      (has ==> o.doc.items.Keys == d.items.Keys)
      && (!has ==> o.doc.items.Keys == d.items.Keys + {freshId})
  {
  }

  /**
   * A loadout type without a preset gets the item `{templateId: loadoutType,
   * attributes, quantity: 1}` under the fresh id, whose attributes are then
   * the parsed loadout data, and the `itemAdded` record of the finished item
   * is among the changes.
   */
  lemma PutModularCreates(d: Doc, body: Value, freshId: string, parsed: Option<Value>)
    requires PutModular(d, body, freshId, parsed).Some?
    ensures !Nullish(body) && HasOwn(EnsurePresets(d.attributes).0["loadout_presets"], Prop(body, "loadoutType")).Some?
    ensures var o := PutModular(d, body, freshId, parsed).value;
      var presets := EnsurePresets(d.attributes).0["loadout_presets"];
      var lt := Prop(body, "loadoutType");
      !HasOwn(presets, lt).value ==>
        freshId in o.doc.items && parsed.Some?
        && o.doc.items[freshId] == Obj(map["templateId" := lt, "attributes" := parsed.value, "quantity" := Num(1)])
        && ItemAdded(freshId, o.doc.items[freshId]) in o.changes
  {
    var presets := EnsurePresets(d.attributes).0["loadout_presets"];
    var lt := Prop(body, "loadoutType");
    var pid := Prop(body, "presetId");
    if !HasOwn(presets, lt).value {
      var items2 := d.items[freshId := LoadoutItem(lt)];
      var entry := Obj(map[ToText(pid) := Str(freshId)]);
      var presets2 := Put(presets, lt, entry).value;
      PresetEntry(d, body, freshId, parsed);
      assert Get(Get(presets2, lt).value, pid) == Some(Str(freshId));
      var r := WriteLoadoutData(items2, Str(freshId), parsed).value;
      var o := PutModular(d, body, freshId, parsed).value;
      assert o.doc.items == r.0 && ItemAdded(freshId, r.0[freshId]) in o.changes;
      LoadoutDataWritten(items2, freshId, parsed);
      LoadoutItemWritten(lt, parsed.value);
    }
  }

  /** The new loadout item with its attributes replaced. */
  lemma LoadoutItemWritten(lt: Value, data: Value)
    ensures Obj(LoadoutItem(lt).fields["attributes" := data])
      == Obj(map["templateId" := lt, "attributes" := data, "quantity" := Num(1)])
  {
    assert LoadoutItem(lt).fields["attributes" := data] == map["templateId" := lt, "attributes" := data, "quantity" := Num(1)];
  }

  /** Writing the parsed data into an object item replaces its attributes and keeps its other fields. */
  lemma LoadoutDataWritten(items: map<string, Value>, id: string, parsed: Option<Value>)
    requires id in items && items[id].Obj? && Truthy(items[id])
    requires WriteLoadoutData(items, Str(id), parsed).Some?
    ensures parsed.Some?
    ensures var r := WriteLoadoutData(items, Str(id), parsed).value;
      r.0 == items[id := Obj(items[id].fields["attributes" := parsed.value])]
      && ItemAttrChanged(Str(id), "slots", Field(parsed.value, "slots").value) in r.1
  {
    assert ToText(Str(id)) == id;
    assert ToText(Str("attributes")) == "attributes";
  }

  /**
   * The preset entry of a loadout type without a preset maps `presetId` to the
   * fresh id, in an object of presets by changing that key only, and the
   * `statModified` record of the presets is among the changes. A type that
   * already has a preset leaves the presets as they were.
   */
  lemma PutModularPresets(d: Doc, body: Value, freshId: string, parsed: Option<Value>)
    requires PutModular(d, body, freshId, parsed).Some?
    ensures !Nullish(body) && HasOwn(EnsurePresets(d.attributes).0["loadout_presets"], Prop(body, "loadoutType")).Some?
    ensures var o := PutModular(d, body, freshId, parsed).value;
      var presets := EnsurePresets(d.attributes).0["loadout_presets"];
      var lt := Prop(body, "loadoutType");
      var pid := Prop(body, "presetId");
      var has := HasOwn(presets, lt).value;
      (has ==> PresetsOf(o.doc) == presets)
      && (!has ==>
            Get(PresetsOf(o.doc), lt) == Some(Obj(map[ToText(pid) := Str(freshId)]))
            && (presets.Obj? ==> PresetsOf(o.doc) == Obj(presets.fields[ToText(lt) := Obj(map[ToText(pid) := Str(freshId)])]))
            && StatModified("loadout_presets", PresetsOf(o.doc)) in o.changes)
  {
    var presets := EnsurePresets(d.attributes).0["loadout_presets"];
    if !HasOwn(presets, Field(body, "loadoutType").value).value {
      PresetEntry(d, body, freshId, parsed);
    }
  }

  /** The preset written for a new loadout type reads back, and its `presetId` entry is the fresh id. */
  lemma PresetEntry(d: Doc, body: Value, freshId: string, parsed: Option<Value>)
    requires !Nullish(body)
    requires HasOwn(EnsurePresets(d.attributes).0["loadout_presets"], Prop(body, "loadoutType")) == Some(false)
    requires Put(EnsurePresets(d.attributes).0["loadout_presets"], Prop(body, "loadoutType"),
                 Obj(map[ToText(Prop(body, "presetId")) := Str(freshId)])).Some?
    requires var presets2 := Put(EnsurePresets(d.attributes).0["loadout_presets"], Prop(body, "loadoutType"),
                 Obj(map[ToText(Prop(body, "presetId")) := Str(freshId)])).value;
      Get(presets2, Prop(body, "loadoutType")).value.Obj?
    ensures var presets := EnsurePresets(d.attributes).0["loadout_presets"];
      var lt := Prop(body, "loadoutType");
      var entry := Obj(map[ToText(Prop(body, "presetId")) := Str(freshId)]);
      Get(Put(presets, lt, entry).value, lt) == Some(entry)
      && Get(entry, Prop(body, "presetId")) == Some(Str(freshId))
  {
    var presets := EnsurePresets(d.attributes).0["loadout_presets"];
    var lt := Prop(body, "loadoutType");
    var entry := Obj(map[ToText(Prop(body, "presetId")) := Str(freshId)]);
    if presets.Arr? {
      assert IndexKey(ToText(lt)).Some?;
    }
    GetPut(presets, lt, entry);
  }

  /**
   * Once a loadout type has been stored in an object of presets, the next
   * request for it adds no further item, whatever id it would have drawn.
   */
  lemma PutModularNoSecondItem(d: Doc, body: Value, id1: string, id2: string, parsed: Option<Value>)
    requires PresetsOf(d).Obj? || "loadout_presets" !in d.attributes
    requires PutModular(d, body, id1, parsed).Some?
    requires PutModular(PutModular(d, body, id1, parsed).value.doc, body, id2, parsed).Some?
    ensures var o1 := PutModular(d, body, id1, parsed).value;
      PutModular(o1.doc, body, id2, parsed).value.doc.items.Keys == o1.doc.items.Keys
  {
    var o1 := PutModular(d, body, id1, parsed).value;
    var lt := Prop(body, "loadoutType");
    var presets := EnsurePresets(d.attributes).0["loadout_presets"];
    assert presets.Obj?;
    PutModularPresets(d, body, id1, parsed);
    assert "loadout_presets" in o1.doc.attributes;
    var presets1 := PresetsOf(o1.doc);
    assert presets1.Obj? && ToText(lt) in presets1.fields;
    assert EnsurePresets(o1.doc.attributes).0["loadout_presets"] == presets1;
    PutModularItems(o1.doc, body, id2, parsed);
  }

  // ---------------------------------------------------------------------
  // the request

  /** The handler run that a request with a body and a profile id makes. */
  function Ran(cache: map<string, Profile>, req: Request, files: Files, index: map<string, string>): Option<Outcome>
    requires req.body.Some?
  {
    Dispatch(req.operation, LoadedDoc(cache, req, files), req.body.value, index, req.now, req.freshId, req.parsedLoadout)
  }

  /**
   * A successful request reports the loaded revision as its base, the base
   * plus the bump as its revision, the changes the handler recorded (or the
   * whole profile when there are none or the operation is QueryProfile), and
   * the constants of the envelope.
   */
  lemma ServeEnvelope(cache: map<string, Profile>, req: Request, files: Files, index: map<string, string>)
    requires Serve(cache, req, files, index).0.Found?
    ensures req.body.Some? && req.profileId != "" && Ran(cache, req, files, index).Some?
    ensures var env := Serve(cache, req, files, index).0.envelope;
      var d := LoadedDoc(cache, req, files);
      var o := Ran(cache, req, files, index).value;
      var b := BumpOf(req.operation, req.body.value);
      env.profileChangesBaseRevision == d.rvn
      && env.profileRevision == d.rvn + b
      && env.profileCommandRevision == d.commandRevision + b
      && env.profileId == req.profileId && env.serverTime == req.now
      && env.multiUpdate == Some([]) && env.responseVersion == 1
      && ((req.operation == "QueryProfile" || |o.changes| == 0) ==> env.profileChanges == [FullProfileUpdate(ToProfile(o.doc))])
      && (!(req.operation == "QueryProfile" || |o.changes| == 0) ==> env.profileChanges == o.changes)
  {
    var d := LoadedDoc(cache, req, files);
    BumpRule(req.operation, d, req.body.value, index, req.now, req.freshId, req.parsedLoadout);
  }

  /**
   * A request touches at most its own cache entry. Without a body or a
   * profile id it changes nothing; a failing handler still leaves the loaded
   * profile cached; a successful one caches a JSON copy of its result.
   */
  lemma ServeCache(cache: map<string, Profile>, req: Request, files: Files, index: map<string, string>)
    ensures var r := Serve(cache, req, files, index);
      var key := CacheKey(req.accountId, req.profileId);
      (forall k :: k in cache && k != key ==> k in r.1 && r.1[k] == cache[k])
      && r.1.Keys <= cache.Keys + {key}
      && (req.body.None? || req.profileId == "" ==> r.1 == cache)
      && (r.0.ServerError? && req.body.Some? ==> r.1 == LoadStep(cache, key, files).1)
      && (r.0.Found? ==>
            req.body.Some? && Ran(cache, req, files, index).Some?
            && r.1 == LoadStep(cache, key, files).1[key := CloneProfile(ToProfile(Ran(cache, req, files, index).value.doc))]
            && ProfileIsJson(r.1[key]))
  {
    var r := Serve(cache, req, files, index);
    if r.0.Found? {
      CloneProfileFacts(ToProfile(Ran(cache, req, files, index).value.doc));
    }
  }

  /** The working copy of a request is a JSON document. */
  lemma LoadedDocIsJson(cache: map<string, Profile>, req: Request, files: Files)
    ensures ProfileIsJson(ToProfile(LoadedDoc(cache, req, files)))
  {
    var key := CacheKey(req.accountId, req.profileId);
    var p := LoadStep(cache, key, files).0;
    var src := if key in cache then cache[key]
               else if files.stored.Some? then files.stored.value else files.template.GetOr(EmptyProfile);
    assert p == CloneProfile(src);
    CloneProfileFacts(src);
  }

  /**
   * QueryProfile is stable: asking again answers exactly the same and leaves
   * the cache as the first request left it, whatever the files now hold.
   */
  lemma QueryProfileStable(cache: map<string, Profile>, req: Request, files1: Files, files2: Files,
                           index1: map<string, string>, index2: map<string, string>)
    requires req.operation == "QueryProfile"
    requires Serve(cache, req, files1, index1).0.Found?
    ensures var (res1, cache1) := Serve(cache, req, files1, index1);
      Serve(cache1, req, files2, index2) == (res1, cache1)
  {
    var (res1, cache1) := Serve(cache, req, files1, index1);
    var key := CacheKey(req.accountId, req.profileId);
    var d1 := LoadedDoc(cache, req, files1);
    assert Ran(cache, req, files1, index1) == Some(Outcome(d1, []));
    LoadedDocIsJson(cache, req, files1);
    CloneProfileFacts(ToProfile(d1));
    assert cache1 == LoadStep(cache, key, files1).1[key := ToProfile(d1)];
    NormalizeToProfile(d1);
    assert LoadStep(cache1, key, files2) == (ToProfile(d1), cache1);
    assert LoadedDoc(cache1, req, files2) == d1;
    assert Ran(cache1, req, files2, index2) == Some(Outcome(d1, []));
    assert cache1[key := CloneProfile(ToProfile(d1))] == cache1;
  }

  /** The first QueryProfile of an account without stored profile or template answers the empty profile at revision 0. */
  lemma FirstQueryOfNewAccount(req: Request, index: map<string, string>)
    requires req.operation == "QueryProfile" && req.body.Some? && req.profileId != ""
    ensures var r := Serve(map[], req, Files(None, None), index);
      r.0 == Found(Envelope(0, req.profileId, 0, [FullProfileUpdate(EmptyProfile)], 0, req.now, Some([]), 1))
      && r.1 == map[CacheKey(req.accountId, req.profileId) := EmptyProfile]
  {
    EmptyProfileNormal();
    CloneProfileFacts(EmptyProfile);
    assert ProfileIsJson(EmptyProfile);
  }

  /**
   * The public query changes no cached profile: the cache either stays as it
   * was or gains the stored profile of an uncached key. It answers the whole
   * profile at its own revision, without `multiUpdate`.
   */
  lemma QueryPublicFacts(cache: map<string, Profile>, accountId: string, profileId: string, files: Files, now: string)
    ensures var (res, cache') := QueryPublic(cache, accountId, profileId, files, now);
      var key := CacheKey(accountId, profileId);
      var p := if key in cache then cache[key]
               else if files.stored.Some? then files.stored.value else files.template.GetOr(EmptyProfile);
      (cache' == cache || (key !in cache && files.stored.Some? && cache' == cache[key := files.stored.value]))
      && (res.Found? <==> profileId != "")
      && (res.Found? ==>
            res.envelope.profileChanges == [FullProfileUpdate(p)]
            && res.envelope.profileRevision == p.rvn.GetOr(0)
            && res.envelope.profileChangesBaseRevision == p.rvn.GetOr(0)
            && res.envelope.profileCommandRevision == p.commandRevision.GetOr(0)
            && res.envelope.multiUpdate.None?)
  {
  }
}
