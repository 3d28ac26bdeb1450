/**
 * The profile endpoints of src/routes/mcp.ts as the code runs them: the loops
 * of the handlers as methods proved against the operation functions, and a
 * service object that owns the profile cache.
 */
module Mcp {
  import opened Wrappers
  import opened Json
  import opened Profiles
  import opened McpOps

  /** `variants.findIndex(x => x.channel == channel)`. */
  method FindChannelIndex(es: seq<Value>, ch: Value) returns (r: Search)
    ensures r == FindChannel(es, ch, 0)
  {
    var i := 0;
    while i < |es|
      invariant 0 <= i <= |es|
      invariant FindChannel(es, ch, i) == FindChannel(es, ch, 0)
    {
      if Nullish(es[i]) {
        return Crashed;
      }
      if LooseEq(ChannelOf(es[i]), ch) {
        return Located(i);
      }
      i := i + 1;
    }
    return Absent;
  }

  /** The `for (let i in Variants)` loop on the item's variants. */
  method UpsertVariants(v: Value, entries: seq<Value>, create: bool) returns (r: Option<Value>)
    ensures r == UpsertFrom(v, entries, 0, create)
  {
    var cur := v;
    var i := 0;
    while i < |entries|
      invariant 0 <= i <= |entries|
      invariant UpsertFrom(cur, entries, i, create) == UpsertFrom(v, entries, 0, create)
    {
      ghost var before := cur;
      match Classify(entries[i]) {
        case Skip =>
        case Fail =>
          return None;
        case Upsert(ch, active, owned) =>
          if create && !Truthy(cur) {
            cur := Arr([]);
          }
          if !cur.Arr? {
            return None;
          }
          var found := FindChannelIndex(cur.elems, ch);
          match found {
            case Crashed =>
              return None;
            case Absent =>
              cur := Arr(cur.elems + [NewVariant(ch, active, owned)]);
            case Located(k) =>
              var e := Put(cur.elems[k], Str("active"), active);
              if e.None? {
                return None;
              }
              cur := Arr(cur.elems[k := e.value]);
          }
      }
      assert UpsertStep(before, entries[i], create) == Some(cur);
      i := i + 1;
    }
    return Some(cur);
  }

  /** `for (i < arr.length) if (arr[i] == null) arr[i] = ""`. */
  method FillHoles(es: seq<Value>) returns (r: seq<Value>)
    ensures r == Filled(es)
  {
    r := es;
    var i := 0;
    while i < |r|
      invariant 0 <= i <= |r| == |es|
      invariant forall j :: 0 <= j < i ==> r[j] == FillHole(es[j])
      invariant forall j :: i <= j < |r| ==> r[j] == es[j]
    {
      if Nullish(r[i]) {
        r := r[i := Str("")];
      }
      i := i + 1;
    }
  }

  /** `for (i < count) arr[i] = item` on a fresh array. */
  method FillSlots(item: Value, count: nat) returns (r: seq<Value>)
    ensures |r| == count && forall j :: 0 <= j < count ==> r[j] == item
  {
    r := [];
    while |r| < count
      invariant |r| <= count
      invariant forall j :: 0 <= j < |r| ==> r[j] == item
    {
      r := r + [item];
    }
  }

  /**
   * The index loop over the items (mcp.ts:79-86): `None` when a templateId
   * makes it throw, otherwise an index in the sense of `IsTemplateIndex`.
   * Items are visited in an arbitrary order, as the key order of the stored
   * object decides.
   */
  method BuildTemplateIndex(items: map<string, Value>) returns (r: Option<map<string, string>>)
    ensures r.None? <==> AnyBadTemplate(items)
    ensures r.Some? ==> IsTemplateIndex(items, r.value)
  {
    var index: map<string, string> := map[];
    var todo := items.Keys;
    while todo != {}
      invariant todo <= items.Keys
      invariant forall id :: id in items && id !in todo ==> !BadTemplate(items[id])
      invariant forall id :: id in items && id !in todo && IsIndexed(items[id]) ==> TemplateKey(items[id]) in index
      invariant forall t :: t in index ==> index[t] in items && IndexedAs(items[index[t]], t)
      decreases |todo|
    {
      var id :| id in todo;
      var item := items[id];
      if BadTemplate(item) {
        return None;
      }
      if IsIndexed(item) {
        index := index[TemplateKey(item) := id];
      }
      todo := todo - {id};
    }
    return Some(index);
  }

  /** The `slotName` switch of Equip with its loops. */
  method EquipSlotOp(d: Doc, body: Value) returns (r: Option<Outcome>)
    ensures r == EquipSlot(d, body)
  {
    if Nullish(body) {
      return None;
    }
    var item := Prop(body, "itemToSlot");
    var slot := Prop(body, "slotName");
    if slot.Str? && slot.s in SimpleSlots {
      var stat := SimpleSlots[slot.s];
      return Some(Outcome(d.(attributes := d.attributes[stat := item]), [StatModified(stat, item)]));
    } else if slot == Str("Dance") || slot == Str("ItemWrap") {
      var dance := slot == Str("Dance");
      var stat := if dance then "favorite_dance" else "favorite_itemwraps";
      var index := Prop(body, "indexWithinSlot");
      var list: Value;
      if index == Num(-1) {
        var es := FillSlots(item, SlotCount(dance));
        assert es == seq(SlotCount(dance), _ => item);
        list := Arr(es);
      } else {
        var put := Put(Or(Attr(d, stat), Arr([])), Or(index, Num(0)), item);
        if put.None? {
          return None;
        }
        list := put.value;
      }
      assert SlotList(Attr(d, stat), index, item, dance) == Some(list);
      if list.Arr? {
        var es := FillHoles(list.elems);
        list := Arr(es);
      }
      return Some(Outcome(d.(attributes := d.attributes[stat := list]), [StatModified(stat, list)]));
    } else {
      return Some(Outcome(d, []));
    }
  }

  /** The variant part of both locker operations, with the variant loop. */
  method VariantsUpdateOp(items: map<string, Value>, key: string, entries: seq<Value>, create: bool)
    returns (r: Option<(map<string, Value>, Value)>)
    ensures r == VariantsUpdate(items, key, entries, create)
  {
    var items1 := if Truthy(ItemAt(items, key)) then items else items[key := FreshVariantsItem];
    var root := Obj(items1);
    var path := VariantsPath(key);
    var cur := GetPath(root, path);
    if cur.None? {
      return None;
    }
    if forall i :: 0 <= i < |entries| ==> Classify(entries[i]).Skip? {
      return Some((items1, cur.value));
    }
    var upd := UpsertVariants(cur.value, entries, create);
    if upd.None? {
      return None;
    }
    var root' := PutPath(root, path, upd.value);
    if root'.None? {
      return None;
    }
    var v := GetPath(root'.value, path);
    if v.None? {
      return None;
    }
    return Some((root'.value.fields, v.value));
  }

  /** EquipBattleRoyaleCustomization with its loops. */
  method EquipOp(d: Doc, body: Value) returns (r: Option<Outcome>)
    ensures r == Equip(d, body)
  {
    var o1 := EquipSlotOp(d, body);
    if o1.None? {
      return None;
    }
    var d1 := o1.value.doc;
    assert !Nullish(body);
    var vs := Prop(body, "variantUpdates");
    var id := Prop(body, "itemToSlot");
    var o2 := Outcome(d1, []);
    if vs.Arr? {
      var u := VariantsUpdateOp(d1.items, ToText(id), vs.elems, false);
      if u.None? {
        return None;
      }
      o2 := Outcome(d1.(items := u.value.0), [ItemAttrChanged(id, "variants", u.value.1)]);
    }
    assert EquipVariants(d1, body) == Some(o2);
    return Some(Outcome(Bump(o2.doc), o1.value.changes + o2.changes));
  }

  /** SetCosmeticLockerSlot with its variant loop. */
  method LockerSlotOp(d: Doc, body: Value, index: map<string, string>) returns (r: Option<Outcome>)
    ensures r == LockerSlot(d, body, index)
  {
    if Nullish(body) {
      return None;
    }
    var cat := Prop(body, "category");
    var locker := Prop(body, "lockerItem");
    var item := Prop(body, "itemToSlot");
    if !(Truthy(cat) && Truthy(locker) && Truthy(item)) {
      return Some(Outcome(d, []));
    }
    if !item.Str? {
      return None;
    }
    var s := item.s;
    var found := FavoriteId(index, s);
    var vs := Prop(body, "variantUpdates");
    var items1 := d.items;
    var changes: seq<Change> := [];
    if vs.Arr? && found != "" {
      var u := VariantsUpdateOp(d.items, found, vs.elems, true);
      if u.None? {
        return None;
      }
      items1 := u.value.0;
      changes := [ItemAttrChanged(Str(found), "variants", u.value.1)];
    }
    assert LockerVariants(d.items, vs, found) == Some((items1, changes));
    var fav := Str(if found != "" then found else s);
    var slotIndex := Prop(body, "slotIndex");
    var r2 := LockerCategory(items1, d.attributes, cat, locker, s, fav, slotIndex);
    if r2.None? {
      return None;
    }
    var data := GetPath(Obj(r2.value.0), LockerDataPath(locker));
    if data.None? {
      return None;
    }
    return Some(Outcome(Bump(d.(items := r2.value.0, attributes := r2.value.1)),
      changes + [ItemAttrChanged(locker, "locker_slots_data", data.value)]));
  }

  /** The operation switch, running the handlers that loop as methods. */
  method DispatchOp(operation: string, d: Doc, body: Value, index: map<string, string>,
                    now: string, freshId: string, parsed: Option<Value>) returns (r: Option<Outcome>)
    ensures r == Dispatch(operation, d, body, index, now, freshId, parsed)
  {
    if operation == "EquipBattleRoyaleCustomization" {
      r := EquipOp(d, body);
    } else if operation == "SetCosmeticLockerSlot" {
      r := LockerSlotOp(d, body, index);
    } else {
      r := Dispatch(operation, d, body, index, now, freshId, parsed);
    }
  }

  /** The profile endpoints with their in-memory cache of profiles by `${accountId}_${profileId}`. */
  class ProfileService {
    var cache: map<string, Profile>

    constructor()
      ensures cache == map[]
    {
      cache := map[];
    }

    /**
     * The POST operation endpoint. The ghost `index` is the template index the
     * loop built; when the loop succeeds it is one in the sense of
     * `IsTemplateIndex`.
     */
    method Operate(req: Request, files: Files) returns (res: Response, ghost index: map<string, string>)
      modifies this
      ensures (res, cache) == Serve(old(cache), req, files, index)
      ensures req.body.Some? && req.profileId != "" && !AnyBadTemplate(LoadedDoc(old(cache), req, files).items) ==>
        IsTemplateIndex(LoadedDoc(old(cache), req, files).items, index)
    {
      index := map[];
      if req.body.None? {
        return ServerError, index;
      }
      if req.profileId == "" {
        return NotFound, index;
      }
      var key := CacheKey(req.accountId, req.profileId);
      var p: Profile;
      if key in cache {
        p := CloneProfile(cache[key]);
      } else {
        var stored := if files.stored.Some? then files.stored.value else files.template.GetOr(EmptyProfile);
        cache := cache[key := stored];
        p := CloneProfile(stored);
      }
      var d := Normalize(p);
      var built := BuildTemplateIndex(d.items);
      if built.None? {
        return ServerError, index;
      }
      var idx := built.value;
      index := idx;
      var o := DispatchOp(req.operation, d, req.body.value, idx, req.now, req.freshId, req.parsedLoadout);
      if o.None? {
        return ServerError, index;
      }
      var env := Envelope(o.value.doc.rvn, req.profileId, d.rvn, ChangesSent(req.operation, o.value),
                          o.value.doc.commandRevision, req.now, Some([]), 1);
      cache := cache[key := CloneProfile(ToProfile(o.value.doc))];
      return Found(env), index;
    }

    /** The public QueryProfile endpoints. */
    method Query(accountId: string, profileId: string, files: Files, now: string) returns (res: Response)
      modifies this
      ensures (res, cache) == QueryPublic(old(cache), accountId, profileId, files, now)
    {
      if profileId == "" {
        return NotFound;
      }
      var key := CacheKey(accountId, profileId);
      var p: Profile;
      if key in cache {
        p := cache[key];
      } else if files.stored.Some? {
        p := files.stored.value;
        cache := cache[key := p];
      } else {
        p := files.template.GetOr(EmptyProfile);
      }
      var rvn := p.rvn.GetOr(0);
      return Found(Envelope(rvn, profileId, rvn, [FullProfileUpdate(p)], p.commandRevision.GetOr(0), now, None, 1));
    }
  }
}
