/** The brands collection and its admin endpoints, with the request models
    that validate their bodies, and the routing of those endpoints. The
    collection is a sequence in insertion order; ids come from the id
    generator and instants are integers (microseconds). */
module Brands {
  import opened Common
  import opened Json
  import opened Sorting
  import opened Fields

  /** A stored brand. No brand model has a logo field. */
  datatype Brand = Brand(
    id: string,
    name: string,
    color: string,
    textColor: string,
    description: string,
    isActive: bool,
    order: int,
    createdAt: int,
    updatedAt: int)

  type Store = seq<Brand>

  datatype BrandCreate = BrandCreate(
    name: string, color: string, textColor: string, description: string, order: int)

  datatype BrandUpdate = BrandUpdate(
    name: Option<string>,
    color: Option<string>,
    textColor: Option<string>,
    description: Option<string>,
    isActive: Option<bool>,
    order: Option<int>)

  const NoChange: BrandUpdate := BrandUpdate(None, None, None, None, None, None)

  const DefaultTextColor: string := "#FFFFFF"
  const BrandNotFound: string := "Brand not found"

  // ---------------------------------------------------------------------
  // Request models

  /** Create: name, color and description are required; `text_color`
      defaults to white and `order` to 0; there is no `is_active`. */
  function ParseCreate(body: Body): (r: Result<BrandCreate>)
    ensures r.Ok? <==> (HasStr(body, "name") && HasStr(body, "color")
                        && StrOk(body, "text_color") && HasStr(body, "description")
                        && NumOk(body, "order"))
    ensures r.Err? ==> r.status == Unprocessable
    ensures r.Ok? ==> (r.value.name == body["name"].s && r.value.color == body["color"].s
                       && r.value.description == body["description"].s)
    ensures r.Ok? && "text_color" !in body ==> r.value.textColor == DefaultTextColor
    ensures r.Ok? && "text_color" in body ==> body["text_color"] == Str(r.value.textColor)
    ensures r.Ok? && "order" !in body ==> r.value.order == 0
    ensures r.Ok? && "order" in body ==> body["order"] == Num(r.value.order)
  {
    if !HasStr(body, "name") then Invalid("name")
    else if !HasStr(body, "color") then Invalid("color")
    else if !StrOk(body, "text_color") then Invalid("text_color")
    else if !HasStr(body, "description") then Invalid("description")
    else if !NumOk(body, "order") then Invalid("order")
    else Ok(BrandCreate(body["name"].s, body["color"].s,
                        StrOr(body, "text_color", DefaultTextColor),
                        body["description"].s, NumOr(body, "order", 0)))
  }

  /** `ParseCreate` with `description` optional and defaulting to the empty
      string: the bodies the admin form and the API's own test script send,
      which carry no description, then make a brand. */
  function ParseCreateWithDefaultDescription(body: Body): (r: Result<BrandCreate>)
    ensures r.Ok? <==> (HasStr(body, "name") && HasStr(body, "color")
                        && StrOk(body, "text_color") && StrOk(body, "description")
                        && NumOk(body, "order"))
    ensures r.Err? ==> r.status == Unprocessable
    ensures r.Ok? && "description" !in body ==> r.value.description == ""
    ensures r.Ok? && "description" in body ==> ParseCreate(body) == r
  {
    if !HasStr(body, "name") then Invalid("name")
    else if !HasStr(body, "color") then Invalid("color")
    else if !StrOk(body, "text_color") then Invalid("text_color")
    else if !StrOk(body, "description") then Invalid("description")
    else if !NumOk(body, "order") then Invalid("order")
    else Ok(BrandCreate(body["name"].s, body["color"].s,
                        StrOr(body, "text_color", DefaultTextColor),
                        StrOr(body, "description", ""), NumOr(body, "order", 0)))
  }

  /** The create body of the API's test script. */
  const TestScriptBody: Body :=
    map["name" := Str("Test Brand"), "color" := Str("#ff0000"),
        "is_active" := Bool(true), "order" := Num(1)]

  /** As declared, the model refuses that body for want of a description ... */
  lemma TestScriptBodyRefused()
    ensures ParseCreate(TestScriptBody) == Err(Unprocessable, "description")
  {
  }

  /** ... which the corrected model accepts. */
  lemma TestScriptBodyAccepted()
    ensures ParseCreateWithDefaultDescription(TestScriptBody)
         == Ok(BrandCreate("Test Brand", "#ff0000", DefaultTextColor, "", 1))
  {
  }

  const UpdateKeys: set<string> :=
    {"name", "color", "text_color", "description", "is_active", "order"}

  /** Update: every field optional; absent or `null` reads as not given. */
  function ParseUpdate(body: Body): (r: Result<BrandUpdate>)
    ensures r.Ok? <==> (OptStrOk(body, "name") && OptStrOk(body, "color")
                        && OptStrOk(body, "text_color") && OptStrOk(body, "description")
                        && OptBoolOk(body, "is_active") && OptNumOk(body, "order"))
    ensures r.Err? ==> r.status == Unprocessable
    ensures r.Ok? ==> r.value.name == OptStr(body, "name")
    ensures r.Ok? ==> r.value.color == OptStr(body, "color")
    ensures r.Ok? ==> r.value.textColor == OptStr(body, "text_color")
    ensures r.Ok? ==> r.value.description == OptStr(body, "description")
    ensures r.Ok? ==> r.value.isActive == OptBool(body, "is_active")
    ensures r.Ok? ==> r.value.order == OptNum(body, "order")
  {
    if !OptStrOk(body, "name") then Invalid("name")
    else if !OptStrOk(body, "color") then Invalid("color")
    else if !OptStrOk(body, "text_color") then Invalid("text_color")
    else if !OptStrOk(body, "description") then Invalid("description")
    else if !OptBoolOk(body, "is_active") then Invalid("is_active")
    else if !OptNumOk(body, "order") then Invalid("order")
    else Ok(BrandUpdate(OptStr(body, "name"), OptStr(body, "color"),
                        OptStr(body, "text_color"), OptStr(body, "description"),
                        OptBool(body, "is_active"), OptNum(body, "order")))
  }

  /** A `logo_url` key, or any other undeclared key, changes nothing. */
  lemma UnknownKeysIgnored(body: Body, k: string, v: Value)
    requires k !in UpdateKeys
    ensures ParseUpdate(body[k := v]) == ParseUpdate(body)
  {
    var b := body[k := v];
    assert forall f :: f in UpdateKeys ==> (f in b <==> f in body) && (f in b ==> b[f] == body[f]);
  }

  // ---------------------------------------------------------------------
  // Queries

  function WithId(id: string): Brand -> bool
  {
    (b: Brand) => b.id == id
  }

  /** `find_one({"id": id})`: the first brand with that id. */
  function Find(s: Store, id: string): (r: Option<nat>)
    ensures r.Some? ==> r.value < |s| && s[r.value].id == id
    ensures r.Some? ==> forall j :: 0 <= j < r.value ==> s[j].id != id
    ensures r.None? <==> forall j :: 0 <= j < |s| ==> s[j].id != id
  {
    var r := FirstIndex(s, WithId(id));
    assert r.Some? ==> WithId(id)(s[r.value]);
    assert r.Some? ==> forall j :: 0 <= j < r.value ==> !WithId(id)(s[j]);
    assert r.None? ==> forall j :: 0 <= j < |s| ==> !WithId(id)(s[j]);
    r
  }

  predicate IdsUnique(s: Store)
  {
    forall i, j :: 0 <= i < j < |s| ==> s[i].id != s[j].id
  }

  /** GET /{id}. */
  function GetBrand(s: Store, id: string): (r: Result<Brand>)
    ensures r.Err? <==> (forall j :: 0 <= j < |s| ==> s[j].id != id)
    ensures r.Err? ==> r == Err(NotFound, BrandNotFound)
    ensures r.Ok? ==> r.value in s && r.value.id == id
  {
    match Find(s, id)
    case None => Err(NotFound, BrandNotFound)
    case Some(i) => Ok(s[i])
  }

  function OrderKey(b: Brand): int
  {
    b.order
  }

  function IsActive(b: Brand): bool
  {
    b.isActive
  }

  /** GET /: the first `ListLimit` brands by ascending `order`. */
  function AllBrands(s: Store): (r: Store)
    ensures |r| == if |s| <= ListLimit then |s| else ListLimit
  {
    ToList(SortBy(s, OrderKey), ListLimit)
  }

  /** The list is by ascending order and drawn from the store; it is the
      whole store when that holds at most `ListLimit` brands, and otherwise
      no brand left out has a smaller order than one listed. */
  lemma AllBrandsByOrder(s: Store)
    ensures SortedBy(AllBrands(s), OrderKey)
    ensures multiset(AllBrands(s)) <= multiset(s)
    ensures |s| <= ListLimit ==> multiset(AllBrands(s)) == multiset(s)
    ensures forall i, b :: 0 <= i < |AllBrands(s)| && b in multiset(s) - multiset(AllBrands(s))
                           ==> OrderKey(AllBrands(s)[i]) <= OrderKey(b)
  {
    TopBy(s, OrderKey, ListLimit);
  }

  /** GET /active, and the public active-brands endpoint: the first
      `ListLimit` active brands by ascending `order`. */
  function ActiveBrands(s: Store): (r: Store)
    ensures |r| <= |s| && |r| <= ListLimit
    ensures forall i :: 0 <= i < |r| ==> r[i].isActive
  {
    var a := Filter(s, IsActive);
    var r := ToList(SortBy(a, OrderKey), ListLimit);
    SortByPerm(a, OrderKey);
    assert forall i :: 0 <= i < |r| ==> r[i] in multiset(a);
    r
  }

  /** The active list holds only active brands of the store, and every one
      of them when there are at most `ListLimit` ... */
  lemma ActiveExactly(s: Store, b: Brand)
    ensures b in ActiveBrands(s) ==> b in s && b.isActive
    ensures |Filter(s, IsActive)| <= ListLimit ==> (b in ActiveBrands(s) <==> b in s && b.isActive)
  {
    var a := Filter(s, IsActive);
    SortByPerm(a, OrderKey);
    var r := ActiveBrands(s);
    assert b in r ==> b in multiset(a);
    assert |a| <= ListLimit ==> (b in r <==> b in multiset(a));
    FilterMembers(s, IsActive, b);
  }

  /** ... by ascending order, in the same relative order as the full list:
      the active part of the sorted collection cut at `ListLimit`, and so
      the active part of the admin list whenever the store holds at most
      `ListLimit`. */
  lemma ActiveIsSublistOfAll(s: Store)
    ensures ActiveBrands(s) == ToList(Filter(SortBy(s, OrderKey), IsActive), ListLimit)
    ensures |s| <= ListLimit ==> ActiveBrands(s) == Filter(AllBrands(s), IsActive)
    ensures SortedBy(ActiveBrands(s), OrderKey)
  {
    FilterSortCommute(s, OrderKey, IsActive);
    SortBySorted(Filter(s, IsActive), OrderKey);
    CutSorted(SortBy(Filter(s, IsActive), OrderKey), OrderKey, ListLimit);
  }

  // ---------------------------------------------------------------------
  // Commands

  datatype Saved = Saved(store: Store, brand: Brand)

  /** POST /: always stored, switched on, with the id generator's id. */
  function Create(s: Store, c: BrandCreate, id: string, now: int): (r: Saved)
    ensures r.store == s + [r.brand]
    ensures r.brand.id == id && r.brand.name == c.name && r.brand.color == c.color
    ensures r.brand.textColor == c.textColor && r.brand.description == c.description
    ensures r.brand.order == c.order && r.brand.isActive
    ensures r.brand.createdAt == now && r.brand.updatedAt == now
  {
    var b := Brand(id, c.name, c.color, c.textColor, c.description, true, c.order, now, now);
    Saved(s + [b], b)
  }

  /** A brand created under a fresh id keeps the ids unique, is what GET
      then returns for that id, and changes no other id's answer. */
  lemma CreateKeepsInvariants(s: Store, c: BrandCreate, id: string, now: int, other: string)
    requires IdsUnique(s) && Find(s, id).None?
    ensures IdsUnique(Create(s, c, id, now).store)
    ensures GetBrand(Create(s, c, id, now).store, id) == Ok(Create(s, c, id, now).brand)
    ensures other != id ==> GetBrand(Create(s, c, id, now).store, other) == GetBrand(s, other)
  {
    var t := Create(s, c, id, now).store;
    assert forall j :: 0 <= j < |s| ==> t[j] == s[j];
    var nb := Create(s, c, id, now).brand;
    assert |t| == |s| + 1 && t[|s|] == nb && nb.id == id;
    var v := Find(t, id).value;
    assert v == |s|;
    if other != id {
      match Find(s, other)
      case None => assert Find(t, other).None?;
      case Some(i) => assert Find(t, other) == Some(i);
    }
  }

  /** The record after a partial update: given fields replace stored ones;
      the id and the creation time are never touched. */
  function Merge(b: Brand, u: BrandUpdate, now: int): (r: Brand)
    ensures r.id == b.id && r.createdAt == b.createdAt && r.updatedAt == now
    ensures u == NoChange ==> r == b.(updatedAt := now)
  {
    b.(name := u.name.GetOr(b.name),
       color := u.color.GetOr(b.color),
       textColor := u.textColor.GetOr(b.textColor),
       description := u.description.GetOr(b.description),
       isActive := u.isActive.GetOr(b.isActive),
       order := u.order.GetOr(b.order),
       updatedAt := now)
  }

  /** PUT /{id}: 404 for an unknown id, else the merge; no other check. */
  function Update(s: Store, id: string, u: BrandUpdate, now: int): (r: Result<Saved>)
    ensures Find(s, id).None? <==> r.Err?
    ensures r.Err? ==> r == Err(NotFound, BrandNotFound)
    ensures r.Ok? ==> r.value.store == s[Find(s, id).value := r.value.brand]
    ensures r.Ok? ==> r.value.brand.id == id && r.value.brand.updatedAt == now
    ensures r.Ok? ==> r.value.brand.createdAt == s[Find(s, id).value].createdAt
  {
    match Find(s, id)
    case None => Err(NotFound, BrandNotFound)
    case Some(i) =>
      var next := Merge(s[i], u, now);
      Ok(Saved(s[i := next], next))
  }

  const DocKeys: set<string> :=
    {"id", "name", "color", "text_color", "description", "is_active", "order",
     "created_at", "updated_at"}

  function Field(b: Brand, k: string): Value
  {
    if k == "id" then Str(b.id)
    else if k == "name" then Str(b.name)
    else if k == "color" then Str(b.color)
    else if k == "text_color" then Str(b.textColor)
    else if k == "description" then Str(b.description)
    else if k == "is_active" then Bool(b.isActive)
    else if k == "order" then Num(b.order)
    else if k == "created_at" then Num(b.createdAt)
    else if k == "updated_at" then Num(b.updatedAt)
    else Null
  }

  /** The stored document of a brand, keyed by field name: every field is
      set, none to `null`. */
  function ToDoc(b: Brand): (r: map<string, Value>)
    ensures r.Keys == DocKeys
    ensures forall k :: k in r ==> r[k] != Null
  {
    map k | k in DocKeys :: Field(b, k)
  }

  function UpdateField(u: BrandUpdate, k: string): Value
  {
    if k == "name" then OptStrValue(u.name)
    else if k == "color" then OptStrValue(u.color)
    else if k == "text_color" then OptStrValue(u.textColor)
    else if k == "description" then OptStrValue(u.description)
    else if k == "is_active" then (if u.isActive.Some? then Bool(u.isActive.value) else Null)
    else if k == "order" then (if u.order.Some? then Num(u.order.value) else Null)
    else Null
  }

  /** The `$set` document of an update: the fields that are not `None`,
      then `updated_at`. */
  function UpdateData(u: BrandUpdate, now: int): map<string, Value>
  {
    (map k | k in UpdateKeys && UpdateField(u, k) != Null :: UpdateField(u, k))["updated_at" := Num(now)]
  }

  lemma UpdateDataLookup(u: BrandUpdate, now: int, k: string)
    ensures k in UpdateData(u, now) ==> k in DocKeys
    ensures k == "updated_at" ==> k in UpdateData(u, now) && UpdateData(u, now)[k] == Num(now)
    ensures k != "updated_at" ==> (k in UpdateData(u, now) <==> k in UpdateKeys && UpdateField(u, k) != Null)
    ensures k != "updated_at" && k in UpdateData(u, now) ==> UpdateData(u, now)[k] == UpdateField(u, k)
  {
  }

  lemma MergeField(b: Brand, u: BrandUpdate, now: int, k: string)
    ensures k == "updated_at" ==> Field(Merge(b, u, now), k) == Num(now)
    ensures k != "updated_at" && k in UpdateKeys && UpdateField(u, k) != Null ==>
      Field(Merge(b, u, now), k) == UpdateField(u, k)
    ensures k != "updated_at" && !(k in UpdateKeys && UpdateField(u, k) != Null) ==>
      Field(Merge(b, u, now), k) == Field(b, k)
  {
  }

  /** A successful update stores the old document with the given fields and
      `updated_at` written over it: nothing else changes. */
  lemma UpdateIsSetOfGivenFields(s: Store, id: string, u: BrandUpdate, now: int)
    requires Update(s, id, u, now).Ok?
    ensures ToDoc(Update(s, id, u, now).value.brand) == ToDoc(s[Find(s, id).value]) + UpdateData(u, now)
  {
    var b := s[Find(s, id).value];
    MergeIsSet(b, u, now);
  }

  /** Merging into a brand agrees with `$set` on its stored document. */
  lemma MergeIsSet(b: Brand, u: BrandUpdate, now: int)
    ensures ToDoc(Merge(b, u, now)) == ToDoc(b) + UpdateData(u, now)
  {
    var x := ToDoc(Merge(b, u, now));
    var y := ToDoc(b) + UpdateData(u, now);
    forall k
      ensures (k in x <==> k in y) && (k in x ==> x[k] == y[k])
    {
      MergeIsSetAt(b, u, now, k);
    }
    assert x.Keys == y.Keys;
  }

  /** `MergeIsSet` for one field name. */
  lemma MergeIsSetAt(b: Brand, u: BrandUpdate, now: int, k: string)
    ensures var x, y := ToDoc(Merge(b, u, now)), ToDoc(b) + UpdateData(u, now);
      (k in x <==> k in y) && (k in x ==> x[k] == y[k])
  {
    UpdateDataLookup(u, now, k);
    MergeField(b, u, now, k);
  }

  /** DELETE /{id}. */
  function Delete(s: Store, id: string): (r: Result<Store>)
    ensures Find(s, id).None? <==> r.Err?
    ensures r.Err? ==> r == Err(NotFound, BrandNotFound)
    ensures r.Ok? ==> |r.value| == |s| - 1
  {
    match Find(s, id)
    case None => Err(NotFound, BrandNotFound)
    case Some(i) => Ok(RemoveAt(s, i))
  }

  /** With unique ids, delete removes that brand and keeps every other. */
  lemma DeleteRemovesExactlyThatId(s: Store, id: string, q: Brand)
    requires IdsUnique(s) && Delete(s, id).Ok?
    ensures q in Delete(s, id).value <==> q in s && q.id != id
  {
    var i := Find(s, id).value;
    var r := Delete(s, id).value;
    if q in r {
      var k :| 0 <= k < |r| && r[k] == q;
      if k < i {
        assert s[k] == q;
      } else {
        assert s[k + 1] == q;
      }
    }
    if q in s && q.id != id {
      var k :| 0 <= k < |s| && s[k] == q;
      if k < i {
        assert r[k] == q;
      } else {
        assert k != i;
        assert r[k - 1] == q;
      }
    }
  }

  datatype BulkOutcome = BulkOutcome(store: Store, modified: nat)

  /** POST /bulk-activate and /bulk-deactivate: every listed brand gets the
      flag and `now`; a document counts as modified when one of the two
      fields differs from what was stored. */
  function BulkSetActive(s: Store, ids: seq<string>, flag: bool, now: int): (r: BulkOutcome)
    ensures |r.store| == |s| && r.modified <= |s|
    ensures forall i :: 0 <= i < |s| && s[i].id in ids ==>
      r.store[i] == s[i].(isActive := flag, updatedAt := now)
    ensures forall i :: 0 <= i < |s| && s[i].id !in ids ==> r.store[i] == s[i]
  {
    if |s| == 0 then BulkOutcome([], 0)
    else
      var rest := BulkSetActive(s[1..], ids, flag, now);
      var hit := s[0].id in ids;
      var b := if hit then s[0].(isActive := flag, updatedAt := now) else s[0];
      var changed := hit && (s[0].isActive != flag || s[0].updatedAt != now);
      BulkOutcome([b] + rest.store, rest.modified + if changed then 1 else 0)
  }

  /** Positions at which two collections of equal length differ. */
  function Differences(a: Store, b: Store): nat
    requires |a| == |b|
  {
    if |a| == 0 then 0 else (if a[0] != b[0] then 1 else 0) + Differences(a[1..], b[1..])
  }

  lemma {:induction false} BulkCountsChangedRecords(s: Store, ids: seq<string>, flag: bool, now: int)
    ensures BulkSetActive(s, ids, flag, now).modified
         == Differences(s, BulkSetActive(s, ids, flag, now).store)
  {
    if |s| > 0 {
      var r := BulkSetActive(s, ids, flag, now);
      BulkCountsChangedRecords(s[1..], ids, flag, now);
      assert r.store[1..] == BulkSetActive(s[1..], ids, flag, now).store;
    }
  }

  // ---------------------------------------------------------------------
  // Reorder

  /** Sets `order` and `updated_at` on the first brand with that id; an
      unknown id changes nothing. */
  function SetOrder(s: Store, id: string, order: int, now: int): (r: Store)
    ensures |r| == |s|
  {
    match Find(s, id)
    case None => s
    case Some(i) => s[i := s[i].(order := order, updatedAt := now)]
  }

  /** PUT /reorder on a list of `{"id": .., "order": ..}` items, applied one
      by one. An item without one of the two keys raises a `KeyError`,
      reported as 500 with the items before it already applied. An id is
      compared with the brands' string ids; an id that is a query object
      (such as `{"$ne": ""}`), which the document store would read as an
      operator, is not modelled. */
  datatype Reordered = Reordered(store: Store, result: Result<nat>)

  function Reorder(s: Store, items: seq<Body>, now: int): (r: Reordered)
    ensures |r.store| == |s|
    ensures r.result.Ok? ==> r.result.value == |items|
    ensures r.result.Err? ==> r.result.status == ServerError
    decreases |items|
  {
    if |items| == 0 then Reordered(s, Ok(0))
    else
      var item := items[0];
      if "id" !in item then Reordered(s, Err(ServerError, "Error reordering brands: 'id'"))
      else if "order" !in item || !item["order"].Num? then
        Reordered(s, Err(ServerError, "Error reordering brands: 'order'"))
      else
        var s1 := if item["id"].Str? then SetOrder(s, item["id"].s, item["order"].n, now) else s;
        var rest := Reorder(s1, items[1..], now);
        Reordered(rest.store, if rest.result.Ok? then Ok(|items|) else rest.result)
  }

  /** Every item is well formed: a string id and an integer order. */
  predicate WellFormedItems(items: seq<Body>)
  {
    forall k :: 0 <= k < |items| ==>
      "id" in items[k] && items[k]["id"].Str? && "order" in items[k] && items[k]["order"].Num?
  }

  /** The order the last item naming `id` asks for, if any. */
  function LastOrderFor(items: seq<Body>, id: string): (r: Option<int>)
    requires WellFormedItems(items)
  {
    if |items| == 0 then None
    else
      var last := items[|items| - 1];
      if last["id"].s == id then Some(last["order"].n) else LastOrderFor(items[..|items| - 1], id)
  }

  /** With well-formed items and unique ids, reorder succeeds, every brand
      named by an item ends with the last order asked for it, and every
      other brand is unchanged. */
  lemma {:induction false} ReorderSetsListed(s: Store, items: seq<Body>, now: int, i: int)
    requires IdsUnique(s) && WellFormedItems(items) && 0 <= i < |s|
    ensures var r := Reorder(s, items, now);
      r.result == Ok(|items|)
      && IdsUnique(r.store)
      && (LastOrderFor(items, s[i].id).None? ==> r.store[i] == s[i])
      && (LastOrderFor(items, s[i].id).Some? ==>
            r.store[i] == s[i].(order := LastOrderFor(items, s[i].id).value, updatedAt := now))
    decreases |items|
  {
    if |items| > 0 {
      var n := |items| - 1;
      var init := items[..n];
      assert WellFormedItems(init);
      ReorderSetsListed(s, init, now, i);
      ReorderSnoc(s, init, items[n], now);
      assert init + [items[n]] == items;
      var r0 := Reorder(s, init, now).store;
      SetOrderAt(r0, items[n]["id"].s, items[n]["order"].n, now, i);
    }
  }

  /** Applying one more item is a `SetOrder` after the others. */
  lemma {:induction false} ReorderSnoc(s: Store, items: seq<Body>, item: Body, now: int)
    requires WellFormedItems(items) && "id" in item && item["id"].Str? && "order" in item && item["order"].Num?
    ensures Reorder(s, items, now).result.Ok?
    ensures Reorder(s, items + [item], now)
         == Reordered(SetOrder(Reorder(s, items, now).store, item["id"].s, item["order"].n, now),
                      Ok(|items| + 1))
    decreases |items|
  {
    if |items| == 0 {
      assert [item][1..] == [];
    } else {
      var s1 := SetOrder(s, items[0]["id"].s, items[0]["order"].n, now);
      assert (items + [item])[1..] == items[1..] + [item];
      assert WellFormedItems(items[1..]);
      ReorderSnoc(s1, items[1..], item, now);
    }
  }

  /** `SetOrder` at one position of a collection with unique ids. */
  lemma SetOrderAt(s: Store, id: string, order: int, now: int, i: int)
    requires IdsUnique(s) && 0 <= i < |s|
    ensures IdsUnique(SetOrder(s, id, order, now))
    ensures s[i].id == id ==> SetOrder(s, id, order, now)[i] == s[i].(order := order, updatedAt := now)
    ensures s[i].id != id ==> SetOrder(s, id, order, now)[i] == s[i]
  {
    var r := SetOrder(s, id, order, now);
    assert forall k :: 0 <= k < |r| ==> r[k].id == s[k].id;
  }

  // ---------------------------------------------------------------------
  // Routing

  /** The handlers of the brands router. */
  datatype Handler =
    | ListAll | ListActive | GetOne | CreateOne | UpdateOne | DeleteOne
    | ReorderAll | BulkActivate | BulkDeactivate

  /** A path segment pattern: a literal, or a `{brand_id}` parameter. */
  datatype Segment = Lit(text: string) | Param

  datatype Route = Route(verb: string, pattern: seq<Segment>, handler: Handler)

  predicate Matches(pattern: seq<Segment>, path: seq<string>)
  {
    |pattern| == |path|
    && forall k :: 0 <= k < |path| ==> (pattern[k].Lit? ==> pattern[k].text == path[k])
  }

  predicate Takes(route: Route, verb: string, path: seq<string>)
  {
    route.verb == verb && Matches(route.pattern, path)
  }

  /** The first declared route that matches handles the request. */
  function Dispatch(routes: seq<Route>, verb: string, path: seq<string>): Option<Handler>
  {
    DispatchFrom(routes, 0, verb, path)
  }

  /** The first matching route at position `i` or later. */
  function DispatchFrom(routes: seq<Route>, i: nat, verb: string, path: seq<string>): (r: Option<Handler>)
    ensures r.Some? ==> exists k :: i <= k < |routes| && routes[k].handler == r.value
                                    && Takes(routes[k], verb, path)
    decreases |routes| - i
  {
    if i >= |routes| then None
    else if Takes(routes[i], verb, path) then Some(routes[i].handler)
    else DispatchFrom(routes, i + 1, verb, path)
  }

  /** A matching route at `j` means some route no later than `j` answers. */
  lemma {:induction false} AnsweredBy(routes: seq<Route>, i: nat, j: nat, verb: string, path: seq<string>)
    requires i <= j < |routes| && Takes(routes[j], verb, path)
    ensures DispatchFrom(routes, i, verb, path).Some?
    ensures exists k :: i <= k <= j && routes[k].handler == DispatchFrom(routes, i, verb, path).value
    decreases j - i
  {
    if !Takes(routes[i], verb, path) {
      AnsweredBy(routes, i + 1, j, verb, path);
    }
  }

  /** Dispatch from `i` only looks at the routes from `i` on. */
  lemma {:induction false} SameSuffixSameDispatch(a: seq<Route>, b: seq<Route>, i: nat, verb: string, path: seq<string>)
    requires |a| == |b| && i <= |a| && a[i..] == b[i..]
    ensures DispatchFrom(a, i, verb, path) == DispatchFrom(b, i, verb, path)
    decreases |a| - i
  {
    if i < |a| {
      assert a[i] == a[i..][0] && b[i] == b[i..][0];
      assert a[i + 1..] == a[i..][1..] && b[i + 1..] == b[i..][1..];
      SameSuffixSameDispatch(a, b, i + 1, verb, path);
    }
  }

  /** The routes in the order the router declares them. */
  const RoutesAsWritten: seq<Route> := [
    Route("GET", [], ListAll),
    Route("GET", [Lit("active")], ListActive),
    Route("GET", [Param], GetOne),
    Route("POST", [], CreateOne),
    Route("PUT", [Param], UpdateOne),
    Route("DELETE", [Param], DeleteOne),
    Route("PUT", [Lit("reorder")], ReorderAll),
    Route("POST", [Lit("bulk-activate")], BulkActivate),
    Route("POST", [Lit("bulk-deactivate")], BulkDeactivate)
  ]

  /** As declared, `PUT /reorder` is taken by `PUT /{brand_id}` ... */
  lemma ReorderShadowed()
    ensures Dispatch(RoutesAsWritten, "PUT", ["reorder"]) == Some(UpdateOne)
  {
    var R, p := RoutesAsWritten, ["reorder"];
    assert !Takes(R[0], "PUT", p) && !Takes(R[1], "PUT", p) && !Takes(R[2], "PUT", p);
    assert !Takes(R[3], "PUT", p) && Takes(R[4], "PUT", p);
  }

  /** ... and no request at all reaches the reorder handler. */
  lemma ReorderUnreachable(verb: string, path: seq<string>)
    ensures Dispatch(RoutesAsWritten, verb, path) != Some(ReorderAll)
  {
    var R := RoutesAsWritten;
    assert Takes(R[6], verb, path) ==> Takes(R[4], verb, path);
    assert DispatchFrom(R, 7, verb, path) != Some(ReorderAll);
    assert DispatchFrom(R, 4, verb, path) != Some(ReorderAll);
    assert DispatchFrom(R, 2, verb, path) != Some(ReorderAll);
  }

  /** The same routes with the literal path declared before the parameter. */
  const Routes: seq<Route> := [
    Route("GET", [], ListAll),
    Route("GET", [Lit("active")], ListActive),
    Route("GET", [Param], GetOne),
    Route("POST", [], CreateOne),
    Route("PUT", [Lit("reorder")], ReorderAll),
    Route("PUT", [Param], UpdateOne),
    Route("DELETE", [Param], DeleteOne),
    Route("POST", [Lit("bulk-activate")], BulkActivate),
    Route("POST", [Lit("bulk-deactivate")], BulkDeactivate)
  ]

  /** Declared first, reorder is reachable ... */
  lemma ReorderReachable()
    ensures Dispatch(Routes, "PUT", ["reorder"]) == Some(ReorderAll)
  {
    var R, p := Routes, ["reorder"];
    assert !Takes(R[0], "PUT", p) && !Takes(R[1], "PUT", p) && !Takes(R[2], "PUT", p);
    assert !Takes(R[3], "PUT", p) && Takes(R[4], "PUT", p);
  }

  /** ... and every other request is handled exactly as before. */
  lemma OtherRequestsUnchanged(verb: string, path: seq<string>)
    requires !(verb == "PUT" && path == ["reorder"])
    ensures Dispatch(Routes, verb, path) == Dispatch(RoutesAsWritten, verb, path)
  {
    var A, B := Routes, RoutesAsWritten;
    assert A[..4] == B[..4];
    SameSuffixSameDispatch(A, B, 7, verb, path);
    var a4 := DispatchFrom(A, 4, verb, path);
    var b4 := DispatchFrom(B, 4, verb, path);
    if verb == "PUT" && |path| == 1 {
      assert path != ["reorder"];
      assert path[0] != "reorder";
      assert !Takes(A[4], verb, path) && Takes(A[5], verb, path);
      assert Takes(B[4], verb, path);
    } else if verb == "DELETE" && |path| == 1 {
      assert !Takes(A[4], verb, path) && !Takes(A[5], verb, path) && Takes(A[6], verb, path);
      assert !Takes(B[4], verb, path) && Takes(B[5], verb, path);
    } else {
      assert !Takes(A[4], verb, path) && !Takes(A[5], verb, path) && !Takes(A[6], verb, path);
      assert !Takes(B[4], verb, path) && !Takes(B[5], verb, path) && !Takes(B[6], verb, path);
    }
    assert a4 == b4;
    PrefixThenSame(A, B, verb, path);
  }

  /** The two tables share their first four routes. */
  lemma PrefixThenSame(a: seq<Route>, b: seq<Route>, verb: string, path: seq<string>)
    requires |a| >= 4 && |b| >= 4 && a[..4] == b[..4]
    requires DispatchFrom(a, 4, verb, path) == DispatchFrom(b, 4, verb, path)
    ensures DispatchFrom(a, 0, verb, path) == DispatchFrom(b, 0, verb, path)
  {
    SamePrefixFrom(a, b, 0, verb, path);
  }

  /** From any position in the shared prefix on, the two dispatches agree. */
  lemma {:induction false} SamePrefixFrom(a: seq<Route>, b: seq<Route>, i: nat, verb: string, path: seq<string>)
    requires i <= 4 <= |a| && 4 <= |b| && a[..4] == b[..4]
    requires DispatchFrom(a, 4, verb, path) == DispatchFrom(b, 4, verb, path)
    ensures DispatchFrom(a, i, verb, path) == DispatchFrom(b, i, verb, path)
    decreases 4 - i
  {
    if i < 4 {
      assert a[i] == a[..4][i] == b[..4][i] == b[i];
      SamePrefixFrom(a, b, i + 1, verb, path);
      SameRouteStep(a, b, i, verb, path);
    }
  }

  lemma SameRouteStep(a: seq<Route>, b: seq<Route>, i: nat, verb: string, path: seq<string>)
    requires i < |a| && i < |b| && a[i] == b[i]
    requires DispatchFrom(a, i + 1, verb, path) == DispatchFrom(b, i + 1, verb, path)
    ensures DispatchFrom(a, i, verb, path) == DispatchFrom(b, i, verb, path)
  {
  }
}
