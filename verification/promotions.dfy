/** The promotions collection and its admin endpoints, with the request
    models that validate their bodies. The collection is a sequence in
    insertion order; ids are strings chosen by the caller's id generator,
    instants are integers (microseconds). */
module Promotions {
  import opened Common
  import opened Json
  import opened Sorting
  import opened Fields

  /** A stored promotion. `kind` is the `type` field. */
  datatype Promotion = Promotion(
    id: string,
    title: string,
    discount: string,
    kind: string,
    description: string,
    features: seq<string>,
    imageUrl: Option<string>,
    isActive: bool,
    startDate: int,
    endDate: int,
    createdAt: int,
    updatedAt: int)

  type Store = seq<Promotion>

  /** The body of a create request. */
  datatype PromotionCreate = PromotionCreate(
    title: string,
    discount: string,
    kind: string,
    description: string,
    features: seq<string>,
    startDate: int,
    endDate: int)

  /** The body of an update request: every field may be left out. */
  datatype PromotionUpdate = PromotionUpdate(
    title: Option<string>,
    discount: Option<string>,
    kind: Option<string>,
    description: Option<string>,
    features: Option<seq<string>>,
    imageUrl: Option<string>,
    isActive: Option<bool>,
    startDate: Option<int>,
    endDate: Option<int>)

  const NoChange: PromotionUpdate :=
    PromotionUpdate(None, None, None, None, None, None, None, None, None)

  const PromotionNotFound: string := "Promotion not found"
  const DatesOutOfOrder: string := "Start date must be before end date"

  // ---------------------------------------------------------------------
  // Request models

  /** Create: four required strings and two required instants; `features`
      defaults to the empty list. `is_active` and `image_url` are not part
      of the model, so keys of those names are ignored. */
  function ParseCreate(body: Body): (r: Result<PromotionCreate>)
    ensures r.Ok? <==> (HasStr(body, "title") && HasStr(body, "discount")
                        && HasStr(body, "type") && HasStr(body, "description")
                        && StrListOk(body, "features")
                        && HasNum(body, "start_date") && HasNum(body, "end_date"))
    ensures r.Err? ==> r.status == Unprocessable
    ensures r.Ok? ==> body["title"] == Str(r.value.title) && body["discount"] == Str(r.value.discount)
    ensures r.Ok? ==> body["type"] == Str(r.value.kind) && body["description"] == Str(r.value.description)
    ensures r.Ok? ==> (body["start_date"] == Num(r.value.startDate)
                       && body["end_date"] == Num(r.value.endDate))
    ensures r.Ok? && "features" !in body ==> r.value.features == []
    ensures r.Ok? && "features" in body ==> r.value.features == StrListOr(body, "features", [])
  {
    if !HasStr(body, "title") then Invalid("title")
    else if !HasStr(body, "discount") then Invalid("discount")
    else if !HasStr(body, "type") then Invalid("type")
    else if !HasStr(body, "description") then Invalid("description")
    else if !StrListOk(body, "features") then Invalid("features")
    else if !HasNum(body, "start_date") then Invalid("start_date")
    else if !HasNum(body, "end_date") then Invalid("end_date")
    else Ok(PromotionCreate(
      body["title"].s, body["discount"].s, body["type"].s, body["description"].s,
      StrListOr(body, "features", []), body["start_date"].n, body["end_date"].n))
  }

  /** The keys an update request can carry. */
  const UpdateKeys: set<string> :=
    {"title", "discount", "type", "description", "features", "image_url",
     "is_active", "start_date", "end_date"}

  /** Update: every field optional; absent or `null` reads as not given. */
  function ParseUpdate(body: Body): (r: Result<PromotionUpdate>)
    ensures r.Ok? <==> (OptStrOk(body, "title") && OptStrOk(body, "discount")
                        && OptStrOk(body, "type") && OptStrOk(body, "description")
                        && OptStrListOk(body, "features") && OptStrOk(body, "image_url")
                        && OptBoolOk(body, "is_active")
                        && OptNumOk(body, "start_date") && OptNumOk(body, "end_date"))
    ensures r.Err? ==> r.status == Unprocessable
    ensures r.Ok? ==> r.value.title == OptStr(body, "title")
    ensures r.Ok? ==> r.value.discount == OptStr(body, "discount")
    ensures r.Ok? ==> r.value.kind == OptStr(body, "type")
    ensures r.Ok? ==> r.value.description == OptStr(body, "description")
    ensures r.Ok? ==> r.value.features == OptStrList(body, "features")
    ensures r.Ok? ==> r.value.imageUrl == OptStr(body, "image_url")
    ensures r.Ok? ==> r.value.isActive == OptBool(body, "is_active")
    ensures r.Ok? ==> r.value.startDate == OptNum(body, "start_date")
    ensures r.Ok? ==> r.value.endDate == OptNum(body, "end_date")
  {
    if !OptStrOk(body, "title") then Invalid("title")
    else if !OptStrOk(body, "discount") then Invalid("discount")
    else if !OptStrOk(body, "type") then Invalid("type")
    else if !OptStrOk(body, "description") then Invalid("description")
    else if !OptStrListOk(body, "features") then Invalid("features")
    else if !OptStrOk(body, "image_url") then Invalid("image_url")
    else if !OptBoolOk(body, "is_active") then Invalid("is_active")
    else if !OptNumOk(body, "start_date") then Invalid("start_date")
    else if !OptNumOk(body, "end_date") then Invalid("end_date")
    else Ok(PromotionUpdate(
      OptStr(body, "title"), OptStr(body, "discount"), OptStr(body, "type"),
      OptStr(body, "description"), OptStrList(body, "features"),
      OptStr(body, "image_url"), OptBool(body, "is_active"),
      OptNum(body, "start_date"), OptNum(body, "end_date")))
  }

  /** An empty body is a valid update that changes nothing. */
  lemma EmptyBodyIsNoChange()
    ensures ParseUpdate(map[]) == Ok(NoChange)
  {
  }

  /** Keys the update model does not declare make no difference. */
  lemma UnknownKeysIgnored(body: Body, k: string, v: Value)
    requires k !in UpdateKeys
    ensures ParseUpdate(body[k := v]) == ParseUpdate(body)
  {
    assert k != "title" && k != "discount" && k != "type" && k != "description" && k != "features";
    assert k != "image_url" && k != "is_active" && k != "start_date" && k != "end_date";
  }

  // ---------------------------------------------------------------------
  // Queries

  function WithId(id: string): Promotion -> bool
  {
    (p: Promotion) => p.id == id
  }

  /** `find_one({"id": id})`: the first promotion with that id. */
  function Find(s: Store, id: string): (r: Option<nat>)
    ensures r.Some? ==> r.value < |s| && s[r.value].id == id
    ensures r.Some? ==> forall j :: 0 <= j < r.value ==> s[j].id != id
    ensures r.None? <==> forall j :: 0 <= j < |s| ==> s[j].id != id
  {
    var r := FirstIndex(s, WithId(id));
    assert r.Some? ==> WithId(id)(s[r.value]);
    assert r.Some? ==> forall j :: 0 <= j < r.value ==> !WithId(id)(s[j]);
    assert r.None? ==> forall j :: 0 <= j < |s| ==> !WithId(id)(s[j]);
    r
  }

  predicate IdsUnique(s: Store)
  {
    forall i, j :: 0 <= i < j < |s| ==> s[i].id != s[j].id
  }

  /** Every promotion starts strictly before it ends. */
  predicate WindowsValid(s: Store)
  {
    forall i :: 0 <= i < |s| ==> s[i].startDate < s[i].endDate
  }

  /** GET /{id}. */
  function GetPromotion(s: Store, id: string): (r: Result<Promotion>)
    ensures r.Err? <==> (forall j :: 0 <= j < |s| ==> s[j].id != id)
    ensures r.Err? ==> r == Err(NotFound, PromotionNotFound)
    ensures r.Ok? ==> r.value in s && r.value.id == id
  {
    match Find(s, id)
    case None => Err(NotFound, PromotionNotFound)
    case Some(i) => Ok(s[i])
  }

  /** The list order: newest `created_at` first. */
  function NewestFirst(p: Promotion): int
  {
    -p.createdAt
  }

  /** GET /: the newest `ListLimit` promotions, newest first. */
  function AllPromotions(s: Store): (r: Store)
    ensures |r| == if |s| <= ListLimit then |s| else ListLimit
  {
    ToList(SortBy(s, NewestFirst), ListLimit)
  }

  /** The list is newest first and drawn from the store; it is the whole
      store when that holds at most `ListLimit` promotions, and otherwise
      no promotion left out is newer than one listed. */
  lemma AllPromotionsNewestFirst(s: Store)
    ensures SortedBy(AllPromotions(s), NewestFirst)
    ensures multiset(AllPromotions(s)) <= multiset(s)
    ensures |s| <= ListLimit ==> multiset(AllPromotions(s)) == multiset(s)
    ensures forall i, p :: 0 <= i < |AllPromotions(s)| && p in multiset(s) - multiset(AllPromotions(s))
                           ==> NewestFirst(AllPromotions(s)[i]) <= NewestFirst(p)
  {
    TopBy(s, NewestFirst, ListLimit);
  }

  /** Switched on, and `now` within the closed window [start, end]. */
  predicate IsLive(p: Promotion, now: int)
  {
    p.isActive && p.startDate <= now && now <= p.endDate
  }

  function LiveAt(now: int): Promotion -> bool
  {
    (p: Promotion) => IsLive(p, now)
  }

  /** GET /active (and the public active-promotions endpoint): the newest
      `ListLimit` live promotions, newest first. */
  function ActivePromotions(s: Store, now: int): (r: Store)
    ensures |r| <= |s| && |r| <= ListLimit
  {
    ToList(SortBy(Filter(s, LiveAt(now)), NewestFirst), ListLimit)
  }

  /** The active list holds only live promotions of the store, and every
      one of them when there are at most `ListLimit`. */
  lemma ActiveExactlyLive(s: Store, now: int, p: Promotion)
    ensures p in ActivePromotions(s, now) ==> p in s && IsLive(p, now)
    ensures |Filter(s, LiveAt(now))| <= ListLimit ==>
      (p in ActivePromotions(s, now) <==> p in s && IsLive(p, now))
  {
    var f := Filter(s, LiveAt(now));
    SortByPerm(f, NewestFirst);
    var r := ActivePromotions(s, now);
    assert p in r ==> p in multiset(f);
    assert |f| <= ListLimit ==> (p in r <==> p in multiset(f));
    FilterMembers(s, LiveAt(now), p);
  }

  /** ... and lists them in the order of the full list: it is the live part
      of the sorted collection, cut at `ListLimit`, and so the live part of
      the admin list whenever the store holds at most `ListLimit`. */
  lemma ActiveIsSublistOfAll(s: Store, now: int)
    ensures ActivePromotions(s, now) == ToList(Filter(SortBy(s, NewestFirst), LiveAt(now)), ListLimit)
    ensures |s| <= ListLimit ==> ActivePromotions(s, now) == Filter(AllPromotions(s), LiveAt(now))
  {
    FilterSortCommute(s, NewestFirst, LiveAt(now));
  }

  // ---------------------------------------------------------------------
  // Commands

  /** A stored promotion and the collection after the write. */
  datatype Saved = Saved(store: Store, promotion: Promotion)

  /** POST /: `id` comes from the id generator and `now` from the clock.
      The stored record is active and has no image, because the create
      model has neither field. */
  function Create(s: Store, c: PromotionCreate, id: string, now: int): (r: Result<Saved>)
    ensures r.Err? <==> c.startDate >= c.endDate
    ensures r.Err? ==> r == Err(BadRequest, DatesOutOfOrder)
    ensures r.Ok? ==> r.value.store == s + [r.value.promotion]
    ensures r.Ok? ==> var p := r.value.promotion;
      p.id == id && p.title == c.title && p.discount == c.discount && p.kind == c.kind
      && p.description == c.description && p.features == c.features
      && p.startDate == c.startDate && p.endDate == c.endDate
      && p.isActive && p.imageUrl == None && p.createdAt == now && p.updatedAt == now
  {
    if c.startDate >= c.endDate then Err(BadRequest, DatesOutOfOrder)
    else
      var p := Promotion(id, c.title, c.discount, c.kind, c.description, c.features,
                         None, true, c.startDate, c.endDate, now, now);
      Ok(Saved(s + [p], p))
  }

  /** The record after a partial update: given fields replace stored ones;
      the id and the creation time are never touched. */
  function Merge(p: Promotion, u: PromotionUpdate, now: int): (r: Promotion)
    ensures r.id == p.id && r.createdAt == p.createdAt && r.updatedAt == now
    ensures u == NoChange ==> r == p.(updatedAt := now)
  {
    p.(title := u.title.GetOr(p.title),
       discount := u.discount.GetOr(p.discount),
       kind := u.kind.GetOr(p.kind),
       description := u.description.GetOr(p.description),
       features := u.features.GetOr(p.features),
       imageUrl := if u.imageUrl.Some? then u.imageUrl else p.imageUrl,
       isActive := u.isActive.GetOr(p.isActive),
       startDate := u.startDate.GetOr(p.startDate),
       endDate := u.endDate.GetOr(p.endDate),
       updatedAt := now)
  }

  /** PUT /{id}: 404 for an unknown id; 400 when the start and end after
      the update (given ones, else stored ones) are out of order. */
  function Update(s: Store, id: string, u: PromotionUpdate, now: int): (r: Result<Saved>)
    ensures Find(s, id).None? <==> r == Err(NotFound, PromotionNotFound)
    ensures r == Err(BadRequest, DatesOutOfOrder) <==>
      (Find(s, id).Some?
       && u.startDate.GetOr(s[Find(s, id).value].startDate)
          >= u.endDate.GetOr(s[Find(s, id).value].endDate))
    ensures r.Ok? ==> Find(s, id).Some?
    ensures r.Ok? ==> r.value.store == s[Find(s, id).value := r.value.promotion]
    ensures r.Ok? ==> r.value.promotion.startDate < r.value.promotion.endDate
    ensures r.Ok? ==> r.value.promotion.id == id && r.value.promotion.updatedAt == now
  {
    match Find(s, id)
    case None => Err(NotFound, PromotionNotFound)
    case Some(i) =>
      var next := Merge(s[i], u, now);
      if next.startDate >= next.endDate then Err(BadRequest, DatesOutOfOrder)
      else Ok(Saved(s[i := next], next))
  }

  /** The field names of a stored promotion document. */
  const DocKeys: set<string> :=
    {"id", "title", "discount", "type", "description", "features", "image_url",
     "is_active", "start_date", "end_date", "created_at", "updated_at"}

  /** One field of the stored document. */
  function Field(p: Promotion, k: string): Value
  {
    if k == "id" then Str(p.id)
    else if k == "title" then Str(p.title)
    else if k == "discount" then Str(p.discount)
    else if k == "type" then Str(p.kind)
    else if k == "description" then Str(p.description)
    else if k == "features" then StrArray(p.features)
    else if k == "image_url" then OptStrValue(p.imageUrl)
    else if k == "is_active" then Bool(p.isActive)
    else if k == "start_date" then Num(p.startDate)
    else if k == "end_date" then Num(p.endDate)
    else if k == "created_at" then Num(p.createdAt)
    else if k == "updated_at" then Num(p.updatedAt)
    else Null
  }

  /** The stored document of a promotion, keyed by field name: every field
      is set, and only a missing image is stored as `null`. */
  function ToDoc(p: Promotion): (r: map<string, Value>)
    ensures r.Keys == DocKeys
    ensures forall k :: k in r ==> (r[k] == Null <==> k == "image_url" && p.imageUrl.None?)
  {
    map k | k in DocKeys :: Field(p, k)
  }

  /** One field of the update model as a plain dictionary (`None` as `null`). */
  function UpdateField(u: PromotionUpdate, k: string): Value
  {
    if k == "title" then OptStrValue(u.title)
    else if k == "discount" then OptStrValue(u.discount)
    else if k == "type" then OptStrValue(u.kind)
    else if k == "description" then OptStrValue(u.description)
    else if k == "features" then (if u.features.Some? then StrArray(u.features.value) else Null)
    else if k == "image_url" then OptStrValue(u.imageUrl)
    else if k == "is_active" then (if u.isActive.Some? then Bool(u.isActive.value) else Null)
    else if k == "start_date" then (if u.startDate.Some? then Num(u.startDate.value) else Null)
    else if k == "end_date" then (if u.endDate.Some? then Num(u.endDate.value) else Null)
    else Null
  }

  /** The `$set` document of an update: the fields that are not `None`,
      then `updated_at`. */
  function UpdateData(u: PromotionUpdate, now: int): map<string, Value>
  {
    (map k | k in UpdateKeys && UpdateField(u, k) != Null :: UpdateField(u, k))["updated_at" := Num(now)]
  }

  /** A successful update stores exactly the old document with the given
      fields and `updated_at` written over it: nothing else changes. */
  lemma UpdateIsSetOfGivenFields(s: Store, id: string, u: PromotionUpdate, now: int)
    requires Update(s, id, u, now).Ok?
    ensures var i := Find(s, id).value;
      ToDoc(Update(s, id, u, now).value.promotion) == ToDoc(s[i]) + UpdateData(u, now)
  {
    var p := s[Find(s, id).value];
    MergeIsSet(p, u, now);
  }

  lemma MergeIsSet(p: Promotion, u: PromotionUpdate, now: int)
    ensures ToDoc(Merge(p, u, now)) == ToDoc(p) + UpdateData(u, now)
  {
    var a := ToDoc(Merge(p, u, now));
    var b := ToDoc(p) + UpdateData(u, now);
    forall k
      ensures (k in a <==> k in b) && (k in a ==> a[k] == b[k])
    {
      MergeIsSetAt(p, u, now, k);
    }
    assert a.Keys == b.Keys;
  }

  /** `MergeIsSet` for one field name. */
  lemma MergeIsSetAt(p: Promotion, u: PromotionUpdate, now: int, k: string)
    ensures var a, b := ToDoc(Merge(p, u, now)), ToDoc(p) + UpdateData(u, now);
      (k in a <==> k in b) && (k in a ==> a[k] == b[k])
  {
    UpdateDataLookup(u, now, k);
    MergeField(p, u, now, k);
  }

  lemma UpdateDataLookup(u: PromotionUpdate, now: int, k: string)
    ensures k in UpdateData(u, now) ==> k in DocKeys
    ensures k == "updated_at" ==> k in UpdateData(u, now) && UpdateData(u, now)[k] == Num(now)
    ensures k != "updated_at" ==> (k in UpdateData(u, now) <==> k in UpdateKeys && UpdateField(u, k) != Null)
    ensures k != "updated_at" && k in UpdateData(u, now) ==> UpdateData(u, now)[k] == UpdateField(u, k)
  {
  }

  lemma MergeField(p: Promotion, u: PromotionUpdate, now: int, k: string)
    ensures k == "updated_at" ==> Field(Merge(p, u, now), k) == Num(now)
    ensures k != "updated_at" && k in UpdateKeys && UpdateField(u, k) != Null ==>
      Field(Merge(p, u, now), k) == UpdateField(u, k)
    ensures k != "updated_at" && !(k in UpdateKeys && UpdateField(u, k) != Null) ==>
      Field(Merge(p, u, now), k) == Field(p, k)
  {
  }

  /** DELETE /{id}: 404 for an unknown id, else the first record with
      that id is removed. */
  function Delete(s: Store, id: string): (r: Result<Store>)
    ensures Find(s, id).None? <==> r == Err(NotFound, PromotionNotFound)
    ensures r.Ok? ==> |r.value| == |s| - 1
  {
    match Find(s, id)
    case None => Err(NotFound, PromotionNotFound)
    case Some(i) => Ok(RemoveAt(s, i))
  }

  /** With unique ids, delete removes that promotion and keeps every other. */
  lemma DeleteRemovesExactlyThatId(s: Store, id: string, q: Promotion)
    requires IdsUnique(s) && Delete(s, id).Ok?
    ensures q in Delete(s, id).value <==> q in s && q.id != id
  {
    var i := Find(s, id).value;
    var r := Delete(s, id).value;
    if q in r {
      var k :| 0 <= k < |r| && r[k] == q;
      if k < i {
        assert s[k] == q;
      } else {
        assert s[k + 1] == q;
      }
    }
    if q in s && q.id != id {
      var k :| 0 <= k < |s| && s[k] == q;
      if k < i {
        assert r[k] == q;
      } else {
        assert k != i;
        assert r[k - 1] == q;
      }
    }
  }

  /** The result of a bulk activate/deactivate: the collection and the
      store's count of documents it actually changed. */
  datatype BulkOutcome = BulkOutcome(store: Store, modified: nat)

  /** POST /bulk-activate (`flag` true) and /bulk-deactivate (`flag` false):
      every promotion whose id is listed gets `is_active := flag` and
      `updated_at := now`; a document counts as modified when one of the two
      fields differs from what was stored. */
  function BulkSetActive(s: Store, ids: seq<string>, flag: bool, now: int): (r: BulkOutcome)
    ensures |r.store| == |s| && r.modified <= |s|
    ensures forall i :: 0 <= i < |s| && s[i].id in ids ==>
      r.store[i] == s[i].(isActive := flag, updatedAt := now)
    ensures forall i :: 0 <= i < |s| && s[i].id !in ids ==> r.store[i] == s[i]
  {
    if |s| == 0 then BulkOutcome([], 0)
    else
      var rest := BulkSetActive(s[1..], ids, flag, now);
      var hit := s[0].id in ids;
      var p := if hit then s[0].(isActive := flag, updatedAt := now) else s[0];
      var changed := hit && (s[0].isActive != flag || s[0].updatedAt != now);
      BulkOutcome([p] + rest.store, rest.modified + if changed then 1 else 0)
  }

  /** Positions at which two collections of equal length differ. */
  function Differences(a: Store, b: Store): nat
    requires |a| == |b|
  {
    if |a| == 0 then 0 else (if a[0] != b[0] then 1 else 0) + Differences(a[1..], b[1..])
  }

  /** The modified count is the number of records that changed. */
  lemma {:induction false} BulkCountsChangedRecords(s: Store, ids: seq<string>, flag: bool, now: int)
    ensures BulkSetActive(s, ids, flag, now).modified
         == Differences(s, BulkSetActive(s, ids, flag, now).store)
  {
    if |s| > 0 {
      var r := BulkSetActive(s, ids, flag, now);
      BulkCountsChangedRecords(s[1..], ids, flag, now);
      assert r.store[1..] == BulkSetActive(s[1..], ids, flag, now).store;
    }
  }

  /** Repeating the same bulk request at the same instant changes nothing
      and reports no modification. */
  lemma {:induction false} BulkIdempotent(s: Store, ids: seq<string>, flag: bool, now: int)
    ensures var once := BulkSetActive(s, ids, flag, now).store;
      BulkSetActive(once, ids, flag, now) == BulkOutcome(once, 0)
  {
    if |s| > 0 {
      var once := BulkSetActive(s, ids, flag, now).store;
      BulkIdempotent(s[1..], ids, flag, now);
      assert once[1..] == BulkSetActive(s[1..], ids, flag, now).store;
      assert once == [once[0]] + once[1..];
    }
  }

  // ---------------------------------------------------------------------
  // Invariants kept by the commands

  lemma CreateKeepsInvariants(s: Store, c: PromotionCreate, id: string, now: int)
    requires IdsUnique(s) && WindowsValid(s) && Find(s, id).None?
    requires Create(s, c, id, now).Ok?
    ensures IdsUnique(Create(s, c, id, now).value.store)
    ensures WindowsValid(Create(s, c, id, now).value.store)
  {
  }

  lemma UpdateKeepsInvariants(s: Store, id: string, u: PromotionUpdate, now: int)
    requires IdsUnique(s) && WindowsValid(s) && Update(s, id, u, now).Ok?
    ensures IdsUnique(Update(s, id, u, now).value.store)
    ensures WindowsValid(Update(s, id, u, now).value.store)
  {
  }

  lemma DeleteKeepsInvariants(s: Store, id: string)
    requires IdsUnique(s) && WindowsValid(s) && Delete(s, id).Ok?
    ensures IdsUnique(Delete(s, id).value) && WindowsValid(Delete(s, id).value)
  {
    var i := Find(s, id).value;
    var r := Delete(s, id).value;
    assert forall k :: 0 <= k < |r| ==> r[k] == s[if k < i then k else k + 1];
  }

  lemma BulkKeepsInvariants(s: Store, ids: seq<string>, flag: bool, now: int)
    requires IdsUnique(s) && WindowsValid(s)
    ensures IdsUnique(BulkSetActive(s, ids, flag, now).store)
    ensures WindowsValid(BulkSetActive(s, ids, flag, now).store)
  {
    var r := BulkSetActive(s, ids, flag, now).store;
    assert forall k :: 0 <= k < |r| ==>
      (r[k].id == s[k].id && r[k].startDate == s[k].startDate && r[k].endDate == s[k].endDate);
  }
}
