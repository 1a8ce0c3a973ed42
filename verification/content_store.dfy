/** The `site_config` collection behind the content endpoints: one entry per
    (section, key) with its value, optional description and last update time,
    and the admin and public reads, writes and default seeding over it. */
module ContentStore {
  import opened Common
  import opened Json

  datatype Entry = Entry(value: Value, description: Option<string>, updatedAt: int)

  /** The collection, keyed by (section, key); every write path looks an entry
      up by that pair first, so the pair identifies an entry. */
  type Store = map<(string, string), Entry>

  /** Body of a create request. Its own `section` field is overridden by the
      section named in the path. */
  datatype ConfigCreate = ConfigCreate(section: string, key: string, value: Value, description: Option<string>)

  /** Body of an update request; `Null` is Python's `None`, "not supplied". */
  datatype ConfigUpdate = ConfigUpdate(value: Value, description: Option<string>)

  /** The sections that hold at least one entry. */
  function SectionsOf(store: Store): (r: set<string>)
    ensures forall p :: p in store ==> p.0 in r
    ensures forall s :: s in r ==> exists k :: (s, k) in store
  {
    set p | p in store :: p.0
  }

  /** The entries of one section, by key. */
  function SectionEntries(store: Store, section: string): (r: map<string, Entry>)
    ensures forall k :: k in r <==> (section, k) in store
    ensures forall k :: k in r ==> r[k] == store[(section, k)]
  {
    map p | p in store && p.0 == section :: p.1 := store[p]
  }

  /** Admin "all sections": section -> key -> entry. */
  function GroupSections(store: Store): (r: map<string, map<string, Entry>>)
    ensures forall p :: p in store ==> p.0 in r && p.1 in r[p.0] && r[p.0][p.1] == store[p]
    ensures forall s :: s in r ==> forall k :: k in r[s] ==> (s, k) in store
    ensures forall s :: s in r ==> |r[s]| > 0
  {
    map s | s in SectionsOf(store) :: SectionEntries(store, s)
  }

  /** Admin "one section": no entry gives an empty map, not an error. */
  function GetSection(store: Store, section: string): (r: map<string, Entry>)
    ensures forall k :: k in r <==> (section, k) in store
    ensures forall k :: k in r ==> r[k] == store[(section, k)]
  {
    SectionEntries(store, section)
  }

  /** A section that has entries reads the same through both admin endpoints;
      one without entries is absent from the grouping and empty on its own. */
  lemma GetSectionAgreesWithGroup(store: Store, section: string)
    ensures section in GroupSections(store) ==> GetSection(store, section) == GroupSections(store)[section]
    ensures section !in GroupSections(store) ==> GetSection(store, section) == map[]
  {
    var g := GroupSections(store);
    var r := GetSection(store, section);
    if section in g {
      assert g[section] == SectionEntries(store, section);
    } else {
      assert r.Keys == {} by {
        assert forall k :: k in r ==> section in g;
      }
    }
  }

  /** POST /section/{section}: 400 if the pair exists, otherwise a new entry
      under the path's section, stamped `now`. */
  function CreateConfig(store: Store, section: string, body: ConfigCreate, now: int): (r: Result<Store>)
    ensures (section, body.key) in store <==> r.Err?
    ensures r.Err? ==> r.status == BadRequest
    ensures r.Ok? ==> r.value == store[(section, body.key) := Entry(body.value, body.description, now)]
  {
    if (section, body.key) in store then
      Err(BadRequest, "Configuration " + body.key + " already exists in section " + section)
    else
      Ok(store[(section, body.key) := Entry(body.value, body.description, now)])
  }

  /** PUT /section/{section}/{key}: creates a missing entry; on an existing
      one, value and description change only when supplied. */
  function UpdateConfig(store: Store, section: string, key: string, body: ConfigUpdate, now: int): (r: Store)
    ensures r.Keys == store.Keys + {(section, key)}
    ensures forall p :: p in store && p != (section, key) ==> r[p] == store[p]
    ensures r[(section, key)].updatedAt == now
    ensures (section, key) !in store ==> r[(section, key)] == Entry(body.value, body.description, now)
    ensures (section, key) in store ==>
      r[(section, key)].value == (if body.value != Null then body.value else store[(section, key)].value)
    ensures (section, key) in store ==>
      r[(section, key)].description == (if body.description.Some? then body.description else store[(section, key)].description)
  {
    if (section, key) !in store then
      store[(section, key) := Entry(body.value, body.description, now)]
    else
      var prev := store[(section, key)];
      var value := if body.value != Null then body.value else prev.value;
      var description := if body.description.Some? then body.description else prev.description;
      store[(section, key) := Entry(value, description, now)]
  }

  /** An update that supplies nothing only refreshes the timestamp. */
  lemma EmptyUpdateTouchesOnlyTime(store: Store, section: string, key: string, now: int)
    requires (section, key) in store
    ensures var r := UpdateConfig(store, section, key, ConfigUpdate(Null, None), now);
      r[(section, key)] == store[(section, key)].(updatedAt := now)
  {
  }

  /** DELETE /section/{section}/{key}: 404 if missing, else exactly that pair goes. */
  function DeleteConfig(store: Store, section: string, key: string): (r: Result<Store>)
    ensures (section, key) !in store <==> r.Err?
    ensures r.Err? ==> r.status == NotFound && r.detail == "Configuration not found"
    ensures r.Ok? ==> r.value.Keys == store.Keys - {(section, key)}
    ensures r.Ok? ==> forall p :: p in r.value ==> r.value[p] == store[p]
  {
    if (section, key) !in store then Err(NotFound, "Configuration not found")
    else Ok(store - {(section, key)})
  }

  /** Creating then deleting the same pair gives back the original store. */
  lemma CreateThenDelete(store: Store, section: string, body: ConfigCreate, now: int)
    requires (section, body.key) !in store
    ensures CreateConfig(store, section, body, now).Ok?
    ensures DeleteConfig(CreateConfig(store, section, body, now).value, section, body.key) == Ok(store)
  {
    var s1 := CreateConfig(store, section, body, now).value;
    assert s1 - {(section, body.key)} == store;
  }

  // ---------------------------------------------------------------- bulk update

  /** One `update_one(..., upsert=True)` of the bulk endpoint: the value and
      time are set; a new entry gets no description. */
  function Upsert(store: Store, section: string, key: string, value: Value, now: int): (r: Store)
    ensures r.Keys == store.Keys + {(section, key)}
    ensures r[(section, key)].value == value && r[(section, key)].updatedAt == now
    ensures r[(section, key)].description
         == if (section, key) in store then store[(section, key)].description else None
    ensures forall p :: p in store && p != (section, key) ==> r[p] == store[p]
  {
    var description := if (section, key) in store then store[(section, key)].description else None;
    store[(section, key) := Entry(value, description, now)]
  }

  /** A bulk request, `{section: {key: value}}`, as the sequence of its
      sections, each with the sequence of its key/value pairs, in the order
      the endpoint iterates them. */
  type Updates = seq<(string, seq<(string, Value)>)>

  /** The number of key/value pairs in the request. */
  function TotalKeys(updates: Updates): nat
  {
    if |updates| == 0 then 0 else TotalKeys(updates[..|updates| - 1]) + |updates[|updates| - 1].1|
  }

  /** The value the request gives `key` within one section (the last one wins). */
  function LastValue(kvs: seq<(string, Value)>, key: string): Option<Value>
  {
    if |kvs| == 0 then None
    else if kvs[|kvs| - 1].0 == key then Some(kvs[|kvs| - 1].1)
    else LastValue(kvs[..|kvs| - 1], key)
  }

  /** The value the request gives the pair (section, key), if it names it. */
  function Requested(updates: Updates, section: string, key: string): Option<Value>
  {
    if |updates| == 0 then None
    else
      var last := updates[|updates| - 1];
      if last.0 == section && LastValue(last.1, key).Some? then LastValue(last.1, key)
      else Requested(updates[..|updates| - 1], section, key)
  }

  /** The description an upserted pair ends with: the stored one, or none. */
  function KeptDescription(store: Store, p: (string, string)): Option<string>
  {
    if p in store then store[p].description else None
  }

  /** The store after upserting the first pairs of one section. */
  function UpsertPairs(store: Store, section: string, kvs: seq<(string, Value)>, now: int): Store
  {
    if |kvs| == 0 then store
    else
      var last := kvs[|kvs| - 1];
      Upsert(UpsertPairs(store, section, kvs[..|kvs| - 1], now), section, last.0, last.1, now)
  }

  /** The store after the first sections of the request. */
  function UpsertAll(store: Store, updates: Updates, now: int): Store
  {
    if |updates| == 0 then store
    else
      var last := updates[|updates| - 1];
      UpsertPairs(UpsertAll(store, updates[..|updates| - 1], now), last.0, last.1, now)
  }

  /** Reading one pair after a section's upserts. */
  lemma {:induction false} UpsertPairsLookup(store: Store, section: string, kvs: seq<(string, Value)>, now: int, p: (string, string))
    ensures var r := UpsertPairs(store, section, kvs, now);
      var named := p.0 == section && LastValue(kvs, p.1).Some?;
      && (p in r <==> p in store || named)
      && (named ==> r[p] == Entry(LastValue(kvs, p.1).value, KeptDescription(store, p), now))
      && (!named && p in store ==> r[p] == store[p])
  {
    if |kvs| > 0 {
      UpsertPairsLookup(store, section, kvs[..|kvs| - 1], now, p);
    }
  }

  /** Reading one pair after the whole request. */
  lemma {:induction false} UpsertAllLookup(store: Store, updates: Updates, now: int, p: (string, string))
    ensures var r := UpsertAll(store, updates, now);
      var req := Requested(updates, p.0, p.1);
      && (p in r <==> p in store || req.Some?)
      && (req.Some? ==> r[p] == Entry(req.value, KeptDescription(store, p), now))
      && (req.None? && p in store ==> r[p] == store[p])
  {
    if |updates| > 0 {
      var init := updates[..|updates| - 1];
      var last := updates[|updates| - 1];
      UpsertAllLookup(store, init, now, p);
      UpsertPairsLookup(UpsertAll(store, init, now), last.0, last.1, now, p);
    }
  }

  /** PUT /bulk-update: every pair the request names ends up holding its
      value, stamped `now`, keeping a stored description; every other entry is
      untouched; the reported count is the number of pairs in the request. */
  method BulkUpdate(store: Store, updates: Updates, now: int) returns (result: Store, count: nat)
    ensures count == TotalKeys(updates)
    ensures result == UpsertAll(store, updates, now)
    ensures forall p :: p in result <==> p in store || Requested(updates, p.0, p.1).Some?
    ensures forall p: (string, string) :: Requested(updates, p.0, p.1).Some? ==>
      result[p] == Entry(Requested(updates, p.0, p.1).value, KeptDescription(store, p), now)
    ensures forall p :: p in store && Requested(updates, p.0, p.1).None? ==> result[p] == store[p]
  {
    result, count := store, 0;
    var i := 0;
    while i < |updates|
      invariant 0 <= i <= |updates|
      invariant count == TotalKeys(updates[..i])
      invariant result == UpsertAll(store, updates[..i], now)
    {
      var section, kvs := updates[i].0, updates[i].1;
      var before := result;
      var j := 0;
      while j < |kvs|
        invariant 0 <= j <= |kvs|
        invariant result == UpsertPairs(before, section, kvs[..j], now)
        invariant count == TotalKeys(updates[..i]) + j
      {
        result := Upsert(result, section, kvs[j].0, kvs[j].1, now);
        assert kvs[..j + 1][..j] == kvs[..j];
        j := j + 1;
        count := count + 1;
      }
      assert kvs[..j] == kvs;
      assert updates[..i + 1][..i] == updates[..i];
      i := i + 1;
    }
    assert updates[..i] == updates;
    forall p {
      UpsertAllLookup(store, updates, now, p);
    }
  }

  // ---------------------------------------------------------- default content

  datatype Default = Default(section: string, key: string, value: Value, description: string)

  /** The sixteen entries seeded by POST /initialize-defaults, in order. */
  function DefaultConfigs(): (r: seq<Default>)
    ensures |r| == 16
  {
    HeaderDefaults() + InfoDefaults() + FooterDefaults() + GeneralDefaults()
  }

  function HeaderDefaults(): (r: seq<Default>)
    ensures |r| == 6
  {
    [ Default("header", "company_name", Str("Óptica Villalba"), "Company name displayed in header"),
      Default("header", "tagline", Str("Calidad Visual Premium"), "Tagline displayed under company name"),
      Default("header", "phone", Str("+54 11 6415-6306"), "Contact phone number"),
      Default("header", "address", Str("Av. Las Heras 3751, Palermo"), "Physical address"),
      Default("header", "hours", Str("Lun-Vie: 10:00-13:30 | 15:30-19:00"), "Business hours"),
      Default("header", "whatsapp_url", Str("https://wa.me/541164156306"), "WhatsApp contact URL") ]
  }

  function InfoDefaults(): (r: seq<Default>)
    ensures |r| == 3
  {
    [ Default("info", "mission_title", Str("Calidad Visual Premium"), "Mission section title"),
      Default("info", "mission_description", Str(MissionText), "Mission description"),
      Default("info", "features", Arr(ServiceFeatures), "Service features list") ]
  }

  const MissionText: string :=
    "Elevar su estándar de vida, maximizando su calidad visual, proponiéndole siempre los más avanzados productos con la más alta calidad."

  const ServiceFeatures: seq<Value> := [
    Feature("Examen Visual Gratuito", "Evaluación completa de tu salud visual con tecnología de última generación"),
    Feature("Garantía Extendida", "Protección completa en todos nuestros productos con garantía de 2 años"),
    Feature("Marcas Premium", "Las mejores marcas internacionales con certificación de calidad"),
    Feature("Servicio Express", "Entrega rápida y servicio técnico especializado en 24-48 horas")]

  function FooterDefaults(): (r: seq<Default>)
    ensures |r| == 3
  {
    [ Default("footer", "copyright_text", Str(CopyrightText), "Copyright text"),
      Default("footer", "services", Arr(FooterServices), "Services list for footer"),
      Default("footer", "social_links", Obj(SocialLinks), "Social media links") ]
  }

  const CopyrightText: string := "© 2024 Óptica Villalba. Todos los derechos reservados."

  const FooterServices: seq<Value> := [
    Str("Lentes Recetados"), Str("Gafas de Sol"), Str("Lentes de Contacto"),
    Str("Consultas Optométricas"), Str("Reparaciones"), Str("Ajustes Personalizados")]

  const SocialLinks: map<string, Value> :=
    map["instagram" := Str("#"), "facebook" := Str("#"), "email" := Str("info@opticavillalba.com")]

  function GeneralDefaults(): (r: seq<Default>)
    ensures |r| == 4
  {
    [ Default("general", "primary_color", Str("#3b82f6"), "Primary brand color (blue)"),
      Default("general", "secondary_color", Str("#dc2626"), "Secondary brand color (red)"),
      Default("general", "background_color", Str("#0f172a"), "Background color (dark slate)"),
      Default("general", "font_family", Str("Inter"), "Primary font family") ]
  }

  function Feature(title: string, description: string): Value
  {
    Obj(map["title" := Str(title), "description" := Str(description)])
  }

  function Pair(d: Default): (string, string) { (d.section, d.key) }

  predicate PairsDistinct(ds: seq<Default>)
  {
    forall i, j :: 0 <= i < j < |ds| ==> Pair(ds[i]) != Pair(ds[j])
  }

  predicate AllIn(ds: seq<Default>, section: string)
  {
    forall i :: 0 <= i < |ds| ==> ds[i].section == section
  }

  lemma PairsDistinctConcat(a: seq<Default>, b: seq<Default>, sa: string, sb: string)
    requires PairsDistinct(a) && PairsDistinct(b) && AllIn(a, sa) && AllIn(b, sb) && sa != sb
    ensures PairsDistinct(a + b)
  {
    var c := a + b;
    forall i, j | 0 <= i < j < |c| ensures Pair(c[i]) != Pair(c[j]) {
      if j < |a| { assert c[i] == a[i] && c[j] == a[j]; }
      else if i >= |a| { assert c[i] == b[i - |a|] && c[j] == b[j - |a|]; }
      else { assert c[i].section == sa && c[j].section == sb; }
    }
  }

  lemma HeaderDistinct() ensures PairsDistinct(HeaderDefaults()) && AllIn(HeaderDefaults(), "header") {
    var h := HeaderDefaults();
    assert forall i :: 0 <= i < 6 ==> h[i].section == "header";
    assert [|h[0].key|, |h[1].key|, |h[2].key|, |h[3].key|, |h[4].key|, |h[5].key|] == [12, 7, 5, 7, 5, 12];
    assert h[0].key[0] == 'c' && h[5].key[0] == 'w' && h[1].key[0] == 't' && h[3].key[0] == 'a' && h[2].key[0] == 'p' && h[4].key[0] == 'h';
  }
  lemma InfoDistinct() ensures PairsDistinct(InfoDefaults()) && AllIn(InfoDefaults(), "info") {
    var h := InfoDefaults();
    assert [|h[0].key|, |h[1].key|, |h[2].key|] == [13, 19, 8];
  }
  lemma FooterDistinct() ensures PairsDistinct(FooterDefaults()) && AllIn(FooterDefaults(), "footer") {
    var h := FooterDefaults();
    assert [|h[0].key|, |h[1].key|, |h[2].key|] == [14, 8, 12];
  }
  lemma GeneralDistinct() ensures PairsDistinct(GeneralDefaults()) && AllIn(GeneralDefaults(), "general") {
    var h := GeneralDefaults();
    assert [|h[0].key|, |h[1].key|, |h[2].key|, |h[3].key|] == [13, 15, 16, 11];
  }

  lemma DefaultsDistinct()
    ensures PairsDistinct(DefaultConfigs())
  {
    var h, n, f, g := HeaderDefaults(), InfoDefaults(), FooterDefaults(), GeneralDefaults();
    HeaderDistinct(); InfoDistinct(); FooterDistinct(); GeneralDistinct();
    assert "header" != "info" && "footer" != "general";
    PairsDistinctConcat(h, n, "header", "info");
    PairsDistinctConcat(f, g, "footer", "general");
    assert "header" != "footer" && "header" != "general" && "info" != "footer" && "info" != "general";
    PairsDistinctConcat2(h + n, f + g);
    assert h + n + f + g == (h + n) + (f + g);
  }

  lemma PairsDistinctConcat2(a: seq<Default>, b: seq<Default>)
    requires PairsDistinct(a) && PairsDistinct(b)
    requires forall i :: 0 <= i < |a| ==> a[i].section in {"header", "info"}
    requires forall i :: 0 <= i < |b| ==> b[i].section in {"footer", "general"}
    ensures PairsDistinct(a + b)
  {
    var c := a + b;
    forall i, j | 0 <= i < j < |c| ensures Pair(c[i]) != Pair(c[j]) {
      if j < |a| { assert c[i] == a[i] && c[j] == a[j]; }
      else if i >= |a| { assert c[i] == b[i - |a|] && c[j] == b[j - |a|]; }
      else {
        assert c[i] == a[i] && c[j] == b[j - |a|];
        assert "header" != "footer" && "header" != "general" && "info" != "footer" && "info" != "general";
      }
    }
  }

  predicate InDefaults(defaults: seq<Default>, p: (string, string))
  {
    exists i :: 0 <= i < |defaults| && Pair(defaults[i]) == p
  }

  /** Insert each default whose pair is absent; count the insertions. */
  function InsertMissing(store: Store, defaults: seq<Default>, now: int): (r: (Store, nat))
    ensures forall p :: p in store ==> p in r.0 && r.0[p] == store[p]
    ensures forall p :: p in r.0 ==> p in store || InDefaults(defaults, p)
    ensures forall i :: 0 <= i < |defaults| ==> Pair(defaults[i]) in r.0
    ensures r.1 == |r.0| - |store|
    decreases |defaults|
  {
    if |defaults| == 0 then (store, 0)
    else
      var d := defaults[0];
      var next := if Pair(d) in store then store else store[Pair(d) := Entry(d.value, Some(d.description), now)];
      var rest := InsertMissing(next, defaults[1..], now);
      assert forall p :: p in store ==> p in next && next[p] == store[p];
      assert forall p :: p in store ==> p in rest.0 && rest.0[p] == store[p];
      assert forall q :: InDefaults(defaults[1..], q) ==> InDefaults(defaults, q) by {
        forall q | InDefaults(defaults[1..], q) ensures InDefaults(defaults, q) {
          var i :| 0 <= i < |defaults[1..]| && Pair(defaults[1..][i]) == q;
          assert Pair(defaults[i + 1]) == q;
        }
      }
      assert InDefaults(defaults, Pair(d)) by { assert Pair(defaults[0]) == Pair(d); }
      assert forall i :: 0 <= i < |defaults| ==> Pair(defaults[i]) in rest.0 by {
        forall i | 0 < i < |defaults| ensures Pair(defaults[i]) in rest.0 {
          assert defaults[i] == defaults[1..][i - 1];
        }
      }
      (rest.0, rest.1 + (if Pair(d) in store then 0 else 1))
  }

  /** The response of POST /initialize-defaults with the store it leaves. */
  datatype InitReport = InitReport(store: Store, created: nat, total: nat)

  /** POST /initialize-defaults run with a seeding table (the endpoint's is
      `DefaultConfigs()`): existing entries are kept as they are, every
      default pair is present afterwards, `created` counts the new entries and
      `total` is the size of the table. */
  function InitializeDefaults(store: Store, defaults: seq<Default>, now: int): (r: InitReport)
    ensures r.total == |defaults|
    ensures r.created == |r.store| - |store|
    ensures forall p :: p in store ==> p in r.store && r.store[p] == store[p]
    ensures forall p :: p in r.store ==> p in store || InDefaults(defaults, p)
    ensures forall i :: 0 <= i < |defaults| ==> Pair(defaults[i]) in r.store
  {
    var seeded := InsertMissing(store, defaults, now);
    InitReport(seeded.0, seeded.1, |defaults|)
  }

  /** A default pair that was missing is seeded with its value and description
      (the first default naming the pair wins). */
  lemma {:induction false} InsertMissingSeeds(store: Store, defaults: seq<Default>, now: int, i: int)
    requires 0 <= i < |defaults| && Pair(defaults[i]) !in store
    requires forall j :: 0 <= j < i ==> Pair(defaults[j]) != Pair(defaults[i])
    ensures InsertMissing(store, defaults, now).0[Pair(defaults[i])]
         == Entry(defaults[i].value, Some(defaults[i].description), now)
    decreases |defaults|
  {
    var d := defaults[0];
    var next := if Pair(d) in store then store else store[Pair(d) := Entry(d.value, Some(d.description), now)];
    if i > 0 {
      InsertMissingSeeds(next, defaults[1..], now, i - 1);
    }
  }

  /** Seeding a store that already holds every default changes nothing. */
  lemma {:induction false} InsertMissingNoop(store: Store, defaults: seq<Default>, now: int)
    requires forall i :: 0 <= i < |defaults| ==> Pair(defaults[i]) in store
    ensures InsertMissing(store, defaults, now) == (store, 0)
    decreases |defaults|
  {
    if |defaults| > 0 {
      InsertMissingNoop(store, defaults[1..], now);
    }
  }

  /** A second initialisation, at any time, creates nothing and changes nothing. */
  lemma InitializeDefaultsIdempotent(store: Store, defaults: seq<Default>, now: int, later: int)
    ensures var once := InitializeDefaults(store, defaults, now).store;
      InitializeDefaults(once, defaults, later) == InitReport(once, 0, |defaults|)
  {
    var once := InitializeDefaults(store, defaults, now).store;
    InsertMissingNoop(once, defaults, later);
  }

  /** With a table of distinct pairs, every missing default gets its value
      and description. */
  lemma InitializeSeedsMissing(store: Store, defaults: seq<Default>, now: int, i: int)
    requires PairsDistinct(defaults)
    requires 0 <= i < |defaults| && Pair(defaults[i]) !in store
    ensures InitializeDefaults(store, defaults, now).store[Pair(defaults[i])]
         == Entry(defaults[i].value, Some(defaults[i].description), now)
  {
    InsertMissingSeeds(store, defaults, now, i);
  }

  /** With a table of distinct pairs, an empty store gets the whole table. */
  lemma InitializeEmpty(defaults: seq<Default>, now: int)
    requires PairsDistinct(defaults)
    ensures InitializeDefaults(map[], defaults, now).created == |defaults|
  {
    var s := InitializeDefaults(map[], defaults, now).store;
    var keys := set i | 0 <= i < |defaults| :: Pair(defaults[i]);
    assert s.Keys == keys by {
      forall p | p in s ensures p in keys {
        var i :| 0 <= i < |defaults| && Pair(defaults[i]) == p;
      }
    }
    DistinctImageSize(defaults);
  }

  /** The endpoint's table: on an empty store it creates all sixteen entries. */
  lemma InitializeEmptyCreatesSixteen(now: int)
    ensures InitializeDefaults(map[], DefaultConfigs(), now).created == 16
  {
    DefaultsDistinct();
    InitializeEmpty(DefaultConfigs(), now);
  }

  lemma {:induction false} DistinctImageSize(defaults: seq<Default>)
    requires PairsDistinct(defaults)
    ensures |set i | 0 <= i < |defaults| :: Pair(defaults[i])| == |defaults|
  {
    if |defaults| > 0 {
      var tail := defaults[1..];
      assert PairsDistinct(tail) by {
        forall i, j | 0 <= i < j < |tail| ensures Pair(tail[i]) != Pair(tail[j]) {
          assert tail[i] == defaults[i + 1] && tail[j] == defaults[j + 1];
        }
      }
      DistinctImageSize(tail);
      var a := set i | 0 <= i < |defaults| :: Pair(defaults[i]);
      var b := set i | 0 <= i < |tail| :: Pair(tail[i]);
      assert a == b + {Pair(defaults[0])} by {
        forall q | q in a ensures q in b + {Pair(defaults[0])} {
          var i :| 0 <= i < |defaults| && Pair(defaults[i]) == q;
          if i > 0 { assert Pair(tail[i - 1]) == q; }
        }
        forall q | q in b ensures q in a {
          var i :| 0 <= i < |tail| && Pair(tail[i]) == q;
          assert Pair(defaults[i + 1]) == q;
        }
      }
      assert Pair(defaults[0]) !in b by {
        forall i | 0 <= i < |tail| ensures Pair(tail[i]) != Pair(defaults[0]) {
          assert tail[i] == defaults[i + 1];
        }
      }
    }
  }

  // ------------------------------------------------------------- public reads

  /** Public "one section": key -> value, `{}` when the section is empty. */
  function PublicSection(store: Store, section: string): (r: map<string, Value>)
    ensures forall k :: k in r <==> (section, k) in store
    ensures forall k :: k in r ==> r[k] == store[(section, k)].value
  {
    map k | k in SectionEntries(store, section) :: SectionEntries(store, section)[k].value
  }

  /** Public "all content": section -> key -> value. */
  function PublicAll(store: Store): (r: map<string, map<string, Value>>)
    ensures forall p :: p in store ==> p.0 in r && p.1 in r[p.0] && r[p.0][p.1] == store[p].value
    ensures forall s :: s in r ==> forall k :: k in r[s] ==> (s, k) in store
  {
    map s | s in SectionsOf(store) :: PublicSection(store, s)
  }

  /** The public grouping is the admin grouping with only the values kept,
      and the public one-section read is one section of it. */
  lemma PublicAllIsAdminValues(store: Store, section: string, key: string)
    ensures section in PublicAll(store) <==> section in GroupSections(store)
    ensures section in PublicAll(store) ==>
      && (key in PublicAll(store)[section] <==> key in GroupSections(store)[section])
      && (key in PublicAll(store)[section] ==>
            PublicAll(store)[section][key] == GroupSections(store)[section][key].value)
    ensures section in PublicAll(store) ==> PublicSection(store, section) == PublicAll(store)[section]
    ensures section !in PublicAll(store) ==> PublicSection(store, section) == map[]
  {
    var pub := PublicSection(store, section);
    if section !in PublicAll(store) {
      assert forall k :: k in pub ==> section in SectionsOf(store);
      assert pub.Keys == {};
    }
  }

  /** The computed part of the site-info response. */
  datatype SiteInfo = SiteInfo(fields: map<string, Value>, lastUpdated: int)

  /** Header entries, then general ones over them; `last_updated` is always
      the clock, even if a header or general key has that name. */
  function GetSiteInfo(store: Store, now: int): (r: SiteInfo)
    ensures r.lastUpdated == now
    ensures "last_updated" !in r.fields
    ensures forall k :: k != "last_updated" ==>
      (k in r.fields <==> ("header", k) in store || ("general", k) in store)
    ensures forall k :: k in r.fields && ("general", k) in store ==> r.fields[k] == store[("general", k)].value
    ensures forall k :: k in r.fields && ("general", k) !in store ==> r.fields[k] == store[("header", k)].value
  {
    var merged := PublicSection(store, "header") + PublicSection(store, "general");
    SiteInfo(merged - {"last_updated"}, now)
  }
}
