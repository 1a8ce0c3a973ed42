# Optical shop site: admin panel, backend and storefront helpers

This project models the decision logic of a retail optical shop's website
and admin panel. The FastAPI backend keeps four collections:

- the site content, as section → key → entry;
- the brands shown in the logo marquee;
- the time-boxed promotions shown in the carousel;
- the admin users.

The React admin panel edits these collections. The public site reads them.

Each collection is an immutable value:

- the content store is a map keyed by `(section, key)`;
- brands and promotions are sequences of records with unique ids;
- users and login attempts are maps keyed by name and by client address.

Every REST handler is a pure function from the store, the request body and
"now" to a new store and a reply. Failures are modelled as `Err(status,
detail)`. Instants are integers in microseconds, and `timedelta.seconds`
is written out as the seconds-of-day component. Password hashing, JWT
signing, TOTP checking, QR drawing, uuid generation and the image
optimiser are parameters of the functions that use them.

The admin pages are state records with transition functions. The requests
a page sends are returned as values, and the replies it awaits are
parameters. The storefront's carousel and logo marquee are modelled the
same way.

Modules, in the order of the program's layers:

- `Common`, `Json`, `Fields`, `Arith`, `Sorting`: shared definitions.
  These are results and status codes, JSON values with JavaScript
  truthiness, pydantic-style field parsing, and a stable sort that stands for the
  document store's sort (ties kept in store order, see "## Left out").
- `ContentStore`: `backend/routes/admin_content.py` and the content half of
  `backend/routes/public_api.py`.
- `ContentEditor`: the change-set editor of `admin/src/pages/ContentPage.js`.
- `Promotions`, `Scheduler`, `PromotionsPage`: the promotion model, its
  router, the background scheduler and the admin page.
- `Brands`, `BrandsPage`: the brand model, its router and the admin page.
- `Auth`, `AuthApi`: `backend/auth.py` and `backend/routes/admin_auth.py`.
- `Session`, `LoginPage`: the admin session store and the login/MFA screen.
- `Upload`: `backend/routes/admin_upload.py`.
- `Carousel`, `Marquee`: the storefront's promotion carousel and brand
  marquee.

## Model

| member | source | states |
|---|---|---|
| ContentStore.GroupSections | backend/routes/admin_content.py:17-25 | every stored (section, key) appears under its section with its entry; nothing unstored appears; no listed section is empty |
| ContentStore.GetSection | backend/routes/admin_content.py:29-46 | the keys returned are exactly the stored keys of that section, each with its stored entry |
| ContentStore.GetSectionAgreesWithGroup | backend/routes/admin_content.py:10-46 | the one-section read equals that section's slice of the grouped read, and is empty for a section with no entries |
| ContentStore.CreateConfig | backend/routes/admin_content.py:48-84 | fails with 400 exactly when the (section, key) already exists; otherwise the store gains exactly that entry |
| ContentStore.UpdateConfig | backend/routes/admin_content.py:86-151 | a missing entry is created; on an existing one, value and description change only when supplied; updated_at is always now; every other entry is unchanged |
| ContentStore.EmptyUpdateTouchesOnlyTime | backend/routes/admin_content.py:124-134 | an update that supplies neither field changes only the timestamp of an existing entry |
| ContentStore.DeleteConfig | backend/routes/admin_content.py:199-232 | 404 "Configuration not found" exactly when the entry is missing; otherwise only that (section, key) is removed |
| ContentStore.CreateThenDelete | backend/routes/admin_content.py:199-232 | deleting an entry just created restores the store as it was |
| ContentStore.Upsert | backend/routes/admin_content.py:166-180 | one (section, key) gets the value and now; an existing description is kept; every other entry is unchanged |
| ContentStore.UpsertPairsLookup | backend/routes/admin_content.py:163-181 | after one section's pairs, each named key holds the last value given for it and every unnamed entry is unchanged |
| ContentStore.UpsertAllLookup | backend/routes/admin_content.py:163-181 | the same over all sections of a bulk request |
| ContentStore.BulkUpdate | backend/routes/admin_content.py:153-197 | the count is the total number of keys in the request; the store holds exactly the old and the requested keys; requested keys hold their last value and unnamed ones are unchanged |
| ContentStore.DefaultConfigs | backend/routes/admin_content.py:238-367 | the default table has sixteen entries |
| ContentStore.DefaultsDistinct | backend/routes/admin_content.py:238-367 | the sixteen defaults name sixteen different (section, key) pairs |
| ContentStore.InsertMissing | backend/routes/admin_content.py:369-381 | existing entries are never overwritten, every default is present afterwards, nothing else is added, and the count is the number of entries added |
| ContentStore.InitializeDefaults | backend/routes/admin_content.py:234-394 | total_configs is the size of the table and created_count the number of entries added; existing entries kept; every default present |
| ContentStore.InsertMissingSeeds | backend/routes/admin_content.py:372-381 | a default absent before the call is stored with its default value and description |
| ContentStore.InsertMissingNoop | backend/routes/admin_content.py:372-381 | when every default is already present nothing is inserted and the count is 0 |
| ContentStore.InitializeDefaultsIdempotent | backend/routes/admin_content.py:369-394 | a second call creates nothing and leaves the store as the first call left it |
| ContentStore.InitializeSeedsMissing | backend/routes/admin_content.py:369-381 | after initialisation a default that was absent holds its default value |
| ContentStore.InitializeEmpty | backend/routes/admin_content.py:369-394 | on an empty store every default of a duplicate-free table is created |
| ContentStore.InitializeEmptyCreatesSixteen | backend/routes/admin_content.py:391-394 | on an empty store the real table creates sixteen entries |
| ContentStore.PublicSection | backend/routes/public_api.py:30-42 | the public section is a key → value map of exactly that section's entries, `{}` when it has none |
| ContentStore.PublicAll | backend/routes/public_api.py:44-56 | every entry's value appears under its section and key, and nothing else does |
| ContentStore.PublicAllIsAdminValues | backend/routes/public_api.py:30-56 | the public views have the same sections and keys as the admin grouping, with values only; the one-section read is a slice of the full read |
| ContentStore.GetSiteInfo | backend/routes/public_api.py:58-71 | a general key overrides the same header key; every other header or general key is present; last_updated is now |
| ContentEditor.Initial | admin/src/pages/ContentPage.js:15-19 | the editor starts with no staged change and no unsaved-changes flag |
| ContentEditor.GetValue | admin/src/pages/ContentPage.js:141-147 | a staged value wins; otherwise the stored value when it is truthy; otherwise `''` |
| ContentEditor.Stage | admin/src/pages/ContentPage.js:65-72 | the edit is staged under "section.key", every other staged edit is kept, and the flag is set |
| ContentEditor.StageValid | admin/src/pages/ContentPage.js:65-72 | staging keeps the editor's invariant: keys agree with their entries and the flag means "something staged" |
| ContentEditor.StageThenGet | admin/src/pages/ContentPage.js:65-72 | reading a field right after staging it gives the staged value |
| ContentEditor.StageLastWriteWins | admin/src/pages/ContentPage.js:65-72 | staging the same field twice is the same as staging only the second value |
| ContentEditor.ChangeKeyInjective | admin/src/pages/ContentPage.js:66 | for section names without '.', different (section, key) pairs get different change keys |
| ContentEditor.ChangeKeyCollision | admin/src/pages/ContentPage.js:66 | ("a.b", "c") and ("a", "b.c") share a change key, so the second edit replaces the first one's staged value |
| ContentEditor.Discard | admin/src/pages/ContentPage.js:124-128 | discarding empties the change set, clears the flag and keeps the stored document |
| ContentEditor.DiscardThenGet | admin/src/pages/ContentPage.js:124-128 | after a discard every read shows the stored value, or `''` |
| ContentEditor.SpreadStored | admin/src/pages/ContentPage.js:75-76 | spreading the stored value fails only for a truthy value that is neither a list nor a string |
| ContentEditor.FilterableStored | admin/src/pages/ContentPage.js:88-89 | filtering the stored value fails only for a truthy value that is not a list |
| ContentEditor.Assign | admin/src/pages/ContentPage.js:77 | index assignment sets that slot, keeps the others, and pads a gap with holes |
| ContentEditor.ArrayChange | admin/src/pages/ContentPage.js:74-79 | the staged list is the stored list with one slot replaced |
| ContentEditor.AddArrayItem | admin/src/pages/ContentPage.js:81-85 | the staged list is the stored list plus the item at the end |
| ContentEditor.RemoveArrayItem | admin/src/pages/ContentPage.js:87-91 | the staged list is the stored list without that index |
| ContentEditor.ListEditShapes | admin/src/pages/ContentPage.js:74-91 | replace keeps the length; append adds one element at the end; remove drops exactly that element and keeps the order of the rest |
| ContentEditor.ArrayEditsStartFromStored | admin/src/pages/ContentPage.js:74-79 | a second element edit of the same list starts again from the stored list, so the first edit is lost |
| ContentEditor.DefaultItem | admin/src/pages/ContentPage.js:236-240 | the "add" default: `''` for an empty list or a scalar first element; a record with the first element's keys set to `''`; nothing for a null first element |
| ContentEditor.IndexKeys | admin/src/pages/ContentPage.js:238 | the keys of a list used as a record are its indices "0" … "n-1", each set to `''` |
| ContentEditor.AddToEmptyAppendsBlank | admin/src/pages/ContentPage.js:236-240 | adding to an empty list stages `['']` and never a record |
| ContentEditor.SectionChanges | admin/src/pages/ContentPage.js:99-105 | one section's part of the save body holds exactly the keys staged for that section, with their values |
| ContentEditor.GroupChanges | admin/src/pages/ContentPage.js:99-105 | every staged change appears under its section and key, and nothing else does |
| ContentEditor.Save | admin/src/pages/ContentPage.js:93-122 | no request without changes; otherwise the grouped changes are sent; on success the set is cleared and the document re-read; on failure the editor is unchanged |
| ContentEditor.Fetch | admin/src/pages/ContentPage.js:52-63 | a successful fetch replaces the document and a failed one keeps it; staged changes are untouched |
| ContentEditor.FetchValid | admin/src/pages/ContentPage.js:52-63 | fetching keeps the editor's invariant |
| ContentEditor.SaveSendsExactlyTheChanges | admin/src/pages/ContentPage.js:99-108 | every staged (section, key, value) is in the body, and every body entry is a staged change |
| ContentEditor.SavedValueReadsBack | admin/src/pages/ContentPage.js:93-122 | when the server stored the body, a saved field reads back as its saved value, or `''` when that value is falsy |
| ContentEditor.RenderKind | admin/src/pages/ContentPage.js:149-170 | a list is drawn as a list editor; a record or null as a record editor; any other value as a text area or input |
| ContentEditor.MissingFieldIsText | admin/src/pages/ContentPage.js:149-170 | a field with nothing stored or staged reads `''` and is drawn as text |
| ContentEditor.EditObjectField | admin/src/pages/ContentPage.js:251-275 | editing one field of a record stages the shown record with that field replaced |
| Promotions.ParseCreate | backend/models/promotion.py:20-27 | accepted iff title, discount, type and description are strings, start_date and end_date are instants, and features is absent or a list of strings; the result carries exactly those values, with features defaulting to []; a refused body is 422 |
| Fields.OptStr | backend/models/promotion.py:30 | an optional string field reads as not given exactly when the key is absent or null, and otherwise as the string sent |
| Promotions.ParseUpdate | backend/models/promotion.py:29-38 | every field is optional; accepted iff each given field has its declared type; each field of the result is the value sent, and is unset exactly when the key is absent or null; a refused body is 422 |
| Promotions.EmptyBodyIsNoChange | backend/models/promotion.py:29-38 | an empty body parses to the update that sets nothing |
| Promotions.UnknownKeysIgnored | backend/models/promotion.py:29-38 | a key the model does not declare does not change the parse |
| Promotions.Find | backend/routes/admin_promotions_backup.py:37-46 | the first index holding the id, or none exactly when no record has it |
| Promotions.GetPromotion | backend/routes/admin_promotions_backup.py:37-46 | 404 exactly when no record has the id; otherwise a stored record with that id |
| Common.ToList | backend/routes/admin_promotions_backup.py:22 | `to_list(n)` gives the first n documents of the cursor, or all of them when there are fewer |
| Sorting.TopBy | backend/routes/public_api.py:21 | the first n of a sorted query are in key order, drawn from the collection (all of it when it has at most n), and no document left out has a smaller key than one listed |
| Promotions.AllPromotions | backend/routes/admin_promotions_backup.py:19-23 | the list holds as many records as the store, up to the cap of 100 |
| Promotions.AllPromotionsNewestFirst | backend/routes/admin_promotions_backup.py:19-23 | the list is sorted newest first and drawn from the store; it is a permutation of the store when that holds at most 100, and no promotion left out is newer than one listed |
| Promotions.ActivePromotions | backend/routes/public_api.py:11-22 | the public active list is no longer than the store and holds at most 100 |
| Promotions.ActiveExactlyLive | backend/routes/admin_promotions_backup.py:25-35 | only stored promotions that are is_active with start <= now <= end are listed, and each of them is when at most 100 are live |
| Promotions.ActiveIsSublistOfAll | backend/routes/public_api.py:11-22 | the active list is the live part of the newest-first order, cut at 100; for a store of at most 100 it is the admin list filtered by liveness |
| Promotions.Create | backend/routes/admin_promotions_backup.py:48-78 | 400 exactly when start >= end; otherwise one record is appended, active, without image, with the given fields and both timestamps set from one clock reading, now |
| Promotions.Update | backend/routes/admin_promotions_backup.py:80-126 | 404 for an unknown id; 400 exactly when the merged start >= end; otherwise only that record is replaced, keeping its id, with updated_at now |
| Promotions.UpdateIsSetOfGivenFields | backend/routes/admin_promotions_backup.py:96-112 | the stored document after an update is the old document overwritten by the non-null fields and updated_at |
| Promotions.Merge | backend/routes/admin_promotions_backup.py:96-112 | an update never changes the id or created_at and always sets updated_at to now; an update that gives no field changes nothing else |
| Promotions.ToDoc | backend/models/promotion.py:6-18 | the stored document has exactly the twelve keys of the Promotion model, and only image_url can be null, exactly when the promotion has no image |
| Promotions.MergeIsSet | backend/routes/admin_promotions_backup.py:109-112 | merging into a record agrees with a `$set` of the update data on its document |
| Promotions.MergeIsSetAt | backend/routes/admin_promotions_backup.py:109-112 | the same, key by key |
| Promotions.UpdateDataLookup | backend/routes/admin_promotions_backup.py:96-97 | the update data holds updated_at = now plus exactly the non-null given fields |
| Promotions.MergeField | backend/routes/admin_promotions_backup.py:96-112 | after a merge a field holds the given value when one was supplied and its old value otherwise |
| Promotions.Delete | backend/routes/admin_promotions_backup.py:128-162 | 404 for an unknown id; otherwise the store is one record shorter |
| Promotions.DeleteRemovesExactlyThatId | backend/routes/admin_promotions_backup.py:128-162 | after a delete a record is stored iff it was stored before and has another id |
| Promotions.BulkSetActive | backend/routes/admin_promotions_backup.py:233-273 | the listed ids get the flag and updated_at now; unlisted records are unchanged |
| Promotions.BulkCountsChangedRecords | backend/routes/admin_promotions_backup.py:233-273 | modified_count is the number of records the update changes at all: a listed record counts when its flag or its updated_at differs from the new values, so in practice every listed record unless the same call already ran at the same instant |
| Promotions.BulkIdempotent | backend/routes/admin_promotions_backup.py:233-273 | repeating a bulk call at the same instant changes nothing more and counts 0 |
| Promotions.CreateKeepsInvariants | backend/routes/admin_promotions_backup.py:48-78 | a fresh id keeps ids unique, and every stored window stays start < end |
| Promotions.UpdateKeepsInvariants | backend/routes/admin_promotions_backup.py:80-126 | the same for updates |
| Promotions.DeleteKeepsInvariants | backend/routes/admin_promotions_backup.py:128-162 | the same for deletes |
| Promotions.BulkKeepsInvariants | backend/routes/admin_promotions_backup.py:233-273 | the same for bulk activation |
| PromotionsPage.StatusColor | admin/src/pages/PromotionsPage.js:206-215 | the status colour, computed by its own branches, is always the colour of the status text |
| PromotionsPage.StatusText | admin/src/pages/PromotionsPage.js:217-226 | "Inactiva" iff not active; "Programada" iff active and now < start; "Expirada" iff active, started and past end; "Activa" exactly for the promotions the public active query returns |
| PromotionsPage.NewForm | admin/src/pages/PromotionsPage.js:64-76 | a new form has the default type, empty texts and the feature list `['']` |
| PromotionsPage.OpenForm | admin/src/pages/PromotionsPage.js:78-91 | an opened promotion shows its own features, or `['']` when it has none, and its dates |
| PromotionsPage.SubmittedFeatures | admin/src/pages/PromotionsPage.js:104 | no submitted feature is blank after trimming |
| PromotionsPage.SubmittedFeaturesMembers | admin/src/pages/PromotionsPage.js:104 | a line is submitted iff it is in the form and not blank |
| PromotionsPage.NoBlankKeepsAll | admin/src/pages/PromotionsPage.js:104 | a list with no blank line is submitted as it is, in order |
| PromotionsPage.UpdateFeature | admin/src/pages/PromotionsPage.js:153-157 | exactly one index changes and the length is kept |
| PromotionsPage.AddFeature | admin/src/pages/PromotionsPage.js:159-163 | `''` is appended and the other lines are kept |
| PromotionsPage.RemoveFeature | admin/src/pages/PromotionsPage.js:165-169 | exactly the element at the index is removed |
| PromotionsPage.SubmitBody | admin/src/pages/PromotionsPage.js:98-123 | the body carries the form's fields, its dates and the non-blank features |
| PromotionsPage.SetText | admin/src/pages/PromotionsPage.js:440-485 | typing into a text input sets that key of the form to the text and changes nothing else |
| PromotionsPage.Submit | admin/src/pages/PromotionsPage.js:98-123 | nothing is sent exactly when the `required` title or discount input (lines 445 and 456) shows nothing; otherwise the body goes as a PUT for the edited promotion's id, or as a POST for a new one |
| PromotionsPage.UntouchedFormNotSent | admin/src/pages/PromotionsPage.js:438-456 | the new form as it opens is not sent, because its title and discount are empty |
| PromotionsPage.ToggleActive | admin/src/pages/PromotionsPage.js:140-151 | a PUT for that id whose body is only is_active = not current |
| PromotionsPage.HandleDelete | admin/src/pages/PromotionsPage.js:125-138 | a DELETE for that id is sent iff the user confirms |
| PromotionsPage.DeleteFromScreen | admin/src/pages/PromotionsPage.js:125-138 | declined, no request is sent; confirmed, the server answers 404 for an id it does not hold and otherwise keeps a promotion iff it was stored and has another id |
| PromotionsPage.ToggleParsesToActiveOnly | admin/src/pages/PromotionsPage.js:140-144 | the server parses the toggle body to an update that sets only is_active |
| PromotionsPage.ToggleChangesOnlyTheFlag | admin/src/pages/PromotionsPage.js:140-144 | applied to the store, the toggle flips the flag and stamps updated_at, and nothing else changes |
| PromotionsPage.NewFormCreatesDefaults | admin/src/pages/PromotionsPage.js:64-123 | with a title and a discount typed into the new form, it is sent as a POST exactly when both are non-empty, and then parses to a create with those texts, the default type and no features |
| PromotionsPage.FilledFormBody | admin/src/pages/PromotionsPage.js:64-123 | the body of the new form with a title and a discount typed in, field by field |
| PromotionsPage.ParseStoredDocument | backend/models/promotion.py:6-38 | a stored promotion's document parses as an update that sets every field back to itself |
| PromotionsPage.OpenedFormSubmitsDocument | admin/src/pages/PromotionsPage.js:78-123 | opening a promotion with non-blank features and submitting sends its own document |
| PromotionsPage.EditRoundTrip | admin/src/pages/PromotionsPage.js:78-123 | open then save of a stored promotion is sent exactly when its title and discount are non-empty; with a valid window and no blank feature it then writes back the same promotion, with updated_at now |
| Scheduler.Batch | backend/scheduler.py:27-31 | at most 100 due promotions, all of them due, and every due one when there are at most 100 |
| Scheduler.StartDue | backend/scheduler.py:27-31 | due for activation iff inactive and, once switched on, live now |
| Scheduler.EndDue | backend/scheduler.py:54-57 | due for deactivation only if active, no longer live and not due for activation |
| Scheduler.RunPhase | backend/scheduler.py:33-38 | the store keeps its length; listed ids get the flag and now, every other record is unchanged; an empty batch changes nothing and counts 0 |
| Scheduler.Ids | backend/scheduler.py:42-49 | the ids of a batch, in order |
| Scheduler.ActionLogs | backend/scheduler.py:42-49 | one "system" log per promotion in the batch, in order, with the action and now |
| Scheduler.CheckSchedules | backend/scheduler.py:20-83 | the store keeps its size; each phase acts on at most 100; one log per changed promotion |
| Scheduler.PhaseAt | backend/scheduler.py:27-38 | a promotion in the batch gets the flag and now; every other record is unchanged |
| Scheduler.OnlyFlagAndTimeChange | backend/scheduler.py:20-83 | a run changes only is_active and updated_at of each record |
| Scheduler.PhaseKeepsIdsAndWindows | backend/scheduler.py:33-38 | a phase keeps every id, date window and other field |
| Scheduler.PhasesAreDisjoint | backend/scheduler.py:27-64 | no promotion is both activated and deactivated in one run |
| Scheduler.ActivationKeepsEndDue | backend/scheduler.py:27-64 | activation does not change which promotions are past their end |
| Scheduler.SettledUnderCap | backend/scheduler.py:27-64 | with at most 100 matches per phase, after a run none is inactive inside its window (even if an admin switched it off) and none is active past its end |
| Scheduler.ChangesOnlyDue | backend/scheduler.py:20-83 | a record whose flag changes was inactive inside its window or active past its end |
| Scheduler.CleanupExpired | backend/scheduler.py:85-98 | kept and deleted logs add up to the logs before |
| Scheduler.CleanupKeepsExactlyRecent | backend/scheduler.py:89-92 | a log is kept iff its timestamp is not earlier than now minus 90 days |
| Scheduler.TickAt | backend/scheduler.py:136-161 | the schedule check runs on every pass, and cleanup and the report never run on the same pass |
| Scheduler.GateWindows | backend/scheduler.py:149-154 | cleanup runs iff the hour is 2 and the minute is below 5; the report iff the hour is 1 and the minute is below 5 |
| Brands.ParseCreate | backend/models/brand.py:17-22 | accepted iff name, color and description are strings and text_color and order, when present, are a string and an integer; the result carries the values sent, with text_color defaulting to "#FFFFFF" and order to 0; refusals are 422 |
| Brands.ParseCreateWithDefaultDescription | backend/models/brand.py:17-22 | the same model with description optional and defaulting to `''`; it agrees with ParseCreate whenever a description is sent |
| Brands.TestScriptBodyRefused | backend_test.py:390-398 | the brand body the test script sends is refused with 422 for the missing description |
| Brands.TestScriptBodyAccepted | backend_test.py:390-398 | with the description default, that body is accepted as written |
| Brands.ParseUpdate | backend/models/brand.py:24-30 | every field is optional; accepted iff each given field has its declared type; each field of the result is the value sent, and is unset exactly when the key is absent or null; a refused body is 422 |
| Brands.UnknownKeysIgnored | backend/models/brand.py:24-30 | a key such as logo_url that the model does not declare does not change the parse |
| Brands.Find | backend/routes/admin_brands.py:24-33 | the first index holding the id, or none exactly when no record has it |
| Brands.GetBrand | backend/routes/admin_brands.py:24-33 | 404 exactly when no record has the id; otherwise a stored brand with that id |
| Brands.AllBrands | backend/routes/admin_brands.py:12-16 | the list holds as many records as the store, up to the cap of 100 |
| Brands.AllBrandsByOrder | backend/routes/admin_brands.py:12-16 | the list is sorted by order ascending and drawn from the store; it is a permutation of the store when that holds at most 100, and no brand left out has a smaller order than one listed |
| Brands.ActiveBrands | backend/routes/admin_brands.py:18-22 | every listed brand is active, and at most 100 are listed |
| Brands.ActiveExactly | backend/routes/public_api.py:24-28 | only stored active brands are listed, and each of them is when at most 100 are active |
| Brands.ActiveIsSublistOfAll | backend/routes/admin_brands.py:18-22 | the active list is the active part of the by-order list cut at 100, so it is sorted; for a store of at most 100 it is the admin list filtered by the flag |
| Brands.Create | backend/routes/admin_brands.py:35-58 | one brand is appended with the fresh id, the given fields, active, and both timestamps set from one clock reading, now |
| Brands.CreateKeepsInvariants | backend/routes/admin_brands.py:24-58 | a brand created under a fresh id keeps ids unique, GET of that id returns it, and every other id answers as before |
| Brands.Update | backend/routes/admin_brands.py:60-97 | 404 for an unknown id; otherwise only that brand is replaced, keeping id and created_at, with updated_at now |
| Brands.UpdateDataLookup | backend/routes/admin_brands.py:76-83 | the update data holds updated_at = now plus exactly the non-null given fields |
| Brands.MergeField | backend/routes/admin_brands.py:76-83 | after an update a field holds the given value when one was supplied and its old value otherwise |
| Brands.UpdateIsSetOfGivenFields | backend/routes/admin_brands.py:60-97 | the stored document after an update is the old document overwritten by the update data |
| Brands.MergeIsSet | backend/routes/admin_brands.py:76-83 | merging into a brand agrees with `$set` of the update data on its stored document |
| Brands.MergeIsSetAt | backend/routes/admin_brands.py:76-83 | the same, key by key |
| Brands.Merge | backend/routes/admin_brands.py:76-83 | an update never changes the id or created_at and always sets updated_at to now; an update that gives no field changes nothing else |
| Brands.ToDoc | backend/models/brand.py:6-15 | the stored document has exactly the nine keys of the Brand model, none of them null |
| Brands.Delete | backend/routes/admin_brands.py:99-124 | 404 exactly for an unknown id; otherwise the store is one brand shorter |
| Brands.DeleteRemovesExactlyThatId | backend/routes/admin_brands.py:99-124 | after a delete a brand is stored iff it was stored before and has another id |
| Brands.BulkSetActive | backend/routes/admin_brands.py:155-195 | the listed ids get the flag and updated_at now; the others are unchanged |
| Brands.BulkCountsChangedRecords | backend/routes/admin_brands.py:155-195 | the reported count is the number of brands the update changes at all: a listed brand counts when its flag or its updated_at differs from the new values, so in practice every listed brand |
| Brands.SetOrder | backend/routes/admin_brands.py:133-137 | setting one brand's order keeps the number of brands |
| Brands.SetOrderAt | backend/routes/admin_brands.py:133-137 | only the brand with that id gets the order and now; ids stay unique |
| Brands.Reorder | backend/routes/admin_brands.py:126-153 | the store keeps its size; success reports the number of items; a malformed item is a 500 |
| Brands.ReorderSetsListed | backend/routes/admin_brands.py:133-137 | each listed brand gets the last order given for it, and an unlisted brand is unchanged |
| Brands.ReorderSnoc | backend/routes/admin_brands.py:133-137 | one more item is one more order update on the result so far |
| Brands.DispatchFrom | backend/routes/admin_brands.py:60-126 | a request is answered by one of the routes from the starting position on |
| Brands.AnsweredBy | backend/routes/admin_brands.py:60-126 | a request that route j accepts is answered by route j or an earlier one |
| Brands.SameSuffixSameDispatch | backend/routes/admin_brands.py:60-126 | tables that agree from position i on dispatch alike from i |
| Brands.ReorderShadowed | backend/routes/admin_brands.py:60-61 | as declared, PUT /reorder is answered by the update-one-brand route |
| Brands.ReorderUnreachable | backend/routes/admin_brands.py:126-127 | as declared, no request reaches the reorder handler |
| Brands.ReorderReachable | backend/routes/admin_brands.py:126-127 | with /reorder declared first, PUT /reorder reaches the reorder handler |
| Brands.OtherRequestsUnchanged | backend/routes/admin_brands.py:60-127 | moving /reorder first changes the handler of no other request |
| Brands.PrefixThenSame | backend/routes/admin_brands.py:60-127 | tables that share their first four routes and dispatch alike from the fifth dispatch alike |
| Brands.SameRouteStep | backend/routes/admin_brands.py:60-127 | tables that agree at position i and dispatch alike from i+1 also dispatch alike from i |
| BrandsPage.NewForm | admin/src/pages/BrandsPage.js:22-28 | a new form is name `''`, logo_url `''`, color "#3b82f6", active and order 0, with no description |
| BrandsPage.ApplyEdit | admin/src/pages/BrandsPage.js:354-432 | an edit sets one key and keeps the others; the order box sets a number, or null when `parseInt` gives `NaN` |
| BrandsPage.EditsKeepNewFormShape | admin/src/pages/BrandsPage.js:22-55 | no edit the form offers ever adds a description or a text colour, and the order stays a number or null |
| BrandsPage.NewBrandAlwaysRefused | admin/src/pages/BrandsPage.js:73-91 | whatever is typed, the new-brand form reads as a create refused for the missing description, so every POST the browser lets through is refused |
| BrandsPage.NewBrandCreatedWithDefaultDescription | admin/src/pages/BrandsPage.js:73-91 | with the description default, the screen creates a new brand exactly when the name is non-empty and the order box holds a number that is not negative; the form reads as a create iff its order is a number, with the default text colour; a `NaN` order, sent as null, is refused with 422 on "order" |
| BrandsPage.Submit | admin/src/pages/BrandsPage.js:73-91 | nothing is sent exactly when the `required` name input (line 351) shows nothing or the order box (`min="0"`, line 418) holds a negative number; otherwise an edited brand is sent as a PUT for its id with the form, a new one as a POST |
| BrandsPage.UntouchedFormNotSent | admin/src/pages/BrandsPage.js:345-351 | the new form as it opens is not sent, because its name is empty |
| BrandsPage.EditRoundTrip | admin/src/pages/BrandsPage.js:58-91 | open then save without edits is sent exactly when the brand's name is non-empty and its order not negative, and then writes back the same brand, with updated_at now |
| BrandsPage.MoveUp | admin/src/pages/BrandsPage.js:121-129 | "up" sends only that brand's order, as max(0, order - 1) |
| BrandsPage.MoveDown | admin/src/pages/BrandsPage.js:121-129 | "down" sends only that brand's order, as order + 1 |
| BrandsPage.ArrowsOnList | admin/src/pages/BrandsPage.js:244-256 | "up" is disabled at index 0 and "down" at the last; a single brand has neither, two or more always have one |
| BrandsPage.UpEnabled | admin/src/pages/BrandsPage.js:246 | "up" is enabled iff the card is not the first |
| BrandsPage.DownEnabled | admin/src/pages/BrandsPage.js:256 | on a card of the list, "down" is enabled iff a card follows it |
| BrandsPage.OpenForm | admin/src/pages/BrandsPage.js:58-66 | the form opened on a brand parses, under the update model, to an update giving every editable field its stored value |
| BrandsPage.ArrowTouchesOneBrand | admin/src/pages/BrandsPage.js:121-129 | an arrow changes the order of that brand only and no neighbour |
| BrandsPage.ArrowsUndo | admin/src/pages/BrandsPage.js:121-129 | "down" then "up" restores the order; "up" then "down" restores it iff the order was at least 1 |
| BrandsPage.UpAtZeroKeepsOrder | admin/src/pages/BrandsPage.js:121-124 | "up" at order 0 sends 0 again |
| BrandsPage.ToggleActive | admin/src/pages/BrandsPage.js:108-119 | a PUT for that id whose body is only is_active = not current |
| BrandsPage.ToggleChangesOnlyTheFlag | admin/src/pages/BrandsPage.js:108-113 | applied to the store, the toggle flips the flag and stamps updated_at, and nothing else changes |
| BrandsPage.HandleDelete | admin/src/pages/BrandsPage.js:93-106 | a DELETE for that id is sent iff the user confirms |
| BrandsPage.DeleteFromScreen | admin/src/pages/BrandsPage.js:93-106 | declined, no request is sent; confirmed, the server answers 404 for an id it does not hold and otherwise keeps a brand iff it was stored and has another id |
| Auth.SecondsOfDay | backend/auth.py:191-195 | `timedelta.seconds` lies in [0, 86400) |
| Auth.CheckWith | backend/auth.py:184-197 | only this identifier's list changes and it only shrinks; allowed iff fewer than 5 attempts remain |
| Auth.CheckRateLimitAsWritten | backend/auth.py:184-197 | the identifier gets a list, and allowed iff fewer than 5 attempts remain after the seconds-of-day pruning |
| Auth.CheckRateLimit | backend/auth.py:184-197 | the same decision with pruning by total age |
| Auth.CheckKeepsExactly | backend/auth.py:191-195 | an attempt is kept iff it was recorded and passes the window test |
| Auth.UnknownIdentifierAllowed | backend/auth.py:188-189 | an unknown identifier gets an empty list and is allowed |
| Auth.CheckTwice | backend/auth.py:184-197 | pruning twice is pruning once |
| Auth.WholeDaysOldKeptAsWritten | backend/auth.py:194 | as written, an attempt a whole number of days old is kept, though it is outside the 300-second window |
| Auth.AsWrittenAgreesWithinADay | backend/auth.py:194 | for attempts less than a day old, the written test and the total-age test agree |
| Auth.LockedOutByYesterday | backend/auth.py:184-197 | as written, five attempts made exactly one day ago lock any identifier out; with total age they do not |
| Auth.RecordLoginAttempt | backend/auth.py:199-204 | now is appended to that identifier's list, and every other identifier is unchanged |
| Auth.RecordedAttemptCounts | backend/auth.py:199-204 | an attempt just recorded is counted by the next check |
| Auth.CreateUser | backend/auth.py:106-122 | 400 exactly for an existing username; otherwise one user is added with the given hash, email, is_active and mfa_enabled, no MFA secret and both timestamps now, and nobody else changes |
| Auth.CreateUserOnce | backend/auth.py:106-122 | creating the same username twice fails the second time |
| Auth.UpdateUserMfa | backend/auth.py:125-136 | only that user's secret, flag and updated_at change; an unknown name changes nothing |
| Auth.CreateAccessToken | backend/auth.py:38-48 | expiry is now plus the given lifetime, or 30 minutes when none (or zero) is given |
| Auth.EndpointTokenLifetime | backend/auth.py:17 | the endpoints' explicit 30-minute lifetime is the same as the default, and expires_in matches it |
| Auth.CurrentUser | backend/auth.py:151-177 | succeeds iff the token decodes to an existing active user, and returns that user; otherwise 401 |
| AuthApi.LoginWith | backend/routes/admin_auth.py:18-68 | with the limiter's pruning test as a parameter: 429 exactly while the pruned list holds 5 attempts; otherwise 401 for an unknown user or a wrong password, and only that refusal records an attempt; 401 "Account is disabled" for a disabled account; never a token, only the MFA step the account needs |
| AuthApi.LoginAsWritten | backend/routes/admin_auth.py:18-68 | the endpoint with the limiter as written: 429 exactly when the seconds-of-day pruning leaves 5 attempts |
| AuthApi.Login | backend/routes/admin_auth.py:18-68 | the endpoint with pruning by total age: 429 while rate-limited; 401 for an unknown user or wrong password; never a token; otherwise the MFA step the account needs |
| AuthApi.LoginLockedOutByYesterday | backend/routes/admin_auth.py:26-29 | five failures recorded from an address one day ago to the microsecond: the endpoint as written answers 429 to any login from it, the corrected endpoint does not |
| AuthApi.DisabledAccountNotCounted | backend/routes/admin_auth.py:49-54 | a disabled account with the right password gets 401 "Account is disabled" and no attempt is recorded |
| AuthApi.FailedLoginStep | backend/routes/admin_auth.py:22-47 | a failed login below the limit records one attempt; at the limit it answers 429 and records nothing |
| AuthApi.LoginTimes | backend/routes/admin_auth.py:18-68 | repeated logins never change the users |
| AuthApi.FailuresAccumulate | backend/routes/admin_auth.py:31-47 | k failed logins at the same instant leave k recent attempts, up to the limit |
| AuthApi.LoginTimesStep | backend/routes/admin_auth.py:31-47 | one more failed login at the same instant adds one recent attempt below the limit and none at it |
| AuthApi.FiveFailuresLockOut | backend/routes/admin_auth.py:22-28 | after five failures the next login from that address gets 429, whatever the credentials |
| AuthApi.SetupMfa | backend/routes/admin_auth.py:70-96 | 400 without a username, 404 for an unknown user; otherwise the fresh secret, its QR code, and manual_entry_key = secret |
| AuthApi.SetupThenEnrol | backend/routes/admin_auth.py:70-174 | the secret served to an account without MFA, sent back with a valid code, enrols exactly that secret and issues a token for the account; the MFA step then accepts exactly the codes valid for it |
| AuthApi.SessionToken | backend/routes/admin_auth.py:126-135 | a bearer token for that user that expires expires_in seconds from now |
| AuthApi.VerifyMfaSetupAsWritten | backend/routes/admin_auth.py:98-135 | 400 when a field is missing; success iff the code fits the submitted secret, with no check on the user |
| AuthApi.EnrolmentTakeover | backend/routes/admin_auth.py:98-135 | as written, a caller's own secret replaces an enrolled user's secret and yields that user's token |
| AuthApi.TokenForUnknownName | backend/routes/admin_auth.py:98-135 | as written, a token is issued for a username that does not exist |
| AuthApi.VerifyMfaSetup | backend/routes/admin_auth.py:98-135 | success also requires an existing user who has not enrolled yet; refusals change nothing |
| AuthApi.EnrolmentProtectsEnrolled | backend/routes/admin_auth.py:98-135 | the corrected enrolment never changes an enrolled user's secret |
| AuthApi.VerifyMfa | backend/routes/admin_auth.py:137-174 | 401 and a recorded attempt when the user is missing or has no MFA; 401 on a bad code; otherwise that user's session token |
| AuthApi.VerifyMfaNotThrottled | backend/routes/admin_auth.py:137-174 | the reply does not depend on recorded attempts and is never 429 |
| AuthApi.IssuedTokenOpensAccount | backend/routes/admin_auth.py:137-174 | a token from verify-mfa opens that user's account in get_current_user |
| AuthApi.Refresh | backend/routes/admin_auth.py:176-188 | a new token for the current user iff the old one is valid, otherwise 401 |
| AuthApi.CreateInitialAdmin | backend/routes/admin_auth.py:209-237 | 400 exactly when "admin" exists; otherwise "admin" is added, active and without MFA |
| AuthApi.InitialAdminFirstLogin | backend/routes/admin_auth.py:209-237 | the new admin's first login with the right password asks for MFA enrolment |
| Session.Start | admin/src/contexts/AuthContext.js:20-23 | the token comes from storage, no user is held, and the store is loading |
| Session.IsAuthenticated | admin/src/contexts/AuthContext.js:227 | signed in iff a user is held |
| Session.ErrorMessage | admin/src/contexts/AuthContext.js:128-131 | the server's detail when it has one, otherwise the fallback text |
| Session.Logout | admin/src/contexts/AuthContext.js:197-202 | stored token, token and user are all cleared, so nobody is signed in |
| Session.On401 | admin/src/contexts/AuthContext.js:41-55 | a 401 logs out iff a token is held; any other reply changes nothing |
| Session.Mount | admin/src/contexts/AuthContext.js:57-79 | the check that runs on mount and again on every token change: loading ends; /me is asked iff a token is held; its user is kept, and a failure clears the token |
| Session.StoreThenFetch | admin/src/contexts/AuthContext.js:107-116 | the token is stored before /me, and the user is set when /me answers |
| Session.Login | admin/src/contexts/AuthContext.js:81-134 | flags are checked in order: setup, then verify, then token; only the token path signs in; a failure is refused with the server's detail |
| Session.UnflaggedReplyRefused | admin/src/contexts/AuthContext.js:125-131 | a reply without any flag is refused with "Error en el login" |
| Session.TokenStoredBeforeUser | admin/src/contexts/AuthContext.js:107-116 | on the token path a failing /me refuses the login, and when `login` returns the token is still stored and held |
| Session.TokenRecheckedAfterLogin | admin/src/contexts/AuthContext.js:41-116 | after such a login a 401 from /me logs out at once, and the check rerun on the new token either loads the user or clears the token |
| Session.ServerLoginNeverSignsIn | admin/src/contexts/AuthContext.js:89-123 | against the backend's login reply the client never takes the direct sign-in path |
| Session.CompleteMfa | admin/src/contexts/AuthContext.js:146-195 | signed in iff the MFA call and /me both answer; when the call returns, the token is stored as soon as the MFA call answered |
| Session.TokenRecheckedAfterMfa | admin/src/contexts/AuthContext.js:41-79 | after an MFA call whose /me failed, the token is held but a 401 logs out and a second failed check clears it |
| Session.MfaStepSignsIn | admin/src/contexts/AuthContext.js:172-195 | a token from the backend's verify-mfa signs the client in |
| Session.RefreshToken | admin/src/contexts/AuthContext.js:204-215 | a failed refresh logs out; a successful one stores the new token |
| Session.RefreshKeepsSession | admin/src/contexts/AuthContext.js:204-215 | a token the backend grants on /refresh keeps the same user signed in and is stored; a refused refresh leaves nobody signed in |
| Session.LoggedOutStaysOut | admin/src/contexts/AuthContext.js:41-79 | after a 401 the user is gone and the next mount asks for nothing |
| LoginPage.DigitsOnly | admin/src/pages/LoginPage.js:236 | the filtered code is no longer than the input and holds only digits |
| LoginPage.OnCodeInput | admin/src/pages/LoginPage.js:285 | typing sets only the code, to the digits of the input |
| LoginPage.DigitFilterExact | admin/src/pages/LoginPage.js:236 | a character survives iff it is a digit of the input, and filtering twice is filtering once |
| LoginPage.HandleMfaSetup | admin/src/pages/LoginPage.js:67-83 | a request iff the code has exactly 6 characters, for the held username and secret |
| LoginPage.HandleMfaVerify | admin/src/pages/LoginPage.js:85-101 | a request iff the code has exactly 6 characters, for the held username |
| LoginPage.SentCodesAreSixDigits | admin/src/pages/LoginPage.js:67-101 | whatever was typed, a code that is sent is six digits |
| LoginPage.CodeReady | admin/src/pages/LoginPage.js:69-88 | a code may be sent iff it has exactly six characters |
| LoginPage.HandleLogin | admin/src/pages/LoginPage.js:38-65 | a refusal leaves the page unchanged; otherwise the login username is kept, the step follows the outcome, and setup material is fetched for enrolment |
| LoginPage.MfaCallsUseLoginName | admin/src/pages/LoginPage.js:44-94 | the MFA calls use the username submitted at login |
| LoginPage.EnrolmentUsesServedSecret | admin/src/pages/LoginPage.js:50-76 | the enrolment call sends the secret the setup call returned |
| LoginPage.ResetToLogin | admin/src/pages/LoginPage.js:103-109 | cancel returns to the password step with every field cleared |
| LoginPage.ResetIsFreshStart | admin/src/pages/LoginPage.js:103-109 | cancel yields the initial page: a signed-out, loaded session shows the password form, and neither MFA form can send |
| LoginPage.Render | admin/src/pages/LoginPage.js:34-36 | a signed-in user is redirected and never sees the form; the form shows only after loading |
| LoginPage.RenderFollowsSession | admin/src/pages/LoginPage.js:34-36 | a login that signs in leads to the redirect; after logout, a 401 while a token is held, or a failed check, the page is never redirected |
| Upload.BaseName | backend/routes/admin_upload.py:30-35 | the final path component contains no '/' |
| Upload.BaseNameEndsPath | backend/routes/admin_upload.py:30-35 | the final component is a tail of the path |
| Upload.LastDot | backend/routes/admin_upload.py:30-35 | the position of the last '.', or none exactly when there is no '.' |
| Upload.SuffixShape | backend/routes/admin_upload.py:30-35 | the suffix ends the name, and is empty or '.' plus a non-empty dot-free tail |
| Upload.Suffix | backend/routes/admin_upload.py:30-35 | the suffix is empty, or a dot and at least one more character, shorter than the name |
| Upload.Extension | backend/routes/admin_upload.py:30-35 | the extension is empty or starts with '.' and has at least one more character |
| Upload.ExtensionEndsName | backend/routes/admin_upload.py:30-35 | the extension is a tail of the lower-cased file name |
| Upload.ExtensionOk | backend/routes/admin_upload.py:25-35 | an accepted name ends, lower-cased, in one of the five allowed extensions |
| Upload.MimeOk | backend/routes/admin_upload.py:26-44 | an accepted MIME type is an image/ type |
| Upload.StoredExtension | backend/routes/admin_upload.py:105-110 | ".jpg" when optimising; otherwise a tail of the lower-cased name, allowed whenever the name passed the check |
| Upload.BaseNameNoSlashTail | backend/routes/admin_upload.py:30-35 | a slash-free tail stays part of the final component |
| Upload.BaseNameAfterSlash | backend/routes/admin_upload.py:30-35 | the final component of dir/name is name |
| Upload.LastDotNoDotTail | backend/routes/admin_upload.py:30-35 | a dot-free tail does not move the last dot |
| Upload.SuffixOf | backend/routes/admin_upload.py:30-35 | stem.ext has suffix .ext when stem and ext are non-empty, and none otherwise |
| Upload.PlainName | backend/routes/admin_upload.py:30-35 | a name without '/' is its own final component |
| Upload.ExtensionOfPath | backend/routes/admin_upload.py:30-35 | the extension of dir/stem.ext is ".ext" lower-cased when stem and ext are non-empty and free of slashes and dots |
| Upload.UpperCaseAccepted | backend/routes/admin_upload.py:30-35 | "Photo.JPG" is accepted, lower-cased to ".jpg" |
| Upload.FinalSuffixOnly | backend/routes/admin_upload.py:30-35 | "image.png.exe" is judged by ".exe" and refused |
| Upload.DotFileRefused | backend/routes/admin_upload.py:30-35 | a dot-file such as ".png" (a dot, then no dot or slash) has no suffix and is refused |
| Upload.TrailingDotRefused | backend/routes/admin_upload.py:30-35 | a slash-free name ending in a dot, such as "photo.png.", has no suffix and is refused |
| Upload.Store | backend/routes/admin_upload.py:105-123 | the stored name is the id plus ".jpg" when optimised or the lower-cased suffix otherwise; the URL is /uploads/category/name; the size is the optimised or the original one |
| Upload.UploadImage | backend/routes/admin_upload.py:77-154 | 400 iff the extension or the MIME type is refused; an oversize file comes back as 500; success is the stored file |
| Upload.StoredNameAllowed | backend/routes/admin_upload.py:105-123 | a stored file's name always ends in an allowed extension |
| Upload.BulkItem | backend/routes/admin_upload.py:174-219 | a file is stored iff it passes the checks, the size cap and the optimiser |
| Upload.SplitAccounts | backend/routes/admin_upload.py:174-219 | results and errors together count every file once |
| Upload.UploadMultiple | backend/routes/admin_upload.py:156-240 | 400 iff more than 10 files; otherwise success + failed is the file count, each file in exactly one list, in order; a result entry holds filename, original_name, url, size and category, with no optimized flag |
| Upload.Account | backend/routes/admin_upload.py:171-219 | each outcome lands, in order, among the results if the file was stored and among the errors, with its file name, if not |
| Upload.SuccessesSnoc | backend/routes/admin_upload.py:174-219 | one more file adds at most one result, at the end |
| Upload.FailuresSnoc | backend/routes/admin_upload.py:174-219 | one more file adds at most one error, at the end |
| Upload.BulkAgreesWithSingle | backend/routes/admin_upload.py:77-219 | a file stored in bulk is stored exactly as a single upload would store it |
| Upload.StatsOver | backend/routes/admin_upload.py:319-333 | one entry per existing category directory, with its file count and byte total |
| Upload.StorageStats | backend/routes/admin_upload.py:309-337 | the stats cover exactly the three categories that exist on disk |
| Upload.StatsStep | backend/routes/admin_upload.py:319-333 | one more category adds its count and bytes to the totals |
| Upload.TotalsAreSums | backend/routes/admin_upload.py:319-333 | the totals are the sums over the categories |
| Carousel.Next | frontend/src/components/HeroCarousel.js:15-17 | stays below n, and moves one slide on, wrapping from the last to the first |
| Carousel.Prev | frontend/src/components/HeroCarousel.js:19-21 | stays below n, and moves one slide back, wrapping from the first to the last |
| Carousel.PrevWraps | frontend/src/components/HeroCarousel.js:19-21 | the remainder `(i - 1 + n) % n` is a slide index, and on a slide it is the previous slide or the last one from the first |
| Carousel.ArrowsInverse | frontend/src/components/HeroCarousel.js:15-21 | next then prev, and prev then next, return to the same slide |
| Carousel.Step | frontend/src/components/HeroCarousel.js:8-21 | every event keeps a valid index, and a dot sets the index to that dot |
| Carousel.TickIsNext | frontend/src/components/HeroCarousel.js:8-17 | the autoplay tick moves exactly like the forward arrow |
| Carousel.RunInRange | frontend/src/components/HeroCarousel.js:6-21 | from slide 0, any sequence of valid events leaves a valid index |
| Carousel.ForwardIsAddition | frontend/src/components/HeroCarousel.js:8-17 | k forward moves land k slides on, modulo n |
| Carousel.FullCycle | frontend/src/components/HeroCarousel.js:8-13 | n ticks return to the start and no fewer do, so every promotion is shown |
| Carousel.PositionOf | frontend/src/components/HeroCarousel.js:28-37 | the current slide is shown, lower ones wait to the left and higher ones to the right |
| Carousel.ForwardDirection | frontend/src/components/HeroCarousel.js:28-37 | moving forward sends the old slide left, except at the wrap, where it goes right |
| Marquee.ResolveLogoSrc | frontend/src/components/BrandMarquee.js:4-8 | `''` iff the base is `''`; a path ending in `.jpg`, `.jpeg`, `.png` or `.svg` (any case) is kept as it is; any other non-empty path gets ".jpg" appended |
| Marquee.ResolvedIsImage | frontend/src/components/BrandMarquee.js:4-8 | a non-empty resolved path is an image path, and resolving again changes nothing |
| Marquee.ExtensionStart | frontend/src/components/BrandMarquee.js:18 | the start of the match of the final-extension pattern, or none exactly when nothing matches |
| Marquee.MatchUnique | frontend/src/components/BrandMarquee.js:18 | the pattern matches at one position at most |
| Marquee.ReplaceAsWritten | frontend/src/components/BrandMarquee.js:18 | a path without a match comes back unchanged; otherwise the prefix before the matched dot is kept and the new extension put after it, so the result ends in that extension |
| Marquee.Retarget | frontend/src/components/BrandMarquee.js:4-20 | for a non-empty path the corrected address is the first requested address (after `resolveLogoSrc`) with its final extension swapped for the new one, so it ends in that extension; an empty path stays empty |
| Marquee.StemOfAppendedJpg | frontend/src/components/BrandMarquee.js:7-18 | a path with ".jpg" appended has that ".jpg" as its final extension, and the path itself as its stem |
| Marquee.RetargetAgreesWithExtension | frontend/src/components/BrandMarquee.js:18 | where the path has an extension, the corrected address is what the replacement gives exactly when that extension is an image extension |
| Marquee.DottedNameRewrites | frontend/src/components/BrandMarquee.js:4-20 | for a path "p.e" whose last part is not an image extension, the corrected retry appends the extension to the whole path and the written one replaces ".e" |
| Marquee.DottedNameKept | frontend/src/components/BrandMarquee.js:4-20 | "/assets/brands/ray.ban" is retried as "ray.ban.jpeg" with the corrected rewrite and as "ray.jpeg" as written |
| Marquee.RetargetDistinct | frontend/src/components/BrandMarquee.js:18 | different extensions give different corrected addresses |
| Marquee.NextCandidate | frontend/src/components/BrandMarquee.js:13-14 | the first of .jpeg, .png, .svg not yet tried, or none when all are tried |
| Marquee.OnErrorAsWritten | frontend/src/components/BrandMarquee.js:10-20 | with every candidate tried the logo is unchanged; otherwise the first untried candidate is appended to the tried list, the base is kept, and the address becomes the base with the pattern replaced by that candidate |
| Marquee.OnError | frontend/src/components/BrandMarquee.js:10-20 | the same handler with the corrected rewrite: unchanged when no candidate is left, else tried + [first untried candidate] and the address is the corrected one for it |
| Marquee.TriedInOrder | frontend/src/components/BrandMarquee.js:12-19 | after k errors ".jpg" and the first min(k, 3) fallbacks have been tried, in order; the k-th retry requests the k-th fallback; after three nothing changes |
| Marquee.RetriesTryEachExtension | frontend/src/components/BrandMarquee.js:10-20 | with the corrected address the three retries request .jpeg, .png and .svg, all different |
| Marquee.ExtensionlessPathNeverRetargeted | frontend/src/components/BrandMarquee.js:18 | as written, every retry for a base without an extension requests the bare base |
| Marquee.RaybanWithoutExtension | frontend/src/components/BrandMarquee.js:4-20 | for "/assets/brands/rayban" the first request is the ".jpg" path, the written second request is the bare path, and the corrected one is the ".png" path |
| Marquee.DotlessLogo | frontend/src/components/BrandMarquee.js:4-20 | a non-empty base with no dot and no final "g" is requested with ".jpg"; its second retry is the bare base as written and the ".png" path when corrected |
| Marquee.Track | frontend/src/components/BrandMarquee.js:114 | both halves of the track are the brand list |
| Marquee.TrackRepeats | frontend/src/components/BrandMarquee.js:114 | the track has 2n logos, and logo i + n is logo i |

## Left out

- Storage and transport are not modelled: MongoDB cursors, HTTP, axios, React rendering, toasts and modals. Collections are values, and requests are returned as values.
- ContentStore.GetSection: the `to_list(100)` of backend/routes/admin_content.py:36 is not modelled. The store is a map without the collection's document order, so which entries a cap would drop cannot be stated; the contract describes sections of at most 100 entries.
- ContentStore.PublicSection: the `to_list(100)` of backend/routes/public_api.py:33 is not modelled, for the same reason.
- ContentStore.GroupSections: the `to_list(1000)` of backend/routes/admin_content.py:15 is not modelled, for the same reason.
- ContentStore.PublicAll: the `to_list(1000)` of backend/routes/public_api.py:48 is not modelled, for the same reason.
- ContentStore.GetSiteInfo: the `to_list(10)` per section of backend/routes/public_api.py:61-62 is not modelled, for the same reason; the contract describes header and general sections of at most 10 entries each.
- bcrypt, JWT encoding and decoding, pyotp and QR generation are not modelled. They are parameters, and a decoded token is an `Option` of claims.
- `optimize_image` (PIL, float resize), file writes and deletes are not modelled, because they are filesystem I/O. The optimiser is a parameter that returns a size or fails.
- `delete_image`, `list_images` and the `upload-image` handler of the promotions router are not modelled, because they are filesystem I/O.
- `backend/routes/admin_system.py` backups are not modelled, because they are filesystem I/O.
- The scheduler's asyncio loop, its sleeps and exception handling are not modelled. One pass of the loop is `Scheduler.TickAt`.
- `generate_daily_report` is not modelled, because it only counts documents; only its time gate is.
- The scheduler is modelled over the promotions; the admin_logs contents are modelled only for the scheduler's own logs and the cleanup.
- `/me` and `/logout` are not modelled, because they return what `get_current_user` gives and a fixed message.
- The marquee's requestAnimationFrame scroll, mouse and touch handling and `matchMedia` are not modelled, because they use float offsets and wall-clock time.
- The carousel's 5-second `setInterval` (frontend/src/components/HeroCarousel.js:8-13) is not modelled as time: each firing is a `Tick` event, freely interleaved with the arrow and dot clicks.
- The preview page, the dashboard, the settings page and the storefront's presentational components are not modelled, because they hold no decisions.
- pydantic coercion is not modelled: a field of the wrong JSON type is refused with 422 rather than coerced. Dates arrive as integer instants, without ISO parsing.
- Request validation before a handler (FastAPI's 422 for a missing login field) is not modelled. The handlers receive parsed bodies.
- Byte sizes are modelled as integers: `size_mb` is a float rounding of the byte totals and is left out.
- localStorage's string coercion of stored values is not modelled: the stored token is the JSON value itself.
- The `data-tried` attribute's comma-joined string is modelled as a sequence of extensions.
- `server.py` mounts `routes.admin_promotions`, which is not part of this model. The promotion handlers modelled are those of `backend/routes/admin_promotions_backup.py`.
- Upload.Extension: only ASCII letters are lower-cased. Python's Unicode lower-casing maps no other character onto an allowed extension, so the decision is the same.
- Upload.BaseName: `pathlib`'s normalisation of the path is not modelled. It drops trailing slashes, empty components and "." components before taking the name, so `Path("x.png/.").suffix` is ".png" and such a file name is accepted, while the model takes the text after the last '/' (here ".", which has no suffix) and refuses it. The contract states only that no '/' remains.
- Upload.UploadImage: the order in which the 400 detail lists the allowed extensions follows Python's set order and is a parameter.
- AuthApi.VerifyMfa: like the source, it is never throttled. `AuthApi.VerifyMfaNotThrottled` states this, and it is not treated as a finding.
- Upload.UploadImage: like the source, the category path segment is not validated.
- Carousel.Next: requires at least one promotion. The carousel's list is a non-empty constant, and with none the source computes NaN.
- Marquee.ResolveLogoSrc: a missing base (`null` or `undefined`) is modelled as `''`.
- Session.TokenStoredBeforeUser: the token is stored and held only when `login` returns. React effects are not modelled as a scheduler: the `[token]` effect (admin/src/contexts/AuthContext.js:57-79) and the 401 interceptor (admin/src/contexts/AuthContext.js:41-55) that run next are stated separately by Session.TokenRecheckedAfterLogin and Session.TokenRecheckedAfterMfa, and the same rerun after `refreshToken` is not composed with Session.RefreshKeepsSession.
- Brands.Reorder: an item whose order is present but not an integer is answered with 500 after the earlier items were applied. The handler would `$set` any JSON value and succeed, but a stored brand's order is an integer throughout this model; such a document would then fail the Brand response model (`order: int`) on listing. An item id that is a JSON object is compared as a value and matches no brand; the document store would read an object such as `{"$ne": ""}` as a query operator and update the first brand it matches. The handler is unreachable as declared (Brands.ReorderUnreachable), so neither difference shows through the router.
- Brands.ActiveIsSublistOfAll: the document store leaves the order of documents with equal sort keys unspecified, and the full and active brand lists (backend/routes/admin_brands.py:15 and backend/routes/admin_brands.py:21, and backend/routes/public_api.py:27) are separate queries. The model breaks ties by store order in both, which is its own choice; with ties (the form's default order is 0) the two real lists may order, and under the 100 cap select, tied brands differently.
- Promotions.ActiveIsSublistOfAll: the same tie-break choice for promotions with equal `created_at` (backend/routes/admin_promotions_backup.py:22 and backend/routes/admin_promotions_backup.py:34, and backend/routes/public_api.py:21).
- Brands.Create: `created_at` and `updated_at` come from two `datetime.utcnow()` calls (backend/routes/admin_brands.py:43-44); the model uses one clock reading for both, so it does not show the microseconds by which they can differ.
- Promotions.Create: the same single clock reading for the two `datetime.utcnow()` calls of backend/routes/admin_promotions_backup.py:56-57.
- PromotionsPage.Submit: the browser's check of the two `required` date inputs (admin/src/pages/PromotionsPage.js:562-576) is not modelled, because the form's dates are integer instants that always hold a value. A cleared date input gives an invalid `Date`, on which the page's own rendering fails.
- BrandsPage.Submit: the order box is modelled by the number `parseInt` gives. The browser checks the box's text instead: it also blocks a fraction that is not a whole step from 0 (such as "1.5", sent by the page as 1) and text it cannot read as a number, and the model does not see that text.
- PromotionsPage.EditRoundTrip: the page's date handling (`parseISO` reads local time, `toISOString` writes UTC) is abstracted to integer instants. EditRoundTrip, and the "Activa" case of PromotionsPage.StatusText, hold as stated only for a browser whose time zone is UTC.

## Findings

| source | as written | input that shows it | evidently intended | confidence | as-written member | corrected member |
|---|---|---|---|---|---|---|
| backend/auth.py:194 | attempts are kept while `(now - attempt).seconds < 300`, and `.seconds` is only the seconds-of-day part of the age | five failed logins from any address exactly one day ago: the next login from it is refused with 429, whatever the credentials | keep attempts less than 300 seconds old in total | high; not executed | Auth.CheckRateLimitAsWritten, AuthApi.LoginAsWritten (Auth.LockedOutByYesterday, AuthApi.LoginLockedOutByYesterday, Auth.WholeDaysOldKeptAsWritten) | Auth.CheckRateLimit (Auth.AsWrittenAgreesWithinADay), used by AuthApi.Login |
| frontend/src/components/BrandMarquee.js:18 | the retry address replaces the match of `\.[^/.]+$` in the base path, and a base without an extension has no match | logo base "/assets/brands/rayban": the first request is "/assets/brands/rayban.jpg", and every retry requests "/assets/brands/rayban" | retry the base with .jpeg, .png and .svg | medium (every logo in frontend/src/data/mockData.js:27-36 ends in .png); not executed | Marquee.OnErrorAsWritten (Marquee.ExtensionlessPathNeverRetargeted, Marquee.RaybanWithoutExtension) | Marquee.OnError (Marquee.Retarget, Marquee.RetriesTryEachExtension) |
| backend/routes/admin_brands.py:126 | `PUT /reorder` is declared after `PUT /{brand_id}` on the same router | `PUT /api/admin/brands/reorder` is answered by the update handler with brand_id "reorder" | the reorder handler answers that request | high; not executed | Brands.ReorderShadowed (Brands.ReorderUnreachable) | Brands.ReorderReachable (Brands.OtherRequestsUnchanged) |
| backend/routes/admin_auth.py:98-135 | verify-mfa-setup checks only the code against the secret the caller sends; it does not check that the user exists or has not enrolled yet | username "admin" with MFA enabled, plus a secret chosen by the caller and a valid code for it: the admin's secret is replaced and an admin token is issued | enrol only an existing user who has not enrolled yet | high; not executed | AuthApi.VerifyMfaSetupAsWritten (AuthApi.EnrolmentTakeover, AuthApi.TokenForUnknownName) | AuthApi.VerifyMfaSetup (AuthApi.EnrolmentProtectsEnrolled) |
| backend/models/brand.py:21 | `BrandCreate.description` is required | the admin form's new brand (admin/src/pages/BrandsPage.js:22-28) and the body of backend_test.py:390-398 have no description, so the create is refused with 422 | description optional, defaulting to `''` | medium; not executed | Brands.ParseCreate (Brands.TestScriptBodyRefused, BrandsPage.NewBrandAlwaysRefused) | Brands.ParseCreateWithDefaultDescription (Brands.TestScriptBodyAccepted, BrandsPage.NewBrandCreatedWithDefaultDescription) |
