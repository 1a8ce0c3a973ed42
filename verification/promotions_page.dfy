/** The promotions screen of the admin panel: the status badge, the edit
    form with its list of feature lines, and the requests the screen sends
    to the promotions endpoints. */
module PromotionsPage {
  import opened Common
  import opened Json
  import opened Fields
  import opened Promotions

  // ---------------------------------------------------------------------
  // Status badge

  /** The badge text, by the screen's branch order. The four texts
      partition the cases: switched off, not yet started, finished, and
      running, which is exactly the public active query's liveness, the
      two window ends included. */
  function StatusText(p: Promotion, now: int): (r: string)
    ensures r == "Inactiva" <==> !p.isActive
    ensures r == "Programada" <==> p.isActive && now < p.startDate
    ensures r == "Expirada" <==> (p.isActive && p.startDate <= now && p.endDate < now)
    ensures r == "Activa" <==> IsLive(p, now)
  {
    if !p.isActive then "Inactiva"
    else if now < p.startDate then "Programada"
    else if now > p.endDate then "Expirada"
    else "Activa"
  }

  /** The badge colour, computed by its own copy of the branches; it is
      always the colour that belongs to the badge text. */
  function StatusColor(p: Promotion, now: int): (r: string)
    ensures r == ColorOfText(StatusText(p, now))
  {
    if !p.isActive then "bg-gray-100 text-gray-800"
    else if now < p.startDate then "bg-blue-100 text-blue-800"
    else if now > p.endDate then "bg-red-100 text-red-800"
    else "bg-green-100 text-green-800"
  }

  /** The colour that belongs to each badge text. */
  function ColorOfText(text: string): string
  {
    if text == "Inactiva" then "bg-gray-100 text-gray-800"
    else if text == "Programada" then "bg-blue-100 text-blue-800"
    else if text == "Expirada" then "bg-red-100 text-red-800"
    else "bg-green-100 text-green-800"
  }

  // ---------------------------------------------------------------------
  // The form

  /** The form state: the plain fields, the feature lines and the two dates. */
  datatype Form = Form(fields: Body, features: seq<string>, startDate: int, endDate: int)

  /** The type a new promotion starts with. */
  const DefaultKind := "Promoción Especial"

  /** The empty form; the two dates are two readings of the clock. */
  function NewForm(start: int, end: int): (f: Form)
    ensures f.features == [""]
    ensures "type" in f.fields && f.fields["type"] == Str(DefaultKind)
    ensures "title" in f.fields && f.fields["title"] == Str("")
  {
    Form(map["title" := Str(""), "discount" := Str(""), "type" := Str(DefaultKind),
             "description" := Str(""), "image_url" := Str("")],
         [""], start, end)
  }

  /** Opening a stored promotion: its document, with at least one feature line. */
  function OpenForm(p: Promotion): (f: Form)
    ensures |p.features| == 0 ==> f.features == [""]
    ensures |p.features| > 0 ==> f.features == p.features
    ensures f.startDate == p.startDate && f.endDate == p.endDate
  {
    Form(ToDoc(p), if |p.features| > 0 then p.features else [""], p.startDate, p.endDate)
  }

  /** A white-space character as `String.prototype.trim` strips it: the
      ECMAScript WhiteSpace and LineTerminator characters. */
  predicate IsSpace(c: char)
  {
    ('\U{9}' <= c <= '\U{D}') || c == ' ' || c == '\U{A0}' || c == '\U{1680}'
    || ('\U{2000}' <= c <= '\U{200A}') || c == '\U{2028}' || c == '\U{2029}'
    || c == '\U{202F}' || c == '\U{205F}' || c == '\U{3000}' || c == '\U{FEFF}'
  }

  /** `s.trim() === ''`. */
  predicate Blank(s: string)
  {
    forall i :: 0 <= i < |s| ==> IsSpace(s[i])
  }

  function NotBlank(s: string): bool
  {
    !Blank(s)
  }

  /** The feature lines that are submitted. */
  function SubmittedFeatures(features: seq<string>): (r: seq<string>)
    ensures forall i :: 0 <= i < |r| ==> !Blank(r[i])
  {
    Filter(features, NotBlank)
  }

  /** A line is submitted exactly when it was in the form and is not blank. */
  lemma SubmittedFeaturesMembers(features: seq<string>, line: string)
    ensures line in SubmittedFeatures(features) <==> line in features && !Blank(line)
  {
    FilterMembers(features, NotBlank, line);
  }

  /** With no blank line, every line is submitted in order. */
  lemma {:induction false} NoBlankKeepsAll(features: seq<string>)
    requires forall i :: 0 <= i < |features| ==> !Blank(features[i])
    ensures SubmittedFeatures(features) == features
  {
    if |features| > 0 {
      NoBlankKeepsAll(features[1..]);
      assert features == [features[0]] + features[1..];
    }
  }

  /** Typing into one of the text inputs (title, discount, description) or
      choosing a type: that key of the form takes the text, and nothing
      else changes. */
  function SetText(f: Form, name: string, value: string): (r: Form)
    ensures r.fields.Keys == f.fields.Keys + {name} && r.fields[name] == Str(value)
    ensures forall k :: k in f.fields && k != name ==> r.fields[k] == f.fields[k]
    ensures r.features == f.features && r.startDate == f.startDate && r.endDate == f.endDate
  {
    f.(fields := f.fields[name := Str(value)])
  }

  /** Editing line `index` changes that line only. */
  function UpdateFeature(f: Form, index: nat, value: string): (r: Form)
    requires index < |f.features|
    ensures |r.features| == |f.features| && r.features[index] == value
    ensures forall j :: 0 <= j < |f.features| && j != index ==> r.features[j] == f.features[j]
    ensures r.fields == f.fields && r.startDate == f.startDate && r.endDate == f.endDate
  {
    f.(features := SetAt(f.features, index, value))
  }

  /** "Add" appends an empty line. */
  function AddFeature(f: Form): (r: Form)
    ensures |r.features| == |f.features| + 1 && r.features[|f.features|] == ""
    ensures r.features[..|f.features|] == f.features
    ensures r.fields == f.fields
  {
    f.(features := f.features + [""])
  }

  /** "Remove" deletes line `index` and keeps the others in order. */
  function RemoveFeature(f: Form, index: nat): (r: Form)
    requires index < |f.features|
    ensures r.features == f.features[..index] + f.features[index + 1..]
    ensures r.fields == f.fields
  {
    var rest := RemoveAt(f.features, index);
    assert rest == f.features[..index] + f.features[index + 1..];
    f.(features := rest)
  }

  /** The request body: the form's fields, then the non-blank feature lines
      and the two dates written over them. */
  function SubmitBody(f: Form): (b: Body)
    ensures "features" in b && b["features"] == StrArray(SubmittedFeatures(f.features))
    ensures "start_date" in b && b["start_date"] == Num(f.startDate)
    ensures "end_date" in b && b["end_date"] == Num(f.endDate)
    ensures forall k :: k in f.fields && k != "features" && k != "start_date" && k != "end_date" ==> k in b && b[k] == f.fields[k]
  {
    f.fields["features" := StrArray(SubmittedFeatures(f.features))]
      ["start_date" := Num(f.startDate)]["end_date" := Num(f.endDate)]
  }

  // ---------------------------------------------------------------------
  // Requests

  datatype Request =
    | NoRequest
    | Post(body: Body)
    | Put(id: string, body: Body)
    | Delete(id: string)

  /** The browser's constraint validation of the form: the title and the
      discount inputs are `required`. The two date inputs are `required`
      too, and always show the form's instants here. */
  predicate Sendable(f: Form)
  {
    !RequiredMissing(f.fields, "title") && !RequiredMissing(f.fields, "discount")
  }

  /** Submit: nothing when the browser refuses the form, otherwise the body
      as an update of the promotion being edited, else as a create. */
  function Submit(f: Form, editing: Option<Promotion>): (r: Request)
    ensures r == NoRequest <==> !Sendable(f)
    ensures r != NoRequest && editing.Some? ==> r.Put? && r.id == editing.value.id
    ensures r != NoRequest && editing.None? ==> r.Post?
    ensures r != NoRequest ==> r.body == SubmitBody(f)
  {
    if !Sendable(f) then NoRequest
    else if editing.Some? then Put(editing.value.id, SubmitBody(f))
    else Post(SubmitBody(f))
  }

  /** The switch sends the flipped flag and nothing else. */
  function ToggleActive(p: Promotion): (r: Request)
    ensures r.Put? && r.id == p.id && r.body.Keys == {"is_active"}
    ensures r.body["is_active"] == Bool(!p.isActive)
  {
    Put(p.id, map["is_active" := Bool(!p.isActive)])
  }

  /** Deleting asks first: without confirmation nothing is sent. */
  function HandleDelete(id: string, confirmed: bool): (r: Request)
    ensures r != NoRequest <==> confirmed
    ensures confirmed ==> r == Delete(id)
  {
    if confirmed then Delete(id) else NoRequest
  }

  /** What the delete button does to the collection: declined, no request
      is sent and the collection stays as it is; confirmed, the server
      removes exactly the promotion with that id and keeps every other,
      or answers 404 when there is none. */
  lemma DeleteFromScreen(s: Store, id: string, confirmed: bool, p: Promotion)
    requires IdsUnique(s)
    ensures !confirmed ==> HandleDelete(id, confirmed) == NoRequest
    ensures confirmed && Find(s, id).None? ==>
      Promotions.Delete(s, HandleDelete(id, confirmed).id) == Err(NotFound, PromotionNotFound)
    ensures confirmed && Find(s, id).Some? ==>
      Promotions.Delete(s, HandleDelete(id, confirmed).id).Ok?
      && (p in Promotions.Delete(s, HandleDelete(id, confirmed).id).value <==> p in s && p.id != id)
  {
    if confirmed && Find(s, id).Some? {
      DeleteRemovesExactlyThatId(s, id, p);
    }
  }

  // ---------------------------------------------------------------------
  // What the server does with those requests

  /** The toggle body is an update of `is_active` alone ... */
  lemma ToggleParsesToActiveOnly(p: Promotion)
    ensures ParseUpdate(ToggleActive(p).body) == Ok(NoChange.(isActive := Some(!p.isActive)))
  {
  }

  /** ... so the stored promotion only changes its flag and `updated_at`. */
  lemma ToggleChangesOnlyTheFlag(s: Store, p: Promotion, now: int)
    requires WindowsValid(s) && Find(s, p.id).Some?
    ensures var u := ParseUpdate(ToggleActive(p).body).value;
      var i := Find(s, p.id).value;
      Update(s, p.id, u, now) == Ok(Saved(s[i := s[i].(isActive := !p.isActive, updatedAt := now)],
                                          s[i].(isActive := !p.isActive, updatedAt := now)))
  {
    ToggleParsesToActiveOnly(p);
  }

  /** The new form is not sent until a title and a discount are typed. */
  lemma UntouchedFormNotSent(start: int, end: int, editing: Option<Promotion>)
    ensures Submit(NewForm(start, end), editing) == NoRequest
  {
  }

  /** The new form with a title and a discount typed in: the browser lets it
      through exactly when both are non-empty, and it then asks for a
      promotion with those texts, the screen's default type and no features. */
  lemma NewFormCreatesDefaults(start: int, end: int, title: string, discount: string)
    ensures var f := SetText(SetText(NewForm(start, end), "title", title), "discount", discount);
      Submit(f, None).Post? <==> title != "" && discount != ""
    ensures var f := SetText(SetText(NewForm(start, end), "title", title), "discount", discount);
      title != "" && discount != "" ==>
        ParseCreate(Submit(f, None).body) == Ok(PromotionCreate(title, discount, DefaultKind, "", [], start, end))
  {
    var f := SetText(SetText(NewForm(start, end), "title", title), "discount", discount);
    var b := SubmitBody(f);
    FilledFormBody(start, end, title, discount);
    assert HasStr(b, "title") && HasStr(b, "discount") && HasStr(b, "type") && HasStr(b, "description");
    assert StrListOk(b, "features") && StrListOr(b, "features", []) == [];
  }

  /** What the new form with a title and a discount submits, field by field. */
  lemma FilledFormBody(start: int, end: int, title: string, discount: string)
    ensures var b := SubmitBody(SetText(SetText(NewForm(start, end), "title", title), "discount", discount));
      && "title" in b && b["title"] == Str(title) && "discount" in b && b["discount"] == Str(discount)
      && "type" in b && b["type"] == Str(DefaultKind) && "description" in b && b["description"] == Str("")
      && "features" in b && b["features"] == StrArray([])
      && "start_date" in b && b["start_date"] == Num(start) && "end_date" in b && b["end_date"] == Num(end)
  {
    var f := SetText(SetText(NewForm(start, end), "title", title), "discount", discount);
    assert SubmittedFeatures(f.features) == [] by {
      assert Blank("");
      FilterCons("", [], NotBlank);
    }
    assert "type" in NewForm(start, end).fields && "description" in NewForm(start, end).fields;
  }

  /** A stored document read as an update request gives every field. */
  function FullUpdate(p: Promotion): PromotionUpdate
  {
    PromotionUpdate(Some(p.title), Some(p.discount), Some(p.kind), Some(p.description),
                    Some(p.features), p.imageUrl, Some(p.isActive),
                    Some(p.startDate), Some(p.endDate))
  }

  lemma ParseStoredDocument(p: Promotion)
    ensures ParseUpdate(ToDoc(p)) == Ok(FullUpdate(p))
  {
    var d := ToDoc(p);
    assert d["features"] == StrArray(p.features);
    assert d["image_url"] == OptStrValue(p.imageUrl);
  }

  /** With no blank feature line, the form of an opened promotion submits
      that promotion's own document. */
  lemma OpenedFormSubmitsDocument(p: Promotion)
    requires forall i :: 0 <= i < |p.features| ==> !Blank(p.features[i])
    ensures SubmitBody(OpenForm(p)) == ToDoc(p)
  {
    var f := OpenForm(p);
    if |p.features| > 0 {
      NoBlankKeepsAll(p.features);
    } else {
      assert Blank("");
      FilterCons("", [], NotBlank);
    }
    assert SubmittedFeatures(f.features) == p.features;
    var b := SubmitBody(f);
    var d := ToDoc(p);
    assert b.Keys == d.Keys;
  }

  /** Opening a stored promotion and submitting it unchanged: the browser
      sends it exactly when its title and discount are non-empty, and the
      server then rewrites only `updated_at`, provided its window is in
      order and none of its feature lines is blank. */
  lemma EditRoundTrip(s: Store, p: Promotion, now: int)
    requires p in s && IdsUnique(s)
    requires p.startDate < p.endDate
    requires forall i :: 0 <= i < |p.features| ==> !Blank(p.features[i])
    ensures Submit(OpenForm(p), Some(p)) != NoRequest <==> p.title != "" && p.discount != ""
    ensures p.title != "" && p.discount != "" ==>
      var r := ParseUpdate(Submit(OpenForm(p), Some(p)).body);
      r.Ok? && Update(s, p.id, r.value, now).Ok?
      && Update(s, p.id, r.value, now).value.promotion == p.(updatedAt := now)
  {
    assert OpenForm(p).fields["title"] == Str(p.title) && OpenForm(p).fields["discount"] == Str(p.discount);
    OpenedFormSubmitsDocument(p);
    ParseStoredDocument(p);
    var i := Find(s, p.id).value;
    assert s[i] == p;
    assert Merge(p, FullUpdate(p), now) == p.(updatedAt := now);
  }
}
