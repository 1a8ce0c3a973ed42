/** The brands screen of the admin panel: the edit form, the up/down order
    buttons, the on/off switch and the guarded delete, with what the brands
    endpoints make of the requests they send. */
module BrandsPage {
  import opened Common
  import opened Json
  import opened Fields
  import opened Brands

  /** The form is the plain object the screen edits and sends. */
  type Form = Body

  /** The empty form. */
  function NewForm(): (f: Form)
    ensures "name" in f && f["name"] == Str("") && "logo_url" in f && f["logo_url"] == Str("")
    ensures "color" in f && f["color"] == Str("#3b82f6")
    ensures "is_active" in f && f["is_active"] == Bool(true) && "order" in f && f["order"] == Num(0)
    ensures "description" !in f
  {
    map["name" := Str(""), "logo_url" := Str(""), "color" := Str("#3b82f6"),
        "is_active" := Bool(true), "order" := Num(0)]
  }

  /** Opening a stored brand edits its own document, which reads back as
      an update that sets every field to the brand's own value. */
  function OpenForm(b: Brand): (f: Form)
    ensures ParseUpdate(f) == Ok(BrandUpdate(Some(b.name), Some(b.color), Some(b.textColor),
                                             Some(b.description), Some(b.isActive), Some(b.order)))
  {
    var d := ToDoc(b);
    assert d["name"] == Str(b.name) && d["color"] == Str(b.color) && d["text_color"] == Str(b.textColor);
    assert d["description"] == Str(b.description) && d["is_active"] == Bool(b.isActive) && d["order"] == Num(b.order);
    d
  }

  /** The inputs of the form. The order box holds `parseInt` of what is
      typed: `None` is `NaN` (an empty or non-numeric entry), which the
      request body carries as `null`. */
  datatype Edit =
    | EditName(name: string)
    | EditColor(color: string)
    | EditOrder(order: Option<int>)
    | EditActive(active: bool)
    | UploadLogo(url: string)

  function ApplyEdit(f: Form, e: Edit): (r: Form)
    ensures r.Keys == f.Keys + {EditKey(e)}
    ensures forall k :: k in f && k != EditKey(e) ==> r[k] == f[k]
    ensures e.EditOrder? ==> (r["order"] == Null <==> e.order.None?)
    ensures e.EditOrder? && e.order.Some? ==> r["order"] == Num(e.order.value)
    ensures !e.EditOrder? ==> r[EditKey(e)] != Null
  {
    match e
    case EditName(v) => f["name" := Str(v)]
    case EditColor(v) => f["color" := Str(v)]
    case EditOrder(n) => f["order" := if n.Some? then Num(n.value) else Null]
    case EditActive(v) => f["is_active" := Bool(v)]
    case UploadLogo(u) => f["logo_url" := Str(u)]
  }

  /** The form key an input writes. */
  function EditKey(e: Edit): string
  {
    match e
    case EditName(_) => "name"
    case EditColor(_) => "color"
    case EditOrder(_) => "order"
    case EditActive(_) => "is_active"
    case UploadLogo(_) => "logo_url"
  }

  function ApplyEdits(f: Form, edits: seq<Edit>): Form
    decreases |edits|
  {
    if |edits| == 0 then f else ApplyEdits(ApplyEdit(f, edits[0]), edits[1..])
  }

  /** The form of a new brand, whatever is typed into it, has string name
      and color, an order that is an integer or `null`, and no description. */
  predicate NewFormShape(f: Form)
  {
    HasStr(f, "name") && HasStr(f, "color") && "order" in f && (f["order"].Num? || f["order"] == Null)
    && "text_color" !in f && "description" !in f
  }

  lemma {:induction false} EditsKeepNewFormShape(f: Form, edits: seq<Edit>)
    requires NewFormShape(f)
    ensures NewFormShape(ApplyEdits(f, edits))
    decreases |edits|
  {
    if |edits| > 0 {
      var g := ApplyEdit(f, edits[0]);
      assert NewFormShape(g);
      EditsKeepNewFormShape(g, edits[1..]);
    }
  }

  /** No sequence of inputs makes the new-brand form acceptable to the
      create model: the form has no description field. */
  lemma NewBrandAlwaysRefused(edits: seq<Edit>)
    ensures ParseCreate(ApplyEdits(NewForm(), edits)) == Err(Unprocessable, "description")
    ensures var r := Submit(ApplyEdits(NewForm(), edits), None);
      r.Post? ==> ParseCreate(r.body) == Err(Unprocessable, "description")
  {
    EditsKeepNewFormShape(NewForm(), edits);
  }

  /** With the description optional, the screen creates a brand exactly
      when the browser sends the form (a name, and no negative order) and
      its order box holds a number. Of the form itself, the parse accepts
      it exactly when the order is a number; a `NaN` order is sent as
      `null`, which the defaulted integer field refuses. */
  lemma NewBrandCreatedWithDefaultDescription(edits: seq<Edit>)
    ensures var f := ApplyEdits(NewForm(), edits);
      var r := Submit(f, None);
      (r.Post? && ParseCreateWithDefaultDescription(r.body).Ok?)
        <==> "name" in f && f["name"] != Str("") && "order" in f && f["order"].Num? && f["order"].n >= 0
    ensures var f := ApplyEdits(NewForm(), edits);
      ParseCreateWithDefaultDescription(f).Ok? <==> "order" in f && f["order"].Num?
    ensures var f := ApplyEdits(NewForm(), edits);
      "order" in f && f["order"] == Null ==> ParseCreateWithDefaultDescription(f) == Err(Unprocessable, "order")
    ensures ParseCreateWithDefaultDescription(ApplyEdits(NewForm(), edits)).Ok? ==>
      ParseCreateWithDefaultDescription(ApplyEdits(NewForm(), edits)).value.textColor == DefaultTextColor
  {
    EditsKeepNewFormShape(NewForm(), edits);
  }

  // ---------------------------------------------------------------------
  // Requests

  datatype Request =
    | NoRequest
    | Post(body: Body)
    | Put(id: string, body: Body)
    | Delete(id: string)

  /** The browser's constraint validation of the form: the name input is
      `required`, and the order box, a number input with `min="0"`,
      refuses a negative number. */
  predicate Sendable(f: Form)
  {
    !RequiredMissing(f, "name") && !("order" in f && f["order"].Num? && f["order"].n < 0)
  }

  /** Submit: nothing when the browser refuses the form, otherwise the whole
      form, as an update of the brand being edited or as a create. */
  function Submit(f: Form, editing: Option<Brand>): (r: Request)
    ensures r == NoRequest <==> !Sendable(f)
    ensures r != NoRequest && editing.Some? ==> r == Put(editing.value.id, f)
    ensures r != NoRequest && editing.None? ==> r == Post(f)
  {
    if !Sendable(f) then NoRequest
    else if editing.Some? then Put(editing.value.id, f)
    else Post(f)
  }

  /** The new form is not sent until a name is typed. */
  lemma UntouchedFormNotSent(editing: Option<Brand>)
    ensures Submit(NewForm(), editing) == NoRequest
  {
  }

  /** Opening a stored brand and saving it unchanged: the browser sends it
      exactly when its name is non-empty and its order not negative, and
      the server then rewrites only `updated_at`. */
  lemma EditRoundTrip(s: Store, b: Brand, now: int)
    requires b in s && IdsUnique(s)
    ensures Submit(OpenForm(b), Some(b)) != NoRequest <==> b.name != "" && b.order >= 0
    ensures b.name != "" && b.order >= 0 ==>
      var r := ParseUpdate(Submit(OpenForm(b), Some(b)).body);
      r.Ok? && Update(s, b.id, r.value, now).Ok?
      && Update(s, b.id, r.value, now).value.brand == b.(updatedAt := now)
  {
    assert OpenForm(b)["name"] == Str(b.name) && OpenForm(b)["order"] == Num(b.order);
    var i := Find(s, b.id).value;
    assert s[i] == b;
  }

  /** The up arrow: the brand's own order less one, never below 0. */
  function MoveUp(b: Brand): (r: Request)
    ensures r.Put? && r.id == b.id && r.body.Keys == {"order"}
    ensures r.body["order"] == Num(if b.order > 0 then b.order - 1 else 0)
  {
    Put(b.id, map["order" := Num(if b.order - 1 > 0 then b.order - 1 else 0)])
  }

  /** The down arrow: the brand's own order plus one. */
  function MoveDown(b: Brand): (r: Request)
    ensures r.Put? && r.id == b.id && r.body.Keys == {"order"}
    ensures r.body["order"] == Num(b.order + 1)
  {
    Put(b.id, map["order" := Num(b.order + 1)])
  }

  /** The up arrow is disabled on the first card, the down arrow on the last. */
  predicate UpEnabled(index: nat)
    ensures UpEnabled(index) <==> index > 0
  {
    index != 0
  }

  /** On a card of the list (`index < count`), down is enabled exactly when
      a card follows it. */
  predicate DownEnabled(index: nat, count: nat)
    ensures index < count ==> (DownEnabled(index, count) <==> index + 1 < count)
  {
    index != count - 1
  }

  /** On a list of two or more, each card has at least one arrow enabled;
      on a single card both are disabled. */
  lemma ArrowsOnList(index: nat, count: nat)
    requires index < count
    ensures count >= 2 ==> UpEnabled(index) || DownEnabled(index, count)
    ensures count == 1 ==> !UpEnabled(index) && !DownEnabled(index, count)
  {
  }

  /** The server applies an arrow to that brand alone: its order and
      `updated_at` change and no other brand is touched, so it is not a
      swap with the neighbour. */
  lemma ArrowTouchesOneBrand(s: Store, b: Brand, up: bool, now: int)
    requires Find(s, b.id).Some?
    ensures var req := if up then MoveUp(b) else MoveDown(b);
      var u := ParseUpdate(req.body);
      var i := Find(s, b.id).value;
      u == Ok(NoChange.(order := Some(req.body["order"].n)))
      && Update(s, b.id, u.value, now)
         == Ok(Saved(s[i := s[i].(order := req.body["order"].n, updatedAt := now)],
                     s[i].(order := req.body["order"].n, updatedAt := now)))
  {
  }

  /** Down then up returns a brand to its order; up then down does so only
      above 0, because up stops at 0. */
  lemma ArrowsUndo(b: Brand)
    requires b.order >= 0
    ensures MoveUp(b.(order := MoveDown(b).body["order"].n)).body["order"] == Num(b.order)
    ensures (MoveDown(b.(order := MoveUp(b).body["order"].n)).body["order"] == Num(b.order))
        <==> b.order >= 1
  {
  }

  /** "Up" on a brand whose order is already 0 sends 0 again: the order
      never goes negative, so a brand at 0 cannot be moved above a
      neighbour that shares that order. */
  lemma UpAtZeroKeepsOrder(b: Brand)
    requires b.order == 0
    ensures MoveUp(b).body["order"] == Num(0)
  {
  }

  /** The switch sends the flipped flag and nothing else. */
  function ToggleActive(b: Brand): (r: Request)
    ensures r.Put? && r.id == b.id && r.body.Keys == {"is_active"}
    ensures r.body["is_active"] == Bool(!b.isActive)
  {
    Put(b.id, map["is_active" := Bool(!b.isActive)])
  }

  lemma ToggleChangesOnlyTheFlag(s: Store, b: Brand, now: int)
    requires Find(s, b.id).Some?
    ensures var i := Find(s, b.id).value;
      ParseUpdate(ToggleActive(b).body) == Ok(NoChange.(isActive := Some(!b.isActive)))
      && Update(s, b.id, NoChange.(isActive := Some(!b.isActive)), now)
         == Ok(Saved(s[i := s[i].(isActive := !b.isActive, updatedAt := now)],
                     s[i].(isActive := !b.isActive, updatedAt := now)))
  {
  }

  /** Deleting asks first: without confirmation nothing is sent. */
  function HandleDelete(id: string, confirmed: bool): (r: Request)
    ensures r != NoRequest <==> confirmed
    ensures confirmed ==> r == Delete(id)
  {
    if confirmed then Delete(id) else NoRequest
  }

  /** What the delete button does to the collection: declined, no request
      is sent and the collection stays as it is; confirmed, the server
      removes exactly the brand with that id and keeps every other,
      or answers 404 when there is none. */
  lemma DeleteFromScreen(s: Store, id: string, confirmed: bool, b: Brand)
    requires IdsUnique(s)
    ensures !confirmed ==> HandleDelete(id, confirmed) == NoRequest
    ensures confirmed && Find(s, id).None? ==>
      Brands.Delete(s, HandleDelete(id, confirmed).id) == Err(NotFound, BrandNotFound)
    ensures confirmed && Find(s, id).Some? ==>
      Brands.Delete(s, HandleDelete(id, confirmed).id).Ok?
      && (b in Brands.Delete(s, HandleDelete(id, confirmed).id).value <==> b in s && b.id != id)
  {
    if confirmed && Find(s, id).Some? {
      DeleteRemovesExactlyThatId(s, id, b);
    }
  }
}
