/** The admin content page: the sections fetched from the server, a change set
    keyed `"section.key"` that overlays them, per-element list editing, and
    save/discard of the change set. */
module ContentEditor {
  import opened Common
  import opened Json
  import ContentStore

  /** What GET /sections returns: section -> key -> stored entry. */
  type Sections = map<string, map<string, ContentStore.Entry>>

  /** One staged edit. */
  datatype Change = Change(section: string, key: string, value: Value)

  datatype Editor = Editor(sections: Sections, changes: map<string, Change>, hasChanges: bool)

  /** The change-set key, `${section}.${key}`. */
  function ChangeKey(section: string, key: string): string
  {
    section + "." + key
  }

  /** Every staged edit sits under its own change key, and the
      unsaved-changes flag is up exactly when something is staged. */
  predicate Valid(e: Editor)
  {
    && (forall ck :: ck in e.changes ==> ck == ChangeKey(e.changes[ck].section, e.changes[ck].key))
    && (e.hasChanges <==> |e.changes| > 0)
  }

  /** The page as first mounted. */
  function Initial(): (e: Editor)
    ensures Valid(e) && !e.hasChanges
  {
    Editor(map[], map[], false)
  }

  /** `sections[section]?.[key]?.value`. */
  function Stored(e: Editor, section: string, key: string): Option<Value>
  {
    if section in e.sections && key in e.sections[section] then Some(e.sections[section][key].value) else None
  }

  /** getValue: the staged value if any, else the stored one, else `''` when
      the stored one is missing or falsy. */
  function GetValue(e: Editor, section: string, key: string): (r: Value)
    ensures ChangeKey(section, key) in e.changes ==> r == e.changes[ChangeKey(section, key)].value
    ensures ChangeKey(section, key) !in e.changes && Stored(e, section, key).Some? && Truthy(Stored(e, section, key).value)
      ==> r == Stored(e, section, key).value
    ensures ChangeKey(section, key) !in e.changes && !(Stored(e, section, key).Some? && Truthy(Stored(e, section, key).value))
      ==> r == Str("")
  {
    var ck := ChangeKey(section, key);
    if ck in e.changes then e.changes[ck].value else OrElse(Stored(e, section, key), Str(""))
  }

  /** handleInputChange: stage `value` for (section, key). */
  function Stage(e: Editor, section: string, key: string, value: Value): (r: Editor)
    ensures r.sections == e.sections && r.hasChanges
    ensures r.changes.Keys == e.changes.Keys + {ChangeKey(section, key)}
    ensures r.changes[ChangeKey(section, key)] == Change(section, key, value)
    ensures forall ck :: ck in e.changes && ck != ChangeKey(section, key) ==> r.changes[ck] == e.changes[ck]
  {
    e.(changes := e.changes[ChangeKey(section, key) := Change(section, key, value)], hasChanges := true)
  }

  lemma StageValid(e: Editor, section: string, key: string, value: Value)
    requires Valid(e)
    ensures Valid(Stage(e, section, key, value))
  {
  }

  /** Reading back a staged edit gives it. */
  lemma StageThenGet(e: Editor, section: string, key: string, value: Value)
    ensures GetValue(Stage(e, section, key, value), section, key) == value
  {
  }

  /** A later edit of the same field replaces the earlier one. */
  lemma StageLastWriteWins(e: Editor, section: string, key: string, v1: Value, v2: Value)
    ensures Stage(Stage(e, section, key, v1), section, key, v2) == Stage(e, section, key, v2)
  {
  }

  /** Without dots in section names, change keys of different fields differ. */
  lemma ChangeKeyInjective(s1: string, k1: string, s2: string, k2: string)
    requires '.' !in s1 && '.' !in s2
    requires ChangeKey(s1, k1) == ChangeKey(s2, k2)
    ensures s1 == s2 && k1 == k2
  {
    var c1, c2 := ChangeKey(s1, k1), ChangeKey(s2, k2);
    assert c1[|s1|] == '.' && c2[|s2|] == '.';
    assert forall j :: 0 <= j < |s1| ==> c1[j] == s1[j];
    assert forall j :: 0 <= j < |s2| ==> c2[j] == s2[j];
    assert |s1| == |s2|;
    assert s1 == c1[..|s1|] && s2 == c2[..|s2|];
    assert k1 == c1[|s1| + 1..] && k2 == c2[|s2| + 1..];
  }

  /** With a dot in a section name two fields share a change key: staging the
      second hides the first, which then reads the second's value. */
  lemma ChangeKeyCollision(e: Editor, v1: Value, v2: Value)
    ensures ChangeKey("a.b", "c") == ChangeKey("a", "b.c")
    ensures GetValue(Stage(Stage(e, "a.b", "c", v1), "a", "b.c", v2), "a.b", "c") == v2
  {
    assert ChangeKey("a.b", "c") == "a.b.c" == ChangeKey("a", "b.c");
  }

  /** discardChanges. */
  function Discard(e: Editor): (r: Editor)
    ensures r.sections == e.sections && r.changes == map[] && !r.hasChanges
  {
    e.(changes := map[], hasChanges := false)
  }

  /** After a discard every field reads its stored value again. */
  lemma DiscardThenGet(e: Editor, section: string, key: string)
    ensures Valid(Discard(e))
    ensures GetValue(Discard(e), section, key) == OrElse(Stored(e, section, key), Str(""))
  {
  }

  // --------------------------------------------------------------- list edits

  /** `[...(sections[section]?.[key]?.value || [])]`: the stored list. A
      missing or falsy value reads as `[]`; a non-empty string spreads into
      its characters; any other truthy non-list throws (`None`). */
  function SpreadStored(e: Editor, section: string, key: string): (r: Option<seq<Value>>)
    ensures r.None? <==> (Stored(e, section, key).Some? && Truthy(Stored(e, section, key).value)
                          && !Stored(e, section, key).value.Arr? && !Stored(e, section, key).value.Str?)
  {
    match OrElse(Stored(e, section, key), Arr([]))
    case Arr(items) => Some(items)
    case Str(s) => Some(Chars(s))
    case _ => None
  }

  /** Spreading a string: one single-character string per character. */
  function Chars(s: string): (r: seq<Value>)
    ensures |r| == |s| && forall i :: 0 <= i < |s| ==> r[i] == Str([s[i]])
  {
    if |s| == 0 then [] else [Str([s[0]])] + Chars(s[1..])
  }

  /** `(sections[section]?.[key]?.value || []).filter(...)`: only a list (or
      a falsy value) has `filter`; anything else throws. */
  function FilterableStored(e: Editor, section: string, key: string): (r: Option<seq<Value>>)
    ensures r.None? <==> (Stored(e, section, key).Some? && Truthy(Stored(e, section, key).value)
                          && !Stored(e, section, key).value.Arr?)
  {
    match OrElse(Stored(e, section, key), Arr([]))
    case Arr(items) => Some(items)
    case _ => None
  }

  /** `newArray[index] = value`: past the end, JavaScript leaves holes, which
      serialise as `null`. */
  function Assign(xs: seq<Value>, index: nat, v: Value): (r: seq<Value>)
    ensures |r| == if index < |xs| then |xs| else index + 1
    ensures r[index] == v
    ensures forall j :: 0 <= j < |xs| && j != index ==> r[j] == xs[j]
    ensures forall j :: |xs| <= j < index ==> r[j] == Null
  {
    if index < |xs| then xs[index := v] else xs + seq(index - |xs|, _ => Null) + [v]
  }

  /** handleArrayChange: replace one element of the STORED list and stage the
      result (`None` when the handler throws and nothing changes). */
  function ArrayChange(e: Editor, section: string, key: string, index: nat, value: Value): (r: Option<Editor>)
    ensures r.None? <==> SpreadStored(e, section, key).None?
    ensures r.Some? ==> r.value == Stage(e, section, key, Arr(Assign(SpreadStored(e, section, key).value, index, value)))
  {
    match SpreadStored(e, section, key)
    case None => None
    case Some(xs) => Some(Stage(e, section, key, Arr(Assign(xs, index, value))))
  }

  /** addArrayItem: the stored list with `item` appended, staged. */
  function AddArrayItem(e: Editor, section: string, key: string, item: Value): (r: Option<Editor>)
    ensures r.None? <==> SpreadStored(e, section, key).None?
    ensures r.Some? ==> r.value == Stage(e, section, key, Arr(SpreadStored(e, section, key).value + [item]))
  {
    match SpreadStored(e, section, key)
    case None => None
    case Some(xs) => Some(Stage(e, section, key, Arr(xs + [item])))
  }

  /** removeArrayItem: the stored list without position `index`, staged. */
  function RemoveArrayItem(e: Editor, section: string, key: string, index: int): (r: Option<Editor>)
    ensures r.None? <==> FilterableStored(e, section, key).None?
    ensures r.Some? ==> r.value == Stage(e, section, key, Arr(RemoveAt(FilterableStored(e, section, key).value, index)))
  {
    match FilterableStored(e, section, key)
    case None => None
    case Some(xs) => Some(Stage(e, section, key, Arr(RemoveAt(xs, index))))
  }

  /** The list a list edit stages, when it does not throw. */
  function StagedList(r: Option<Editor>, section: string, key: string): seq<Value>
  {
    if r.Some? && GetValue(r.value, section, key).Arr? then GetValue(r.value, section, key).items else []
  }

  /** Replace keeps the stored length (in range), append adds one element at
      the end, remove in range drops exactly that element. */
  lemma ListEditShapes(e: Editor, section: string, key: string, index: nat, value: Value)
    requires Stored(e, section, key).Some? && Stored(e, section, key).value.Arr?
    ensures var xs := Stored(e, section, key).value.items;
      && (index < |xs| ==> StagedList(ArrayChange(e, section, key, index, value), section, key) == xs[index := value])
      && StagedList(AddArrayItem(e, section, key, value), section, key) == xs + [value]
      && (index < |xs| ==> StagedList(RemoveArrayItem(e, section, key, index), section, key) == xs[..index] + xs[index + 1..])
  {
    var xs := Stored(e, section, key).value.items;
    var removed := RemoveAt(xs, index);
    if index < |xs| {
      assert removed == xs[..index] + xs[index + 1..];
    }
  }

  /** Two element edits of one stored list: the second starts again from the
      stored list, so only its own element differs from what is stored. */
  lemma ArrayEditsStartFromStored(e: Editor, section: string, key: string, i: nat, j: nat, vi: Value, vj: Value)
    requires Stored(e, section, key).Some? && Stored(e, section, key).value.Arr?
    requires i < |Stored(e, section, key).value.items| && j < |Stored(e, section, key).value.items| && i != j
    ensures var first := ArrayChange(e, section, key, i, vi).value;
      var xs := Stored(e, section, key).value.items;
      && ArrayChange(first, section, key, j, vj).Some?
      && GetValue(ArrayChange(first, section, key, j, vj).value, section, key) == Arr(xs[j := vj])
      && GetValue(ArrayChange(first, section, key, j, vj).value, section, key).items[i] == xs[i]
  {
  }

  /** The element offered by "+ Agregar elemento", from the first element of
      the list shown: `''` for a string, an empty list or a scalar; a record
      of the same keys set to `''` for a record (a list counts as a record
      keyed by its indices); `null` makes `Object.keys` throw. */
  function DefaultItem(shown: seq<Value>): (r: Option<Value>)
    ensures |shown| == 0 ==> r == Some(Str(""))
    ensures |shown| > 0 && shown[0].Null? <==> r.None?
    ensures |shown| > 0 && shown[0].Obj? ==> r.Some? && r.value.Obj? && r.value.fields.Keys == shown[0].fields.Keys
    ensures r.Some? && r.value.Obj? ==> forall k :: k in r.value.fields ==> r.value.fields[k] == Str("")
    ensures |shown| > 0 && (shown[0].Str? || shown[0].Num? || shown[0].Bool?) ==> r == Some(Str(""))
    ensures |shown| > 0 && shown[0].Arr? ==> r == Some(Obj(IndexKeys(|shown[0].items|)))
  {
    if |shown| == 0 then Some(Str(""))
    else match shown[0]
      case Obj(fields) => Some(Obj(map k | k in fields :: Str("")))
      case Arr(items) => Some(Obj(IndexKeys(|items|)))
      case Null => None
      case _ => Some(Str(""))
  }

  /** `k` is the decimal form of an index below `n`. */
  predicate IsIndexKey(k: string, n: nat)
  {
    exists i :: 0 <= i < n && NatToString(i) == k
  }

  /** `Object.keys` of a list of length n (its indices in decimal), each
      mapped to `''`. */
  function IndexKeys(n: nat): (r: map<string, Value>)
    ensures forall i :: 0 <= i < n ==> NatToString(i) in r
    ensures forall k :: k in r ==> IsIndexKey(k, n)
    ensures forall k :: k in r ==> r[k] == Str("")
  {
    if n == 0 then map[]
    else
      var r := IndexKeys(n - 1)[NatToString(n - 1) := Str("")];
      assert forall k :: k in r ==> IsIndexKey(k, n) by {
        forall k | k in r ensures IsIndexKey(k, n) {
          if k != NatToString(n - 1) {
            var i :| 0 <= i < n - 1 && NatToString(i) == k;
          }
        }
      }
      r
  }

  /** Adding to an empty list, or to a list of strings, appends `''`. */
  lemma AddToEmptyAppendsBlank(e: Editor, section: string, key: string)
    requires Stored(e, section, key).Some? && Stored(e, section, key).value == Arr([])
    requires ChangeKey(section, key) !in e.changes
    ensures DefaultItem(GetValue(e, section, key).items) == Some(Str(""))
    ensures GetValue(AddArrayItem(e, section, key, Str("")).value, section, key) == Arr([Str("")])
  {
  }

  // -------------------------------------------------------------- save/fetch

  /** The bulk-update request body: section -> key -> value. */
  type Body = map<string, map<string, Value>>

  predicate ChangesValid(changes: map<string, Change>)
  {
    forall ck :: ck in changes ==> ck == ChangeKey(changes[ck].section, changes[ck].key)
  }

  /** The staged edits of one section, by key. */
  function SectionChanges(changes: map<string, Change>, section: string): (r: map<string, Value>)
    requires ChangesValid(changes)
    ensures forall ck :: ck in changes && changes[ck].section == section ==>
      changes[ck].key in r && r[changes[ck].key] == changes[ck].value
    ensures forall k :: k in r ==>
      ChangeKey(section, k) in changes && changes[ChangeKey(section, k)] == Change(section, k, r[k])
  {
    map ck | ck in changes && changes[ck].section == section :: changes[ck].key := changes[ck].value
  }

  /** saveChanges' grouping of the change set by section. */
  function GroupChanges(changes: map<string, Change>): (r: Body)
    requires ChangesValid(changes)
    ensures forall ck :: ck in changes ==>
      changes[ck].section in r && changes[ck].key in r[changes[ck].section]
      && r[changes[ck].section][changes[ck].key] == changes[ck].value
    ensures forall s :: s in r ==> forall k :: k in r[s] ==>
      ChangeKey(s, k) in changes && changes[ChangeKey(s, k)] == Change(s, k, r[s][k])
  {
    map s | s in (set ck | ck in changes :: changes[ck].section) :: SectionChanges(changes, s)
  }

  /** What a save sends (if anything) and the page it leaves. */
  datatype SaveOutcome = SaveOutcome(request: Option<Body>, editor: Editor)

  /** saveChanges: nothing is sent without changes; otherwise the grouped
      change set is sent. On success the page refetches (keeping the old
      sections if that read fails) and empties the change set; on failure
      the page is left as it was. */
  function Save(e: Editor, putOk: bool, refetched: Option<Sections>): (r: SaveOutcome)
    requires Valid(e)
    ensures !e.hasChanges ==> r == SaveOutcome(None, e)
    ensures e.hasChanges ==> r.request == Some(GroupChanges(e.changes))
    ensures e.hasChanges && putOk ==>
      r.editor == Editor(refetched.GetOr(e.sections), map[], false)
    ensures e.hasChanges && !putOk ==> r.editor == e
    ensures Valid(r.editor)
  {
    if !e.hasChanges then SaveOutcome(None, e)
    else
      var body := GroupChanges(e.changes);
      if putOk then SaveOutcome(Some(body), Editor(refetched.GetOr(e.sections), map[], false))
      else SaveOutcome(Some(body), e)
  }

  /** fetchContent: a successful read replaces the sections; the change set
      is kept either way. */
  function Fetch(e: Editor, response: Option<Sections>): (r: Editor)
    ensures r.changes == e.changes && r.hasChanges == e.hasChanges
    ensures r.sections == response.GetOr(e.sections)
  {
    if response.Some? then e.(sections := response.value) else e
  }

  lemma FetchValid(e: Editor, response: Option<Sections>)
    requires Valid(e)
    ensures Valid(Fetch(e, response))
  {
  }

  /** The request holds exactly the staged edits: each staged field once, with
      its staged value, and nothing else. */
  lemma SaveSendsExactlyTheChanges(e: Editor, section: string, key: string)
    requires Valid(e) && e.hasChanges
    ensures var body := Save(e, true, None).request.value;
      (section in body && key in body[section]) <==>
        (ChangeKey(section, key) in e.changes && e.changes[ChangeKey(section, key)].section == section
         && e.changes[ChangeKey(section, key)].key == key)
  {
    var body := Save(e, true, None).request.value;
    var ck := ChangeKey(section, key);
    if ck in e.changes && e.changes[ck].section == section && e.changes[ck].key == key {
      assert e.changes[ck].section in body;
    }
  }

  /** After a successful save whose refetch shows the sent values, a field
      that was staged reads back its value, or `''` if that value is falsy. */
  lemma SavedValueReadsBack(e: Editor, refetched: Sections, section: string, key: string)
    requires Valid(e) && e.hasChanges
    requires var ck := ChangeKey(section, key);
      ck in e.changes && e.changes[ck].section == section && e.changes[ck].key == key
    requires forall s :: s in GroupChanges(e.changes) ==>
      s in refetched && forall k :: k in GroupChanges(e.changes)[s] ==>
        k in refetched[s] && refetched[s][k].value == GroupChanges(e.changes)[s][k]
    ensures var v := e.changes[ChangeKey(section, key)].value;
      GetValue(Save(e, true, Some(refetched)).editor, section, key) == if Truthy(v) then v else Str("")
  {
    var ck := ChangeKey(section, key);
    assert e.changes[ck].section in GroupChanges(e.changes);
  }

  // ------------------------------------------------------------ field render

  datatype FieldKind = ListField | ObjectField | TextArea | TextInput

  /** `sub` occurs in `s` (`String.prototype.includes`). */
  predicate Contains(s: string, sub: string)
    decreases |s|
  {
    |sub| <= |s| && (s[..|sub|] == sub || (|s| > 0 && Contains(s[1..], sub)))
  }

  /** renderField: lists, then anything of `typeof` 'object' (records and
      `null`), then strings and scalars as a text area when the key mentions
      "description" or "text", else a one-line input. */
  function RenderKind(e: Editor, section: string, key: string): (r: FieldKind)
    ensures GetValue(e, section, key).Arr? <==> r == ListField
    ensures (GetValue(e, section, key).Obj? || GetValue(e, section, key).Null?) <==> r == ObjectField
    ensures r == TextArea <==> (!GetValue(e, section, key).Arr? && !GetValue(e, section, key).Obj?
                               && !GetValue(e, section, key).Null? && (Contains(key, "description") || Contains(key, "text")))
  {
    match GetValue(e, section, key)
    case Arr(_) => ListField
    case Obj(_) => ObjectField
    case Null => ObjectField
    case _ => if Contains(key, "description") || Contains(key, "text") then TextArea else TextInput
  }

  /** A field with nothing stored and nothing staged shows an empty text box. */
  lemma MissingFieldIsText(e: Editor, section: string, key: string)
    requires Stored(e, section, key).None? && ChangeKey(section, key) !in e.changes
    ensures GetValue(e, section, key) == Str("")
    ensures RenderKind(e, section, key) in {TextArea, TextInput}
  {
  }

  /** renderObjectField's input handler: stage the record with one field set. */
  function EditObjectField(e: Editor, section: string, key: string, shown: map<string, Value>, field: string, text: string): (r: Editor)
    ensures GetValue(r, section, key) == Obj(shown[field := Str(text)])
    ensures r.hasChanges
  {
    Stage(e, section, key, Obj(shown[field := Str(text)]))
  }
}
