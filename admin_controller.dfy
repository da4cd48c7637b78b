/** The admin screen's list controller
    (assets/javascripts/discourse/controllers/admin-plugins/rank-on-names.js):
    the rule rows as the server sent them, kept sorted by `(position, id)`,
    with per-row draft state (`isEditing`, `_edit`) and the fields of the
    "new rule" form. Server replies are parameters of the actions that wait
    for them; what they would send is returned as a `Request`. */
module AdminRankController {
  import opened Common
  import opened JsValues
  import Sorting
  import Decimal

  /** One element of `prefixes`: a plain object. */
  type Row = map<string, JsValue>

  /** `value || 0`, for the numeric fields the comparator reads. */
  function OrZero(v: JsValue): int {
    if v.Num? then v.n else 0
  }

  function SortKeyOf(r: Row): Sorting.SortKey {
    Sorting.SortKey(OrZero(Get(r, "position")), OrZero(Get(r, "id")))
  }

  /** The comparator handed to `Array.prototype.sort`. */
  function Compare(a: Row, b: Row): (c: int)
    ensures c <= 0 <==> Sorting.KeyLe(SortKeyOf(a), SortKeyOf(b))
    ensures c == 0 <==> SortKeyOf(a) == SortKeyOf(b)
  {
    var aPos := OrZero(Get(a, "position"));
    var bPos := OrZero(Get(b, "position"));
    if aPos == bPos then OrZero(Get(a, "id")) - OrZero(Get(b, "id")) else aPos - bPos
  }

  /** `#sortPrefixes`: a sorted copy (`[...prefixes].sort(...)`), a permutation
      of its input in which the comparator never puts a row after one it
      should follow. The sort is stable, as `Array.prototype.sort` is. */
  function SortPrefixes(rows: seq<Row>): (r: seq<Row>)
    ensures multiset(r) == multiset(rows) && |r| == |rows|
    ensures Sorting.SortedBy(r, SortKeyOf)
    ensures forall i, j :: 0 <= i < j < |r| ==> Compare(r[i], r[j]) <= 0
  {
    var r := Sorting.SortBy(rows, SortKeyOf);
    assert forall i, j :: 0 <= i < j < |r| ==> Sorting.KeyLe(SortKeyOf(r[i]), SortKeyOf(r[j]));
    r
  }

  /** `#normalizePosition`: `None` is `null`. */
  function NormalizePosition(value: JsValue): (r: Option<int>)
    ensures Nullish(value) || value == Str("") ==> r.None?
    ensures value.Str? && value.s != "" ==> r == ParseInt(value.s)
    ensures value.Num? ==> r == Some(value.n)
  {
    if Nullish(value) || value == Str("") then None
    else if value.Num? then
      ParseIntOfIntToString(value.n);
      ParseInt(ToJsString(value))
    else ParseInt(ToJsString(value))
  }

  /** `#findPrefix(id)` as an index: the first row whose `id` is `id` (`===`). */
  function FindIndex(rows: seq<Row>, id: JsValue): (r: Option<nat>)
    ensures r.Some? ==> (r.value < |rows| && Get(rows[r.value], "id") == id
      && forall j :: 0 <= j < r.value ==> Get(rows[j], "id") != id)
    ensures r.None? <==> forall j :: 0 <= j < |rows| ==> Get(rows[j], "id") != id
    decreases |rows|
  {
    if |rows| == 0 then None
    else if Get(rows[0], "id") == id then Some(0)
    else
      var rest := FindIndex(rows[1..], id);
      assert forall j :: 1 <= j < |rows| ==> rows[j] == rows[1..][j - 1];
      if rest.None? then None else Some(rest.value + 1)
  }

  /** The `updater` argument of `#replacePrefix`: an object to spread over
      the row, or a function of the row computing that object. The only
      function the controller passes is the one of `updateEditField`. */
  datatype Updater = Fixed(update: Row) | EditField(field: string, value: JsValue)

  /** `typeof updater === "function" ? updater(item) : updater`. */
  function UpdateFor(updater: Updater, item: Row): Row {
    match updater
    case Fixed(update) => update
    case EditField(field, value) => EditFieldUpdate(item, field, value)
  }

  /** The `map` step of `#replacePrefix`: the rows with that id get the
      update spread over them; every other row is kept as it is. */
  function MapMatching(rows: seq<Row>, id: JsValue, updater: Updater): (r: seq<Row>)
    ensures |r| == |rows|
    ensures forall i :: 0 <= i < |rows| && Get(rows[i], "id") != id ==> r[i] == rows[i]
    ensures forall i :: 0 <= i < |rows| && Get(rows[i], "id") == id ==> r[i] == rows[i] + UpdateFor(updater, rows[i])
  {
    seq(|rows|, i requires 0 <= i < |rows| =>
      if Get(rows[i], "id") != id then rows[i] else rows[i] + UpdateFor(updater, rows[i]))
  }

  /** `#replacePrefix(id, updater)`: merge, then sort. */
  function Replaced(rows: seq<Row>, id: JsValue, updater: Updater): (r: seq<Row>)
    ensures multiset(r) == multiset(MapMatching(rows, id, updater))
    ensures Sorting.SortedBy(r, SortKeyOf)
  {
    Sorting.SortBy(MapMatching(rows, id, updater), SortKeyOf)
  }

  /** `prefixes.filter((item) => item.id !== id)`. */
  function WithoutId(rows: seq<Row>, id: JsValue): (r: seq<Row>)
    ensures forall x :: multiset(r)[x] == if Get(x, "id") == id then 0 else multiset(rows)[x]
    decreases |rows|
  {
    if |rows| == 0 then []
    else
      var rest := WithoutId(rows[1..], id);
      assert rows == [rows[0]] + rows[1..];
      if Get(rows[0], "id") == id then rest else [rows[0]] + rest
  }

  /** The update object `startEdit` spreads over the row: editing on, and a
      draft holding the row's group name, prefix and position. */
  function StartEditUpdate(current: Row): Row {
    map["isEditing" := Bool(true),
        "_edit" := Obj(map["group_name" := Get(current, "group_name"),
                            "prefix" := Get(current, "prefix"),
                            "position" := Get(current, "position")])]
  }

  /** The update object `cancelEdit` spreads over the row. */
  const CancelEditUpdate: Row := map["isEditing" := Bool(false), "_edit" := Null]

  /** The updater of `updateEditField`: the row's draft with one field replaced. */
  function EditFieldUpdate(item: Row, field: string, value: JsValue): Row {
    map["_edit" := Obj(Spread(Get(item, "_edit"))[field := value])]
  }

  /** The body of a save or create request. */
  datatype Payload = Payload(groupName: string, prefix: string, position: Option<int>)

  /** Why an action sent nothing: a `TypeError` escaped while building the
      payload, or the "missing required fields" popup was shown. */
  datatype PayloadError = Threw | MissingFields

  datatype Request = Put(id: JsValue, payload: Payload) | Post(payload: Payload) | Delete(id: JsValue)

  /** What an action did: returned early, failed before any request, had its
      deletion declined in the confirm dialog, or sent a request. */
  datatype Outcome = Skipped | NotSent(reason: PayloadError) | Declined | Sent(request: Request)

  /** The server's reply to a request: the JSON body on success. */
  datatype Reply = Succeeded(body: Row) | Failed

  /** The payload `saveEdit` and `createPrefix` build, and the required-field
      check before they send it: both texts must be strings that are not
      blank once trimmed, and are sent trimmed. */
  function BuildPayload(groupName: JsValue, prefix: JsValue, position: JsValue): (r: Result<Payload, PayloadError>)
    ensures r.Ok? <==> groupName.Str? && prefix.Str? && !AllJsSpace(groupName.s) && !AllJsSpace(prefix.s)
    ensures r.Ok? ==> r.value == Payload(Trim(groupName.s), Trim(prefix.s), NormalizePosition(position))
    ensures r == Err(Threw) <==> OptionalTrim(groupName).None? || OptionalTrim(prefix).None?
  {
    var g := OptionalTrim(groupName);
    var p := OptionalTrim(prefix);
    if g.None? || p.None? then Err(Threw)
    else if !Truthy(g.value) || !Truthy(p.value) then Err(MissingFields)
    else Ok(Payload(g.value.s, p.value.s, NormalizePosition(position)))
  }

  class RankListController {
    var prefixes: seq<Row>
    var newGroupName: JsValue
    var newPrefix: JsValue
    var newPosition: JsValue
    var isSavingNew: bool
    var disabled: bool

    /** The list is always in comparator order. */
    ghost predicate Valid()
      reads this
    {
      Sorting.SortedBy(prefixes, SortKeyOf)
    }

    /** The tracked fields' initial values. */
    constructor ()
      ensures Valid()
      ensures prefixes == [] && newGroupName == Str("") && newPrefix == Str("") && newPosition == Str("")
      ensures !isSavingNew && !disabled
    {
      prefixes := [];
      newGroupName := Str("");
      newPrefix := Str("");
      newPosition := Str("");
      isSavingNew := false;
      disabled := false;
    }

    /** `setInitialModel(prefixes, disabled)`; `None` stands for a falsy
        `prefixes` argument, which `|| []` turns into the empty list. */
    method SetInitialModel(initial: Option<seq<Row>>, isDisabled: bool)
      modifies this
      ensures Valid()
      ensures disabled == isDisabled
      ensures prefixes == SortPrefixes(if initial.Some? then initial.value else [])
      ensures newGroupName == old(newGroupName) && newPrefix == old(newPrefix) && newPosition == old(newPosition)
      ensures isSavingNew == old(isSavingNew)
    {
      disabled := isDisabled;
      prefixes := SortPrefixes(if initial.Some? then initial.value else []);
    }

    /** `#replacePrefix(id, updater)`, applied to the list in place. */
    method ReplacePrefix(id: JsValue, updater: Updater)
      modifies this
      ensures Valid()
      ensures prefixes == Replaced(old(prefixes), id, updater)
      ensures newGroupName == old(newGroupName) && newPrefix == old(newPrefix) && newPosition == old(newPosition)
      ensures isSavingNew == old(isSavingNew) && disabled == old(disabled)
    {
      prefixes := Replaced(prefixes, id, updater);
    }

    /** `startEdit(id)`: nothing for an unknown id; otherwise open a draft
        copied from the first row with that id. */
    method StartEdit(id: JsValue)
      modifies this
      ensures FindIndex(old(prefixes), id).None? ==> prefixes == old(prefixes)
      ensures var found := FindIndex(old(prefixes), id);
        found.Some? ==> Valid() && prefixes == Replaced(old(prefixes), id, Fixed(StartEditUpdate(old(prefixes)[found.value])))
      ensures newGroupName == old(newGroupName) && newPrefix == old(newPrefix) && newPosition == old(newPosition)
      ensures isSavingNew == old(isSavingNew) && disabled == old(disabled)
    {
      var found := FindIndex(prefixes, id);
      if found.None? {
        return;
      }
      ReplacePrefix(id, Fixed(StartEditUpdate(prefixes[found.value])));
    }

    /** `cancelEdit(id)`: close the draft of the rows with that id. On a
        list in order and an id no row has, the list stays as it was. */
    method CancelEdit(id: JsValue)
      requires Valid()
      modifies this
      ensures Valid()
      ensures prefixes == Replaced(old(prefixes), id, Fixed(CancelEditUpdate))
      ensures FindIndex(old(prefixes), id).None? ==> prefixes == old(prefixes)
      ensures newGroupName == old(newGroupName) && newPrefix == old(newPrefix) && newPosition == old(newPosition)
      ensures isSavingNew == old(isSavingNew) && disabled == old(disabled)
    {
      if FindIndex(prefixes, id).None? {
        ReplacedUnknownIdIsIdentity(prefixes, id, Fixed(CancelEditUpdate));
      }
      ReplacePrefix(id, Fixed(CancelEditUpdate));
    }

    /** `updateEditField(id, field, event)`: when the row has an open draft,
        set `field` of the draft of the rows with that id to the event
        target's value. */
    method UpdateEditField(id: JsValue, field: string, event: JsValue)
      modifies this
      ensures var found := FindIndex(old(prefixes), id);
        if found.None? || !Truthy(Get(old(prefixes)[found.value], "_edit")) then prefixes == old(prefixes)
        else
          var value := Member(Member(event, "target"), "value");
          Valid() && prefixes == Replaced(old(prefixes), id, EditField(field, value))
      ensures newGroupName == old(newGroupName) && newPrefix == old(newPrefix) && newPosition == old(newPosition)
      ensures isSavingNew == old(isSavingNew) && disabled == old(disabled)
    {
      var value := Member(Member(event, "target"), "value");
      var found := FindIndex(prefixes, id);
      if found.None? || !Truthy(Get(prefixes[found.value], "_edit")) {
        return;
      }
      ReplacePrefix(id, EditField(field, value));
    }

    /** `saveEdit(id)` with the server's `reply` to the PUT. */
    method SaveEdit(id: JsValue, reply: Reply) returns (o: Outcome)
      modifies this
      ensures var found := FindIndex(old(prefixes), id);
        if found.None? || !Truthy(Get(old(prefixes)[found.value], "_edit")) then
          o == Skipped && prefixes == old(prefixes)
        else
          var edit := Get(old(prefixes)[found.value], "_edit");
          var payload := BuildPayload(Member(edit, "group_name"), Member(edit, "prefix"), Member(edit, "position"));
          if payload.Err? then o == NotSent(payload.error) && prefixes == old(prefixes)
          else
            && o == Sent(Put(id, payload.value))
            && (reply.Failed? ==> prefixes == old(prefixes))
            && (reply.Succeeded? ==>
                  Valid() && prefixes == Replaced(old(prefixes), id, Fixed(reply.body + CancelEditUpdate)))
      ensures newGroupName == old(newGroupName) && newPrefix == old(newPrefix) && newPosition == old(newPosition)
      ensures isSavingNew == old(isSavingNew) && disabled == old(disabled)
    {
      var found := FindIndex(prefixes, id);
      if found.None? || !Truthy(Get(prefixes[found.value], "_edit")) {
        return Skipped;
      }
      var edit := Get(prefixes[found.value], "_edit");
      var payload := BuildPayload(Member(edit, "group_name"), Member(edit, "prefix"), Member(edit, "position"));
      if payload.Err? {
        return NotSent(payload.error);
      }
      o := Sent(Put(id, payload.value));
      if reply.Succeeded? {
        ReplacePrefix(id, Fixed(reply.body + CancelEditUpdate));
      }
    }

    /** `deletePrefix(id)` with the answer to the confirm dialog and whether
        the DELETE succeeded. */
    method DeletePrefix(id: JsValue, confirmed: bool, succeeded: bool) returns (o: Outcome)
      modifies this
      ensures FindIndex(old(prefixes), id).None? ==> o == Skipped && prefixes == old(prefixes)
      ensures FindIndex(old(prefixes), id).Some? && !confirmed ==> o == Declined && prefixes == old(prefixes)
      ensures FindIndex(old(prefixes), id).Some? && confirmed ==>
        && o == Sent(Delete(id))
        && (!succeeded ==> prefixes == old(prefixes))
        && (succeeded ==> Valid() && prefixes == SortPrefixes(WithoutId(old(prefixes), id)))
      ensures newGroupName == old(newGroupName) && newPrefix == old(newPrefix) && newPosition == old(newPosition)
      ensures isSavingNew == old(isSavingNew) && disabled == old(disabled)
    {
      var found := FindIndex(prefixes, id);
      if found.None? {
        return Skipped;
      }
      if !confirmed {
        return Declined;
      }
      o := Sent(Delete(id));
      if succeeded {
        prefixes := SortPrefixes(WithoutId(prefixes, id));
      }
    }

    /** `createPrefix()` with the server's `reply` to the POST. */
    method CreatePrefix(reply: Reply) returns (o: Outcome)
      modifies this
      ensures BuildPayload(old(newGroupName), old(newPrefix), old(newPosition)).Err? ==>
        && o == NotSent(BuildPayload(old(newGroupName), old(newPrefix), old(newPosition)).error)
        && prefixes == old(prefixes) && isSavingNew == old(isSavingNew)
        && newGroupName == old(newGroupName) && newPrefix == old(newPrefix) && newPosition == old(newPosition)
      ensures BuildPayload(old(newGroupName), old(newPrefix), old(newPosition)).Ok? ==>
        o == Sent(Post(BuildPayload(old(newGroupName), old(newPrefix), old(newPosition)).value)) && !isSavingNew
      ensures BuildPayload(old(newGroupName), old(newPrefix), old(newPosition)).Ok? && reply.Failed? ==>
        && prefixes == old(prefixes)
        && newGroupName == old(newGroupName) && newPrefix == old(newPrefix) && newPosition == old(newPosition)
      ensures BuildPayload(old(newGroupName), old(newPrefix), old(newPosition)).Ok? && reply.Succeeded? ==>
        && Valid() && prefixes == SortPrefixes(old(prefixes) + [reply.body])
        && newGroupName == Str("") && newPrefix == Str("") && newPosition == Str("")
      ensures disabled == old(disabled)
    {
      var payload := BuildPayload(newGroupName, newPrefix, newPosition);
      if payload.Err? {
        return NotSent(payload.error);
      }
      isSavingNew := true;
      o := Sent(Post(payload.value));
      if reply.Succeeded? {
        AddCreated(reply.body);
      }
      isSavingNew := false;
    }

    /** The success branch of `createPrefix`: append the created row, re-sort
        and clear the form. */
    method AddCreated(created: Row)
      modifies this
      ensures Valid() && prefixes == SortPrefixes(old(prefixes) + [created])
      ensures newGroupName == Str("") && newPrefix == Str("") && newPosition == Str("")
      ensures isSavingNew == old(isSavingNew) && disabled == old(disabled)
    {
      prefixes := SortPrefixes(prefixes + [created]);
      newGroupName := Str("");
      newPrefix := Str("");
      newPosition := Str("");
    }
  }

  // ---------------------------------------------------------------------
  // Properties of the list operations
  // ---------------------------------------------------------------------

  /** Replacing by an id no row has re-sorts a sorted list, which changes nothing. */
  lemma ReplacedUnknownIdIsIdentity(rows: seq<Row>, id: JsValue, updater: Updater)
    requires Sorting.SortedBy(rows, SortKeyOf)
    requires forall j :: 0 <= j < |rows| ==> Get(rows[j], "id") != id
    ensures Replaced(rows, id, updater) == rows
  {
    assert MapMatching(rows, id, updater) == rows;
    Sorting.SortBySortedIsIdentity(rows, SortKeyOf);
  }

  /** After `#replacePrefix` with a constant update that does not touch `id`:
      every row with that id carries every field of the update, and every
      other row is one of the rows that were there. */
  lemma ReplacedRowsCarryUpdate(rows: seq<Row>, id: JsValue, update: Row, x: Row)
    requires "id" !in update
    requires x in Replaced(rows, id, Fixed(update))
    ensures Get(x, "id") == id ==> forall k :: k in update ==> k in x && x[k] == update[k]
    ensures Get(x, "id") != id ==> x in rows
  {
    var mapped := MapMatching(rows, id, Fixed(update));
    assert x in multiset(Replaced(rows, id, Fixed(update)));
    assert x in multiset(mapped);
    var i :| 0 <= i < |mapped| && mapped[i] == x;
    if Get(rows[i], "id") == id {
      assert x == rows[i] + update;
    }
  }

  /** `x` is `row` with every field but the draft kept and the draft's
      `field` set to `value`, the draft's other fields kept. */
  ghost predicate DraftFieldSet(row: Row, x: Row, field: string, value: JsValue) {
    && (forall k :: k in row && k != "_edit" ==> k in x && x[k] == row[k])
    && Get(x, "_edit") == Obj(Spread(Get(row, "_edit"))[field := value])
  }

  lemma EditFieldUpdateSetsDraftField(row: Row, field: string, value: JsValue)
    ensures DraftFieldSet(row, row + EditFieldUpdate(row, field, value), field, value)
  {
  }

  /** After `updateEditField`, every row with that id is a row with that id
      that was there, with its draft's `field` set to `value` and everything
      else kept; every other row is one that was there. */
  lemma EditFieldSetsDraftField(rows: seq<Row>, id: JsValue, field: string, value: JsValue, x: Row)
    requires x in Replaced(rows, id, EditField(field, value))
    ensures Get(x, "id") == id ==>
      exists i :: 0 <= i < |rows| && Get(rows[i], "id") == id && DraftFieldSet(rows[i], x, field, value)
    ensures Get(x, "id") != id ==> x in rows
  {
    var mapped := MapMatching(rows, id, EditField(field, value));
    assert x in multiset(Replaced(rows, id, EditField(field, value)));
    assert x in multiset(mapped);
    var i :| 0 <= i < |mapped| && mapped[i] == x;
    if Get(rows[i], "id") == id {
      EditFieldUpdateSetsDraftField(rows[i], field, value);
    }
  }

  /** `startEdit` opens the draft on every row with that id, holding the
      first such row's group name, prefix and position. */
  lemma StartEditOpensDraft(rows: seq<Row>, id: JsValue, x: Row)
    requires FindIndex(rows, id).Some?
    requires x in Replaced(rows, id, Fixed(StartEditUpdate(rows[FindIndex(rows, id).value])))
    requires Get(x, "id") == id
    ensures var current := rows[FindIndex(rows, id).value];
      && Get(x, "isEditing") == Bool(true)
      && Get(x, "_edit") == Obj(map["group_name" := Get(current, "group_name"),
                                    "prefix" := Get(current, "prefix"),
                                    "position" := Get(current, "position")])
  {
    var current := rows[FindIndex(rows, id).value];
    var update := StartEditUpdate(current);
    assert "id" !in update;
    ReplacedRowsCarryUpdate(rows, id, update, x);
    assert "isEditing" in update && "_edit" in update;
    assert x["isEditing"] == update["isEditing"] == Bool(true);
    assert x["_edit"] == update["_edit"];
  }

  /** After a successful delete no row has the id, and every row without it
      is kept, as often as it was there. */
  lemma DeleteRemovesExactlyThatId(rows: seq<Row>, id: JsValue)
    ensures forall x :: x in SortPrefixes(WithoutId(rows, id)) ==> Get(x, "id") != id
    ensures forall x :: Get(x, "id") != id ==> multiset(SortPrefixes(WithoutId(rows, id)))[x] == multiset(rows)[x]
  {
    var r := SortPrefixes(WithoutId(rows, id));
    forall x | x in r ensures Get(x, "id") != id {
      assert x in multiset(r);
    }
  }

  /** A successful create adds exactly the created row to the list. */
  lemma CreateAddsTheRow(rows: seq<Row>, created: Row)
    ensures multiset(SortPrefixes(rows + [created])) == multiset(rows) + multiset{created}
    ensures created in SortPrefixes(rows + [created])
  {
    var r := SortPrefixes(rows + [created]);
    assert created in multiset(r);
  }

  /** `#normalizePosition` on the values it meets: numbers come back as they
      are, numerals are read with `parseInt`, and text without a leading
      numeral, booleans and objects give `null`. */
  lemma NormalizePositionNonNumeric(value: JsValue)
    requires value.Bool? || value.Obj?
    ensures NormalizePosition(value).None?
  {
    var s := ToJsString(value);
    assert |s| > 0 && (s[0] == 't' || s[0] == 'f' || s[0] == '[');
    assert TrimStart(s) == s by {
      assert !IsJsSpace(s[0]);
    }
    assert SplitSign(s) == (1, s);
    assert LeadingDigits(s) == "" by {
      assert !Decimal.IsDigit(s[0]);
    }
  }
}
