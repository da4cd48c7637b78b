/** The `Prefix` rule model (app/models/discourse_rank_on_names/prefix.rb):
    a table of `(group_name, prefix, position)` rows, validated on every
    save, listed by `(position, id)`, and flushing the plugin's cache after
    every commit. */
module PrefixRules {
  import opened Common
  import opened RuleValidation
  import Sorting
  import RankOnNames

  datatype PrefixRow = PrefixRow(id: nat, groupName: string, prefix: string, position: int)

  /** Attributes handed to `create`/`update`; `None` is an attribute not given. */
  datatype PrefixAttrs = PrefixAttrs(groupName: Option<string>, prefix: Option<string>, position: Option<int>)

  /** The key of `scope :ordered, -> { order(:position, :id) }`. */
  function RowKey(r: PrefixRow): Sorting.SortKey {
    Sorting.SortKey(r.position, r.id)
  }

  function GroupNameOf(r: PrefixRow): string {
    r.groupName
  }

  function PositionOf(r: PrefixRow): int {
    r.position
  }

  function Pairs(rows: seq<PrefixRow>): (r: seq<RankOnNames.Pair>)
    ensures |r| == |rows|
    ensures forall i :: 0 <= i < |rows| ==> r[i] == (rows[i].groupName, rows[i].prefix)
  {
    seq(|rows|, i requires 0 <= i < |rows| => (rows[i].groupName, rows[i].prefix))
  }

  /** All validation errors of a record with attributes `a`, given the other rows. */
  function Errors(a: PrefixAttrs, others: seq<PrefixRow>): (errs: set<FieldError>)
    ensures errs == {} <==>
      PresentText(a.groupName) && a.groupName.value !in Column(others, GroupNameOf)
      && PresentText(a.prefix) && a.position.Some? && a.position.value > 0
  {
    GroupNameErrors(a.groupName, Column(others, GroupNameOf))
    + (if PresentText(a.prefix) then {} else {Blank(PrefixText)})
    + PositionErrors(a.position)
  }

  ghost predicate ValidRow(r: PrefixRow) {
    !RubyBlankString(r.groupName) && !RubyBlankString(r.prefix) && 0 < r.position <= MaxInteger4
  }

  function RowId(r: PrefixRow): int {
    r.id
  }

  /** `update(attrs)`: the given attributes over the stored ones. */
  function Patched(row: PrefixRow, patch: PrefixAttrs): PrefixAttrs {
    PrefixAttrs(
      Some(if patch.groupName.Some? then patch.groupName.value else row.groupName),
      Some(if patch.prefix.Some? then patch.prefix.value else row.prefix),
      Some(if patch.position.Some? then patch.position.value else row.position))
  }

  class PrefixStore {
    var rows: seq<PrefixRow>
    var nextId: nat

    /** Every stored row passed validation and was saved: names and prefixes
        present and group names unique, positions positive and within the
        column; ids are unique and below the next id to hand out. */
    ghost predicate Valid()
      reads this
    {
      && (forall i :: 0 <= i < |rows| ==> ValidRow(rows[i]) && rows[i].id < nextId)
      && (forall i, j :: 0 <= i < j < |rows| ==> rows[i].id != rows[j].id && rows[i].groupName != rows[j].groupName)
    }

    constructor ()
      ensures Valid() && rows == [] && nextId == 1
    {
      rows := [];
      nextId := 1;
    }

    /** `Prefix.ordered`. */
    function Ordered(): (r: seq<PrefixRow>)
      reads this
      ensures multiset(r) == multiset(rows)
      ensures Sorting.SortedBy(r, RowKey)
    {
      Sorting.SortBy(rows, RowKey)
    }

    /** `Prefix.ordered.pluck(:group_name, :prefix)`, the rule table the cache reads. */
    function OrderedPairs(): seq<RankOnNames.Pair>
      reads this
    {
      Pairs(Ordered())
    }

    /** `Prefix.create(attrs)`: default the position, validate, save, flush.
        A valid position the column cannot hold makes the save raise, and the
        transaction leaves everything as it was. */
    method Create(attrs: PrefixAttrs, cache: RankOnNames.RankCache) returns (r: Result<PrefixRow, StoreError>)
      requires Valid()
      modifies this, cache
      ensures Valid()
      ensures var a := attrs.(position := PositionOnCreate(attrs.position, Column(old(rows), PositionOf)));
        Errors(a, old(rows)) != {} ==>
          && r == Err(Invalid(Errors(a, old(rows))))
          && rows == old(rows) && nextId == old(nextId) && cache.entries == old(cache.entries)
      ensures var a := attrs.(position := PositionOnCreate(attrs.position, Column(old(rows), PositionOf)));
        Errors(a, old(rows)) == {} && !FitsInteger4(a.position.value) ==>
          && r == Err(OutOfRange(Position, a.position.value))
          && rows == old(rows) && nextId == old(nextId) && cache.entries == old(cache.entries)
      ensures var a := attrs.(position := PositionOnCreate(attrs.position, Column(old(rows), PositionOf)));
        Errors(a, old(rows)) == {} && FitsInteger4(a.position.value) ==>
          && r == Ok(PrefixRow(old(nextId), a.groupName.value, a.prefix.value, a.position.value))
          && rows == old(rows) + [r.value] && nextId == old(nextId) + 1
          && cache.entries == RankOnNames.Flushed(old(cache.entries))
    {
      var a := attrs;
      if a.position.None? {
        a := a.(position := Some(DefaultPosition(Column(rows, PositionOf))));
      }
      var errs := Errors(a, rows);
      if errs != {} {
        return Err(Invalid(errs));
      }
      if !FitsInteger4(a.position.value) {
        return Err(OutOfRange(Position, a.position.value));
      }
      var row := PrefixRow(nextId, a.groupName.value, a.prefix.value, a.position.value);
      assert forall i :: 0 <= i < |rows| ==> rows[i].groupName != row.groupName by {
        assert forall i :: 0 <= i < |rows| ==> Column(rows, GroupNameOf)[i] == rows[i].groupName;
      }
      rows := rows + [row];
      nextId := nextId + 1;
      cache.ClearCache();
      r := Ok(row);
    }

    /** `prefix.update(attrs)` on the row with id `id`. */
    method Update(id: int, patch: PrefixAttrs, cache: RankOnNames.RankCache) returns (r: Result<PrefixRow, StoreError>)
      requires Valid()
      modifies this, cache
      ensures Valid() && nextId == old(nextId)
      ensures IndexOfId(old(rows), RowId, id).None? ==>
        r == Err(NotFound(id)) && rows == old(rows) && cache.entries == old(cache.entries)
      ensures IndexOfId(old(rows), RowId, id).Some? ==>
        var i := IndexOfId(old(rows), RowId, id).value;
        var a := Patched(old(rows)[i], patch);
        Errors(a, RemoveAt(old(rows), i)) != {} ==>
          && r == Err(Invalid(Errors(a, RemoveAt(old(rows), i))))
          && rows == old(rows) && cache.entries == old(cache.entries)
      ensures IndexOfId(old(rows), RowId, id).Some? ==>
        var i := IndexOfId(old(rows), RowId, id).value;
        var a := Patched(old(rows)[i], patch);
        Errors(a, RemoveAt(old(rows), i)) == {} && !FitsInteger4(a.position.value) ==>
          && r == Err(OutOfRange(Position, a.position.value))
          && rows == old(rows) && cache.entries == old(cache.entries)
      ensures IndexOfId(old(rows), RowId, id).Some? ==>
        var i := IndexOfId(old(rows), RowId, id).value;
        var a := Patched(old(rows)[i], patch);
        Errors(a, RemoveAt(old(rows), i)) == {} && FitsInteger4(a.position.value) ==>
          && r == Ok(PrefixRow(id, a.groupName.value, a.prefix.value, a.position.value))
          && rows == old(rows)[i := r.value]
          && cache.entries == RankOnNames.Flushed(old(cache.entries))
    {
      var found := IndexOfId(rows, RowId, id);
      if found.None? {
        return Err(NotFound(id));
      }
      var i := found.value;
      var a := Patched(rows[i], patch);
      var others := RemoveAt(rows, i);
      var errs := Errors(a, others);
      if errs != {} {
        return Err(Invalid(errs));
      }
      if !FitsInteger4(a.position.value) {
        return Err(OutOfRange(Position, a.position.value));
      }
      var row := PrefixRow(id, a.groupName.value, a.prefix.value, a.position.value);
      assert forall j :: 0 <= j < |others| ==> others[j].groupName != row.groupName by {
        assert forall j :: 0 <= j < |others| ==> Column(others, GroupNameOf)[j] == others[j].groupName;
      }
      forall j | 0 <= j < |rows| && j != i
        ensures rows[j].groupName != row.groupName
      {
        if j < i { assert others[j] == rows[j]; } else { assert others[j - 1] == rows[j]; }
      }
      rows := rows[i := row];
      cache.ClearCache();
      r := Ok(row);
    }

    /** `prefix.destroy!` on the row with id `id`. */
    method Destroy(id: int, cache: RankOnNames.RankCache) returns (r: Result<PrefixRow, StoreError>)
      requires Valid()
      modifies this, cache
      ensures Valid() && nextId == old(nextId)
      ensures IndexOfId(old(rows), RowId, id).None? ==>
        r == Err(NotFound(id)) && rows == old(rows) && cache.entries == old(cache.entries)
      ensures IndexOfId(old(rows), RowId, id).Some? ==>
        var i := IndexOfId(old(rows), RowId, id).value;
        && r == Ok(old(rows)[i])
        && rows == RemoveAt(old(rows), i)
        && cache.entries == RankOnNames.Flushed(old(cache.entries))
    {
      var found := IndexOfId(rows, RowId, id);
      if found.None? {
        return Err(NotFound(id));
      }
      var i := found.value;
      r := Ok(rows[i]);
      rows := RemoveAt(rows, i);
      cache.ClearCache();
    }
  }

  // ---------------------------------------------------------------------
  // Properties of the ordering and of validation
  // ---------------------------------------------------------------------

  /** A create naming a group another row already has is refused. */
  lemma DuplicateGroupNameRejected(a: PrefixAttrs, rows: seq<PrefixRow>, k: nat)
    requires k < |rows| && a.groupName == Some(rows[k].groupName)
    ensures Taken(GroupName) in Errors(a, rows)
  {
    assert Column(rows, GroupNameOf)[k] == rows[k].groupName;
  }

  /** A blank group name or prefix is refused. */
  lemma BlankFieldsRejected(a: PrefixAttrs, rows: seq<PrefixRow>)
    ensures !PresentText(a.groupName) ==> Blank(GroupName) in Errors(a, rows)
    ensures !PresentText(a.prefix) ==> Blank(PrefixText) in Errors(a, rows)
  {
  }

  /** When ids are unique no two rows share a sort key, so `ordered` is the one
      and only arrangement of the rows by ascending `(position, id)`. */
  lemma OrderedIsTheOrdering(rows: seq<PrefixRow>, other: seq<PrefixRow>)
    requires forall i, j :: 0 <= i < j < |rows| ==> rows[i].id != rows[j].id
    requires multiset(other) == multiset(rows) && Sorting.SortedBy(other, RowKey)
    ensures other == Sorting.SortBy(rows, RowKey)
  {
    var s := Sorting.SortBy(rows, RowKey);
    forall x, y | x in s && y in s && RowKey(x) == RowKey(y)
      ensures x == y
    {
      assert x in multiset(rows) && y in multiset(rows);
      var i :| 0 <= i < |rows| && rows[i] == x;
      var j :| 0 <= j < |rows| && rows[j] == y;
      assert i == j;
    }
    Sorting.SortedPermutationUnique(s, other, RowKey);
  }

  /** `ordered` holds the same rows as the table. */
  lemma OrderedSameRows(rows: seq<PrefixRow>)
    ensures forall x :: x in rows <==> x in Sorting.SortBy(rows, RowKey)
  {
    var ordered := Sorting.SortBy(rows, RowKey);
    assert forall x :: x in rows <==> x in multiset(rows);
    assert forall x :: x in ordered <==> x in multiset(ordered);
  }

  /** Resolution finds nothing exactly when no row names a group of the user. */
  lemma ResolutionNoneIff(rows: seq<PrefixRow>, groups: seq<string>)
    ensures RankOnNames.FirstMatch(Pairs(Sorting.SortBy(rows, RowKey)), groups).None?
      <==> forall i :: 0 <= i < |rows| ==> rows[i].groupName !in groups
  {
    var ordered := Sorting.SortBy(rows, RowKey);
    var pairs := Pairs(ordered);
    RankOnNames.FirstMatchNoneIff(pairs, groups);
    OrderedSameRows(rows);
    if RankOnNames.FirstMatch(pairs, groups).None? {
      forall i | 0 <= i < |rows| ensures rows[i].groupName !in groups {
        assert rows[i] in ordered;
        var j :| 0 <= j < |ordered| && ordered[j] == rows[i];
        assert pairs[j].0 == rows[i].groupName;
      }
    } else {
      var j :| 0 <= j < |pairs| && pairs[j].0 in groups;
      assert ordered[j] in rows;
    }
  }

  /** A prefix resolution finds belongs to a matching row whose `(position, id)`
      is no larger than that of any other matching row. */
  lemma ResolutionSomeIsLeast(rows: seq<PrefixRow>, groups: seq<string>)
    requires RankOnNames.FirstMatch(Pairs(Sorting.SortBy(rows, RowKey)), groups).Some?
    ensures var sel := RankOnNames.FirstMatch(Pairs(Sorting.SortBy(rows, RowKey)), groups);
      exists w :: w in rows && w.groupName in groups && w.prefix == sel.value
        && (forall v :: v in rows && v.groupName in groups ==> Sorting.KeyLe(RowKey(w), RowKey(v)))
  {
    var ordered := Sorting.SortBy(rows, RowKey);
    var pairs := Pairs(ordered);
    var sel := RankOnNames.FirstMatch(pairs, groups);
    OrderedSameRows(rows);
    RankOnNames.FirstMatchSomeHasIndex(pairs, groups);
    var i :| RankOnNames.FirstMatchAt(pairs, groups, i) && pairs[i].1 == sel.value;
    var w := ordered[i];
    forall v | v in rows && v.groupName in groups
      ensures Sorting.KeyLe(RowKey(w), RowKey(v))
    {
      var j :| 0 <= j < |ordered| && ordered[j] == v;
      assert pairs[j].0 == v.groupName;
      if i < j {
        assert Sorting.KeyLe(RowKey(ordered[i]), RowKey(ordered[j]));
      }
    }
    assert w in rows && w.groupName in groups && w.prefix == sel.value;
  }

  /** Resolution against `ordered` picks, among the rows whose group the user
      is in, the one with the lowest `(position, id)`, whatever order the rows
      are stored in; and nothing when there is no such row. */
  lemma ResolutionPicksHighestPriority(rows: seq<PrefixRow>, groups: seq<string>)
    ensures var sel := RankOnNames.FirstMatch(Pairs(Sorting.SortBy(rows, RowKey)), groups);
      (sel.None? <==> forall i :: 0 <= i < |rows| ==> rows[i].groupName !in groups)
      && (sel.Some? ==>
            exists w :: w in rows && w.groupName in groups && w.prefix == sel.value
              && (forall v :: v in rows && v.groupName in groups ==> Sorting.KeyLe(RowKey(w), RowKey(v))))
  {
    ResolutionNoneIff(rows, groups);
    if RankOnNames.FirstMatch(Pairs(Sorting.SortBy(rows, RowKey)), groups).Some? {
      ResolutionSomeIsLeast(rows, groups);
    }
  }

  /** The destroy-then-invalidate sequence of the library spec's cache test,
      on prefix rules: a user's prefix is resolved, the rule with id `id` is
      destroyed, the user is invalidated, and the prefix is resolved again.
      Each answer is the first match over the rules stored at that moment, so
      the second one no longer sees the destroyed rule. */
  method DestroyScenario(store: PrefixStore, cache: RankOnNames.RankCache, user: RankOnNames.Obj,
                         memberOf: RankOnNames.Obj -> seq<string>, id: int)
    returns (first: Result<Option<RankOnNames.Entry>, RankOnNames.RubyError>,
             second: Result<Option<RankOnNames.Entry>, RankOnNames.RubyError>)
    requires store.Valid()
    requires !RankOnNames.Blank(RankOnNames.ExtractUserId(user))
    requires RankOnNames.CacheKey(RankOnNames.ExtractUserId(user)) != RankOnNames.ListKey
    requires cache.entries == map[]
    modifies store, cache
    ensures store.Valid()
    ensures var groups := memberOf(RankOnNames.ExtractUserId(user));
      first == Ok(Some(RankOnNames.Resolved(RankOnNames.FirstMatch(Pairs(Sorting.SortBy(old(store.rows), RowKey)), groups))))
    ensures var groups := memberOf(RankOnNames.ExtractUserId(user));
      second == Ok(Some(RankOnNames.Resolved(RankOnNames.FirstMatch(Pairs(Sorting.SortBy(store.rows, RowKey)), groups))))
    ensures IndexOfId(old(store.rows), RowId, id).None? ==> store.rows == old(store.rows)
    ensures IndexOfId(old(store.rows), RowId, id).Some? ==>
      store.rows == RemoveAt(old(store.rows), IndexOfId(old(store.rows), RowId, id).value)
  {
    first := cache.PrefixForUser(user, store.OrderedPairs(), memberOf);
    var destroyed := store.Destroy(id, cache);
    cache.InvalidateUser(user);
    second := cache.PrefixForUser(user, store.OrderedPairs(), memberOf);
  }
}
