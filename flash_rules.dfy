/** The `DropZoneFlash` rule model (app/models/discourse_rank_on_names/drop_zone_flash.rb):
    a table of `(group_name, upload_id, position)` rows whose upload must exist
    and be an image, validated on every save, listed by `(position, id)`, and
    flushing the plugin's cache after every commit. */
module FlashRules {
  import opened Common
  import opened RuleValidation
  import Sorting
  import RankOnNames

  /** The part of an `Upload` record the validation reads. */
  datatype Upload = Upload(id: int, extension: Option<string>)

  datatype FlashRow = FlashRow(id: nat, groupName: string, uploadId: int, position: int)

  /** Attributes handed to `create`/`update`; `None` is an attribute not given. */
  datatype FlashAttrs = FlashAttrs(groupName: Option<string>, uploadId: Option<int>, position: Option<int>)

  /** The key of `scope :ordered, -> { order(:position, :id) }`. */
  function RowKey(r: FlashRow): Sorting.SortKey {
    Sorting.SortKey(r.position, r.id)
  }

  function RowId(r: FlashRow): int {
    r.id
  }

  function GroupNameOf(r: FlashRow): string {
    r.groupName
  }

  function PositionOf(r: FlashRow): int {
    r.position
  }

  /** `belongs_to :upload`: the upload record an id refers to, if it exists. */
  function UploadOf(uploadId: Option<int>, uploads: map<int, Upload>): (u: Option<Upload>)
    ensures u.Some? <==> uploadId.Some? && uploadId.value in uploads
    ensures u.Some? ==> u.value == uploads[uploadId.value]
  {
    if uploadId.Some? && uploadId.value in uploads then Some(uploads[uploadId.value]) else None
  }

  /** Whether an upload passes `upload_must_be_image`: its extension, lowercased,
      is present and `isImage` (standing for `FileHelper.is_supported_image?`)
      accepts the file name `image.<extension>`. */
  predicate IsImageUpload(u: Upload, isImage: string -> bool) {
    u.extension.Some?
    && var ext := Lower(u.extension.value);
    !RubyBlankString(ext) && isImage("image." + ext)
  }

  /** `validate :upload_must_be_image`: no error without an upload (presence
      reports that case), one error for an upload that is not an image. */
  function ImageErrors(upload: Option<Upload>, isImage: string -> bool): (errs: set<FieldError>)
    ensures errs == {} <==> upload.None? || IsImageUpload(upload.value, isImage)
    ensures errs <= {MustBeImage(UploadRef)}
  {
    if upload.Some? && !IsImageUpload(upload.value, isImage) then {MustBeImage(UploadRef)} else {}
  }

  /** All validation errors of a record with attributes `a`, given the other
      rows and the uploads that exist. */
  function Errors(a: FlashAttrs, others: seq<FlashRow>, uploads: map<int, Upload>, isImage: string -> bool): (errs: set<FieldError>)
    ensures errs == {} <==>
      PresentText(a.groupName) && a.groupName.value !in Column(others, GroupNameOf)
      && a.uploadId.Some? && a.uploadId.value in uploads
      && IsImageUpload(uploads[a.uploadId.value], isImage)
      && a.position.Some? && a.position.value > 0
  {
    var upload := UploadOf(a.uploadId, uploads);
    GroupNameErrors(a.groupName, Column(others, GroupNameOf))
    + (if upload.Some? then {} else {Blank(UploadRef)})
    + PositionErrors(a.position)
    + ImageErrors(upload, isImage)
  }

  ghost predicate ValidRow(r: FlashRow) {
    !RubyBlankString(r.groupName) && 0 < r.position <= MaxInteger4
  }

  /** `update(attrs)`: the given attributes over the stored ones. */
  function Patched(row: FlashRow, patch: FlashAttrs): FlashAttrs {
    FlashAttrs(
      Some(if patch.groupName.Some? then patch.groupName.value else row.groupName),
      Some(if patch.uploadId.Some? then patch.uploadId.value else row.uploadId),
      Some(if patch.position.Some? then patch.position.value else row.position))
  }

  class FlashStore {
    var rows: seq<FlashRow>
    var nextId: nat

    /** Every stored row passed validation and was saved: group names present
        and unique, positions positive and within the column; ids are unique
        and below the next id to hand out. The uploads are a parameter of each
        call, not state of the store, so their existence is not kept here. */
    ghost predicate Valid()
      reads this
    {
      && (forall i :: 0 <= i < |rows| ==> ValidRow(rows[i]) && rows[i].id < nextId)
      && (forall i, j :: 0 <= i < j < |rows| ==> rows[i].id != rows[j].id && rows[i].groupName != rows[j].groupName)
    }

    constructor ()
      ensures Valid() && rows == [] && nextId == 1
    {
      rows := [];
      nextId := 1;
    }

    /** `DropZoneFlash.ordered`. */
    function Ordered(): (r: seq<FlashRow>)
      reads this
      ensures multiset(r) == multiset(rows)
      ensures Sorting.SortedBy(r, RowKey)
    {
      Sorting.SortBy(rows, RowKey)
    }

    /** `DropZoneFlash.create(attrs)`: default the position, validate, save,
        flush. A valid position the column cannot hold makes the save raise,
        and the transaction leaves everything as it was. */
    method Create(attrs: FlashAttrs, uploads: map<int, Upload>, isImage: string -> bool, cache: RankOnNames.RankCache)
      returns (r: Result<FlashRow, StoreError>)
      requires Valid()
      modifies this, cache
      ensures Valid()
      ensures var a := attrs.(position := PositionOnCreate(attrs.position, Column(old(rows), PositionOf)));
        Errors(a, old(rows), uploads, isImage) != {} ==>
          && r == Err(Invalid(Errors(a, old(rows), uploads, isImage)))
          && rows == old(rows) && nextId == old(nextId) && cache.entries == old(cache.entries)
      ensures var a := attrs.(position := PositionOnCreate(attrs.position, Column(old(rows), PositionOf)));
        Errors(a, old(rows), uploads, isImage) == {} && !FitsInteger4(a.position.value) ==>
          && r == Err(OutOfRange(Position, a.position.value))
          && rows == old(rows) && nextId == old(nextId) && cache.entries == old(cache.entries)
      ensures var a := attrs.(position := PositionOnCreate(attrs.position, Column(old(rows), PositionOf)));
        Errors(a, old(rows), uploads, isImage) == {} && FitsInteger4(a.position.value) ==>
          && r == Ok(FlashRow(old(nextId), a.groupName.value, a.uploadId.value, a.position.value))
          && rows == old(rows) + [r.value] && nextId == old(nextId) + 1
          && cache.entries == RankOnNames.Flushed(old(cache.entries))
    {
      var a := attrs;
      if a.position.None? {
        a := a.(position := Some(DefaultPosition(Column(rows, PositionOf))));
      }
      var errs := Errors(a, rows, uploads, isImage);
      if errs != {} {
        return Err(Invalid(errs));
      }
      if !FitsInteger4(a.position.value) {
        return Err(OutOfRange(Position, a.position.value));
      }
      var row := FlashRow(nextId, a.groupName.value, a.uploadId.value, a.position.value);
      assert forall i :: 0 <= i < |rows| ==> rows[i].groupName != row.groupName by {
        assert forall i :: 0 <= i < |rows| ==> Column(rows, GroupNameOf)[i] == rows[i].groupName;
      }
      rows := rows + [row];
      nextId := nextId + 1;
      cache.ClearCache();
      r := Ok(row);
    }

    /** `flash.update(attrs)` on the row with id `id`. */
    method Update(id: int, patch: FlashAttrs, uploads: map<int, Upload>, isImage: string -> bool, cache: RankOnNames.RankCache)
      returns (r: Result<FlashRow, StoreError>)
      requires Valid()
      modifies this, cache
      ensures Valid() && nextId == old(nextId)
      ensures IndexOfId(old(rows), RowId, id).None? ==>
        r == Err(NotFound(id)) && rows == old(rows) && cache.entries == old(cache.entries)
      ensures IndexOfId(old(rows), RowId, id).Some? ==>
        var i := IndexOfId(old(rows), RowId, id).value;
        var a := Patched(old(rows)[i], patch);
        Errors(a, RemoveAt(old(rows), i), uploads, isImage) != {} ==>
          && r == Err(Invalid(Errors(a, RemoveAt(old(rows), i), uploads, isImage)))
          && rows == old(rows) && cache.entries == old(cache.entries)
      ensures IndexOfId(old(rows), RowId, id).Some? ==>
        var i := IndexOfId(old(rows), RowId, id).value;
        var a := Patched(old(rows)[i], patch);
        Errors(a, RemoveAt(old(rows), i), uploads, isImage) == {} && !FitsInteger4(a.position.value) ==>
          && r == Err(OutOfRange(Position, a.position.value))
          && rows == old(rows) && cache.entries == old(cache.entries)
      ensures IndexOfId(old(rows), RowId, id).Some? ==>
        var i := IndexOfId(old(rows), RowId, id).value;
        var a := Patched(old(rows)[i], patch);
        Errors(a, RemoveAt(old(rows), i), uploads, isImage) == {} && FitsInteger4(a.position.value) ==>
          && r == Ok(FlashRow(id, a.groupName.value, a.uploadId.value, a.position.value))
          && rows == old(rows)[i := r.value]
          && cache.entries == RankOnNames.Flushed(old(cache.entries))
    {
      var found := IndexOfId(rows, RowId, id);
      if found.None? {
        return Err(NotFound(id));
      }
      var i := found.value;
      var a := Patched(rows[i], patch);
      var others := RemoveAt(rows, i);
      var errs := Errors(a, others, uploads, isImage);
      if errs != {} {
        return Err(Invalid(errs));
      }
      if !FitsInteger4(a.position.value) {
        return Err(OutOfRange(Position, a.position.value));
      }
      var row := FlashRow(id, a.groupName.value, a.uploadId.value, a.position.value);
      assert forall j :: 0 <= j < |others| ==> others[j].groupName != row.groupName by {
        assert forall j :: 0 <= j < |others| ==> Column(others, GroupNameOf)[j] == others[j].groupName;
      }
      forall j | 0 <= j < |rows| && j != i
        ensures rows[j].groupName != row.groupName
      {
        if j < i { assert others[j] == rows[j]; } else { assert others[j - 1] == rows[j]; }
      }
      rows := rows[i := row];
      cache.ClearCache();
      r := Ok(row);
    }

    /** `flash.destroy!` on the row with id `id`. */
    method Destroy(id: int, cache: RankOnNames.RankCache) returns (r: Result<FlashRow, StoreError>)
      requires Valid()
      modifies this, cache
      ensures Valid() && nextId == old(nextId)
      ensures IndexOfId(old(rows), RowId, id).None? ==>
        r == Err(NotFound(id)) && rows == old(rows) && cache.entries == old(cache.entries)
      ensures IndexOfId(old(rows), RowId, id).Some? ==>
        var i := IndexOfId(old(rows), RowId, id).value;
        && r == Ok(old(rows)[i])
        && rows == RemoveAt(old(rows), i)
        && cache.entries == RankOnNames.Flushed(old(cache.entries))
    {
      var found := IndexOfId(rows, RowId, id);
      if found.None? {
        return Err(NotFound(id));
      }
      var i := found.value;
      r := Ok(rows[i]);
      rows := RemoveAt(rows, i);
      cache.ClearCache();
    }
  }

  // ---------------------------------------------------------------------
  // Properties of validation
  // ---------------------------------------------------------------------

  /** A missing upload (no id, or an id with no record) is reported as blank,
      and the image check is skipped for it. */
  lemma MissingUploadIsBlank(a: FlashAttrs, others: seq<FlashRow>, uploads: map<int, Upload>, isImage: string -> bool)
    requires a.uploadId.None? || a.uploadId.value !in uploads
    ensures Blank(UploadRef) in Errors(a, others, uploads, isImage)
    ensures MustBeImage(UploadRef) !in Errors(a, others, uploads, isImage)
  {
  }

  /** An upload with no extension, or one that is blank, is never an image,
      whatever the image check says. */
  lemma ExtensionRequired(u: Upload, isImage: string -> bool)
    requires u.extension.None? || RubyBlankString(u.extension.value)
    ensures !IsImageUpload(u, isImage)
  {
    if u.extension.Some? {
      var e := u.extension.value;
      assert forall k :: 0 <= k < |e| ==> Lower(e)[k] == LowerChar(e[k]);
      forall k | 0 <= k < |Lower(e)| ensures IsRubySpace(Lower(e)[k]) {
        assert IsRubySpace(e[k]);
      }
    }
  }

  /** The image check depends on the extension only up to ASCII case:
      `PNG` and `png` are treated alike. */
  lemma ImageCheckIgnoresCase(u: Upload, v: Upload, isImage: string -> bool)
    requires u.extension.Some? && v.extension.Some?
    requires Lower(u.extension.value) == Lower(v.extension.value)
    ensures IsImageUpload(u, isImage) <==> IsImageUpload(v, isImage)
  {
  }

  /** A create naming a group another row already has is refused. */
  lemma DuplicateGroupNameRejected(a: FlashAttrs, rows: seq<FlashRow>, k: nat, uploads: map<int, Upload>, isImage: string -> bool)
    requires k < |rows| && a.groupName == Some(rows[k].groupName)
    ensures Taken(GroupName) in Errors(a, rows, uploads, isImage)
  {
    assert Column(rows, GroupNameOf)[k] == rows[k].groupName;
  }
}
