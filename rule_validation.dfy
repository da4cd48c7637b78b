/** What the two rule models (`Prefix`, `DropZoneFlash`) share: their
    validation errors, and the default position given on create. */
module RuleValidation {
  import opened Common

  datatype Attribute = GroupName | PrefixText | Position | UploadRef

  /** One entry of ActiveRecord's `errors`. */
  datatype FieldError =
    | Blank(attribute: Attribute)          // presence: true
    | Taken(attribute: Attribute)          // uniqueness: true
    | NotANumber(attribute: Attribute)     // numericality on nil
    | NotGreaterThan(attribute: Attribute, bound: int)
    | MustBeImage(attribute: Attribute)    // upload_must_be_image

  /** Why `create`/`update`/`destroy` failed: validation errors, no row with
      that id (`find` raising `RecordNotFound`), or a value the column cannot
      hold (`ActiveModel::RangeError`, raised on save after validation). */
  datatype StoreError = Invalid(errors: set<FieldError>) | NotFound(id: int) | OutOfRange(attribute: Attribute, value: int)

  /** The bounds of a 4-byte `t.integer` column, such as `position`. */
  const MinInteger4: int := -0x8000_0000
  const MaxInteger4: int := 0x7fff_ffff

  predicate FitsInteger4(n: int) {
    MinInteger4 <= n <= MaxInteger4
  }

  /** One attribute of every row, in row order (`pluck`). */
  function Column<T, U>(rows: seq<T>, f: T -> U): (r: seq<U>)
    ensures |r| == |rows|
    ensures forall i :: 0 <= i < |rows| ==> r[i] == f(rows[i])
  {
    seq(|rows|, i requires 0 <= i < |rows| => f(rows[i]))
  }

  /** `maximum(:position) || 0`. */
  function MaxPosition(ps: seq<int>): (m: int)
    ensures |ps| == 0 ==> m == 0
    ensures forall i :: 0 <= i < |ps| ==> ps[i] <= m
    ensures |ps| > 0 ==> m in ps
    decreases |ps|
  {
    if |ps| == 0 then 0
    else if |ps| == 1 then ps[0]
    else
      var rest := MaxPosition(ps[1..]);
      assert forall i :: 1 <= i < |ps| ==> ps[i] == ps[1..][i - 1];
      if ps[0] >= rest then ps[0] else rest
  }

  /** `assign_default_position`: `maximum + 1`. */
  function DefaultPosition(ps: seq<int>): int {
    MaxPosition(ps) + 1
  }

  /** The default position lies after every position in use, and is 1 for an
      empty table; when every position in use is positive, it is positive too. */
  lemma DefaultPositionIsFresh(ps: seq<int>)
    ensures forall i :: 0 <= i < |ps| ==> ps[i] < DefaultPosition(ps)
    ensures |ps| == 0 ==> DefaultPosition(ps) == 1
    ensures (forall i :: 0 <= i < |ps| ==> ps[i] > 0) ==> DefaultPosition(ps) > 0
  {
    if |ps| > 0 {
      var m := MaxPosition(ps);
      var i :| 0 <= i < |ps| && ps[i] == m;
    }
  }

  /** When the largest position in use is the largest the column holds, the
      default position no longer fits the column: a create without a position
      then fails on save. */
  lemma DefaultPositionOverflows(ps: seq<int>)
    requires forall i :: 0 <= i < |ps| ==> FitsInteger4(ps[i])
    requires MaxInteger4 in ps
    ensures DefaultPosition(ps) == MaxInteger4 + 1
    ensures !FitsInteger4(DefaultPosition(ps))
  {
    var i :| 0 <= i < |ps| && ps[i] == MaxInteger4;
    assert MaxPosition(ps) >= ps[i];
  }

  /** The position after `before_validation :assign_default_position, on: :create`:
      a supplied position (even 0 or a negative one) is kept. */
  function PositionOnCreate(given: Option<int>, ps: seq<int>): (p: Option<int>)
    ensures given.Some? ==> p == given
    ensures given.None? ==> p == Some(DefaultPosition(ps))
  {
    if given.Some? then given else Some(DefaultPosition(ps))
  }

  /** `validates :position, presence: true, numericality: { only_integer: true, greater_than: 0 }`. */
  function PositionErrors(p: Option<int>): (errs: set<FieldError>)
    ensures errs == {} <==> p.Some? && p.value > 0
  {
    if p.None? then {Blank(Position), NotANumber(Position)}
    else if p.value > 0 then {}
    else {NotGreaterThan(Position, 0)}
  }

  /** `validates :group_name, presence: true, uniqueness: true`, against the
      group names of the other rows. */
  function GroupNameErrors(g: Option<string>, others: seq<string>): (errs: set<FieldError>)
    ensures errs == {} <==> PresentText(g) && g.value !in others
  {
    (if PresentText(g) then {} else {Blank(GroupName)})
    + (if g.Some? && g.value in others then {Taken(GroupName)} else {})
  }

  /** The index of the row whose id is `id` (`find(id)`), if there is one. */
  function IndexOfId<T>(rows: seq<T>, idOf: T -> int, id: int): (r: Option<nat>)
    ensures r.Some? ==> r.value < |rows| && idOf(rows[r.value]) == id
    ensures r.None? ==> forall i :: 0 <= i < |rows| ==> idOf(rows[i]) != id
    decreases |rows|
  {
    if |rows| == 0 then None
    else if idOf(rows[|rows| - 1]) == id then Some(|rows| - 1)
    else IndexOfId(rows[..|rows| - 1], idOf, id)
  }

  /** The rows without the one at `i` (`destroy`), the others in their order. */
  function RemoveAt<T>(rows: seq<T>, i: nat): (r: seq<T>)
    requires i < |rows|
    ensures |r| == |rows| - 1
    ensures forall j :: 0 <= j < i ==> r[j] == rows[j]
    ensures forall j :: i <= j < |r| ==> r[j] == rows[j + 1]
  {
    rows[..i] + rows[i + 1..]
  }
}
