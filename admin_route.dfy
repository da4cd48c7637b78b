/** The admin route (assets/javascripts/discourse/routes/admin-plugins/rank-on-names.js):
    `model()` picks the list to show, and `setupController` hands it to the
    rank list controller's `setInitialModel(prefixes, disabled)`. */
module AdminRankRoute {
  import opened Common
  import opened JsValues
  import opened AdminRankController

  /** The values `setupController` can receive or pass on, as far as
      `setInitialModel` reads them: `null` or `undefined`, an array of rows,
      or a plain object with a `prefixes` array (or none) and a `disabled`
      property. Other properties, such as `drop_zone_flashes`, are not read. */
  datatype ModelValue =
    | NoValue
    | RowArray(rows: seq<Row>)
    | PlainObject(prefixes: Option<seq<Row>>, disabled: JsValue)

  datatype JsError = TypeError

  /** `model()`: the disabled literal when the current user is not an admin
      or the plugin is off (`allowed` false), and otherwise the index
      endpoint's JSON `{ prefixes: [...] }`, which has no `disabled`. */
  function RouteModel(allowed: bool, listed: seq<Row>): (m: ModelValue)
    ensures m.PlainObject? && m.prefixes.Some?
    ensures Truthy(m.disabled) <==> !allowed
    ensures m.prefixes.value == (if allowed then listed else [])
  {
    if !allowed then PlainObject(Some([]), Bool(true)) else PlainObject(Some(listed), Undefined)
  }

  /** `model || {}`, the first argument `setupController` passes as written. */
  function SetupArgument(model: ModelValue): (arg: ModelValue)
    ensures model.NoValue? ==> arg == PlainObject(None, Undefined)
    ensures !model.NoValue? ==> arg == model
  {
    if model.NoValue? then PlainObject(None, Undefined) else model
  }

  /** `[...(prefixes || [])]` in `setInitialModel`: array spread needs an
      iterable, and a plain object is not one. */
  function InitialRows(prefixes: ModelValue): (r: Result<seq<Row>, JsError>)
    ensures r.Err? <==> prefixes.PlainObject?
    ensures prefixes.NoValue? ==> r == Ok([])
    ensures prefixes.RowArray? ==> r == Ok(prefixes.rows)
  {
    match prefixes
    case NoValue => Ok([])
    case RowArray(rows) => Ok(rows)
    case PlainObject(_, _) => Err(TypeError)
  }

  /** As written, `setupController` hands the whole model over as the
      `prefixes` argument: every model `model()` produces, the disabled
      literal included, makes `setInitialModel` throw. */
  lemma HandOffAsWrittenThrows(allowed: bool, listed: seq<Row>)
    ensures InitialRows(SetupArgument(RouteModel(allowed, listed))) == Err(TypeError)
  {
  }

  /** The arguments `setInitialModel` expects: `model?.prefixes` and
      `model?.disabled`; `None` is a missing list, which `|| []` makes empty. */
  function HandOff(model: ModelValue): (r: (Option<seq<Row>>, bool))
    ensures model.PlainObject? ==> r == (model.prefixes, Truthy(model.disabled))
    ensures !model.PlainObject? ==> r == (None, false)
  {
    match model
    case PlainObject(p, d) => (p, Truthy(d))
    case _ => (None, false)
  }

  /** With the hand-off corrected, the page shows the endpoint's rows and is
      enabled, or shows nothing and is disabled, as `model()` decided. */
  lemma HandOffShowsRouteModel(allowed: bool, listed: seq<Row>)
    ensures HandOff(RouteModel(allowed, listed)) == (Some(if allowed then listed else []), !allowed)
  {
  }

  /** `setupController(controller, model)` with the corrected hand-off. */
  method SetupController(controller: RankListController, model: ModelValue)
    modifies controller
    ensures controller.Valid()
    ensures controller.disabled == HandOff(model).1
    ensures var p := HandOff(model).0;
      controller.prefixes == SortPrefixes(if p.Some? then p.value else [])
    ensures controller.newGroupName == old(controller.newGroupName)
    ensures controller.newPrefix == old(controller.newPrefix)
    ensures controller.newPosition == old(controller.newPosition)
    ensures controller.isSavingNew == old(controller.isSavingNew)
  {
    var (p, d) := HandOff(model);
    controller.SetInitialModel(p, d);
  }

  /** The page after the corrected `setupController` on `model()`'s value:
      the endpoint's rows in comparator order and enabled, or empty and
      disabled. */
  method ShowRoute(controller: RankListController, allowed: bool, listed: seq<Row>)
    modifies controller
    ensures controller.Valid()
    ensures controller.disabled == !allowed
    ensures controller.prefixes == SortPrefixes(if allowed then listed else [])
  {
    var model := RouteModel(allowed, listed);
    HandOffShowsRouteModel(allowed, listed);
    SetupController(controller, model);
  }
}
