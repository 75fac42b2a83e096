/**
 * The modal that acts on one table row: the delete flow (guard, request,
 * close, then refetch or reload; alert on failure) and the choice of what to
 * render for the modal state.
 */
module ActionsModal {
  import opened Wrappers
  import Json
  import Text
  import Objects
  import Http
  import ApiConfig
  import TableContext
  import IdEncoder
  import Effects
  import MutateData
  import ActionsContext

  /** The observable steps of the delete flow, in order. */
  datatype Event =
    | Dispatched(variables: Json.Value)
    | Sent(request: Http.Request)
    | ModalClosed
    | Called(callback: Effects.Callback)
    | Reloaded
    | Alerted(failure: Http.Failure)

  /** The table context's refetch, or `null` outside a table provider. */
  function SafeRefetch(table: Option<TableContext.Context>): (r: Option<Effects.Callback>)
    ensures table.None? ==> r.None?
    ensures table.Some? ==> r == table.value.refetch
  {
    if table.Some? then table.value.refetch else None
  }

  /** JavaScript truthiness of an id: the number 0 and the empty string are falsy. */
  predicate IdTruthy(id: IdEncoder.Id) {
    match id
    case NumId(n) => n != 0
    case StrId(s) => s != ""
  }

  /** `entityId.toString()` and the id's text inside a template literal. */
  function IdString(id: IdEncoder.Id): (r: string)
    ensures IdTruthy(id) ==> r != ""
  {
    match id
    case NumId(n) => Text.IntToDecimal(n)
    case StrId(s) => s
  }

  /** `!entityType || !entityId` is false: the delete flow goes ahead. */
  predicate Armed(state: ActionsContext.ModalState) {
    state.entityType.Some? && state.entityId.Some? && IdTruthy(state.entityId.value)
  }

  /** `/admin/{entityType}/{entityId}`. */
  function DeleteEndpoint(entity: TableContext.EntityType, id: IdEncoder.Id): (r: string)
    ensures r == TableContext.Endpoint(entity) + "/" + IdString(id)
  {
    "/admin/" + TableContext.Name(entity) + "/" + IdString(id)
  }

  /** A DELETE with no body to `url`, carrying the bearer token and the JSON content type. */
  predicate IsDeleteRequest(request: Http.Request, url: string, token: string) {
    && request.verb == "DELETE"
    && request.url == url
    && request.body == Http.NoBody
    && Objects.Find(request.headers, "Authorization") == Some("Bearer " + token)
    && Objects.Find(request.headers, "Content-Type") == Some("application/json")
  }

  /** `mutate` with `{ endpoint, method: 'DELETE' }`: the request it sends and how it ends. */
  method SendDelete(baseUrl: string, endpoint: string, token: Option<string>, response: Http.Response)
    returns (request: Option<Http.Request>, outcome: Result<Json.Value, Http.Failure>)
    ensures request.Some? <==> ApiConfig.TokenPresent(token)
    ensures request.None? ==> outcome == Err(Http.Thrown(Http.NoTokenError))
    ensures request.Some? ==> IsDeleteRequest(request.value, baseUrl + endpoint, token.value)
    ensures request.Some? && !Http.IsOk(response) ==> outcome == Err(MutateData.ErrorFailure(response.status, response.json))
    ensures request.Some? && Http.IsOk(response) ==> (outcome.Ok? <==> response.json.Some?)
    ensures request.Some? && Http.IsOk(response) && response.json.None? ==> outcome == Err(Http.UnparsableJson)
  {
    var vars := MutateData.DeleteVariables(endpoint);
    assert !Json.Truthy(vars.body.value);
    request, outcome := MutateData.MutationFn(baseUrl, vars, token, response);
  }

  /** `handleDelete`. Without an entity type or a truthy id nothing happens.
      Otherwise one DELETE request goes to the row's endpoint; on success the
      modal is closed first and then the table's refetch is called once, or the
      page is reloaded when there is none; on failure the error is alerted and
      the modal stays open. */
  method HandleDelete(actions: ActionsContext.ActionsProvider, table: Option<TableContext.Context>,
                      baseUrl: string, token: Option<string>, response: Http.Response)
    returns (events: seq<Event>)
    modifies actions
    ensures !Armed(old(actions.State())) ==> events == [] && actions.State() == old(actions.State())
    ensures Armed(old(actions.State())) && !ApiConfig.TokenPresent(token) ==>
      events == [Alerted(Http.Thrown(Http.NoTokenError))] && actions.State() == old(actions.State())
    ensures Armed(old(actions.State())) && ApiConfig.TokenPresent(token) ==>
      && |events| >= 2 && events[0].Sent?
      && IsDeleteRequest(events[0].request,
           baseUrl + DeleteEndpoint(old(actions.entityType).value, old(actions.entityId).value), token.value)
    ensures Armed(old(actions.State())) && ApiConfig.TokenPresent(token) && !Http.IsOk(response) ==>
      events[1..] == [Alerted(MutateData.ErrorFailure(response.status, response.json))] && actions.State() == old(actions.State())
    ensures Armed(old(actions.State())) && ApiConfig.TokenPresent(token) && Http.IsOk(response) && response.json.None? ==>
      events[1..] == [Alerted(Http.UnparsableJson)] && actions.State() == old(actions.State())
    ensures Armed(old(actions.State())) && ApiConfig.TokenPresent(token) && Http.IsOk(response) && response.json.Some? ==>
      && events[1..] == [ModalClosed, if SafeRefetch(table).Some? then Called(SafeRefetch(table).value) else Reloaded]
      && actions.State() == ActionsContext.Closed()
  {
    if !(actions.entityType.Some? && actions.entityId.Some? && IdTruthy(actions.entityId.value)) {
      return [];
    }
    var endpoint := DeleteEndpoint(actions.entityType.value, actions.entityId.value);
    var request, outcome := SendDelete(baseUrl, endpoint, token, response);
    var sent := if request.Some? then [Sent(request.value)] else [];
    match outcome {
      case Err(failure) =>
        events := sent + [Alerted(failure)];
      case Ok(_) =>
        actions.CloseModal();
        var refetch := SafeRefetch(table);
        var reload := if refetch.Some? then Called(refetch.value) else Reloaded;
        events := sent + [ModalClosed, reload];
    }
  }

  /** `handleDelete` as written: the query library's `mutate` only dispatches
      the mutation (here with the endpoint text as its variables) and returns
      nothing, so the `await` does not wait and nothing is ever thrown into the
      `catch`. The modal closes and the refetch or reload runs at once, whatever
      the server answers, and no failure is ever alerted. */
  method HandleDeleteAsWritten(actions: ActionsContext.ActionsProvider, table: Option<TableContext.Context>)
    returns (events: seq<Event>)
    modifies actions
    ensures !Armed(old(actions.State())) ==> events == [] && actions.State() == old(actions.State())
    ensures Armed(old(actions.State())) ==>
      && events == [Dispatched(Json.JStr(DeleteEndpoint(old(actions.entityType).value, old(actions.entityId).value))),
                    ModalClosed,
                    if SafeRefetch(table).Some? then Called(SafeRefetch(table).value) else Reloaded]
      && actions.State() == ActionsContext.Closed()
    ensures forall e :: e in events ==> !e.Alerted?
  {
    if !(actions.entityType.Some? && actions.entityId.Some? && IdTruthy(actions.entityId.value)) {
      return [];
    }
    var endpoint := DeleteEndpoint(actions.entityType.value, actions.entityId.value);
    events := [Dispatched(Json.JStr(endpoint))];
    actions.CloseModal();
    events := events + [ModalClosed];
    var refetch := SafeRefetch(table);
    if refetch.Some? {
      events := events + [Called(refetch.value)];
    } else {
      events := events + [Reloaded];
    }
  }

  /** The form an edit modal shows: the entity's form with the id as text. */
  datatype FormView = UserForm(userId: string) | SubjectForm(subjectId: string) | TaskForm(taskId: string)

  /** What the modal renders: nothing, the delete prompt naming the entity
      (nothing in the sentence without an entity type), or the edit modal
      around a form, which may be absent. */
  datatype View = Nothing | DeletePrompt(noun: Option<string>) | EditModal(form: Option<FormView>)

  /** `entityType?.slice(0, -1)`: the type name without its last character. */
  function Noun(entity: Option<TableContext.EntityType>): (r: Option<string>)
    ensures r.Some? <==> entity.Some?
    ensures r.Some? ==> r.value + [TableContext.Name(entity.value)[|TableContext.Name(entity.value)| - 1]] == TableContext.Name(entity.value)
  {
    match entity
    case None => None
    case Some(t) =>
      var name := TableContext.Name(t);
      Some(name[..|name| - 1])
  }

  /** `renderEditForm`: no form without a truthy id, else the entity's form. */
  function EditForm(state: ActionsContext.ModalState): (r: Option<FormView>)
    ensures r.Some? <==> state.entityId.Some? && IdTruthy(state.entityId.value) && state.entityType.Some?
    ensures r.Some? ==> r.value == match state.entityType.value
      case Users => UserForm(IdString(state.entityId.value))
      case Subjects => SubjectForm(IdString(state.entityId.value))
      case Tasks => TaskForm(IdString(state.entityId.value))
  {
    if state.entityId.None? || !IdTruthy(state.entityId.value) then None
    else match state.entityType
      case None => None
      case Some(Users) => Some(UserForm(IdString(state.entityId.value)))
      case Some(Subjects) => Some(SubjectForm(IdString(state.entityId.value)))
      case Some(Tasks) => Some(TaskForm(IdString(state.entityId.value)))
  }

  /** The modal's render dispatch on the state. */
  function Render(state: ActionsContext.ModalState): (r: View)
    ensures r.Nothing? <==> state.modalType.None?
    ensures state.modalType == Some(ActionsContext.Delete) ==> r == DeletePrompt(Noun(state.entityType))
    ensures state.modalType == Some(ActionsContext.Edit) ==> r == EditModal(EditForm(state))
  {
    match state.modalType
    case None => Nothing
    case Some(Delete) => DeletePrompt(Noun(state.entityType))
    case Some(Edit) => EditModal(EditForm(state))
  }

  /** The delete prompt names one entity of the table: the noun plus "s" is the type name. */
  lemma DeleteNounIsSingular(entity: TableContext.EntityType)
    ensures Noun(Some(entity)).value + "s" == TableContext.Name(entity)
  {
  }

  /** Closing the modal makes it render nothing. */
  lemma ClosedRendersNothing()
    ensures Render(ActionsContext.Closed()) == Nothing
  {
  }
}
