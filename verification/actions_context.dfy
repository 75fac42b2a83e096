/**
 * The row-action coordinator: which modal is open, for which kind of entity
 * and for which id. `openModal` and `closeModal` overwrite the three fields.
 */
module ActionsContext {
  import opened Wrappers
  import TableContext
  import IdEncoder
  import Effects

  /** `'edit' | 'delete'`; `null` is `None`. */
  datatype ModalKind = Edit | Delete

  /** The three-field state record. */
  datatype ModalState = ModalState(
    modalType: Option<ModalKind>,
    entityType: Option<TableContext.EntityType>,
    entityId: Option<IdEncoder.Id>)

  /** The state with no modal open: all three fields `null`. */
  function Closed(): (s: ModalState)
    ensures s.modalType.None? && s.entityType.None? && s.entityId.None?
  {
    ModalState(None, None, None)
  }

  /** What the provider exposes besides `openModal` and `closeModal`. */
  datatype ActionsValue = ActionsValue(state: ModalState, refetchData: Option<Effects.Callback>)

  class ActionsProvider {
    var modalType: Option<ModalKind>
    var entityType: Option<TableContext.EntityType>
    var entityId: Option<IdEncoder.Id>
    /** The optional `refetchData` prop, passed through unchanged. */
    const refetchData: Option<Effects.Callback>

    function State(): ModalState
      reads this
    {
      ModalState(modalType, entityType, entityId)
    }

    /** A provider starts with no modal open. */
    constructor (refetchData: Option<Effects.Callback>)
      ensures State() == Closed()
      ensures this.refetchData == refetchData
    {
      modalType := None;
      entityType := None;
      entityId := None;
      this.refetchData := refetchData;
    }

    /** Sets exactly the three fields to the arguments, whatever the prior state. */
    method OpenModal(kind: Option<ModalKind>, entity: TableContext.EntityType, id: IdEncoder.Id)
      modifies this
      ensures State() == ModalState(kind, Some(entity), Some(id))
    {
      modalType, entityType, entityId := kind, Some(entity), Some(id);
    }

    /** Resets all three fields from any state; a second call changes nothing. */
    method CloseModal()
      modifies this
      ensures State() == Closed()
    {
      modalType, entityType, entityId := None, None, None;
    }

    /** The context value: the current state and the pass-through `refetchData`. */
    function Value(): (v: ActionsValue)
      reads this
      ensures v.state == State() && v.refetchData == refetchData
    {
      ActionsValue(State(), refetchData)
    }
  }

  const UseActionsError := "useActions must be used within an ActionsProvider"

  /** `useActions`: the nearest provider's value, or an error without one. */
  function UseActions(context: Option<ActionsValue>): (r: Result<ActionsValue, string>)
    ensures r.Err? <==> context.None?
    ensures r.Err? ==> r.error == UseActionsError
    ensures r.Ok? ==> r.value == context.value
  {
    match context
    case None => Err(UseActionsError)
    case Some(v) => Ok(v)
  }
}
