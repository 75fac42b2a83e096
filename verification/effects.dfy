/** Callbacks handed around by the components, named by an identity only, and
    the browser window's `__tableRefetch` slot through which a mounted listing
    page offers its refetch to code outside its table provider. */
module Effects {
  import opened Wrappers

  datatype Callback = Callback(id: nat)

  class Window {
    /** `window.__tableRefetch`; `None` when the property is absent. */
    var tableRefetch: Option<Callback>

    constructor ()
      ensures tableRefetch.None?
    {
      tableRefetch := None;
    }
  }
}
