/** The change notifications the adaptors emit, and the diagnostic they log. */
module Signals {
  import opened Variants

  type ModelId = nat
  type SelectionModelId = nat

  datatype Event =
    | ActionChanged
    | ButtonsChanged
    | ModelChanged(model: Option<ModelId>)
    | SelectionModelChanged(selectionModel: Option<SelectionModelId>)
    | BaseUrlChanged(url: string)
    | NameChanged(name: string)
    | ValueChanged(value: Variant)
    | DocumentChanged
    | ModifiedChanged
    | DeclarativeRootContextChanged
    | Warning   // a qWarning / qmlInfo diagnostic; its text is not modelled
}
