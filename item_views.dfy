/**
 * The model / selection-model pair of the column, list, table and tree view
 * adaptors. The four adaptors are copies of one another; they are modelled
 * once, with the view kind kept as a constant.
 */
module ItemViews {
  import opened Variants
  import opened Signals

  datatype ViewKind = ColumnView | ListView | TableView | TreeView

  class ItemView {
    const kind: ViewKind
    /** model(): None is the null model. */
    var model: Option<ModelId>
    /** selectionModel() */
    var selectionModel: Option<SelectionModelId>
    var log: seq<Event>

    constructor (kind: ViewKind, selectionModel: Option<SelectionModelId>)
      ensures this.kind == kind && model == None && this.selectionModel == selectionModel && log == []
    {
      this.kind := kind;
      model := None;
      this.selectionModel := selectionModel;
      log := [];
    }

    /**
     * setModel: the current model again does nothing. Otherwise the toolkit
     * installs the model together with the selection model it creates for it
     * (`created`), and the adaptor emits modelChanged(m) and then
     * selectionModelChanged with the selection model now current.
     */
    method SetModel(m: Option<ModelId>, created: SelectionModelId)
      modifies this
      ensures m == old(model) ==>
                model == old(model) && selectionModel == old(selectionModel) && log == old(log)
      ensures m != old(model) ==>
                model == m && selectionModel == Some(created)
                && log == old(log) + [ModelChanged(m), SelectionModelChanged(Some(created))]
    {
      if model == m {
        return;
      }
      // the toolkit's setModel: a new selection model comes with the new model
      model, selectionModel := m, Some(created);
      log := log + [ModelChanged(m)];
      log := log + [SelectionModelChanged(selectionModel)];
    }

    /**
     * setSelectionModel: the current selection model again does nothing;
     * otherwise it is installed and one selectionModelChanged(s) is emitted.
     */
    method SetSelectionModel(s: Option<SelectionModelId>)
      modifies this
      ensures s == old(selectionModel) ==>
                model == old(model) && selectionModel == old(selectionModel) && log == old(log)
      ensures s != old(selectionModel) ==>
                model == old(model) && selectionModel == s && log == old(log) + [SelectionModelChanged(s)]
    {
      if selectionModel == s {
        return;
      }
      selectionModel := s;
      log := log + [SelectionModelChanged(s)];
    }
  }
}
