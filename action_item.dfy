/**
 * ActionItem: a declarative action slot. Until a real action is assigned it
 * exposes a placeholder action that widgets can already hold; the first
 * assignment splices the resolved action into those widgets in the
 * placeholder's place.
 */
module ActionItems {
  import opened Variants
  import opened Signals
  import opened ActionLists

  class ActionItem {
    /** m_placeholderAction: the action created with the item. */
    const placeholder: ActionId
    /** The widgets whose action lists the splice edits. */
    const widgets: Widgets
    /** m_action: the variant last assigned (what qmlAction() returns). */
    var qmlAction: Variant
    /** m_qAction: what action() returns; None is the null action. */
    var current: Option<ActionId>
    var log: seq<Event>

    constructor (widgets: Widgets, placeholder: ActionId)
      requires widgets.AssociatedWidgets(placeholder) == {}
      ensures this.widgets == widgets && this.placeholder == placeholder
      ensures qmlAction == Invalid && current == Some(placeholder) && log == []
    {
      this.widgets := widgets;
      this.placeholder := placeholder;
      qmlAction := Invalid;
      current := Some(placeholder);
      log := [];
    }

    /** The placeholder has not been swapped out yet. */
    predicate ShowsPlaceholder()
      reads this
    {
      current == Some(placeholder)
    }

    /**
     * setAction: an assignment equal to the stored variant does nothing.
     * Otherwise the variant is stored, exactly one actionChanged is emitted,
     * and, while the placeholder is still shown, every widget holding it gets
     * the resolved action in its place and action() becomes that action.
     */
    method SetAction(v: Variant)
      modifies this, widgets
      ensures old(widgets.Valid()) ==> widgets.Valid()
      ensures v == old(qmlAction) ==>
                qmlAction == old(qmlAction) && current == old(current) && log == old(log)
                && widgets.lists == old(widgets.lists)
      ensures v != old(qmlAction) ==> qmlAction == v && log == old(log) + [ActionChanged]
      ensures v != old(qmlAction) && old(ShowsPlaceholder()) ==>
                current == ResolveAction(v)
                && widgets.lists == SpliceAll(old(widgets.lists), placeholder, ResolveAction(v))
      ensures !old(ShowsPlaceholder()) ==> current == old(current) && widgets.lists == old(widgets.lists)
    {
      if qmlAction == v {
        return;
      }
      qmlAction := v;
      var resolved := ResolveAction(v);
      if current == Some(placeholder) {
        ReplacePlaceholder(resolved);
        current := resolved;
      }
      log := log + [ActionChanged];
    }

    /** One iteration: insert the resolved action before the placeholder, then remove the placeholder. */
    method ReplaceInWidget(w: WidgetId, resolved: Option<ActionId>)
      requires w in widgets.lists
      modifies widgets
      ensures old(widgets.Valid()) ==> widgets.Valid()
      ensures widgets.lists == old(widgets.lists)[w := Splice(old(widgets.lists)[w], placeholder, resolved)]
    {
      widgets.InsertActionAt(w, placeholder, resolved);
      widgets.RemoveActionAt(w, placeholder);
    }

    /**
     * The loop over the placeholder's associated widgets: in each, insert the
     * resolved action before the placeholder, then remove the placeholder.
     */
    method ReplacePlaceholder(resolved: Option<ActionId>)
      modifies widgets
      ensures old(widgets.Valid()) ==> widgets.Valid()
      ensures widgets.lists == SpliceAll(old(widgets.lists), placeholder, resolved)
    {
      var todo := widgets.AssociatedWidgets(placeholder);
      ghost var start := widgets.lists;
      ghost var done: set<WidgetId> := {};
      while todo != {}
        invariant old(widgets.Valid()) ==> widgets.Valid()
        invariant forall w :: w in todo ==> w in start && placeholder in start[w] && w !in done
        invariant forall w :: w in start && placeholder in start[w] ==> w in todo || w in done
        invariant widgets.lists == SplicePartial(start, placeholder, resolved, done)
        decreases todo
      {
        var w :| w in todo;
        ReplaceInWidget(w, resolved);
        SplicePartialStep(start, placeholder, resolved, done, w);
        done := done + {w};
        todo := todo - {w};
      }
      SplicePartialComplete(start, placeholder, resolved, done);
    }
  }

  /**
   * In every widget that held the placeholder, the resolved action ends up
   * exactly in the placeholder's position; a copy the widget already held
   * elsewhere is dropped, and a null action just closes the gap.
   */
  lemma SwapKeepsPosition(lists: map<WidgetId, seq<ActionId>>, placeholder: ActionId,
                          a: Option<ActionId>, w: WidgetId)
    requires w in lists && NoDuplicates(lists[w]) && placeholder in lists[w]
    ensures var s, i := lists[w], IndexOf(lists[w], placeholder);
            a.None? || a == Some(placeholder) ==> SpliceAll(lists, placeholder, a)[w] == s[..i] + s[i + 1..]
    ensures var s, i := lists[w], IndexOf(lists[w], placeholder);
            a.Some? && a.value != placeholder ==>
              SpliceAll(lists, placeholder, a)[w] == RemoveAll(s[..i], a.value) + [a.value] + RemoveAll(s[i + 1..], a.value)
    ensures var s, i := lists[w], IndexOf(lists[w], placeholder);
            a.Some? && a.value !in s ==> SpliceAll(lists, placeholder, a)[w] == s[..i] + [a.value] + s[i + 1..]
  {
    SpliceInPlace(lists[w], placeholder, a);
  }
}
