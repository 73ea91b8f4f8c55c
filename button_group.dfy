/**
 * ButtonGroup: the declarative list of buttons of a button group, reconciled
 * against the group's membership by full replacement.
 */
module ButtonGroups {
  import opened Variants
  import opened Signals

  class ButtonGroup {
    /** m_buttons: the list last assigned (what buttons() returns). */
    var buttons: seq<Variant>
    /** The native group's membership. */
    var members: set<ButtonId>
    var log: seq<Event>

    /** Every button the list resolves to is a member of the group. */
    ghost predicate Covers()
      reads this
    {
      ResolvedButtons(buttons) <= members
    }

    constructor ()
      ensures Covers()
      ensures buttons == [] && members == {} && log == []
    {
      buttons := [];
      members := {};
      log := [];
    }

    /**
     * setButtons: an equal list does nothing. Otherwise every button the old
     * list resolves to is removed from the group, the list is replaced, every
     * button the new list resolves to is added, and one buttonsChanged is
     * emitted.
     */
    method SetButtons(newButtons: seq<Variant>)
      modifies this
      ensures newButtons == old(buttons) ==>
                buttons == old(buttons) && members == old(members) && log == old(log)
      ensures newButtons != old(buttons) ==>
                buttons == newButtons
                && members == (old(members) - ResolvedButtons(old(buttons))) + ResolvedButtons(newButtons)
                && log == old(log) + [ButtonsChanged]
      ensures newButtons != old(buttons) ==> ResolvedButtons(buttons) <= members
      ensures old(Covers()) ==> Covers()
      ensures old(members) == ResolvedButtons(old(buttons)) ==> members == ResolvedButtons(buttons)
    {
      if buttons == newButtons {
        return;
      }
      for i := 0 to |buttons|
        invariant buttons == old(buttons) && log == old(log)
        invariant members == old(members) - ResolvedButtons(buttons[..i])
      {
        ResolvedButtonsSnoc(buttons[..i], buttons[i]);
        assert buttons[..i + 1] == buttons[..i] + [buttons[i]];
        var b := ResolveButton(buttons[i]);
        if b.Some? {
          members := members - {b.value};
        }
      }
      assert buttons[..|buttons|] == buttons;
      buttons := newButtons;
      for i := 0 to |buttons|
        invariant buttons == newButtons && log == old(log)
        invariant members == (old(members) - ResolvedButtons(old(buttons))) + ResolvedButtons(buttons[..i])
      {
        ResolvedButtonsSnoc(buttons[..i], buttons[i]);
        assert buttons[..i + 1] == buttons[..i] + [buttons[i]];
        var b := ResolveButton(buttons[i]);
        if b.Some? {
          members := members + {b.value};
        }
      }
      assert buttons[..|buttons|] == buttons;
      log := log + [ButtonsChanged];
    }
  }
}
