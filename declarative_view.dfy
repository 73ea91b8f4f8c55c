/**
 * DeclarativeView::setDeclarativeRootContext: which object a view accepts as
 * the wrapper of its root context.
 */
module DeclarativeViews {
  import opened Variants
  import opened Signals

  /** The context wrapper an assigned object stands for: itself, or the object() of a declarative wrapper. */
  function ContextOf(o: Obj): (r: Option<ContextId>)
    ensures forall c: ContextId :: r == Some(c) <==>
              o == Plain(ContextWrapper(c)) || (o.Declarative? && o.inner == Some(ContextWrapper(c)))
  {
    match o
    case Plain(n) => if n.ContextWrapper? then Some(n.context) else None
    case Declarative(_, _, inner) => if inner.Some? && inner.value.ContextWrapper? then Some(inner.value.context) else None
  }

  /** What an assignment does. */
  datatype RootContextOutcome =
    | SwitchTo(context: ContextId)   // becomes the root context wrapper, with a change notification
    | AlreadyCurrent                 // the current wrapper again: nothing happens
    | Rejected                       // not a context wrapper: a diagnostic, nothing else
    | NullDereference                // the diagnostic dereferences a null object

  /**
   * The branches as written: a null argument fails both casts and reaches
   * the diagnostic, which asks the null object for its class name.
   */
  function RootContextStepAsWritten(arg: Option<Obj>, current: Option<ContextId>): (r: RootContextOutcome)
    ensures arg.None? ==> r == NullDereference
  {
    match arg
    case None => NullDereference
    case Some(o) =>
      match ContextOf(o)
      case None => Rejected
      case Some(c) => if current == Some(c) then AlreadyCurrent else SwitchTo(c)
  }

  /**
   * The intended branches: a null argument is rejected like any other object
   * that is not a context wrapper.
   */
  function RootContextStep(arg: Option<Obj>, current: Option<ContextId>): (r: RootContextOutcome)
    ensures r != NullDereference
    ensures arg.Some? ==> r == RootContextStepAsWritten(arg, current)
    ensures r.Rejected? <==> arg.None? || ContextOf(arg.value).None?
    ensures r.AlreadyCurrent? <==> arg.Some? && ContextOf(arg.value).Some? && current == ContextOf(arg.value)
    ensures r.SwitchTo? ==> arg.Some? && Some(r.context) == ContextOf(arg.value) && current != Some(r.context)
  {
    match arg
    case None => Rejected
    case Some(o) =>
      match ContextOf(o)
      case None => Rejected
      case Some(c) => if current == Some(c) then AlreadyCurrent else SwitchTo(c)
  }

  /** The as-written branches fail on the null object, which the intended ones reject. */
  lemma NullArgumentDereferences(current: Option<ContextId>)
    ensures RootContextStepAsWritten(None, current) == NullDereference
    ensures RootContextStep(None, current) == Rejected
  {
  }

  class DeclarativeView {
    /** m_rootContext: the wrapper of the view's root context; None once that wrapper is gone. */
    var rootContext: Option<ContextId>
    var log: seq<Event>

    /** The view starts with a wrapper created around its own root context. */
    constructor (initial: ContextId)
      ensures rootContext == Some(initial) && log == []
    {
      rootContext := Some(initial);
      log := [];
    }

    /**
     * setDeclarativeRootContext: a context wrapper, directly or as the
     * object() of a declarative wrapper, becomes the root context with one
     * declarativeRootContextChanged, unless it is already current; anything
     * else, the null object included, only logs a diagnostic.
     */
    method SetDeclarativeRootContext(arg: Option<Obj>)
      modifies this
      ensures RootContextStep(arg, old(rootContext)).SwitchTo? ==>
                rootContext == Some(RootContextStep(arg, old(rootContext)).context)
                && log == old(log) + [DeclarativeRootContextChanged]
      ensures RootContextStep(arg, old(rootContext)).AlreadyCurrent? ==>
                rootContext == old(rootContext) && log == old(log)
      ensures RootContextStep(arg, old(rootContext)).Rejected? ==>
                rootContext == old(rootContext) && log == old(log) + [Warning]
    {
      var resolved := if arg.Some? then ContextOf(arg.value) else None;
      if resolved.None? {
        log := log + [Warning];
        return;
      }
      if resolved == rootContext {
        return;
      }
      rootContext := resolved;
      log := log + [DeclarativeRootContextChanged];
    }
  }
}
