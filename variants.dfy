/**
 * Values that the declarative layer hands to the adaptors, and the one-level
 * resolution the adaptors apply to them (dynamic_cast / qobject_cast in the
 * native program, an explicit match on a tagged union here).
 */
module Variants {

  datatype Option<+T> = None | Some(value: T)

  type ActionId = nat
  type ButtonId = nat
  type ContextId = nat
  type ObjectId = nat

  /** A native object a QObject pointer can designate. */
  datatype Native =
    | NativeAction(action: ActionId)       // a QAction
    | NativeButton(button: ButtonId)       // a QAbstractButton
    | ContextWrapper(context: ContextId)   // a DeclarativeContext
    | OtherNative(other: ObjectId)         // any other QObject

  /** Which declarative wrapper class an object is an instance of. */
  datatype WrapperKind =
    | ActionWrapper   // DeclarativeAction
    | OtherWrapper    // any other AbstractDeclarativeObject

  /**
   * A non-null QObject pointer: either a native object, or a declarative
   * wrapper (identified by its own id) whose object() may be null.
   */
  datatype Obj =
    | Plain(native: Native)
    | Declarative(id: ObjectId, kind: WrapperKind, inner: Option<Native>)

  /** A QVariant as far as the adaptors look at it. */
  datatype Variant =
    | Invalid               // default-constructed: not valid, null
    | NullValue             // valid but null (a null pointer, a null string)
    | ObjectValue(obj: Obj) // a non-null object pointer
    | Scalar(value: int)    // any other non-null value

  /** value<QObject*>(): the object a variant holds, None standing for a null pointer. */
  function ObjectOf(v: Variant): (r: Option<Obj>)
    ensures r.Some? <==> v.ObjectValue?
    ensures r.Some? ==> r.value == v.obj
  {
    if v.ObjectValue? then Some(v.obj) else None
  }

  /** The variant designates action `a`: as a QAction itself, or through a DeclarativeAction wrapping it. */
  ghost predicate DesignatesAction(v: Variant, a: ActionId) {
    || v == ObjectValue(Plain(NativeAction(a)))
    || (v.ObjectValue? && v.obj.Declarative? && v.obj.kind == ActionWrapper && v.obj.inner == Some(NativeAction(a)))
  }

  /**
   * The action an assignment to ActionItem resolves to; None is the null action.
   * A DeclarativeAction wins over the direct cast and yields its inner object
   * only when that is a QAction.
   */
  function ResolveAction(v: Variant): (r: Option<ActionId>)
    ensures forall a: ActionId :: r == Some(a) <==> DesignatesAction(v, a)
    ensures !v.ObjectValue? ==> r == None
    ensures v.ObjectValue? && v.obj.Declarative? && v.obj.kind == OtherWrapper ==> r == None
  {
    match ObjectOf(v)
    case None => None
    case Some(o) =>
      match o
      case Plain(n) => if n.NativeAction? then Some(n.action) else None
      case Declarative(_, kind, inner) =>
        if kind == ActionWrapper && inner.Some? && inner.value.NativeAction? then Some(inner.value.action) else None
  }

  /** The variant is a declarative wrapper whose object() is button `b`. */
  ghost predicate DesignatesButton(v: Variant, b: ButtonId) {
    v.ObjectValue? && v.obj.Declarative? && v.obj.inner == Some(NativeButton(b))
  }

  /**
   * The button a ButtonGroup entry contributes. Only a declarative wrapper
   * around a button counts: null entries, scalars, bare native objects
   * (bare buttons included) and wrappers around anything else are skipped.
   */
  function ResolveButton(v: Variant): (r: Option<ButtonId>)
    ensures forall b: ButtonId :: r == Some(b) <==> DesignatesButton(v, b)
    ensures !v.ObjectValue? || v.obj.Plain? ==> r == None
  {
    match ObjectOf(v)
    case None => None
    case Some(o) =>
      if o.Declarative? && o.inner.Some? && o.inner.value.NativeButton? then Some(o.inner.value.button) else None
  }

  /** The buttons that one entry contributes, as a set. */
  function ButtonsOf(v: Variant): set<ButtonId> {
    if ResolveButton(v).Some? then {ResolveButton(v).value} else {}
  }

  /** All buttons a list of entries contributes. */
  function ResolvedButtons(s: seq<Variant>): (r: set<ButtonId>)
    ensures forall b: ButtonId :: b in r <==> exists i :: 0 <= i < |s| && DesignatesButton(s[i], b)
  {
    if s == [] then {}
    else
      var init := s[..|s| - 1];
      assert forall i :: 0 <= i < |init| ==> init[i] == s[i];
      ResolvedButtons(init) + ButtonsOf(s[|s| - 1])
  }

  /** Appending one entry adds exactly that entry's button. */
  lemma ResolvedButtonsSnoc(s: seq<Variant>, v: Variant)
    ensures ResolvedButtons(s + [v]) == ResolvedButtons(s) + ButtonsOf(v)
  {
    assert (s + [v])[..|s + [v]| - 1] == s;
  }

  /** A context property can be applied: non-empty name, and a valid, non-null value. */
  predicate ValidBinding(name: string, value: Variant) {
    name != [] && value != Invalid && value != NullValue
  }
}
