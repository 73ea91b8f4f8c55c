/**
 * DeclarativeContext, a wrapper that holds a weak handle to a native
 * declarative context, and DeclarativeContextProperty, a name/value binding
 * that applies itself to such a wrapper.
 */
module DeclarativeContexts {
  import opened Variants
  import opened Signals

  /** The native QDeclarativeContext, reduced to what the wrapper uses. */
  class NativeContext {
    /** The object still exists; a weak handle to it is stale once this is false. */
    var alive: bool
    /** The context has a QObject parent, which then owns it. */
    const hasObjectParent: bool
    /** The context it was created under, if any. */
    const parentContext: NativeContext?
    /** How many contexts are chained above this one; a parent always sits at a smaller depth. */
    const depth: nat
    /** The URL set on this context itself; empty when none is set. */
    var baseUrl: string
    var properties: map<string, Variant>

    constructor (hasObjectParent: bool, parentContext: NativeContext?)
      ensures alive && this.hasObjectParent == hasObjectParent && this.parentContext == parentContext
      ensures parentContext != null ==> parentContext.depth < depth
      ensures baseUrl == [] && properties == map[]
    {
      alive := true;
      this.hasObjectParent := hasObjectParent;
      this.parentContext := parentContext;
      depth := if parentContext == null then 0 else parentContext.depth + 1;
      baseUrl := [];
      properties := map[];
    }

    /** There is a parent to inherit from (the depth test holds for every constructed context). */
    predicate Linked() {
      parentContext != null && parentContext.depth < depth
    }

    /** This context and the contexts chained above it. */
    function Ancestors(): (r: set<NativeContext>)
      ensures this in r
      decreases depth, 1
    {
      {this} + ParentAncestors()
    }

    function ParentAncestors(): set<NativeContext>
      decreases depth, 0
    {
      if Linked() then parentContext.Ancestors() else {}
    }

    /**
     * QDeclarativeContext::baseUrl(): the URL set on this context, or else the
     * one of the context it was created under, as long as that still exists.
     */
    function EffectiveUrl(): string
      reads Ancestors()
      decreases depth, 1
    {
      if baseUrl != [] then baseUrl else InheritedUrl()
    }

    /** The URL this context reports while none is set on it. */
    function InheritedUrl(): string
      reads ParentAncestors()
      decreases depth, 0
    {
      if Linked() && parentContext.alive then parentContext.EffectiveUrl() else []
    }

    /** Destruction from outside the wrapper (by its owner, or by the wrapper's destructor). */
    method Destroy()
      modifies this
      ensures !alive && baseUrl == old(baseUrl) && properties == old(properties)
    {
      alive := false;
    }
  }

  /** Every context above `c` sits at a smaller depth, so `c` is not among its parent's ancestors. */
  lemma {:induction false} AncestorsAbove(c: NativeContext)
    ensures forall x :: x in c.Ancestors() ==> x.depth <= c.depth
    ensures c.Linked() ==> c !in c.ParentAncestors()
    decreases c.depth
  {
    if c.Linked() {
      AncestorsAbove(c.parentContext);
    }
  }

  /** A non-empty URL that a context reports was set on that context or on one above it. */
  lemma {:induction false} EffectiveUrlOrigin(c: NativeContext)
    ensures c.EffectiveUrl() != [] ==> exists x :: x in c.Ancestors() && x.baseUrl == c.EffectiveUrl()
    decreases c.depth
  {
    if c.baseUrl != [] {
      assert c in c.Ancestors();
    } else if c.Linked() && c.parentContext.alive {
      var p := c.parentContext;
      EffectiveUrlOrigin(p);
      assert c.EffectiveUrl() == c.InheritedUrl() == p.EffectiveUrl();
      if p.EffectiveUrl() != [] {
        var x :| x in p.Ancestors() && x.baseUrl == p.EffectiveUrl();
        assert x in c.ParentAncestors();
      }
    } else {
      assert c.EffectiveUrl() == c.InheritedUrl() == [];
    }
  }

  class DeclarativeContext {
    /** m_context: a weak pointer, null or pointing to a context that may since have been destroyed. */
    var handle: NativeContext?
    /** The wrapper's own destructor has run. */
    var destroyed: bool
    var log: seq<Event>

    /** The weak handle still reaches a live context. */
    predicate Live()
      reads this, handle
    {
      handle != null && handle.alive
    }

    /** Neither the wrapper nor the context it reaches has changed. */
    twostate predicate Untouched()
      reads this, handle
    {
      && handle == old(handle) && destroyed == old(destroyed) && log == old(log)
      && (handle != null ==>
            handle.alive == old(handle.alive) && handle.baseUrl == old(handle.baseUrl)
            && handle.properties == old(handle.properties))
    }

    /** A wrapper owning a fresh context created for an engine, chained under the engine's root context. */
    constructor ForEngine(engineRoot: NativeContext, hasObjectParent: bool)
      ensures fresh(handle) && handle.alive && handle.hasObjectParent == hasObjectParent
      ensures handle.parentContext == engineRoot && handle.Linked()
      ensures handle.baseUrl == [] && handle.properties == map[]
      ensures handle.EffectiveUrl() == if engineRoot.alive then engineRoot.EffectiveUrl() else []
      ensures !destroyed && log == []
    {
      var created := new NativeContext(hasObjectParent, engineRoot);
      assert created.EffectiveUrl() == created.InheritedUrl();
      handle := created;
      destroyed := false;
      log := [];
    }

    /** A wrapper around a fresh context chained under the parent wrapper's context (null when that is stale). */
    constructor ForParent(parentWrapper: DeclarativeContext, hasObjectParent: bool)
      ensures fresh(handle) && handle.alive && handle.hasObjectParent == hasObjectParent
      ensures handle.parentContext == (if old(parentWrapper.Live()) then parentWrapper.handle else null)
      ensures handle.parentContext != null ==> handle.Linked()
      ensures handle.baseUrl == [] && handle.properties == map[]
      ensures handle.EffectiveUrl() == if parentWrapper.Live() then parentWrapper.handle.EffectiveUrl() else []
      ensures !destroyed && log == []
    {
      var parentContext := if parentWrapper.handle != null && parentWrapper.handle.alive
                           then parentWrapper.handle else null;
      var created := new NativeContext(hasObjectParent, parentContext);
      assert created.EffectiveUrl() == created.InheritedUrl();
      handle := created;
      destroyed := false;
      log := [];
    }

    /** createWrapper: a wrapper around an existing context, which it does not create. */
    constructor Wrap(context: NativeContext?)
      ensures handle == context && !destroyed && log == []
    {
      handle := context;
      destroyed := false;
      log := [];
    }

    /** The destructor: the wrapped context is deleted exactly when it is live and has no QObject parent. */
    method Destruct() returns (deleted: bool)
      requires !destroyed
      modifies this, handle
      ensures handle == old(handle) && destroyed && log == old(log)
      ensures deleted == (old(Live()) && !handle.hasObjectParent)
      ensures handle != null ==>
                handle.alive == (old(handle.alive) && !deleted)
                && handle.baseUrl == old(handle.baseUrl) && handle.properties == old(handle.properties)
    {
      deleted := handle != null && handle.alive && !handle.hasObjectParent;
      if deleted {
        handle.Destroy();
      }
      destroyed := true;
    }

    /**
     * setBaseUrl: on a stale handle only the warning is logged; the URL the
     * context already reports (its own or an inherited one) does nothing;
     * otherwise the URL is set on the context and baseUrlChanged(url) is emitted.
     */
    method SetBaseUrl(url: string)
      modifies this, handle
      ensures handle == old(handle) && destroyed == old(destroyed)
      ensures !old(Live()) ==> log == old(log) + [Warning]
      ensures handle != null && (!old(Live()) || url == old(handle.EffectiveUrl())) ==>
                handle.alive == old(handle.alive) && handle.baseUrl == old(handle.baseUrl)
                && handle.properties == old(handle.properties)
      ensures old(Live()) && url == old(handle.EffectiveUrl()) ==> log == old(log)
      ensures old(Live()) && url != old(handle.EffectiveUrl()) ==>
                handle.alive && handle.baseUrl == url && handle.properties == old(handle.properties)
                && log == old(log) + [BaseUrlChanged(url)]
      ensures old(Live()) && url != old(handle.EffectiveUrl()) ==>
                handle.EffectiveUrl() == if url != [] then url else old(handle.InheritedUrl())
    {
      if handle == null || !handle.alive {
        log := log + [Warning];
        return;
      }
      if url == handle.EffectiveUrl() {
        return;
      }
      AncestorsAbove(handle);
      handle.baseUrl := url;
      log := log + [BaseUrlChanged(url)];
    }

    /** baseUrl(): the empty URL and a warning on a stale handle, the URL the context reports otherwise. */
    method BaseUrl() returns (url: string, warned: bool)
      ensures warned == !Live()
      ensures url == if Live() then handle.EffectiveUrl() else []
    {
      if handle == null || !handle.alive {
        return [], true;
      }
      return handle.EffectiveUrl(), false;
    }

    /** setContextProperty: on a stale handle only the warning is logged; otherwise the binding is set. */
    method SetContextProperty(name: string, value: Variant)
      modifies this, handle
      ensures handle == old(handle) && destroyed == old(destroyed)
      ensures !old(Live()) ==> log == old(log) + [Warning]
      ensures !old(Live()) && handle != null ==>
                handle.alive == old(handle.alive) && handle.baseUrl == old(handle.baseUrl)
                && handle.properties == old(handle.properties)
      ensures old(Live()) ==>
                handle.alive && handle.baseUrl == old(handle.baseUrl)
                && handle.properties == old(handle.properties)[name := value] && log == old(log)
    {
      if handle == null || !handle.alive {
        log := log + [Warning];
        return;
      }
      handle.properties := handle.properties[name := value];
    }
  }

  class DeclarativeContextProperty {
    var name: string
    var value: Variant
    /** m_context: a weak pointer to the wrapper; it reads as null once the wrapper is destroyed. */
    var context: DeclarativeContext?
    var log: seq<Event>

    constructor ()
      ensures name == [] && value == Invalid && context == null && log == []
    {
      name := [];
      value := Invalid;
      context := null;
      log := [];
    }

    /** isValid(): a non-empty name and a valid, non-null value. */
    predicate IsValid(): (r: bool)
      reads this
      ensures r <==> name != [] && (value.ObjectValue? || value.Scalar?)
    {
      ValidBinding(name, value)
    }

    /** The weak pointer still reaches a wrapper. */
    predicate Attached()
      reads this, context
    {
      context != null && !context.destroyed
    }

    /** The objects a setter may change: this binding, its wrapper and the wrapper's context. */
    ghost function Footprint(): set<object>
      reads this, context
    {
      {this} + (if context == null then {} else {context} + (if context.handle == null then {} else {context.handle}))
    }

    /**
     * The push that every setter ends with: when the binding is valid and a
     * wrapper is attached, the wrapper's setContextProperty runs with the
     * current name and value (and itself degrades on a stale context);
     * otherwise nothing changes.
     */
    method SetOnContext()
      modifies Footprint()
      ensures name == old(name) && value == old(value) && context == old(context) && log == old(log)
      ensures context != null ==> context.handle == old(context.handle) && context.destroyed == old(context.destroyed)
      ensures !old(IsValid() && Attached()) ==> context == null || context.Untouched()
      ensures old(IsValid() && Attached()) && !old(context.Live()) ==>
                context.log == old(context.log) + [Warning]
                && (context.handle != null ==>
                      context.handle.alive == old(context.handle.alive)
                      && context.handle.baseUrl == old(context.handle.baseUrl)
                      && context.handle.properties == old(context.handle.properties))
      ensures old(IsValid() && Attached() && context.Live()) ==>
                context.handle.alive && context.handle.baseUrl == old(context.handle.baseUrl)
                && context.handle.properties == old(context.handle.properties)[name := value]
                && context.log == old(context.log)
    {
      if !IsValid() || context == null || context.destroyed {
        return;
      }
      context.SetContextProperty(name, value);
    }

    /** setName: an equal name does nothing; otherwise nameChanged, then the push. */
    method SetName(n: string)
      modifies Footprint()
      ensures context == old(context) && value == old(value)
      ensures context != null ==> context.handle == old(context.handle) && context.destroyed == old(context.destroyed)
      ensures n == old(name) ==> name == old(name) && log == old(log) && (context == null || context.Untouched())
      ensures n != old(name) ==> name == n && log == old(log) + [NameChanged(n)]
      ensures n != old(name) && !(ValidBinding(n, old(value)) && old(Attached())) ==>
                context == null || context.Untouched()
      ensures n != old(name) && ValidBinding(n, old(value)) && old(Attached() && context.Live()) ==>
                context.handle.alive && context.handle.baseUrl == old(context.handle.baseUrl)
                && context.handle.properties == old(context.handle.properties)[n := value]
                && context.log == old(context.log)
      ensures n != old(name) && ValidBinding(n, old(value)) && old(Attached()) && !old(context.Live()) ==>
                context.log == old(context.log) + [Warning]
                && (context.handle != null ==>
                      context.handle.alive == old(context.handle.alive)
                      && context.handle.baseUrl == old(context.handle.baseUrl)
                      && context.handle.properties == old(context.handle.properties))
    {
      if n == name {
        return;
      }
      name := n;
      log := log + [NameChanged(n)];
      SetOnContext();
    }

    /** setValue: an equal value does nothing; otherwise valueChanged, then the push. */
    method SetValue(v: Variant)
      modifies Footprint()
      ensures context == old(context) && name == old(name)
      ensures context != null ==> context.handle == old(context.handle) && context.destroyed == old(context.destroyed)
      ensures v == old(value) ==> value == old(value) && log == old(log) && (context == null || context.Untouched())
      ensures v != old(value) ==> value == v && log == old(log) + [ValueChanged(v)]
      ensures v != old(value) && !(ValidBinding(old(name), v) && old(Attached())) ==>
                context == null || context.Untouched()
      ensures v != old(value) && ValidBinding(old(name), v) && old(Attached() && context.Live()) ==>
                context.handle.alive && context.handle.baseUrl == old(context.handle.baseUrl)
                && context.handle.properties == old(context.handle.properties)[name := v]
                && context.log == old(context.log)
      ensures v != old(value) && ValidBinding(old(name), v) && old(Attached()) && !old(context.Live()) ==>
                context.log == old(context.log) + [Warning]
                && (context.handle != null ==>
                      context.handle.alive == old(context.handle.alive)
                      && context.handle.baseUrl == old(context.handle.baseUrl)
                      && context.handle.properties == old(context.handle.properties))
    {
      if v == value {
        return;
      }
      value := v;
      log := log + [ValueChanged(v)];
      SetOnContext();
    }

    /** setContext: always re-runs the push, even for the same wrapper. */
    method SetContext(c: DeclarativeContext?)
      modifies this, c, if c == null then null else c.handle
      ensures context == c && name == old(name) && value == old(value) && log == old(log)
      ensures c != null ==> c.handle == old(c.handle) && c.destroyed == old(c.destroyed)
      ensures !(old(IsValid()) && c != null && !old(c.destroyed)) ==> c == null || c.Untouched()
      ensures old(IsValid()) && c != null && !old(c.destroyed) && old(c.Live()) ==>
                c.handle.alive && c.handle.baseUrl == old(c.handle.baseUrl)
                && c.handle.properties == old(c.handle.properties)[name := value]
                && c.log == old(c.log)
      ensures old(IsValid()) && c != null && !old(c.destroyed) && !old(c.Live()) ==>
                c.log == old(c.log) + [Warning]
                && (c.handle != null ==>
                      c.handle.alive == old(c.handle.alive) && c.handle.baseUrl == old(c.handle.baseUrl)
                      && c.handle.properties == old(c.handle.properties))
    {
      context := c;
      SetOnContext();
    }
  }
}
