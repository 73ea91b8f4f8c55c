# Object adaptors of DeclarativeWidgets, modelled in Dafny

DeclarativeWidgets exposes Qt widget classes to a declarative UI language. The
adaptors in `lib/objectadaptors.cpp` sit between that language and the native
widgets. Each one keeps a few fields. Its setters compare the new value with the
old one, write it through to the native object, and emit change notifications
in a fixed order. This project models those adaptors as Dafny classes over an
abstract toolkit state, and proves what each setter does to that state and to
the notifications it emits.

The toolkit is abstract:

- a variant value is the tagged union `Variants.Variant`: invalid, null, an
  object, or any other scalar. An object is a native object (action, button,
  context wrapper, other) or a declarative wrapper whose `object()` may be
  null. `dynamic_cast`/`qobject_cast` become one-level matches on it, and
  `value<QObject*>()` is the function `Variants.ObjectOf`, which reads every
  non-object variant as the null pointer;
- widget action lists are the map `ActionLists.Widgets.lists`, and
  `QAction::associatedWidgets()` is the function
  `ActionLists.Widgets.AssociatedWidgets`, the set of widgets whose list holds
  the action;
- a button group's membership is a set of button ids;
- a view has its current model and selection model. The selection model that
  the toolkit creates when the model changes is a parameter of `SetModel`;
- a native declarative context has the URL set on it (empty when none is set),
  a property map, a QObject-parent flag, an `alive` flag and the context it was
  created under. A weak pointer to it is stale once `alive` is false. The URL it
  reports, `DeclarativeContexts.NativeContext.EffectiveUrl`, is its own URL or,
  while none is set, the URL its parent context reports, as
  `QDeclarativeContext::baseUrl()` is documented to behave;
- a text document is reduced to its modified flag;
- every adaptor appends its notifications to its own `log`. A `qWarning`/`qmlInfo`
  diagnostic is the single event `Warning`.

Modules: `Variants` (values and their resolution), `Signals` (events),
`ActionLists` (insertAction/removeAction and the placeholder splice),
`ActionItems`, `ButtonGroups`, `ItemViews`, `DeclarativeContexts`, `TextEdits`,
`DeclarativeViews`.

In two places the code accepts other objects than the adaptors' names suggest; the model follows the code:

- ActionItem unwraps only a `DeclarativeAction` (lines 53-57), not any wrapper.
  A first assignment that resolves to no action silently makes the null action
  current.
- ButtonGroup unwraps any `AbstractDeclarativeObject` (lines 94-96). A bare
  `QAbstractButton` in the list is skipped.

## Model

| member | source | states |
|---|---|---|
| `Variants.ResolveAction` | lib/objectadaptors.cpp:48-57 | the resolved action is `a` exactly when the variant is the QAction `a` or a DeclarativeAction whose object is `a`; other wrappers, null and scalars give the null action |
| `Variants.ResolveButton` | lib/objectadaptors.cpp:92-97 | a list entry gives button `b` exactly when it is a declarative wrapper whose object is `b`; null, scalars, bare objects (bare buttons included) give nothing |
| `Variants.ResolvedButtons` | lib/objectadaptors.cpp:91-101 | a button is in the resolved set of a list exactly when some entry of the list is a wrapper around it |
| `ActionLists.IndexOf` | lib/objectadaptors.cpp:64 | the position of an action in a widget's list: an index holding it, with no earlier copy |
| `ActionLists.RemoveAll` | lib/objectadaptors.cpp:65 | removeAction: the list afterwards holds exactly the other actions and keeps their uniqueness; a missing action leaves the list unchanged |
| `ActionLists.InsertAction` | lib/objectadaptors.cpp:64 | insertAction: a null action changes nothing; otherwise the action is present once, sits immediately before `before` when that is in the list, or is appended when it is not; no other action appears or disappears |
| `ActionLists.Splice` | lib/objectadaptors.cpp:63-65 | after insert-then-remove, the placeholder is gone, the resolved action is present, all other actions are kept, and uniqueness holds |
| `ActionLists.SpliceInPlace` | lib/objectadaptors.cpp:62-66 | the resolved action takes exactly the placeholder's position; a copy of it that the widget already held elsewhere is dropped (insertAction takes it out first); every other action keeps its place; a null action, or the placeholder itself, just closes the gap |
| `ActionLists.SpliceAll` | lib/objectadaptors.cpp:60-69 | every widget that held the placeholder has its list spliced and no widget holds the placeholder afterwards; the other widgets are untouched |
| `ActionItems.ActionItem.constructor` | lib/objectadaptors.cpp:29-34 | a new item shows its placeholder, which no widget holds yet; nothing was assigned |
| `ActionItems.ActionItem.SetAction` | lib/objectadaptors.cpp:41-72 | an assignment equal to the stored variant changes nothing and emits nothing; otherwise qmlAction() returns the new variant and exactly one actionChanged is emitted; while the placeholder is shown, action() becomes the resolved action and every widget list is spliced; once it is swapped, action() and the widget lists never change again |
| `ActionItems.ActionItem.ReplaceInWidget` | lib/objectadaptors.cpp:63-65 | one loop step: only this widget's list changes, and it becomes its splice |
| `ActionItems.ActionItem.ReplacePlaceholder` | lib/objectadaptors.cpp:59-69 | the loop over the associated widgets leaves every widget list equal to `SpliceAll` of the lists before it; action lists stay free of duplicates |
| `ActionItems.SwapKeepsPosition` | lib/objectadaptors.cpp:59-69 | in each widget that held the placeholder, the resolved action ends up exactly where the placeholder was, any earlier copy of it in that widget is gone, and the other actions keep their order; a null action closes the gap |
| `ButtonGroups.ButtonGroup.constructor` | lib/objectadaptors.cpp:80-83 | a new group has no list and no members |
| `ButtonGroups.ButtonGroup.SetButtons` | lib/objectadaptors.cpp:85-119 | an equal list is a no-op without buttonsChanged; otherwise membership becomes (old members minus the old list's buttons) plus the new list's buttons and exactly one buttonsChanged is emitted; the new list's buttons are then all members, and a membership equal to the old list's buttons becomes exactly the new list's buttons |
| `ItemViews.ItemView.constructor` | lib/objectadaptors.cpp:127-130 | a view starts with no model and the toolkit's selection model |
| `ItemViews.ItemView.SetModel` | lib/objectadaptors.cpp:132-141 | the current model again changes nothing and emits nothing; otherwise the model is `m`, the selection model is the one the toolkit created, and the log gains modelChanged(m) then selectionModelChanged(new selection model), in that order; ListView, TableView and TreeView (lines 338-347, 365-374, 427-436) are the same code |
| `ItemViews.ItemView.SetSelectionModel` | lib/objectadaptors.cpp:143-151 | an equal selection model is a no-op; otherwise it is set, the model is kept, and exactly one selectionModelChanged(s) is emitted; lines 349-357, 376-384 and 438-446 are the same code |
| `DeclarativeContexts.NativeContext.constructor` | lib/objectadaptors.cpp:156 | a new native context is live, with no URL of its own and no properties, and sits below the context it was created under |
| `DeclarativeContexts.EffectiveUrlOrigin` | lib/objectadaptors.cpp:179-193 | a non-empty URL that a context reports was set on that context or on a context above it |
| `DeclarativeContexts.NativeContext.Destroy` | lib/objectadaptors.cpp:169 | after deletion the context is no longer live, and a weak handle to it is stale |
| `DeclarativeContexts.DeclarativeContext.ForEngine` | lib/objectadaptors.cpp:154-158 | the wrapper owns a fresh live context with no URL or properties of its own, chained under the engine's root context, whose URL it then reports; its QObject parent is the wrapper's parent |
| `DeclarativeContexts.DeclarativeContext.ForParent` | lib/objectadaptors.cpp:160-164 | the fresh context has no URL or properties of its own and is chained under the parent wrapper's context, whose URL it then reports, or under none when that handle is stale |
| `DeclarativeContexts.DeclarativeContext.Wrap` | lib/objectadaptors.cpp:196-202 | createWrapper: the wrapper's weak handle is the given context |
| `DeclarativeContexts.DeclarativeContext.Destruct` | lib/objectadaptors.cpp:166-170 | the wrapped context is deleted exactly when it is live and has no QObject parent; otherwise it is left as it was |
| `DeclarativeContexts.DeclarativeContext.SetBaseUrl` | lib/objectadaptors.cpp:172-184 | on a stale handle only a warning is logged and nothing changes; the URL the context already reports, its own or inherited, emits nothing; otherwise the URL is set on the context, exactly one baseUrlChanged(url) is emitted, and the context then reports `url` (or, for the empty URL, the inherited one) |
| `DeclarativeContexts.DeclarativeContext.BaseUrl` | lib/objectadaptors.cpp:186-194 | a stale handle yields the empty URL and a warning; a live one yields the URL the context reports, its own or inherited, and no warning |
| `DeclarativeContexts.DeclarativeContext.SetContextProperty` | lib/objectadaptors.cpp:204-212 | on a stale handle only a warning is logged; otherwise the name is bound to the value and nothing else changes |
| `DeclarativeContexts.DeclarativeContextProperty.IsValid` | lib/objectadaptors.cpp:257-260 | isValid(): a non-empty name and a value that is an object or a scalar, the variants that are valid and not null |
| `DeclarativeContexts.DeclarativeContextProperty.constructor` | lib/objectadaptors.cpp:220-223 | a new property has an empty name, an invalid value and no context |
| `DeclarativeContexts.DeclarativeContextProperty.SetOnContext` | lib/objectadaptors.cpp:268-274 | the binding is pushed, through the wrapper's setContextProperty, exactly when it is valid (non-empty name, valid non-null value) and a wrapper is attached; otherwise nothing changes |
| `DeclarativeContexts.DeclarativeContextProperty.SetName` | lib/objectadaptors.cpp:225-234 | an equal name does nothing and emits nothing; otherwise nameChanged(n) is emitted and the push runs with the new name: a live context gets `n` bound to the value and nothing else changes, a stale one only logs a warning, and with an invalid binding or no wrapper nothing else changes |
| `DeclarativeContexts.DeclarativeContextProperty.SetValue` | lib/objectadaptors.cpp:241-250 | an equal value does nothing and emits nothing; otherwise valueChanged(v) is emitted and the push runs with the new value: a live context gets the name bound to `v` and nothing else changes, a stale one only logs a warning, and with an invalid binding or no wrapper nothing else changes |
| `DeclarativeContexts.DeclarativeContextProperty.SetContext` | lib/objectadaptors.cpp:262-266 | the wrapper is always replaced and the push always re-runs, even for the same wrapper: a valid binding is bound on a live context with nothing else changed, a stale context only logs a warning, and otherwise nothing else changes |
| `TextEdits.TextEdit.Modified` | lib/objectadaptors.cpp:416-419 | modified(): the flag of the current document; `SetTextDocument`'s contract says modifiedChanged is emitted exactly when this value changes |
| `TextEdits.TextEdit.constructor` | lib/objectadaptors.cpp:387-391 | the editor forwards the modified flag of its initial document |
| `TextEdits.TextEdit.SetTextDocument` | lib/objectadaptors.cpp:393-414 | a null document, or the current one, changes nothing; otherwise the document and the subscription move to it, documentChanged is emitted, and modifiedChanged follows exactly when the old and new modified flags differ |
| `DeclarativeViews.ContextOf` | lib/objectadaptors.cpp:289-294 | an object stands for context wrapper `c` exactly when it is `c` or a declarative wrapper whose object is `c` |
| `DeclarativeViews.RootContextStepAsWritten` | lib/objectadaptors.cpp:287-303 | the branches as written: a null argument reaches the diagnostic that dereferences it |
| `DeclarativeViews.RootContextStep` | lib/objectadaptors.cpp:287-303 | the intended branches never dereference null. Rejection happens exactly for null or a non-context object. No-op happens exactly for the current wrapper. A switch goes to the resolved wrapper. They agree with the written branches on every non-null argument |
| `DeclarativeViews.NullArgumentDereferences` | lib/objectadaptors.cpp:296-299 | for a null argument, the code as written dereferences null, while the intended version rejects it |
| `DeclarativeViews.DeclarativeView.constructor` | lib/objectadaptors.cpp:277-281 | the view starts with the wrapper of its own root context |
| `DeclarativeViews.DeclarativeView.SetDeclarativeRootContext` | lib/objectadaptors.cpp:287-310 | a resolvable, different wrapper becomes the root context with one declarativeRootContextChanged; the current one changes nothing; anything else only logs a diagnostic |

## Findings

| source | as written | input that shows it | evidently intended | confidence | as-written member | corrected member |
|---|---|---|---|---|---|---|
| lib/objectadaptors.cpp:296-299 | a null `context` fails both casts. It then reaches the diagnostic, which calls `context->metaObject()` on the null pointer | `setDeclarativeRootContext(nullptr)`, for instance `declarativeRootContext: null` in the declarative source | reject the null object with the diagnostic, like any other object that is not a context wrapper | not executed; follows from reading lines 289-299 | `DeclarativeViews.RootContextStepAsWritten` (shown by `DeclarativeViews.NullArgumentDereferences`) | `DeclarativeViews.RootContextStep` |

## Left out

- `ItemViews.ItemView.SetModel`: the toolkit's own setModel is treated as one step (new model plus new selection model). Inside Qt, that step installs the selection model through the virtual setSelectionModel. In the real program this can reach the adaptor's override and emit an extra selectionModelChanged before modelChanged. The contract states only the two notifications that the adaptor's setModel emits itself.
- `ItemViews.ItemView.SetSelectionModel`: the toolkit's checks on the argument are not modelled. A null selection model that gets past the equality test at line 145 reaches Qt's own setSelectionModel, which asserts it is non-null and then uses it. A selection model built for another model is refused by Qt, yet line 150 still emits selectionModelChanged(s) while selectionModel() stays the same. The model installs whatever it is given.
- `DeclarativeViews.DeclarativeView.SetDeclarativeRootContext`: the `Q_ASSERT` at line 306 is taken with release-build semantics, where it is compiled out. The wrapped native contexts are not compared.
- `ActionItems.ActionItem.ReplacePlaceholder`: the widgets returned by associatedWidgets() are visited as a set, in any order. Each step edits only its own widget's list, so the order cannot change the result.
- `DeclarativeContexts.NativeContext.EffectiveUrl`: inheritance follows the chain through every context above that still exists and stops at a destroyed one. What Qt keeps of a context's link to a live parent once a context further up has been destroyed is not modelled.
- Variant equality is the structural equality of the tagged union. QVariant's cross-type conversions in `==` are not modelled.
- QWidget::insertAction/removeAction follow their documented contracts only. Actions and change events on graphics widgets are out.
- Signal/slot connections: the InputDialog re-emits (lines 327-329) are not modelled. For TextEdit's connect/disconnect (lines 390, 402, 408), only which document is subscribed is recorded.
- Diagnostic text and `Q_FUNC_INFO` are not modelled; a diagnostic is the single `Warning` event. The setters append it to the adaptor's `log`. `DeclarativeContexts.DeclarativeContext.BaseUrl` models the const getter baseUrl() as a method that changes no state, so it returns the same diagnostic (line 189) as its `warned` result instead.
- Ownership and deletion are modelled only as "the wrapped context is deleted iff it is live and has no QObject parent". QTextEdit's deletion of a document it owns is not modelled. Of the engine passed to the first context constructor, only its root context is modelled.
- Getters that return a field (action(), qmlAction(), buttons(), name(), value(), declarativeRootContext(), model(), selectionModel()) are the class fields themselves. modified() and isValid() have rows of their own.
- The FileDialog and InputDialog constructors and the empty DeclarativeView destructor carry no logic.
- `lib/declarativehboxlayout_p.h` holds only declarations (a layout subclass and its attached-property glue). `src/declarativecontainerwidgetextension_p.h` is a one-line template constructor. Neither has logic to model.
