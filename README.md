# SuBlazor overlay registries in Dafny

This project models the two in-memory overlay registries of CSStack.SuBlazor, a
Blazor UI library, and proves what their list operations do.

- `SuDialogService` keeps the stack of open dialogs in `DialogContexts`.
  `OpenDialog` numbers a new context one above the largest live `Index` (0 when
  none is open) and re-sorts by `Index`. `CloseDialog()` removes the context with
  the largest `Index`. `CloseDialog(id)` removes every context with that
  identifier. `CloseAllDialog` empties the list.
- `SuNotificationService` keeps a flat list of notifications in
  `NotificationContexts`. `Notify` appends a context stamped with the current
  time. Its duration is the request's, or `DefaultDuration` (4000 ms). `CloseNotification` removes the
  entries a rule accepts, or all of them. `CloseTimeoutNotifications` removes the
  entries whose `TimeStamp + Duration` lies strictly before now.
- `SuBSDialogService`, the Bootstrap subclass, appends `" modal show"` and
  `" display: block;"` to the background class and style after the base
  constructor.

Layout:

- `collections.dfy` (module `Collections`): the .NET operations the services
  rebuild their lists with (`ImmutableList.Remove`, `ImmutableList.RemoveAll`,
  LINQ `MaxBy` and `OrderBy`) as functions on sequences, with their lemmas.
- `components.dfy` (module `Components`): the opaque component type tag and
  parameter-dictionary handle.
- `dialogs.dfy` (module `Dialogs`): the dialog records, the lists each operation
  builds (`Opened`, `ClosedTop`, `ClosedById`), lemmas about them, and the class
  `SuDialogService`, whose methods assign those lists.
- `notifications.dfy` (module `Notifications`): the notification records, the
  sweep, lemmas, and the class `SuNotificationService`.
- `bootstrap_dialogs.dfy` (module `BootstrapDialogs`): the `SuBSDialogService`
  constructor.

Modelling choices:

- The `OnDialogContextsChange` and `OnNotificationContextsChange` events are a
  ghost counter `ChangeEvents`. Every method's contract advances it by one,
  except `CloseDialog()` on an empty list, which returns before raising the
  event and leaves it unchanged.
- `DateTime.Now` is an integer `now` in milliseconds, passed in by the caller.
- Identifiers are strings supplied by the caller; the `Guid.NewGuid()` defaults
  are not generated.
- `System.Type` is an opaque tag (`ComponentType`). A parameter dictionary is a
  reference handle (`Parameters`), compared by identity as C# compares it.
- `SuDialogService` keeps the invariant `Valid()`: `Index` strictly ascends
  along `DialogContexts`. `OpenDialog`, `CloseDialog()` on a non-empty list and
  `CloseDialog(id)` end with an `OrderBy` on `Index`; under `Valid()` that
  re-sort is proved to leave the list as it is. `CloseAllDialog` clears the
  list instead, and `CloseDialog()` on an empty list returns before any re-sort.

Behaviour of the code worth noting:

- `CloseDialog(id)` and `CloseTimeoutNotifications` raise the change event on
  every call, even when nothing was removed.
- A notification of duration 0 raised at `t0` survives a sweep at exactly `t0`.
  The comparison is strict (`now > TimeStamp + Duration`).
- The notification code has no auto-close flag, so every entry is subject
  to the sweep.

## Model

| member | source | states |
|---|---|---|
| `Collections.MaxBy` | CSStack.SuBlazor/Services/SuDialogService.cs:43 | null (None) exactly on an empty list; otherwise an element whose key is at least every element's key, and the first such element |
| `Collections.OrderBy` | CSStack.SuBlazor/Services/SuDialogService.cs:87 | the result is sorted by the key and is a permutation of the input |
| `Collections.OrderByOfSorted` | CSStack.SuBlazor/Services/SuDialogService.cs:48 | re-ordering a list that is already sorted by the key returns it unchanged |
| `Collections.Remove` | CSStack.SuBlazor/Services/SuDialogService.cs:48 | when the element is present, its first occurrence is taken out and every other element kept in order (length drops by one, multiset loses one copy); no change when absent |
| `Collections.RemoveDistinctLast` | CSStack.SuBlazor/Services/SuDialogService.cs:43-48 | removing the last element, when it occurs nowhere earlier, yields exactly the list without it |
| `Collections.RemoveAll` | CSStack.SuBlazor/Services/SuDialogService.cs:61 | the result holds exactly the elements of the input the rule rejects, and is no longer than the input |
| `Collections.RemoveAllAppend` | CSStack.SuBlazor/Services/SuNotificationService.cs:38 | removal distributes over concatenation, so the survivors keep their relative order |
| `Collections.RemoveAllNoMatch` | CSStack.SuBlazor/Services/SuDialogService.cs:61-63 | when no element matches the rule the list is returned unchanged |
| `Collections.RemoveAllAbsorb` | CSStack.SuBlazor/Services/SuNotificationService.cs:36-38 | removing by p then by a rule q implied by p, in either order, equals removing by q; with p = q, closing twice equals closing once |
| `Collections.RemoveAllKeepsStrictlyIncreasing` | CSStack.SuBlazor/Services/SuDialogService.cs:61-63 | removal keeps strictly increasing keys strictly increasing; survivors are never renumbered |
| `Dialogs.NewContext` | CSStack.SuBlazor/Services/SuDialogService.cs:78-86 | the new context copies identifier, type, parameters and wrapper class and style from the request; its Index is 0 on an empty list and otherwise one more than some live Index while above every live Index, that is, the largest live Index plus one |
| `Dialogs.Opened` | CSStack.SuBlazor/Services/SuDialogService.cs:87 | the list after an open is sorted by Index and holds the old contexts plus the new one, as a multiset |
| `Dialogs.ClosedTop` | CSStack.SuBlazor/Services/SuDialogService.cs:43-48 | an empty list stays empty; otherwise the result is one shorter, sorted by Index, and lacks exactly one copy of the context with the largest Index |
| `Dialogs.ClosedById` | CSStack.SuBlazor/Services/SuDialogService.cs:61-63 | the result is sorted by Index and holds exactly the contexts whose identifier differs from the given one |
| `Dialogs.NextIndex` | CSStack.SuBlazor/Services/SuDialogService.cs:83 | 0 on an empty list; otherwise some live Index plus one, and above every live Index |
| `Dialogs.TopIsLast` | CSStack.SuBlazor/Services/SuDialogService.cs:43 | on an ascending list MaxBy picks the last context, and that context does not occur earlier |
| `Dialogs.AscendingIsSorted` | CSStack.SuBlazor/Services/SuDialogService.cs:62 | ordering an ascending list by Index leaves it unchanged |
| `Dialogs.OpenedAppends` | CSStack.SuBlazor/Services/SuDialogService.cs:83-87 | on an ascending list the opened list is the old list plus the new context at the end, still ascending |
| `Dialogs.ClosedTopDropsLast` | CSStack.SuBlazor/Services/SuDialogService.cs:43-48 | an empty list stays empty; otherwise exactly the last (largest-Index) context is removed, the rest kept in order and ascending |
| `Dialogs.ClosedByIdFilters` | CSStack.SuBlazor/Services/SuDialogService.cs:61-63 | removes every context with the identifier and no other, keeps order and ascent, and changes nothing when none matches |
| `Dialogs.ClosedTopUndoesOpened` | CSStack.SuBlazor/Services/SuDialogService.cs:43-48 | CloseDialog() after OpenDialog restores the list, so the next open reuses the same Index |
| `Dialogs.CountsUpStep` | CSStack.SuBlazor/Services/SuDialogService.cs:87 | appending the next numbered context extends a run of consecutive Index values by one |
| `Dialogs.OpenedAllCountsUp` | CSStack.SuBlazor/Services/SuDialogService.cs:83-87 | a series of opens appends one context per call in call order, with Index values counting up by one from NextIndex, and stays ascending |
| `Dialogs.OpenedAllFromEmpty` | CSStack.SuBlazor/Services/SuDialogService.cs:83 | n opens on an empty service yield n contexts numbered 0 to n - 1 |
| `Dialogs.WrapInt32` | CSStack.SuBlazor/Services/SuDialogService.cs:83 | the result lies in the 32-bit range, is congruent to the input modulo 2^32, and equals the input when it is already in range |
| `Dialogs.NextIndexAsWritten` | CSStack.SuBlazor/Services/SuDialogService.cs:83 | the Index the code computes lies in the 32-bit range and is NextIndex wrapped modulo 2^32 |
| `Dialogs.NextIndexAsWrittenAgrees` | CSStack.SuBlazor/Services/SuDialogService.cs:83 | while every live Index is below int.MaxValue the wrapping computation equals NextIndex |
| `Dialogs.NextIndexAsWrittenWraps` | CSStack.SuBlazor/Services/SuDialogService.cs:83 | with a live Index of int.MaxValue the code numbers the next dialog int.MinValue, below the top, and the one after it int.MinValue again; NextIndex stays above |
| `Dialogs.SuDialogService.constructor` | CSStack.SuBlazor/Services/SuDialogService.cs:10-15 | ZIndex, BackgroundStyle and BackgroundClass are copied from the options; no dialog is open and no event has fired |
| `Dialogs.SuDialogService.CloseAllDialog` | CSStack.SuBlazor/Services/SuDialogService.cs:27-34 | the list is empty afterwards and the event fires exactly once, even when the list was already empty |
| `Dialogs.SuDialogService.CloseDialog` | CSStack.SuBlazor/Services/SuDialogService.cs:39-51 | on an empty list nothing changes and no event fires; otherwise the last (top) context is removed, the rest kept in order, and the event fires once |
| `Dialogs.SuDialogService.CloseDialogById` | CSStack.SuBlazor/Services/SuDialogService.cs:57-66 | exactly the contexts with the identifier are removed, in order; the event fires once even when none matched |
| `Dialogs.SuDialogService.OpenDialog` | CSStack.SuBlazor/Services/SuDialogService.cs:73-90 | the list grows by one at the end, old contexts unchanged; the new one copies identifier, type, parameters and wrapper class and style and has Index NextIndex; the event fires once |
| `Notifications.NewNotification` | CSStack.SuBlazor/Services/SuNotificationService.cs:68-75 | the context copies identifier, type and parameters from the request, is stamped with now, and takes the request's duration when given and the default otherwise |
| `Notifications.Expired` | CSStack.SuBlazor/Services/SuNotificationService.cs:56 | an entry is expired exactly when more than Duration has passed since its TimeStamp; at exactly TimeStamp + Duration it is not |
| `Notifications.Swept` | CSStack.SuBlazor/Services/SuNotificationService.cs:55-56 | the swept list holds exactly the entries with now <= TimeStamp + Duration |
| `Notifications.ExpiredStaysExpired` | CSStack.SuBlazor/Services/SuNotificationService.cs:56 | an entry expired at t1 is expired at every later time |
| `Notifications.SweptAtDeadline` | CSStack.SuBlazor/Services/SuNotificationService.cs:56 | an entry survives a sweep at exactly its deadline and is removed one millisecond later |
| `Notifications.SweptIdempotent` | CSStack.SuBlazor/Services/SuNotificationService.cs:55-56 | sweeping twice at the same time equals sweeping once |
| `Notifications.SweptMonotone` | CSStack.SuBlazor/Services/SuNotificationService.cs:55-56 | sweeping at t1 then t2 (t1 <= t2) equals sweeping at t2; an earlier sweep after a later one changes nothing |
| `Notifications.NewNotificationLifetime` | CSStack.SuBlazor/Services/SuNotificationService.cs:68-79 | a notification raised at now survives exactly the sweeps at times up to now + Duration |
| `Notifications.CloseUndoesNotify` | CSStack.SuBlazor/Services/SuNotificationService.cs:36-38 | closing by the identifier of a notification just appended, when no earlier entry shares it, restores the previous list |
| `Notifications.SuNotificationService.constructor` | CSStack.SuBlazor/Services/SuNotificationService.cs:21-26 | DefaultDuration starts at 4000, the list is empty and no event has fired |
| `Notifications.SuNotificationService.CloseNotification` | CSStack.SuBlazor/Services/SuNotificationService.cs:32-46 | with a rule, exactly the entries it accepts are removed, the rest kept in order; without one the list is emptied; the event fires once either way |
| `Notifications.SuNotificationService.CloseTimeoutNotifications` | CSStack.SuBlazor/Services/SuNotificationService.cs:51-60 | exactly the entries with now > TimeStamp + Duration are removed, the rest kept in order; the event fires once even when none expired |
| `Notifications.SuNotificationService.Notify` | CSStack.SuBlazor/Services/SuNotificationService.cs:66-83 | one context is appended after the unchanged old ones, with the request's identifier and parameters, TimeStamp now, and the request's duration or else DefaultDuration; the event fires once |
| `BootstrapDialogs.NewSuBSDialogService` | CSStack.SuBlazor.Bootstrap/Services/SuBSDialogService.cs:5-10 | BackgroundClass is the option's plus " modal show", BackgroundStyle the option's plus " display: block;", ZIndex the option's; no dialog is open |
| `BootstrapDialogs.NewDefaultSuBSDialogService` | CSStack.SuBlazor.Bootstrap/Services/SuBSDialogService.cs:8-9 | with default options the background class is " modal show" and the style " display: block;", each with its leading space, and ZIndex is 1000 |

## Findings

| source | as written | input that shows it | evidently intended | confidence | as-written member | corrected member |
|---|---|---|---|---|---|---|
| CSStack.SuBlazor/Services/SuDialogService.cs:83 | `MaxBy(x => x.Index)?.Index + 1` is unchecked 32-bit `int` arithmetic and wraps at int.MaxValue | a live dialog with Index 2147483647, reachable by repeatedly opening a dialog and closing an older one by identifier: the next dialog gets Index -2147483648 and sorts beneath it, and the one after that gets -2147483648 again | each new dialog is numbered above every live one, so it is on top and indices stay distinct | low: needs about 2^31 opens while a dialog stays open; not executed | `Dialogs.NextIndexAsWritten` (shown by `Dialogs.NextIndexAsWrittenWraps`) | `Dialogs.NextIndex` (unbounded; `Dialogs.OpenedAppends` proves the list stays strictly ascending) |

## Left out

- Locking: the `lock(_lock)` blocks only guard against concurrent callers. Each operation is modelled as one atomic step.
- The change events' subscribers and their invocation are not modelled. Only the number of times each event is raised is tracked.
- The clock: `DateTime.Now` is the `now` parameter, in integer milliseconds. The source reads the clock once per entry during a sweep; the model reads it once per sweep. Local-time jumps and `AddMilliseconds` overflow are not modelled.
- `Guid.NewGuid()` default identifiers and the default empty parameter dictionary are not generated. The caller supplies both in the request.
- `Dialogs.SuDialogService.OpenDialog` uses unbounded `Index` arithmetic (the corrected behaviour of the finding above). `Dialogs.NextIndexAsWritten` models the 32-bit wrap.
- `Collections.OrderBy`: stability is not stated as a contract. Only its consequence is proved: a list already sorted by the key comes back unchanged (`Collections.OrderByOfSorted`). That is the only way the services use it.
- `BootstrapDialogs.NewSuBSDialogService`: C# subclassing is not modelled. Dafny classes cannot inherit from classes, so the subclass constructor is a method that builds a `SuDialogService` and applies the two suffixes.
- SuBSNotificationService.cs is not part of this model. It is written against a different version of the notification base class, with an options constructor, `Lock` and `AutoClose`, none of which exist in the modelled one.
- The Razor components, including the one-second timer that drives the sweep and the view-side re-sort of the dialogs, are not part of this model. The service builders and the host wiring are not part of it either.
- The records are immutable values. In the source `DialogContext.Index`, `NotificationContext.Duration` and `NotificationContext.TimeStamp` have public setters, so a caller holding a live context could change it in place and break the ascending-`Index` invariant; the model does not capture such outside mutation or the aliasing it relies on.
- `Notifications.SuNotificationService.CloseNotification`: the rule is a total, pure function. In the source it is arbitrary caller code; if it throws, `RemoveAll` fails, the list stays as it was and no event is raised. Rules with side effects or exceptions are not modelled.
- `null` values are not modelled. The public setters of the options and requests would accept them; in the model every string and request is present.
