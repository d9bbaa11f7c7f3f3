# VersaNote.Interop — a Dafny model of the late-bound façade

VersaNote.Interop is a thin C# adapter over the VersaNote add-in. The adapter
gets the add-in as an untyped `object`. At construction it captures the list of
public instance methods of that object. Each façade operation then follows a
fixed protocol:

1. Run the operation's own precondition check. Only `AddCustomNote` has one: a
   sub-note needs a parent id.
2. Look up the host method by name, taking the first entry of the method table
   with that name.
3. If a method is found, invoke it with a fixed positional argument array and
   return the host's result unchanged.
4. If no method is found, result-returning operations return a synthesized
   failure, `Success = false` with the message
   `"<Operation> method not found in Versa Note"`. `void` operations do nothing
   and report nothing.

The model is purely functional. The host is a `HostObject`: its public instance
methods as a `seq<MethodInfo>`, plus one uninterpreted function per
result-returning operation. Each function gives what invoking a given method
with given arguments returns once cast to the façade's struct. .NET does not fix
the order in which reflection lists methods. The table may be in any order, and
every property below holds for every order. The host has state. Each answer may
also depend on the `Invoke` events it has received before (`Invocations` of the
history). Lookups search the adapter's own cached table and never reach the
host. So two identical calls may get different answers, such as two different
new note ids, but a call that only looks up changes no later answer. Every façade operation
returns an `Outcome`: its result together with a trace of the `Lookup` and
`Invoke` events it performed. The short-circuit, the first-match lookup, the
pass-through and the positional argument order are all stated over that trace.

The adapter `Addin` is an immutable value. Its method table is a field set by
the constructor `NewAddin`, and no operation returns a new adapter.
`RunSession` states the consequence for a stateful host. Over a whole session,
the lookup and the invocation target and arguments of every request are those
a fresh adapter gives that request alone. Only the host's answers vary.

Modules:

- `Nullables`: C# `null` as `Nullable<T>`. Used for the result structs' strings
  and arrays, and for what `FirstOrDefault` yields.
- `Enums` (Enums.cs): `NotificationType` and its ordinals, and `NoteType`, which
  models `NoteType_e`. Also `Note` and the result structs. Every struct carries
  `success` and `message`. Only `AddCustomNoteResult` adds `noteId`, and only
  `GetSheetNotesResult` adds `notes`.
- `Dispatch` (shared by both revisions): the adapter and its constructor, the
  first-match lookup `FirstIndexNamed`/`FirstOrDefault`, and the generic
  lookup-then-invoke-or-fall-back step `Call`/`CallVoid`. It also holds the
  independent characterisations `FollowsProtocol` and `FollowsVoidProtocol`,
  which those steps are proved against.
- `Facade` (Addin.cs): the seven operations, their positional argument arrays
  (`Parameters`) and the host-side binding those arrays are proved to
  round-trip through (`BindParameters`). It also has `Handle`, which serves any
  request, and `RunSession`, which serves a sequence of requests on one adapter.
- `LegacyFacade` (VersaNote.Interop/Addin.cs): the older revision. Its
  constructor is the same as the current one, so it is modelled by
  `Dispatch.NewAddin`. Its only operation is a two-argument toast.

Some details of the code that the model follows exactly:

- The not-found message is `"<Op> method not found in Versa Note"`
  (Addin.cs:87), with `<Op>` the operation's own name.
- `NoteType_e` declares exactly `Custom`, `Template` and `NewColumn`
  (Enums.cs:15-20).
- The implemented toast has no `delaySeconds` parameter, unlike the one
  declared at IAddin.cs:5.

`RefreshNoteTables` returns a `RefreshNoteTablesResult`, which Enums.cs does
not define. It is modelled as a synonym of `CommitNoteUpdatesResult`, which has
the same two fields. The local variable name at Addin.cs:283 suggests that
rename.

## Model

| member | source | states |
|---|---|---|
| Enums.NotificationOrdinal | Enums.cs:5-13 | for each declared member, the ordinal handed to the host lies in 0..5 |
| Enums.NotificationFromOrdinal | Enums.cs:5-13 | an integer is the ordinal of a declared `NotificationType` member exactly when it lies in 0..5 |
| Enums.NotificationOrdinalsFollowDeclarationOrder | Enums.cs:5-13 | None=0, Information=1, Success=2, Warning=3, Error=4, Notification=5, by declaration order |
| Enums.NotificationOrdinalRoundTrip | Enums.cs:5-13 | enum → int → enum is the identity |
| Enums.NotificationOrdinalRange | Enums.cs:5-13 | the ordinal mapping's range is exactly 0..5, and int → enum → int is the identity there |
| Enums.NotificationOrdinalInjective | Enums.cs:5-13 | distinct notification types never share an ordinal |
| Dispatch.FirstIndexNamed | Addin.cs:76 | the lookup (the same call recurs at 131, 203, 220, 229, 279 and 337) yields the first table position whose name matches, and yields null exactly when no entry has that name |
| Dispatch.FirstOrDefault | VersaNote.Interop/Addin.cs:19 | the method found is the entry at the first matching position; null exactly when no entry matches |
| Dispatch.LaterOverloadsNeverChosen | Addin.cs:76 | whatever order reflection lists the methods in, once a method of the name is in the table, entries after it (later overloads) never change the choice; holds for the same lookup at 131, 203, 220, 229, 279 and 337 |
| Dispatch.Invocations | Addin.cs:80 | the host observes exactly the `Invoke` events of a trace, in order, and never more events than the trace holds |
| Dispatch.InvocationsOfConcat | Addin.cs:80 | what the host observes of two traces in sequence is what it observes of the first, then of the second |
| Dispatch.LookupsHaveNoInvocations | Addin.cs:76 | a trace of lookups alone shows the host nothing |
| Dispatch.AbsentPrefixOnlyShifts | Addin.cs:76 | entries of other names before the match only shift its position; the chosen method is the same; holds for the same lookup at 131, 203, 220, 229, 279 and 337 |
| Dispatch.Call | Addin.cs:76-88 | after lookup: found → the host's result, given its history, for the first match with exactly the given arguments, trace lookup then one invoke; absent → the fallback result, trace lookup only (the same pattern recurs at 131-143, 203-215, 279-291 and 337-349) |
| Dispatch.CallVoid | Addin.cs:220-224 | a `void` call invokes the first match with the given arguments, or, when absent, performs only the lookup and reports nothing |
| Dispatch.ProtocolIsDeterministic | Addin.cs:76-88 | the lookup-invoke-or-fallback protocol admits exactly one outcome for a given table, host history, name and arguments |
| Dispatch.ConstructorExposesEveryPublicMethod | VersaNote.Interop/Addin.cs:11-15 | the table `NewAddin` captures (in both revisions; Addin.cs:11-15 is identical) finds a name exactly when the host exposes a public method of that name, and only ever finds one of the host's methods |
| Facade.ParametersBindPositionally | Addin.cs:340 | any argument array that binds to a call is exactly the array that call passes (the same holds of the arrays at 79, 134, 206, 233 and 282) |
| Facade.Parameters | Addin.cs:79 | each operation's argument array binds back, position by position, to exactly that call; the toast's third argument is read back as the `NotificationType` ordinal (Addin.cs:232-233) |
| Facade.NotFoundMessage | Addin.cs:87 | the not-found message is the operation's name followed by " method not found in Versa Note" (also at 142, 214, 290 and 348) |
| Facade.NotFoundMessageNamesOperation | Addin.cs:142 | distinct operations never produce the same not-found message |
| Facade.AddCustomNote | Addin.cs:66-89 | a sub-note with an empty parent id fails with the parent-id message and null NoteId and touches nothing; otherwise first-match lookup, then either the host's result with arguments [sheetIndex, noteText, noteIndex, subNote, parentId, suppressTableRefresh] or the not-found failure with null NoteId |
| Facade.DeleteCustomNote | Addin.cs:127-144 | first-match lookup; host's result for [sheetIndex, noteId, suppressTableRefresh], or the not-found failure |
| Facade.GetAllSheetNotes | Addin.cs:201-216 | first-match lookup; host's result for [sheetIndex], or the not-found failure with null Notes |
| Facade.OpenEditor | Addin.cs:218-225 | invokes the first `OpenEditor` with no arguments, or silently does nothing |
| Facade.ShowToastNotification | Addin.cs:227-236 | invokes the first `ShowToastNotification` with [title, message, ordinal of the type], or silently does nothing |
| Facade.RefreshNoteTables | Addin.cs:277-292 | first-match lookup; host's result for [sheetIndex], or the not-found failure |
| Facade.UpdateCustomNote | Addin.cs:335-350 | first-match lookup; host's result for [sheetIndex, noteId, newNoteText, toggleSubNote, suppressTableRefresh], or the not-found failure |
| Facade.PreconditionShortCircuits | Addin.cs:68-74 | a sub-note without a parent id yields an empty trace and the same failure whatever the host is and whatever state it is in |
| Facade.DefaultsNeverTripPrecondition | Addin.cs:66 | with default optional arguments the precondition never fires, and the host receives -1, false, "" and false |
| Facade.AbsentOperationIsReportedNotInvoked | Addin.cs:84-88 | when the table lacks the operation's name the trace is the lookup alone; result operations fail with "<Op> method not found in Versa Note" and null payload; `void` ones return nothing |
| Facade.NoFacadeMethodReportsEveryOperationUnsupported | Addin.cs:11-15 | an adapter over a host with no method of any façade operation's name (it may still expose `ToString`, `GetType` and the like) is valid; every call on it only looks up, and exactly the result-returning calls fail |
| Facade.LookupsAreInvisibleToHost | Addin.cs:76 | the lookup searches the adapter's cached table, not the host, so lookup events added to the history change no later call's dispatch or answer |
| Facade.UnsupportedCallLeavesHostUnchanged | Addin.cs:84-88 | a call whose method the host lacks reaches the host not at all: every later call gets exactly the answer it would have got without it |
| Facade.FoundResultPassesThrough | Addin.cs:77-81 | when the first method of the name is at position i, the caller receives the host's result for that method and the operation's arguments, unchanged |
| Facade.DispatchIgnoresHostState | Addin.cs:9 | which method is looked up and invoked, with which arguments, is the same whatever the host's history; only the answers depend on it |
| Facade.DefaultAppendScenario | Addin.cs:80-81 | a stub host answering {true, "", "5"} to the append sentinel gets `AddCustomNote(1, "Draft")` that exact answer back, after one lookup and one invoke with -1 |
| Facade.RepeatedAddPassesFreshIds | Addin.cs:80-81 | over a host that numbers new notes by its history, two identical `AddCustomNote` calls in sequence are dispatched identically and return the host's two different ids unchanged |
| Facade.RunSession | Addin.cs:8-15 | over a session on one adapter and a stateful host, every request is looked up and invoked (target and arguments) exactly as a fresh adapter does it for that request alone, and each answer is the host's answer after all earlier `Invoke` events of the session |
| LegacyFacade.ShowToastNotification | VersaNote.Interop/Addin.cs:17-26 | invokes the first `ShowToastNotification` with [title, message], or silently does nothing |
| LegacyFacade.ToastPassesTitleThenMessage | VersaNote.Interop/Addin.cs:19-24 | a found method receives title then message and nothing else; the call is lookup-only exactly when the method is absent |
| LegacyFacade.RevisionsAgreeOnTarget | VersaNote.Interop/Addin.cs:8-15 | the older and the current toast pick the same host method; the current one only appends the notification ordinal |

## Left out

- Enums.NotificationOrdinal: covers the declared members only. C# enums are open, so `(NotificationType)9` is a legal argument, and Addin.cs:232-233 hands 9 to the host. The model's `NotificationType` is closed and cannot express such a value, so the toast is modelled only for declared notification types.
- Undeclared `NoteType_e` values are not modelled. A host could return a `Note` whose `NoteType` is outside Custom, Template and NewColumn, and the façade would pass it through unchanged. The closed `NoteType` datatype cannot express that.
- Reflection mechanics are abstracted to a name table and typed result functions. These are `GetType().GetMethods(BindingFlags.Public | BindingFlags.Instance)`, `MethodInfo.Invoke` and `MethodInfo.GetCurrentMethod()`. The last is replaced by the operation's own name, which is what it returns there.
- The host's state is modelled only as the `Invoke` events it has received. A host whose answers also depend on something outside the façade's calls, such as user edits in the drawing between calls, is not modelled. `void` invocations enter that history but their effects have no other model.
- Exceptions are not modelled. These include a null host at construction, `Invoke` faults, an argument array that does not fit the chosen overload, and a failed cast of the host's return value. The source does not catch them.
- `null` string arguments are not modelled. Arguments are plain strings, and the precondition is the exact `parentId == ""` test. A null `parentId` would not trip it in C#.
- Host-side meaning is not modelled: sheet indices, note ids, insertion positions, the custom-versus-built-in check (only a comment at Addin.cs:129) and table rendering. These are opaque values passed through.
- IAddin.cs is not modelled. It has signatures only. Its `GetLinkedAnnotationsOnSheet`, `UpdatedLinkedAnnotationsOnActiveSheet` and the toast with `delaySeconds` have no implementation in the modelled files.
- `CommitNoteUpdatesResult`, `DeleteCustomNoteResult` and the other result structs are plain datatypes. "Every struct carries Success and Message" holds by their declarations, not by a lemma.
