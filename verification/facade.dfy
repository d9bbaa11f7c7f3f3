/** The current `Addin` façade (Addin.cs): one strongly typed operation per
    host capability, each an optional precondition followed by the shared
    lookup-then-invoke-or-fall-back protocol of module `Dispatch`. */
module Facade {
  import opened Nullables
  import opened Enums
  import opened Dispatch

  /** The failure `AddCustomNote` reports for a sub-note without a parent. */
  const ParentIdRequiredMessage := "A parent ID must be specified if subNote is set to True"

  /** The failure every result-returning operation reports when the host has
      no method of its name. */
  function NotFoundMessage(operation: string): (m: string)
    ensures |m| > |operation|
    ensures m[..|operation|] == operation
    ensures m[|operation|..] == " method not found in Versa Note"
  {
    operation + " method not found in Versa Note"
  }

  /** The message names the operation: distinct operations never report the
      same not-found message, so the caller can tell which one was missing. */
  lemma NotFoundMessageNamesOperation(op1: string, op2: string)
    ensures NotFoundMessage(op1) == NotFoundMessage(op2) ==> op1 == op2
  {
    if NotFoundMessage(op1) == NotFoundMessage(op2) {
      var m := NotFoundMessage(op1);
      assert |m| == |op1| + |" method not found in Versa Note"|;
      assert |m| == |op2| + |" method not found in Versa Note"|;
      assert op1 == m[..|op1|] == op2;
    }
  }

  /** One façade call with its arguments; optional parameters are explicit. */
  datatype Request =
    | AddCustomNoteRequest(sheetIndex: int, noteText: string, noteIndex: int, subNote: bool,
                           parentId: string, suppressTableRefresh: bool)
    | DeleteCustomNoteRequest(sheetIndex: int, noteId: string, suppressTableRefresh: bool)
    | GetAllSheetNotesRequest(sheetIndex: int)
    | OpenEditorRequest
    | ShowToastNotificationRequest(title: string, message: string, notificationType: NotificationType)
    | RefreshNoteTablesRequest(sheetIndex: int)
    | UpdateCustomNoteRequest(sheetIndex: int, noteId: string, newNoteText: string, toggleSubNote: bool,
                              suppressTableRefresh: bool)

  /** The host method name an operation looks up (`nameof` of the operation). */
  function OperationName(r: Request): string
  {
    match r
    case AddCustomNoteRequest(_, _, _, _, _, _) => "AddCustomNote"
    case DeleteCustomNoteRequest(_, _, _) => "DeleteCustomNote"
    case GetAllSheetNotesRequest(_) => "GetAllSheetNotes"
    case OpenEditorRequest => "OpenEditor"
    case ShowToastNotificationRequest(_, _, _) => "ShowToastNotification"
    case RefreshNoteTablesRequest(_) => "RefreshNoteTables"
    case UpdateCustomNoteRequest(_, _, _, _, _) => "UpdateCustomNote"
  }

  /** The positional argument array an operation passes to `Invoke`. The
      toast passes its notification type as the enum's ordinal; `OpenEditor`
      passes a null array, which binds no parameters. */
  function Parameters(r: Request): (args: seq<Arg>)
    ensures BindParameters(OperationName(r), args) == NonNull(r)
  {
    match r
    case AddCustomNoteRequest(sheetIndex, noteText, noteIndex, subNote, parentId, suppressTableRefresh) =>
      [IntArg(sheetIndex), StringArg(noteText), IntArg(noteIndex), BoolArg(subNote),
       StringArg(parentId), BoolArg(suppressTableRefresh)]
    case DeleteCustomNoteRequest(sheetIndex, noteId, suppressTableRefresh) =>
      [IntArg(sheetIndex), StringArg(noteId), BoolArg(suppressTableRefresh)]
    case GetAllSheetNotesRequest(sheetIndex) => [IntArg(sheetIndex)]
    case OpenEditorRequest => []
    case ShowToastNotificationRequest(title, message, notificationType) =>
      [StringArg(title), StringArg(message), IntArg(NotificationOrdinal(notificationType))]
    case RefreshNoteTablesRequest(sheetIndex) => [IntArg(sheetIndex)]
    case UpdateCustomNoteRequest(sheetIndex, noteId, newNoteText, toggleSubNote, suppressTableRefresh) =>
      [IntArg(sheetIndex), StringArg(noteId), StringArg(newNoteText), BoolArg(toggleSubNote),
       BoolArg(suppressTableRefresh)]
  }

  /** How a host method with the façade's own signature binds an argument
      array: position by position, reading the toast's third argument as a
      `NotificationType` ordinal. Null when the array does not fit. */
  function BindParameters(name: string, args: seq<Arg>): Nullable<Request>
  {
    if name == "AddCustomNote" && |args| == 6 && args[0].IntArg? && args[1].StringArg? && args[2].IntArg?
       && args[3].BoolArg? && args[4].StringArg? && args[5].BoolArg? then
      NonNull(AddCustomNoteRequest(args[0].i, args[1].s, args[2].i, args[3].b, args[4].s, args[5].b))
    else if name == "DeleteCustomNote" && |args| == 3 && args[0].IntArg? && args[1].StringArg? && args[2].BoolArg? then
      NonNull(DeleteCustomNoteRequest(args[0].i, args[1].s, args[2].b))
    else if name == "GetAllSheetNotes" && |args| == 1 && args[0].IntArg? then
      NonNull(GetAllSheetNotesRequest(args[0].i))
    else if name == "OpenEditor" && |args| == 0 then
      NonNull(OpenEditorRequest)
    else if name == "ShowToastNotification" && |args| == 3 && args[0].StringArg? && args[1].StringArg?
            && args[2].IntArg? && NotificationFromOrdinal(args[2].i).NonNull? then
      NonNull(ShowToastNotificationRequest(args[0].s, args[1].s, NotificationFromOrdinal(args[2].i).value))
    else if name == "RefreshNoteTables" && |args| == 1 && args[0].IntArg? then
      NonNull(RefreshNoteTablesRequest(args[0].i))
    else if name == "UpdateCustomNote" && |args| == 5 && args[0].IntArg? && args[1].StringArg? && args[2].StringArg?
            && args[3].BoolArg? && args[4].BoolArg? then
      NonNull(UpdateCustomNoteRequest(args[0].i, args[1].s, args[2].s, args[3].b, args[4].b))
    else
      Null
  }

  /** Arguments keep their declared positions: binding what a call passes
      recovers exactly the call, and a successful binding accepts only
      the array that call would pass. */
  lemma ParametersBindPositionally(r: Request, name: string, args: seq<Arg>)
    ensures BindParameters(OperationName(r), Parameters(r)) == NonNull(r)
    ensures BindParameters(name, args) == NonNull(r) ==> name == OperationName(r) && args == Parameters(r)
  {
    if r.ShowToastNotificationRequest? {
      NotificationOrdinalRoundTrip(r.notificationType);
    }
    if BindParameters(name, args) == NonNull(r) {
      if r.ShowToastNotificationRequest? {
        NotificationOrdinalRange(args[2].i);
      }
    }
  }

  // Each result-returning operation takes the trace of everything the adapter
  // has done so far. The host observes only its `Invoke` events (a lookup
  // searches the adapter's own table), and those invocations are all its
  // answer may depend on besides the method and the arguments.

  /** Add a custom note (a sub-note when `subNote` is set, which needs a
      parent id). */
  function AddCustomNote(a: Addin, history: Trace, sheetIndex: int, noteText: string, noteIndex: int := -1,
                         subNote: bool := false, parentId: string := "",
                         suppressTableRefresh: bool := false): (o: Outcome<AddCustomNoteResult>)
    ensures subNote && parentId == "" ==>
      && o.trace == []
      && o.result == AddCustomNoteResult(false, NonNull(ParentIdRequiredMessage), Null)
    ensures !(subNote && parentId == "") ==>
      FollowsProtocol(a.methods, history, "AddCustomNote",
                      [IntArg(sheetIndex), StringArg(noteText), IntArg(noteIndex), BoolArg(subNote),
                       StringArg(parentId), BoolArg(suppressTableRefresh)],
                      a.versaNoteObject.addCustomNote,
                      AddCustomNoteResult(false, NonNull(NotFoundMessage("AddCustomNote")), Null), o)
  {
    if subNote && parentId == "" then
      Outcome(AddCustomNoteResult(false, NonNull(ParentIdRequiredMessage), Null), [])
    else
      var r := AddCustomNoteRequest(sheetIndex, noteText, noteIndex, subNote, parentId, suppressTableRefresh);
      Call(a, history, OperationName(r), Parameters(r), a.versaNoteObject.addCustomNote,
           AddCustomNoteResult(false, NonNull(NotFoundMessage(OperationName(r))), Null))
  }

  /** Delete a custom note. Whether the note is custom is left to the host. */
  function DeleteCustomNote(a: Addin, history: Trace, sheetIndex: int, noteId: string,
                            suppressTableRefresh: bool := false): (o: Outcome<DeleteCustomNoteResult>)
    ensures FollowsProtocol(a.methods, history, "DeleteCustomNote",
                            [IntArg(sheetIndex), StringArg(noteId), BoolArg(suppressTableRefresh)],
                            a.versaNoteObject.deleteCustomNote,
                            DeleteCustomNoteResult(false, NonNull(NotFoundMessage("DeleteCustomNote"))), o)
  {
    var r := DeleteCustomNoteRequest(sheetIndex, noteId, suppressTableRefresh);
    Call(a, history, OperationName(r), Parameters(r), a.versaNoteObject.deleteCustomNote,
         DeleteCustomNoteResult(false, NonNull(NotFoundMessage(OperationName(r)))))
  }

  /** List the notes of a sheet. */
  function GetAllSheetNotes(a: Addin, history: Trace, sheetIndex: int): (o: Outcome<GetSheetNotesResult>)
    ensures FollowsProtocol(a.methods, history, "GetAllSheetNotes", [IntArg(sheetIndex)],
                            a.versaNoteObject.getAllSheetNotes,
                            GetSheetNotesResult(false, NonNull(NotFoundMessage("GetAllSheetNotes")), Null), o)
  {
    var r := GetAllSheetNotesRequest(sheetIndex);
    Call(a, history, OperationName(r), Parameters(r), a.versaNoteObject.getAllSheetNotes,
         GetSheetNotesResult(false, NonNull(NotFoundMessage(OperationName(r))), Null))
  }

  /** Open the host's note editor, or do nothing if the host cannot. */
  function OpenEditor(a: Addin): (t: Trace)
    ensures FollowsVoidProtocol(a.methods, "OpenEditor", [], t)
  {
    var r := OpenEditorRequest;
    CallVoid(a, OperationName(r), Parameters(r))
  }

  /** Show a toast, handing the host the notification type's ordinal, or do
      nothing if the host cannot. */
  function ShowToastNotification(a: Addin, title: string, message: string,
                                 notificationType: NotificationType): (t: Trace)
    ensures FollowsVoidProtocol(a.methods, "ShowToastNotification",
                                [StringArg(title), StringArg(message), IntArg(NotificationOrdinal(notificationType))], t)
  {
    var r := ShowToastNotificationRequest(title, message, notificationType);
    CallVoid(a, OperationName(r), Parameters(r))
  }

  /** Re-render the note tables of a sheet. */
  function RefreshNoteTables(a: Addin, history: Trace, sheetIndex: int): (o: Outcome<RefreshNoteTablesResult>)
    ensures FollowsProtocol(a.methods, history, "RefreshNoteTables", [IntArg(sheetIndex)],
                            a.versaNoteObject.refreshNoteTables,
                            CommitNoteUpdatesResult(false, NonNull(NotFoundMessage("RefreshNoteTables"))), o)
  {
    var r := RefreshNoteTablesRequest(sheetIndex);
    Call(a, history, OperationName(r), Parameters(r), a.versaNoteObject.refreshNoteTables,
         CommitNoteUpdatesResult(false, NonNull(NotFoundMessage(OperationName(r)))))
  }

  /** Change a custom note's text, optionally toggling its indentation. */
  function UpdateCustomNote(a: Addin, history: Trace, sheetIndex: int, noteId: string, newNoteText: string,
                            toggleSubNote: bool := false,
                            suppressTableRefresh: bool := false): (o: Outcome<UpdatedCustomNoteResult>)
    ensures FollowsProtocol(a.methods, history, "UpdateCustomNote",
                            [IntArg(sheetIndex), StringArg(noteId), StringArg(newNoteText), BoolArg(toggleSubNote),
                             BoolArg(suppressTableRefresh)],
                            a.versaNoteObject.updateCustomNote,
                            UpdatedCustomNoteResult(false, NonNull(NotFoundMessage("UpdateCustomNote"))), o)
  {
    var r := UpdateCustomNoteRequest(sheetIndex, noteId, newNoteText, toggleSubNote, suppressTableRefresh);
    Call(a, history, OperationName(r), Parameters(r), a.versaNoteObject.updateCustomNote,
         UpdatedCustomNoteResult(false, NonNull(NotFoundMessage(OperationName(r)))))
  }

  /** What a façade call hands back to its caller; `NoResponse` for `void`. */
  datatype Response =
    | AddCustomNoteResponse(added: AddCustomNoteResult)
    | DeleteCustomNoteResponse(deleted: DeleteCustomNoteResult)
    | GetAllSheetNotesResponse(listed: GetSheetNotesResult)
    | RefreshNoteTablesResponse(refreshed: RefreshNoteTablesResult)
    | UpdateCustomNoteResponse(updated: UpdatedCustomNoteResult)
    | NoResponse
  {
    /** Whether the caller sees a failure (`Success == false`). */
    predicate Failed()
    {
      match this
      case AddCustomNoteResponse(x) => !x.success
      case DeleteCustomNoteResponse(x) => !x.success
      case GetAllSheetNotesResponse(x) => !x.success
      case RefreshNoteTablesResponse(x) => !x.success
      case UpdateCustomNoteResponse(x) => !x.success
      case NoResponse => false
    }

    function Message(): Nullable<string>
    {
      match this
      case AddCustomNoteResponse(x) => x.message
      case DeleteCustomNoteResponse(x) => x.message
      case GetAllSheetNotesResponse(x) => x.message
      case RefreshNoteTablesResponse(x) => x.message
      case UpdateCustomNoteResponse(x) => x.message
      case NoResponse => Null
    }
  }

  /** The only precondition the façade checks itself. */
  predicate PreconditionFails(r: Request)
  {
    r.AddCustomNoteRequest? && r.subNote && r.parentId == ""
  }

  /** Serve one request through the matching façade operation, with the host
      having already received the invocations in `history`. */
  function Handle(a: Addin, history: Trace, r: Request): Outcome<Response>
  {
    match r
    case AddCustomNoteRequest(sheetIndex, noteText, noteIndex, subNote, parentId, suppressTableRefresh) =>
      var o := AddCustomNote(a, history, sheetIndex, noteText, noteIndex, subNote, parentId, suppressTableRefresh);
      Outcome(AddCustomNoteResponse(o.result), o.trace)
    case DeleteCustomNoteRequest(sheetIndex, noteId, suppressTableRefresh) =>
      var o := DeleteCustomNote(a, history, sheetIndex, noteId, suppressTableRefresh);
      Outcome(DeleteCustomNoteResponse(o.result), o.trace)
    case GetAllSheetNotesRequest(sheetIndex) =>
      var o := GetAllSheetNotes(a, history, sheetIndex);
      Outcome(GetAllSheetNotesResponse(o.result), o.trace)
    case OpenEditorRequest =>
      Outcome(NoResponse, OpenEditor(a))
    case ShowToastNotificationRequest(title, message, notificationType) =>
      Outcome(NoResponse, ShowToastNotification(a, title, message, notificationType))
    case RefreshNoteTablesRequest(sheetIndex) =>
      var o := RefreshNoteTables(a, history, sheetIndex);
      Outcome(RefreshNoteTablesResponse(o.result), o.trace)
    case UpdateCustomNoteRequest(sheetIndex, noteId, newNoteText, toggleSubNote, suppressTableRefresh) =>
      var o := UpdateCustomNote(a, history, sheetIndex, noteId, newNoteText, toggleSubNote, suppressTableRefresh);
      Outcome(UpdateCustomNoteResponse(o.result), o.trace)
  }

  /** A failed precondition answers before the host is consulted at all, the
      same way whatever the host is, whatever state it is in, and whether or
      not it has the method. */
  lemma PreconditionShortCircuits(a: Addin, b: Addin, h1: Trace, h2: Trace, r: Request)
    requires PreconditionFails(r)
    ensures Handle(a, h1, r).trace == []
    ensures Handle(a, h1, r).result == Handle(b, h2, r).result
            == AddCustomNoteResponse(AddCustomNoteResult(false, NonNull(ParentIdRequiredMessage), Null))
  {
  }

  /** With its optional arguments left at their defaults, `AddCustomNote`
      never trips its precondition and hands the host the sentinel -1
      (append at the end), `false`, `""` and `false`. */
  lemma DefaultsNeverTripPrecondition(a: Addin, history: Trace, sheetIndex: int, noteText: string)
    ensures FollowsProtocol(a.methods, history, "AddCustomNote",
                            [IntArg(sheetIndex), StringArg(noteText), IntArg(-1), BoolArg(false),
                             StringArg(""), BoolArg(false)],
                            a.versaNoteObject.addCustomNote,
                            AddCustomNoteResult(false, NonNull(NotFoundMessage("AddCustomNote")), Null),
                            AddCustomNote(a, history, sheetIndex, noteText))
  {
  }

  /** An operation the host lacks is reported, never invoked: result-returning
      operations fail with the not-found message and null payload, `void`
      ones return nothing and report no failure. */
  lemma AbsentOperationIsReportedNotInvoked(a: Addin, history: Trace, r: Request)
    requires NoneNamed(a.methods, OperationName(r))
    requires !PreconditionFails(r)
    ensures Handle(a, history, r).trace == [Lookup(OperationName(r))]
    ensures r.OpenEditorRequest? || r.ShowToastNotificationRequest? <==> Handle(a, history, r).result == NoResponse
    ensures Handle(a, history, r).result != NoResponse ==>
              && Handle(a, history, r).result.Failed()
              && Handle(a, history, r).result.Message() == NonNull(NotFoundMessage(OperationName(r)))
    ensures Handle(a, history, r).result.AddCustomNoteResponse? ==> Handle(a, history, r).result.added.noteId.Null?
    ensures Handle(a, history, r).result.GetAllSheetNotesResponse? ==> Handle(a, history, r).result.listed.notes.Null?
  {
  }

  /** A host exposing no method of any façade operation's name (it may still
      expose `ToString`, `GetType` and the like) yields a working adapter;
      every call on it only looks up, and every result-returning call fails. */
  lemma NoFacadeMethodReportsEveryOperationUnsupported(host: HostObject, history: Trace, r: Request)
    requires forall q: Request :: NoneNamed(host.publicInstanceMethods, OperationName(q))
    ensures forall e :: e in Handle(NewAddin(host), history, r).trace ==> e.Lookup?
    ensures Handle(NewAddin(host), history, r).result.Failed()
        <==> !(r.OpenEditorRequest? || r.ShowToastNotificationRequest?)
  {
    if !PreconditionFails(r) {
      AbsentOperationIsReportedNotInvoked(NewAddin(host), history, r);
    }
  }

  /** When the host has the method, the caller gets the host's own result,
      unchanged field for field, from the first method of that name. */
  lemma FoundResultPassesThrough(a: Addin, history: Trace, r: Request, i: nat)
    requires !PreconditionFails(r)
    requires IsFirstNamed(a.methods, OperationName(r), i)
    ensures Handle(a, history, r).trace == [Lookup(OperationName(r)), Invoke(a.methods[i], Parameters(r))]
    ensures r.AddCustomNoteRequest? ==>
              Handle(a, history, r).result
              == AddCustomNoteResponse(a.versaNoteObject.addCustomNote(Invocations(history), a.methods[i], Parameters(r)))
    ensures r.DeleteCustomNoteRequest? ==>
              Handle(a, history, r).result
              == DeleteCustomNoteResponse(a.versaNoteObject.deleteCustomNote(Invocations(history), a.methods[i], Parameters(r)))
    ensures r.GetAllSheetNotesRequest? ==>
              Handle(a, history, r).result
              == GetAllSheetNotesResponse(a.versaNoteObject.getAllSheetNotes(Invocations(history), a.methods[i], Parameters(r)))
    ensures r.RefreshNoteTablesRequest? ==>
              Handle(a, history, r).result
              == RefreshNoteTablesResponse(a.versaNoteObject.refreshNoteTables(Invocations(history), a.methods[i], Parameters(r)))
    ensures r.UpdateCustomNoteRequest? ==>
              Handle(a, history, r).result
              == UpdateCustomNoteResponse(a.versaNoteObject.updateCustomNote(Invocations(history), a.methods[i], Parameters(r)))
  {
    var name := OperationName(r);
    forall j | IsFirstNamed(a.methods, name, j)
      ensures j == i
    {
      FirstNamedIsUnique(a.methods, name, i, j);
    }
  }

  /** Lookups never reach the host: appending lookup-only events to the
      adapter's trace changes nothing about any later call. */
  lemma LookupsAreInvisibleToHost(a: Addin, history: Trace, lookups: Trace, r: Request)
    requires forall e :: e in lookups ==> e.Lookup?
    ensures Handle(a, history + lookups, r) == Handle(a, history, r)
  {
    InvocationsOfConcat(history, lookups);
    LookupsHaveNoInvocations(lookups);
    assert Invocations(history + lookups) == Invocations(history);
  }

  /** A call whose method the host lacks leaves the host as it was: every
      later call gets the answer it would have got without it. */
  lemma UnsupportedCallLeavesHostUnchanged(a: Addin, history: Trace, absent: Request, later: Request)
    requires NoneNamed(a.methods, OperationName(absent))
    ensures Handle(a, history + Handle(a, history, absent).trace, later) == Handle(a, history, later)
  {
    if !PreconditionFails(absent) {
      AbsentOperationIsReportedNotInvoked(a, history, absent);
    }
    LookupsAreInvisibleToHost(a, history, Handle(a, history, absent).trace, later);
  }

  /** Which method is looked up and invoked, and with which arguments, never
      depends on the host's state: only the answers do. */
  lemma DispatchIgnoresHostState(a: Addin, h1: Trace, h2: Trace, r: Request)
    ensures Handle(a, h1, r).trace == Handle(a, h2, r).trace
  {
  }

  /** A host that records the append sentinel and answers
      `{Success: true, Message: "", NoteId: "5"}`: the caller gets exactly
      that answer back from `AddCustomNote(1, "Draft")`. */
  lemma DefaultAppendScenario()
    ensures var m := MethodInfo("AddCustomNote", ["Int32", "String", "Int32", "Boolean", "String", "Boolean"]);
            var stub := HostObject(
              [m],
              (h: Trace, x: MethodInfo, args: seq<Arg>) =>
                if |args| == 6 && args[2] == IntArg(-1) then AddCustomNoteResult(true, NonNull(""), NonNull("5"))
                else AddCustomNoteResult(false, Null, Null),
              (h: Trace, x: MethodInfo, args: seq<Arg>) => DeleteCustomNoteResult(false, Null),
              (h: Trace, x: MethodInfo, args: seq<Arg>) => GetSheetNotesResult(false, Null, Null),
              (h: Trace, x: MethodInfo, args: seq<Arg>) => CommitNoteUpdatesResult(false, Null),
              (h: Trace, x: MethodInfo, args: seq<Arg>) => UpdatedCustomNoteResult(false, Null));
            AddCustomNote(NewAddin(stub), [], 1, "Draft")
              == Outcome(AddCustomNoteResult(true, NonNull(""), NonNull("5")),
                         [Lookup("AddCustomNote"),
                          Invoke(m, [IntArg(1), StringArg("Draft"), IntArg(-1), BoolArg(false), StringArg(""), BoolArg(false)])])
  {
    var m := MethodInfo("AddCustomNote", ["Int32", "String", "Int32", "Boolean", "String", "Boolean"]);
    assert IsFirstNamed([m], "AddCustomNote", 0);
  }

  /** The façade passes a stateful host's answers through as they come: a
      host that numbers new notes by how many invocations it has seen gives
      the second of two identical `AddCustomNote` calls a different id. */
  lemma RepeatedAddPassesFreshIds()
    ensures var m := MethodInfo("AddCustomNote", ["Int32", "String", "Int32", "Boolean", "String", "Boolean"]);
            var stub := HostObject(
              [m],
              (h: Trace, x: MethodInfo, args: seq<Arg>) =>
                AddCustomNoteResult(true, NonNull(""), NonNull(if |h| == 0 then "1" else "2")),
              (h: Trace, x: MethodInfo, args: seq<Arg>) => DeleteCustomNoteResult(false, Null),
              (h: Trace, x: MethodInfo, args: seq<Arg>) => GetSheetNotesResult(false, Null, Null),
              (h: Trace, x: MethodInfo, args: seq<Arg>) => CommitNoteUpdatesResult(false, Null),
              (h: Trace, x: MethodInfo, args: seq<Arg>) => UpdatedCustomNoteResult(false, Null));
            var first := AddCustomNote(NewAddin(stub), [], 1, "x");
            var second := AddCustomNote(NewAddin(stub), first.trace, 1, "x");
            && first.result.noteId == NonNull("1")
            && second.result.noteId == NonNull("2")
            && first.trace == second.trace
  {
    var m := MethodInfo("AddCustomNote", ["Int32", "String", "Int32", "Boolean", "String", "Boolean"]);
    assert IsFirstNamed([m], "AddCustomNote", 0);
  }

  /** Everything a sequence of calls did, in order; the host's history after
      them is its `Invoke` events. */
  function SessionHistory(outcomes: seq<Outcome<Response>>): Trace
  {
    if |outcomes| == 0 then []
    else SessionHistory(outcomes[..|outcomes| - 1]) + outcomes[|outcomes| - 1].trace
  }

  /** `outcomes` are the first `|outcomes|` requests served in order by
      `serve`: each one answered after every invocation made before it. */
  ghost predicate ServedInOrder(serve: (Trace, Request) -> Outcome<Response>, requests: seq<Request>,
                                outcomes: seq<Outcome<Response>>)
  {
    && |outcomes| <= |requests|
    && forall k :: 0 <= k < |outcomes| ==> outcomes[k] == serve(SessionHistory(outcomes[..k]), requests[k])
  }

  /** Serving the next request keeps the session in order. */
  lemma ServedInOrderExtends(serve: (Trace, Request) -> Outcome<Response>, requests: seq<Request>,
                             outcomes: seq<Outcome<Response>>)
    requires ServedInOrder(serve, requests, outcomes)
    requires |outcomes| < |requests|
    ensures ServedInOrder(serve, requests, outcomes + [serve(SessionHistory(outcomes), requests[|outcomes|])])
  {
    var next := outcomes + [serve(SessionHistory(outcomes), requests[|outcomes|])];
    forall k | 0 <= k < |next|
      ensures next[k] == serve(SessionHistory(next[..k]), requests[k])
    {
      if k < |outcomes| {
        assert next[..k] == outcomes[..k];
      } else {
        assert next[..k] == outcomes;
      }
    }
  }

  /** In a session served in order, every request is dispatched as it would
      be alone on a fresh host. */
  lemma ServedInOrderDispatchesAlone(a: Addin, requests: seq<Request>, outcomes: seq<Outcome<Response>>)
    requires |outcomes| <= |requests|
    requires forall k :: 0 <= k < |outcomes| ==> outcomes[k] == Handle(a, SessionHistory(outcomes[..k]), requests[k])
    ensures forall k :: 0 <= k < |outcomes| ==> outcomes[k].trace == Handle(a, [], requests[k]).trace
  {
    forall k | 0 <= k < |outcomes|
      ensures outcomes[k].trace == Handle(a, [], requests[k]).trace
    {
      DispatchIgnoresHostState(a, SessionHistory(outcomes[..k]), [], requests[k]);
    }
  }

  /** Serve a sequence of requests on one adapter over a host whose state
      evolves with every invocation. The method table is read once, at
      construction, and no call changes it: every request is looked up and
      invoked exactly as the freshly constructed adapter does it for that
      request alone, and each host answer is the one the host gives after
      all the session's earlier invocations. */
  method RunSession(host: HostObject, requests: seq<Request>) returns (outcomes: seq<Outcome<Response>>)
    ensures |outcomes| == |requests|
    ensures forall k :: 0 <= k < |requests| ==> outcomes[k].trace == Handle(NewAddin(host), [], requests[k]).trace
    ensures forall k :: 0 <= k < |requests| ==>
              outcomes[k] == Handle(NewAddin(host), SessionHistory(outcomes[..k]), requests[k])
  {
    var addin := NewAddin(host);
    var serve := (h: Trace, r: Request) => Handle(addin, h, r);
    var history: Trace := [];
    outcomes := [];
    var n := 0;
    while n < |requests|
      invariant 0 <= n <= |requests|
      invariant |outcomes| == n
      invariant history == SessionHistory(outcomes)
      invariant ServedInOrder(serve, requests, outcomes)
    {
      ServedInOrderExtends(serve, requests, outcomes);
      var o := Handle(addin, history, requests[n]);
      outcomes := outcomes + [o];
      history := history + o.trace;
      n := n + 1;
    }
    ServedInOrderDispatchesAlone(addin, requests, outcomes);
  }
}
