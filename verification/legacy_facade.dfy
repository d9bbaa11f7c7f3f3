/** The earlier revision of the façade (VersaNote.Interop/Addin.cs): the same
    constructor and dispatch, with a single operation, a two-argument toast
    that has no notification type. */
module LegacyFacade {
  import opened Nullables
  import opened Enums
  import opened Dispatch
  import Facade

  /** Show a toast with a title and a message, or do nothing if the host has
      no `ShowToastNotification`. */
  function ShowToastNotification(a: Addin, title: string, message: string): (t: Trace)
    ensures FollowsVoidProtocol(a.methods, "ShowToastNotification", [StringArg(title), StringArg(message)], t)
  {
    CallVoid(a, "ShowToastNotification", [StringArg(title), StringArg(message)])
  }

  /** How a host method of the older two-parameter signature binds the
      argument array. */
  function BindToast(args: seq<Arg>): Nullable<(string, string)>
  {
    if |args| == 2 && args[0].StringArg? && args[1].StringArg? then NonNull((args[0].s, args[1].s))
    else Null
  }

  /** A found method receives exactly `[title, message]`, in that order; an
      absent one costs one lookup and nothing else. */
  lemma ToastPassesTitleThenMessage(a: Addin, title: string, message: string)
    ensures |ShowToastNotification(a, title, message)| == 2 ==>
      && ShowToastNotification(a, title, message)[1].Invoke?
      && ShowToastNotification(a, title, message)[1].target.name == "ShowToastNotification"
      && BindToast(ShowToastNotification(a, title, message)[1].args) == NonNull((title, message))
    ensures NoneNamed(a.methods, "ShowToastNotification") <==>
      ShowToastNotification(a, title, message) == [Lookup("ShowToastNotification")]
  {
  }

  /** Both revisions pick the same host method and agree on the first two
      arguments; the current one only appends the notification ordinal. */
  lemma RevisionsAgreeOnTarget(a: Addin, title: string, message: string, notificationType: NotificationType)
    ensures var current := Facade.ShowToastNotification(a, title, message, notificationType);
            var older := ShowToastNotification(a, title, message);
            && |current| == |older|
            && current[0] == older[0]
            && (|older| == 2 ==>
                  && current[1].target == older[1].target
                  && current[1].args == older[1].args + [IntArg(NotificationOrdinal(notificationType))])
  {
    var current := Facade.ShowToastNotification(a, title, message, notificationType);
    var older := ShowToastNotification(a, title, message);
    if |older| == 2 {
      var i :| IsFirstNamed(a.methods, "ShowToastNotification", i) && older[1] == Invoke(a.methods[i], [StringArg(title), StringArg(message)]);
      var j :| IsFirstNamed(a.methods, "ShowToastNotification", j)
               && current[1] == Invoke(a.methods[j], [StringArg(title), StringArg(message), IntArg(NotificationOrdinal(notificationType))]);
      FirstNamedIsUnique(a.methods, "ShowToastNotification", i, j);
    }
  }
}
