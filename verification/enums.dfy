/** The value types shared by the façade and the host: the two enumerations,
    the note record and the per-operation result structs (Enums.cs). */
module Enums {
  import opened Nullables

  /** Toast severity. A C# enum without explicit values: its members take the
      ordinals 0, 1, 2, ... in declaration order. */
  datatype NotificationType = None | Information | Success | Warning | Error | Notification

  /** The underlying integer of a `NotificationType`, i.e. `(int)t`. */
  function NotificationOrdinal(t: NotificationType): (n: int)
    ensures 0 <= n <= 5
  {
    match t
    case None => 0
    case Information => 1
    case Success => 2
    case Warning => 3
    case Error => 4
    case Notification => 5
  }

  /** How a receiver reads an ordinal back: the member declared at position
      `n`, or null when `n` names no declared member. */
  function NotificationFromOrdinal(n: int): (r: Nullable<NotificationType>)
    ensures r.NonNull? <==> 0 <= n <= 5
  {
    if n == 0 then NonNull(None)
    else if n == 1 then NonNull(Information)
    else if n == 2 then NonNull(Success)
    else if n == 3 then NonNull(Warning)
    else if n == 4 then NonNull(Error)
    else if n == 5 then NonNull(Notification)
    else Null
  }

  /** Declaration order fixes the ordinals. */
  lemma NotificationOrdinalsFollowDeclarationOrder()
    ensures NotificationOrdinal(None) == 0
    ensures NotificationOrdinal(Information) == 1
    ensures NotificationOrdinal(Success) == 2
    ensures NotificationOrdinal(Warning) == 3
    ensures NotificationOrdinal(Error) == 4
    ensures NotificationOrdinal(Notification) == 5
  {
  }

  /** enum -> int -> enum is the identity, so the ordinal loses nothing. */
  lemma NotificationOrdinalRoundTrip(t: NotificationType)
    ensures NotificationFromOrdinal(NotificationOrdinal(t)) == NonNull(t)
  {
  }

  /** int -> enum -> int is the identity on exactly the range 0..5. */
  lemma NotificationOrdinalRange(n: int)
    ensures (exists t :: NotificationOrdinal(t) == n) <==> 0 <= n <= 5
    ensures 0 <= n <= 5 ==> NotificationOrdinal(NotificationFromOrdinal(n).value) == n
  {
    if 0 <= n <= 5 {
      var t := NotificationFromOrdinal(n).value;
      assert NotificationOrdinal(t) == n;
    }
  }

  /** Distinct members never share an ordinal. */
  lemma NotificationOrdinalInjective(s: NotificationType, t: NotificationType)
    ensures NotificationOrdinal(s) == NotificationOrdinal(t) ==> s == t
  {
    NotificationOrdinalRoundTrip(s);
    NotificationOrdinalRoundTrip(t);
  }

  /** The kind of a note. It reaches the façade only inside a `Note` that the
      host returns, and is passed on unchanged, so no conversion is modelled. */
  datatype NoteType = Custom | Template | NewColumn

  /** One note on a sheet, as the host reports it. */
  datatype Note = Note(noteType: NoteType, id: Nullable<string>, text: Nullable<string>, indented: bool)

  /** Every result struct carries `Success` and `Message`; only the add result
      carries a `NoteId` and only the sheet-notes result carries `Notes`. A
      field the façade does not set keeps its C# default: `false` or null. */
  datatype CommitNoteUpdatesResult = CommitNoteUpdatesResult(success: bool, message: Nullable<string>)

  datatype DeleteCustomNoteResult = DeleteCustomNoteResult(success: bool, message: Nullable<string>)

  datatype AddCustomNoteResult = AddCustomNoteResult(success: bool, message: Nullable<string>, noteId: Nullable<string>)

  datatype GetSheetNotesResult = GetSheetNotesResult(success: bool, message: Nullable<string>, notes: Nullable<seq<Note>>)

  datatype UpdatedCustomNoteResult = UpdatedCustomNoteResult(success: bool, message: Nullable<string>)

  /** `RefreshNoteTables` returns a `RefreshNoteTablesResult`, which Enums.cs
      does not define; it is taken to be the renamed `CommitNoteUpdatesResult`
      (same two fields). */
  type RefreshNoteTablesResult = CommitNoteUpdatesResult
}
