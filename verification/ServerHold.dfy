/** What a device knows of the server's row for an id of its own (packages/resource-replica/src/server-hold.ts). */
module ServerHold {
  import opened Journal

  datatype Hold = Local | Uncertain | Held | Spent

  function HoldAfterAttempt(hold: Hold, attempt: Attempt): Hold {
    if !attempt.request.CreateRequest? && !attempt.request.CreateFolderRequest? then hold
    else
      match attempt.outcome
      case None => Uncertain
      case Some(Refusal(_, _)) => Local
      case Some(Operation(_)) => hold
      case Some(Created(status, _)) => if status.Conflict? then Spent else Held
      case Some(FolderCreated(conflict, _, _, _, _)) => if conflict then Spent else Held
  }

  predicate DeleteNeedsServer(hold: Hold) {
    hold.Held? || hold.Uncertain?
  }
}
