/**
 * Whether an answer from the server is one to the request an attempt sent
 * (packages/resource-replica/src/resource-namespace.ts:241-303, resource-records.ts:87-102).
 */
module Answers {
  import opened Journal
  import opened Records
  import opened Wrappers

  predicate SameParent(a: ParentRef, b: ParentRef) {
    match (a, b)
    case (FolderParent(left), FolderParent(right)) => left == right
    case (RootParent(scheme, owner), RootParent(scheme', owner')) => scheme == scheme' && SameOwnerIds(owner, owner')
    case _ => false
  }

  predicate SameNewParent(a: Option<NewParent>, b: Option<NewParent>) {
    if a.None? || b.None? then a == b
    else a.value.createFolders == b.value.createFolders && SameParent(a.value.parent, b.value.parent)
  }

  /** Whether an answer is one to this attempt, in every detail the request fixed. */
  predicate AnswersAttempt(attempt: Attempt, outcome: Outcome) {
    match (outcome, attempt.request)
    case (Refusal(requestId, retryable), _) => requestId == RequestId(attempt.request) && !retryable
    case (Created(status, documentId), CreateRequest(sent, _)) => status.Accepted? ==> documentId == sent
    case (FolderCreated(conflict, folderId, _, _, _), CreateFolderRequest(_, sent, _)) => conflict || folderId == sent
    case (Operation(receipt), MoveRequest(entry, operationId, newParent, name, position)) =>
      && receipt.operationId == operationId && receipt.command.MoveCommand? && receipt.command.expected == entry
      && SameNewParent(receipt.command.newParent, newParent) && receipt.command.position == position
      && receipt.command.name == name
    case (Operation(receipt), DeleteRequest(entry, operationId)) =>
      receipt.operationId == operationId && receipt.command.DeleteCommand? && receipt.command.expected == entry
    case (Operation(receipt), CopyRequest(_, operationId, sources, _, parent, position)) =>
      && receipt.operationId == operationId && receipt.command.CopyCommand? && |receipt.command.sources| == |sources|
      && (forall i :: 0 <= i < |sources| ==> sources[i].copied == receipt.command.sources[i])
      && SameParent(receipt.command.parent, parent) && receipt.command.position == position
    case _ => false
  }

  /** An answer the recorder takes is one the journal rule takes. */
  lemma RecordedAnswersMatch(attempt: Attempt, outcome: Outcome)
    requires AnswersAttempt(attempt, outcome)
    ensures OutcomeMatches(attempt.(outcome := Some(outcome)))
  {
  }
}
