/**
 * Editing and deleting a comment: only its author may, and the checks run in
 * the order 401 (no user), 400 (malformed id or body), 404 (no such
 * comment), 403 (someone else's comment).
 */
module CommentController {
  import opened Wrappers
  import opened Errors
  import opened Records
  import opened Http
  import opened Query
  import opened Database

  /** The validated update body: `content` may be left out. */
  datatype CommentPatch = CommentPatch(content: Option<string>)

  const CommentOwnerOnly := "Should be the owner of the comment"

  function UpdateOfComment(p: CommentPatch): CommentUpdate {
    CommentUpdate(p.content)
  }

  function UpdateCommentOutcome(t: Tables, callerId: CallerId, idParam: Result<int, string>,
                                body: Result<CommentPatch, string>): (o: Outcome)
    ensures callerId.None? ==> o == Outcome(Err(Unauthenticated), t)
    ensures callerId.Some? && idParam.Err? ==> o == Outcome(Err(StructError(idParam.error)), t)
    ensures callerId.Some? && idParam.Ok? && body.Err? ==> o == Outcome(Err(StructError(body.error)), t)
    ensures o.result.Err? ==> o.after == t
    ensures callerId.Some? && idParam.Ok? && body.Ok? && (forall c :: c in t.comments ==> c.id != idParam.value) ==>
              o.result == Err(Raised(NotFoundError("comment", idParam.value)))
    ensures o.result == Err(Raised(ForbiddenError(CommentOwnerOnly))) ==>
              exists c :: c in t.comments && c.id == idParam.value && c.userId != callerId.value
    ensures o.result.Ok? ==>
              exists c :: c in t.comments && c.id == idParam.value && c.userId == callerId.value
                && o.result.value == Response(200, CommentBody(ApplyCommentUpdate(c, UpdateOfComment(body.value))))
                && o.after == t.(comments := ReplaceWhere(t.comments, CommentWithId(c.id),
                                                         ApplyCommentUpdate(c, UpdateOfComment(body.value))))
  {
    if callerId.None? then Outcome(Err(Unauthenticated), t)
    else if idParam.Err? then Outcome(Err(StructError(idParam.error)), t)
    else if body.Err? then Outcome(Err(StructError(body.error)), t)
    else
      var existing := First(t.comments, CommentWithId(idParam.value));
      if existing.None? then Outcome(Err(Raised(NotFoundError("comment", idParam.value))), t)
      else if existing.value.userId != callerId.value then Outcome(Err(Raised(ForbiddenError(CommentOwnerOnly))), t)
      else
        var c := ApplyCommentUpdate(existing.value, UpdateOfComment(body.value));
        Outcome(Ok(Response(200, CommentBody(c))), t.(comments := ReplaceWhere(t.comments, CommentWithId(idParam.value), c)))
  }

  /**
   * With distinct comment ids, an edit by a signed-in caller with valid input
   * succeeds exactly when the caller wrote the comment, and is refused exactly
   * when someone else did.
   */
  lemma UpdateCommentDecision(t: Tables, callerId: int, id: int, patch: CommentPatch)
    requires KeysDistinct(t.comments, CommentIdKey)
    ensures var o := UpdateCommentOutcome(t, Some(callerId), Ok(id), Ok(patch));
            && (o.result.Ok? <==> exists c :: c in t.comments && c.id == id && c.userId == callerId)
            && (o.result == Err(Raised(ForbiddenError(CommentOwnerOnly)))
                <==> exists c :: c in t.comments && c.id == id && c.userId != callerId)
  {
    KeysIdentifyRows(t.comments, CommentIdKey);
  }

  /**
   * A successful edit keeps every other comment and every other table, and
   * in the edited comment changes the content only, and only when it is given.
   */
  lemma UpdateCommentChangesOnlyContent(t: Tables, callerId: CallerId, id: int, patch: CommentPatch)
    requires KeysDistinct(t.comments, CommentIdKey)
    requires UpdateCommentOutcome(t, callerId, Ok(id), Ok(patch)).result.Ok?
    ensures var after := UpdateCommentOutcome(t, callerId, Ok(id), Ok(patch)).after;
            && after.(comments := t.comments) == t
            && |after.comments| == |t.comments|
            && forall i :: 0 <= i < |t.comments| ==>
                 if t.comments[i].id != id then after.comments[i] == t.comments[i]
                 else after.comments[i] == t.comments[i].(content := Overwrite(t.comments[i].content, patch.content))
  {
    var o := UpdateCommentOutcome(t, callerId, Ok(id), Ok(patch));
    var c :| c in t.comments && c.id == id && c.userId == callerId.value
             && o.after == t.(comments := ReplaceWhere(t.comments, CommentWithId(c.id),
                                                       ApplyCommentUpdate(c, UpdateOfComment(patch))));
    KeysIdentifyRows(t.comments, CommentIdKey);
    forall i | 0 <= i < |t.comments| && t.comments[i].id == id ensures t.comments[i] == c {
      assert t.comments[i] in t.comments;
    }
  }

  function DeleteCommentOutcome(t: Tables, callerId: CallerId, idParam: Result<int, string>): (o: Outcome)
    ensures callerId.None? ==> o == Outcome(Err(Unauthenticated), t)
    ensures callerId.Some? && idParam.Err? ==> o == Outcome(Err(StructError(idParam.error)), t)
    ensures o.result.Err? ==> o.after == t
    ensures callerId.Some? && idParam.Ok? && (forall c :: c in t.comments ==> c.id != idParam.value) ==>
              o.result == Err(Raised(NotFoundError("comment", idParam.value)))
    ensures o.result == Err(Raised(ForbiddenError(CommentOwnerOnly))) ==>
              exists c :: c in t.comments && c.id == idParam.value && c.userId != callerId.value
    ensures o.result.Ok? ==>
              && o.result.value == Response(204, NoBody)
              && (exists c :: c in t.comments && c.id == idParam.value && c.userId == callerId.value)
              && o.after == t.(comments := RemoveWhere(t.comments, CommentWithId(idParam.value)))
  {
    if callerId.None? then Outcome(Err(Unauthenticated), t)
    else if idParam.Err? then Outcome(Err(StructError(idParam.error)), t)
    else
      var existing := First(t.comments, CommentWithId(idParam.value));
      if existing.None? then Outcome(Err(Raised(NotFoundError("comment", idParam.value))), t)
      else if existing.value.userId != callerId.value then Outcome(Err(Raised(ForbiddenError(CommentOwnerOnly))), t)
      else Outcome(Ok(Response(204, NoBody)), t.(comments := RemoveWhere(t.comments, CommentWithId(idParam.value))))
  }

  /**
   * With distinct comment ids, a delete by a signed-in caller succeeds (204)
   * exactly when the caller wrote the comment, and is refused (403), changing
   * nothing, exactly when someone else did.
   */
  lemma DeleteCommentDecision(t: Tables, callerId: int, id: int)
    requires KeysDistinct(t.comments, CommentIdKey)
    ensures var o := DeleteCommentOutcome(t, Some(callerId), Ok(id));
            && (o.result.Ok? <==> exists c :: c in t.comments && c.id == id && c.userId == callerId)
            && (o.result == Err(Raised(ForbiddenError(CommentOwnerOnly)))
                <==> exists c :: c in t.comments && c.id == id && c.userId != callerId)
            && (o.result.Err? ==> o.after == t)
  {
    KeysIdentifyRows(t.comments, CommentIdKey);
  }

  /** With distinct ids, a successful delete removes exactly that comment and keeps every other row. */
  lemma DeleteCommentRemovesOne(t: Tables, callerId: CallerId, id: int)
    requires KeysDistinct(t.comments, CommentIdKey)
    requires DeleteCommentOutcome(t, callerId, Ok(id)).result.Ok?
    ensures var after := DeleteCommentOutcome(t, callerId, Ok(id)).after;
            exists c :: c in t.comments && c.id == id && c.userId == callerId.value
              && multiset(after.comments) == multiset(t.comments) - multiset{c}
              && after.(comments := t.comments) == t
  {
    var c :| c in t.comments && c.id == id && c.userId == callerId.value;
    KeysIdentifyRows(t.comments, CommentIdKey);
    RemoveSingle(t.comments, CommentWithId(id), c);
  }

  method UpdateComment(db: Db, callerId: CallerId, idParam: Result<int, string>, body: Result<CommentPatch, string>)
    returns (r: Result<Response, Thrown>)
    requires db.Valid()
    modifies db
    ensures db.Valid()
    ensures Outcome(r, db.State()) == UpdateCommentOutcome(old(db.State()), callerId, idParam, body)
  {
    if callerId.None? {
      return Err(Unauthenticated);
    }
    if idParam.Err? {
      return Err(StructError(idParam.error));
    }
    if body.Err? {
      return Err(StructError(body.error));
    }
    var id := idParam.value;
    var updateData := CommentUpdate(None);
    if body.value.content.Some? {
      updateData := updateData.(content := body.value.content);
    }
    assert updateData == UpdateOfComment(body.value);
    var existing := First(db.comments, CommentWithId(id));
    if existing.None? {
      return Err(Raised(NotFoundError("comment", id)));
    }
    if existing.value.userId != callerId.value {
      return Err(Raised(ForbiddenError(CommentOwnerOnly)));
    }
    var updated := db.UpdateCommentRow(existing.value, updateData);
    return Ok(Response(200, CommentBody(updated)));
  }

  method DeleteComment(db: Db, callerId: CallerId, idParam: Result<int, string>) returns (r: Result<Response, Thrown>)
    requires db.Valid()
    modifies db
    ensures db.Valid()
    ensures Outcome(r, db.State()) == DeleteCommentOutcome(old(db.State()), callerId, idParam)
  {
    if callerId.None? {
      return Err(Unauthenticated);
    }
    if idParam.Err? {
      return Err(StructError(idParam.error));
    }
    var id := idParam.value;
    var existing := First(db.comments, CommentWithId(id));
    if existing.None? {
      return Err(Raised(NotFoundError("comment", id)));
    }
    if existing.value.userId != callerId.value {
      return Err(Raised(ForbiddenError(CommentOwnerOnly)));
    }
    db.DeleteCommentRow(id);
    return Ok(Response(204, NoBody));
  }
}
