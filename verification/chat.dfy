/**
 * The chat repositories: the conversation row mapper and partial update, and the
 * message reader, which selects one of three paged queries and folds the rows of the
 * message ⟕ attachment join into messages with their attachments.
 */
module Chat {
  import opened Wrappers
  import opened Grouping
  import opened SqlUpdate

  datatype ConversationType = Direct | GroupChat

  datatype ConversationRow = ConversationRow(
    id: int,
    kind: ConversationType,
    name: Option<string>,
    description: Option<string>,
    createdAt: Timestamp,
    updatedAt: Timestamp,
    requireMemberApproval: SqlValue)

  /** A participant as the mappers build it; the user record is copied, never inspected. */
  datatype Participant = Participant(userId: int, role: string, joinedAt: Timestamp)

  datatype Conversation = Conversation(
    id: int,
    kind: ConversationType,
    name: Option<string>,
    description: Option<string>,
    createdAt: Timestamp,
    updatedAt: Timestamp,
    requireMemberApproval: bool,
    participants: seq<Participant>)

  /** The conversation a row describes, with the participants fetched for it. */
  function ConversationOf(row: ConversationRow, participants: seq<Participant>): (c: Conversation)
    ensures c.requireMemberApproval <==> row.requireMemberApproval == Int(1)
    ensures c.id == row.id && c.name == row.name && c.description == row.description
    ensures c.kind == row.kind && c.createdAt == row.createdAt && c.updatedAt == row.updatedAt
    ensures c.participants == participants
  {
    Conversation(row.id, row.kind, row.name, row.description, row.createdAt, row.updatedAt,
                 FlagOf(row.requireMemberApproval), participants)
  }

  function ConversationColumns(name: Field<Option<string>>, description: Field<Option<string>>): seq<Column<SqlValue>> {
    [Column("name", name.Map(NullableText)), Column("description", description.Map(NullableText))]
  }

  /** The conversation `update` statement, or the error for an empty update. */
  function ConversationUpdate(conversationId: int, name: Field<Option<string>>, description: Field<Option<string>>)
    : (r: Result<Statement<SqlValue>, UpdateError>)
    ensures r.Err? <==> name.Missing? && description.Missing?
  {
    if name.Missing? && description.Missing? then Err(NothingToUpdate)
    else
      var u := SetAll(Update([], map["conversation_id" := Int(conversationId)]), ConversationColumns(name, description));
      Ok(Statement("UPDATE conversations SET " + Join(u.sets, ", ") + " WHERE id = :conversation_id RETURNING *", u.params))
  }

  /** A successful update assigns `name` then `description`, each only when supplied. */
  lemma ConversationUpdateSql(conversationId: int, name: Field<Option<string>>, description: Field<Option<string>>)
    requires name.Present? || description.Present?
    ensures var r := ConversationUpdate(conversationId, name, description);
      && r.Ok?
      && r.value.sql ==
           "UPDATE conversations SET "
           + Join((if name.Present? then ["name = :name"] else [])
                  + (if description.Present? then ["description = :description"] else []), ", ")
           + " WHERE id = :conversation_id RETURNING *"
  {
    var cs := ConversationColumns(name, description);
    var u0 := Update([], map["conversation_id" := Int(conversationId)]);
    SetAllSets(u0, cs);
    assert cs[..1][..0] == [] && cs[..2] == cs;
    assert Selected(cs[..1]) == [] + (if name.Present? then ["name"] else []);
    assert Selected(cs) == Selected(cs[..1]) + (if description.Present? then ["description"] else []);
    assert [] + ["name"] == ["name"];
    assert Assignment("name") == "name = :name";
    assert Assignment("description") == "description = :description";
  }

  /** A successful update binds `conversation_id` plus exactly the supplied fields. */
  lemma ConversationUpdateParams(conversationId: int, name: Field<Option<string>>, description: Field<Option<string>>)
    requires name.Present? || description.Present?
    ensures var r := ConversationUpdate(conversationId, name, description);
      && r.Ok?
      && r.value.params.Keys ==
           {"conversation_id"} + (if name.Present? then {"name"} else {}) + (if description.Present? then {"description"} else {})
      && r.value.params["conversation_id"] == Int(conversationId)
      && (name.Present? ==> "name" in r.value.params && r.value.params["name"] == NullableText(name.value))
      && (description.Present? ==> "description" in r.value.params && r.value.params["description"] == NullableText(description.value))
  {
    var cs := ConversationColumns(name, description);
    var u0 := Update([], map["conversation_id" := Int(conversationId)]);
    assert cs[..1][..0] == [] && cs[..2] == cs;
    assert SetAll(u0, cs[..1]) == SetIf(u0, cs[0]);
    assert SetAll(u0, cs) == SetIf(SetAll(u0, cs[..1]), cs[1]);
  }

  /** One row of the message ⟕ attachment join; `attachmentId` is None without attachments. */
  datatype MessageRow = MessageRow(
    messageId: int,
    conversationId: int,
    replyToId: Option<int>,
    userId: int,
    content: Option<string>,
    createdAt: Timestamp,
    updatedAt: Timestamp,
    editedAt: Option<Timestamp>,
    attachmentId: Option<int>,
    filename: string,
    contentType: string,
    fileSize: int)

  datatype Attachment = Attachment(id: Option<int>, filename: string, contentType: string, fileSize: int)

  datatype Message = Message(
    id: int,
    conversationId: int,
    replyToId: Option<int>,
    userId: int,
    content: Option<string>,
    createdAt: Timestamp,
    updatedAt: Timestamp,
    editedAt: Option<Timestamp>,
    attachments: seq<Attachment>)

  function AttachmentOf(row: MessageRow): Attachment {
    Attachment(row.attachmentId, row.filename, row.contentType, row.fileSize)
  }

  /**
   * The message a non-empty list of its rows describes: message columns of the first
   * row, and one attachment per row when the first row has an attachment, none otherwise.
   */
  function MessageOf(rows: seq<MessageRow>): (m: Message)
    requires |rows| > 0
    ensures m.id == rows[0].messageId && m.conversationId == rows[0].conversationId
    ensures m.content == rows[0].content && m.replyToId == rows[0].replyToId && m.userId == rows[0].userId
    ensures m.createdAt == rows[0].createdAt && m.updatedAt == rows[0].updatedAt && m.editedAt == rows[0].editedAt
    ensures rows[0].attachmentId.Some? ==>
              |m.attachments| == |rows| && forall i :: 0 <= i < |rows| ==> m.attachments[i] == AttachmentOf(rows[i])
    ensures rows[0].attachmentId.None? ==> m.attachments == []
  {
    var row := rows[0];
    Message(row.messageId, row.conversationId, row.replyToId, row.userId, row.content,
            row.createdAt, row.updatedAt, row.editedAt,
            if row.attachmentId.Some? then seq(|rows|, i requires 0 <= i < |rows| => AttachmentOf(rows[i])) else [])
  }

  /** Message `get`: None for no rows or a message of another conversation. */
  function Get(rows: seq<MessageRow>, conversationId: int): (r: Option<Message>)
    ensures r.None? <==> |rows| == 0 || rows[0].conversationId != conversationId
    ensures r.Some? ==> r.value == MessageOf(rows) && r.value.conversationId == conversationId
  {
    if |rows| == 0 then None
    else if rows[0].conversationId != conversationId then None
    else Some(MessageOf(rows))
  }

  /** The three paged queries of the message list, with their bound arguments. */
  datatype MessageQuery =
    | Around(conversationId: int, around: Timestamp, limit: int)
    | Before(conversationId: int, before: Timestamp, limit: int)
    | After(conversationId: int, after: Timestamp, limit: int)

  /** The default page size of message `list`. */
  const DefaultLimit := 50

  /** The query message `list` runs; `now` is the clock reading used without a cursor. */
  function SelectQuery(conversationId: int, around: Option<Timestamp>, before: Option<Timestamp>,
                       after: Option<Timestamp>, now: Timestamp, limit: int): (q: MessageQuery)
    ensures q.conversationId == conversationId && q.limit == limit
    ensures around.Some? ==> q == Around(conversationId, around.value, limit)
    ensures around.None? && before.Some? ==> q == Before(conversationId, before.value, limit)
    ensures around.None? && before.None? && after.Some? ==> q == After(conversationId, after.value, limit)
    ensures around.None? && before.None? && after.None? ==> q == Before(conversationId, now, limit)
  {
    if around.Some? then Around(conversationId, around.value, limit)
    else if before.Some? then Before(conversationId, before.value, limit)
    else if after.Some? then After(conversationId, after.value, limit)
    else Before(conversationId, now, limit)
  }

  function MessageKey(row: MessageRow): int {
    row.messageId
  }

  /** Message `list`: the rows grouped by message id, one message per group. */
  function List(rows: seq<MessageRow>): seq<Message> {
    var gs := GroupBy(rows, MessageKey);
    GroupByNonEmpty(rows, MessageKey);
    seq(|gs|, i requires 0 <= i < |gs| => MessageOf(gs[i].rows))
  }

  /**
   * Message `list` yields one message per distinct message id, in first-occurrence
   * (row) order, each built from exactly its own rows in row order.
   */
  lemma ListSpec(rows: seq<MessageRow>)
    ensures |rows| == 0 ==> List(rows) == []
    ensures |List(rows)| == |Dedup(RowKeys(rows, MessageKey))|
    ensures forall i :: 0 <= i < |List(rows)| ==>
              var m := List(rows)[i];
              var own := Filter(rows, MessageKey, m.id);
              && m.id == Dedup(RowKeys(rows, MessageKey))[i]
              && |own| > 0
              && m == MessageOf(own)
  {
    GroupByNonEmpty(rows, MessageKey);
    GroupByKeys(rows, MessageKey);
    GroupByRows(rows, MessageKey);
    GroupByMemberKeys(rows, MessageKey);
    var gs := GroupBy(rows, MessageKey);
    forall i | 0 <= i < |gs|
      ensures List(rows)[i].id == gs[i].key
    {
      assert GroupKeys(gs)[i] == gs[i].key;
      assert MessageKey(gs[i].rows[0]) == gs[i].key;
    }
  }
}
