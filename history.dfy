/** Conversion of stored chat-history rows into the message objects the
    question-rewrite and answer prompts consume (api/langchain_utils.py,
    `convert_chat_history`). */
module ChatHistory {

  /** A stored history row: a role string and the text of the turn. The
      storage layer is meant to write "user" or "assistant" as the role,
      but nothing checks that. */
  datatype Row = Row(role: string, content: string)

  /** A chat message as the prompt templates see it. */
  datatype Message = Human(content: string) | AI(content: string)

  const UserRole: string := "user"
  const AssistantRole: string := "assistant"

  /** The conversion of a single row: the role "user" (exactly) gives a human
      message, every other role string gives an AI message. */
  function ConvertRow(row: Row): (m: Message)
    ensures m.content == row.content
    ensures m.Human? <==> row.role == UserRole
    ensures m.AI? <==> row.role != UserRole
  {
    if row.role == UserRole then Human(row.content) else AI(row.content)
  }

  /** Reference definition of the whole conversion: each row converted on its
      own, in the order of the rows. */
  function Convert(rows: seq<Row>): (ms: seq<Message>)
    ensures |ms| == |rows|
    ensures forall i :: 0 <= i < |rows| ==> ms[i] == ConvertRow(rows[i])
  {
    if rows == [] then [] else [ConvertRow(rows[0])] + Convert(rows[1..])
  }

  /** The loop of `convert_chat_history`: start from an empty list and append
      one message per row. The second and third ensures follow from the first
      and are spelled out for callers. */
  method ConvertChatHistory(rows: seq<Row>) returns (converted: seq<Message>)
    ensures converted == Convert(rows)
    ensures |converted| == |rows|
    ensures forall i :: 0 <= i < |rows| ==>
      converted[i].content == rows[i].content &&
      (converted[i].Human? <==> rows[i].role == UserRole)
  {
    converted := [];
    for i := 0 to |rows|
      invariant converted == Convert(rows[..i])
    {
      var row := rows[i];
      if row.role == UserRole {
        converted := converted + [Human(row.content)];
      } else {
        converted := converted + [AI(row.content)];
      }
      ConvertAppend(rows[..i], [row]);
      assert rows[..i + 1] == rows[..i] + [row];
    }
    assert rows[..|rows|] == rows;
  }

  /** Conversion works row by row, so it distributes over concatenation. */
  lemma {:induction false} ConvertAppend(a: seq<Row>, b: seq<Row>)
    ensures Convert(a + b) == Convert(a) + Convert(b)
  {
    if a == [] {
      assert a + b == b;
    } else {
      assert (a + b)[1..] == a[1..] + b;
      ConvertAppend(a[1..], b);
    }
  }

  /** No rows, no messages. A named corollary of Convert's contract. */
  lemma ConvertEmpty()
    ensures Convert([]) == []
  {
  }

  /** A row is never rejected: whatever its role, it turns into exactly one
      message, at the same position, with the same content, and that message
      is a human message if and only if the role is "user". A named corollary
      of the contracts of Convert and ConvertRow, stated for one index. */
  lemma ConvertAt(rows: seq<Row>, i: nat)
    requires i < |rows|
    ensures i < |Convert(rows)|
    ensures Convert(rows)[i].content == rows[i].content
    ensures Convert(rows)[i].Human? <==> rows[i].role == UserRole
    ensures Convert(rows)[i].AI? <==> rows[i].role != UserRole
  {
  }

  /** The row format the docstring of `convert_chat_history` documents,
      {"role": "user"/"assistant", "content": ...}, used here as the inverse
      of ConvertRow. */
  function ToRow(m: Message): (row: Row)
    ensures row.content == m.content
    ensures row.role == UserRole || row.role == AssistantRole
    ensures row.role == UserRole <==> m.Human?
  {
    match m
    case Human(c) => Row(UserRole, c)
    case AI(c) => Row(AssistantRole, c)
  }

  function ToRows(ms: seq<Message>): (rows: seq<Row>)
    ensures |rows| == |ms|
    ensures forall i :: 0 <= i < |ms| ==> rows[i] == ToRow(ms[i])
  {
    if ms == [] then [] else [ToRow(ms[0])] + ToRows(ms[1..])
  }

  /** Every row uses one of the two documented roles. */
  predicate WellFormed(rows: seq<Row>)
  {
    forall i :: 0 <= i < |rows| ==> rows[i].role == UserRole || rows[i].role == AssistantRole
  }

  /** Storing messages and converting them back gives the same messages. */
  lemma {:induction false} ConvertToRows(ms: seq<Message>)
    ensures Convert(ToRows(ms)) == ms
  {
    if ms != [] {
      ConvertToRows(ms[1..]);
      assert ToRows(ms)[1..] == ToRows(ms[1..]);
    }
  }

  /** Rows in the documented format survive a conversion and a write-back
      unchanged; rows with any other role do not (see ConvertForgetsRole). */
  lemma {:induction false} ToRowsConvert(rows: seq<Row>)
    ensures WellFormed(rows) <==> ToRows(Convert(rows)) == rows
  {
    if WellFormed(rows) {
      forall i | 0 <= i < |rows|
        ensures ToRows(Convert(rows))[i] == rows[i]
      {
        assert rows[i].role == UserRole || rows[i].role == AssistantRole;
      }
    }
    if ToRows(Convert(rows)) == rows {
      forall i | 0 <= i < |rows|
        ensures rows[i].role == UserRole || rows[i].role == AssistantRole
      {
        assert ToRows(Convert(rows))[i] == ToRow(Convert(rows)[i]);
      }
    }
  }

  /** An unexpected role is not rejected; it is silently read as the
      assistant's, so it cannot be told apart from "assistant" afterwards. */
  lemma ConvertForgetsRole()
    ensures Convert([Row("system", "be brief")]) == Convert([Row(AssistantRole, "be brief")])
    ensures Convert([Row("system", "be brief")]) == [AI("be brief")]
  {
    assert "system" != UserRole;
  }

  /** A user turn followed by an assistant turn. */
  lemma ConvertExample()
    ensures Convert([Row("user", "hi"), Row("assistant", "hello")]) == [Human("hi"), AI("hello")]
  {
    assert "assistant" != UserRole;
  }
}
