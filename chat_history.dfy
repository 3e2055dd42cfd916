/** The message list the web chatbot sends: every earlier exchange of the
    chat history, flattened into messages, followed by the new user message.
    The code labels both messages of the exchange at position `i` with the
    role for `i`, not with the role of the speaker; `BuildMessages` models
    that as written and `BuildAlternatingMessages` the evidently intended
    labelling. */
module ChatHistory {

  /** The two values of the `"role"` key, `"user"` and `"assistant"`. */
  datatype Role = User | Assistant

  /** One `{"role": ..., "content": ...}` entry. */
  datatype Message = Message(role: Role, content: string)

  /** One `(user_msg, ai_msg)` pair of the chat history. */
  datatype Exchange = Exchange(user: string, reply: string)

  /** `"user" if i % 2 == 0 else "assistant"`. */
  function RoleFor(i: nat): Role
  {
    if i % 2 == 0 then User else Assistant
  }

  /** The comprehension over `enumerate(history)` from exchange number `first`
      on: both messages of exchange `first + k` get `RoleFor(first + k)`. */
  function FlattenFrom(history: seq<Exchange>, first: nat): (r: seq<Message>)
    ensures |r| == 2 * |history|
    ensures forall k :: 0 <= k < |history| ==>
              r[2 * k] == Message(RoleFor(first + k), history[k].user)
              && r[2 * k + 1] == Message(RoleFor(first + k), history[k].reply)
    decreases |history|
  {
    if history == [] then []
    else
      var rest := FlattenFrom(history[1..], first + 1);
      var r := [Message(RoleFor(first), history[0].user), Message(RoleFor(first), history[0].reply)] + rest;
      assert forall k :: 0 <= k < |history| ==>
               r[2 * k] == Message(RoleFor(first + k), history[k].user)
               && r[2 * k + 1] == Message(RoleFor(first + k), history[k].reply) by {
        forall k | 1 <= k < |history|
          ensures r[2 * k] == Message(RoleFor(first + k), history[k].user)
          ensures r[2 * k + 1] == Message(RoleFor(first + k), history[k].reply)
        {
          assert r[2 * k] == rest[2 * (k - 1)] && r[2 * k + 1] == rest[2 * (k - 1) + 1];
          assert history[1..][k - 1] == history[k];
        }
      }
      r
  }

  /** The `messages` list as written: the flattened history, then the new
      message as a user message. */
  function BuildMessages(history: seq<Exchange>, message: string): (r: seq<Message>)
    ensures |r| == 2 * |history| + 1
    ensures r[|r| - 1] == Message(User, message)
    ensures forall k :: 0 <= k < |history| ==>
              r[2 * k].content == history[k].user && r[2 * k + 1].content == history[k].reply
    ensures forall k :: 0 <= k < |history| ==>
              r[2 * k].role == RoleFor(k) && r[2 * k + 1].role == RoleFor(k)
  {
    FlattenFrom(history, 0) + [Message(User, message)]
  }

  /** As written, the reply of the first exchange goes out as a user message
      and the user's turn of the second exchange as an assistant message. */
  lemma RepliesMislabelled(first: Exchange, second: Exchange, message: string)
    ensures BuildMessages([first, second], message)[1] == Message(User, first.reply)
    ensures BuildMessages([first, second], message)[2] == Message(Assistant, second.user)
  {
    var r := BuildMessages([first, second], message);
    assert r[2 * 0 + 1].role == RoleFor(0);
    assert r[2 * 1].role == RoleFor(1);
  }

  /** The history as evidently intended: each user turn as a user message,
      each reply as an assistant message. */
  function FlattenBySpeaker(history: seq<Exchange>): (r: seq<Message>)
    ensures |r| == 2 * |history|
    ensures forall k :: 0 <= k < |history| ==>
              r[2 * k] == Message(User, history[k].user) && r[2 * k + 1] == Message(Assistant, history[k].reply)
    decreases |history|
  {
    if history == [] then []
    else
      var rest := FlattenBySpeaker(history[1..]);
      var r := [Message(User, history[0].user), Message(Assistant, history[0].reply)] + rest;
      assert forall k :: 0 <= k < |history| ==>
               r[2 * k] == Message(User, history[k].user) && r[2 * k + 1] == Message(Assistant, history[k].reply) by {
        forall k | 1 <= k < |history|
          ensures r[2 * k] == Message(User, history[k].user)
          ensures r[2 * k + 1] == Message(Assistant, history[k].reply)
        {
          assert r[2 * k] == rest[2 * (k - 1)] && r[2 * k + 1] == rest[2 * (k - 1) + 1];
          assert history[1..][k - 1] == history[k];
        }
      }
      r
  }

  /** The list as evidently intended: the history by speaker, then the new
      message. */
  function BuildAlternatingMessages(history: seq<Exchange>, message: string): (r: seq<Message>)
    ensures |r| == 2 * |history| + 1
    ensures r[|r| - 1] == Message(User, message)
    ensures forall k :: 0 <= k < |history| ==>
              r[2 * k] == Message(User, history[k].user) && r[2 * k + 1] == Message(Assistant, history[k].reply)
  {
    FlattenBySpeaker(history) + [Message(User, message)]
  }

  /** In the intended list the roles alternate by message position, starting
      and ending with the user. */
  lemma AlternatingRoles(history: seq<Exchange>, message: string)
    ensures var r := BuildAlternatingMessages(history, message);
      forall j :: 0 <= j < |r| ==> r[j].role == RoleFor(j)
  {
    var r := BuildAlternatingMessages(history, message);
    forall j | 0 <= j < |r| ensures r[j].role == RoleFor(j) {
      if j < |r| - 1 {
        var k := j / 2;
        assert 0 <= k < |history|;
        if j % 2 == 0 {
          assert j == 2 * k && r[2 * k].role == User;
        } else {
          assert r[2 * k] == Message(User, history[k].user);
          assert j == 2 * k + 1 && r[2 * k + 1].role == Assistant;
        }
      }
    }
  }

  /** Both lists carry the same contents in the same order. */
  lemma SameContents(history: seq<Exchange>, message: string)
    ensures var a, b := BuildMessages(history, message), BuildAlternatingMessages(history, message);
      |a| == |b| && forall j :: 0 <= j < |a| ==> a[j].content == b[j].content
  {
    var a, b := BuildMessages(history, message), BuildAlternatingMessages(history, message);
    forall j | 0 <= j < |a| ensures a[j].content == b[j].content {
      if j < |a| - 1 {
        var k := j / 2;
        if j % 2 == 0 {
          assert j == 2 * k;
          assert a[2 * k].content == history[k].user == b[2 * k].content;
        } else {
          assert j == 2 * k + 1;
          assert a[2 * k + 1].content == history[k].reply == b[2 * k + 1].content;
        }
      }
    }
  }

  /** The list as written agrees with the intended one exactly when there is
      no history; with any history, the first reply is mislabelled. */
  lemma AgreeOnlyWithoutHistory(history: seq<Exchange>, message: string)
    ensures BuildMessages(history, message) == BuildAlternatingMessages(history, message) <==> history == []
  {
    if history != [] {
      assert BuildMessages(history, message)[1].role == User;
      assert BuildAlternatingMessages(history, message)[1].role == Assistant;
    }
  }
}
