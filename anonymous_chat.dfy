/**
 * The anonymous chat (frontend/src/components/chat/AnonymousChat.tsx): a
 * session gets a random "UserNNNN" handle, the online-user set holds that
 * handle, and `handleSendMessage` appends the trimmed draft under it.
 */
module AnonymousChat {
  import opened Text

  datatype ChatMessage = ChatMessage(id: string, username: string, message: string)

  class Chat {
    var messages: seq<ChatMessage>
    var newMessage: string
    const username: string
    const onlineUsers: set<string>

    /** Every message was sent in this session: it carries the session's handle and a trimmed, non-empty text. */
    ghost predicate Valid()
      reads this
    {
      forall m :: m in messages ==> m.username == username && m.message != "" && Trimmed(m.message, JsSpaces)
    }

    /** A new session, with `roll` the value of `Math.floor(Math.random() * 10000)`. */
    constructor (roll: nat)
      requires roll < 10000
      ensures Valid()
      ensures username == RandomUsername(roll) && onlineUsers == {username}
      ensures messages == [] && newMessage == ""
    {
      username := RandomUsername(roll);
      onlineUsers := {RandomUsername(roll)};
      messages := [];
      newMessage := "";
    }

    /** The input field's `onChange`. */
    method SetNewMessage(text: string)
      modifies this
      ensures newMessage == text && messages == old(messages)
    {
      newMessage := text;
    }

    /**
     * `handleSendMessage` at clock reading `now`: a trimmed-empty draft
     * changes nothing; otherwise one message with the trimmed draft and the
     * session's handle is appended and the draft is cleared.
     */
    method HandleSendMessage(now: nat)
      requires Valid()
      modifies this
      ensures Valid()
      ensures JsTrim(old(newMessage)) == "" ==> messages == old(messages) && newMessage == old(newMessage)
      ensures JsTrim(old(newMessage)) != "" ==>
        && messages == old(messages) + [ChatMessage(DecimalString(now), username, JsTrim(old(newMessage)))]
        && newMessage == ""
    {
      var text := JsTrim(newMessage);
      if text == "" {
        return;
      }
      var _ := TrimBySlice(newMessage, JsSpaces);
      var message := ChatMessage(DecimalString(now), username, text);
      messages := messages + [message];
      newMessage := "";
    }
  }
}
