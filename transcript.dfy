/** The chat transcript: the `Message` record of components/ChatModal.tsx
    and the clean-up the send handlers apply after a failed reply. */
module Transcript {
  import opened Wrappers

  datatype Sender = User | Assistant

  /** One chat bubble. `youtubeId` and `showSignUpButton` are optional
      fields of the record: `None` when the field was never set. */
  datatype Message = Message(
    sender: Sender,
    text: string,
    youtubeId: Option<string>,
    showSignUpButton: Option<bool>)

  function UserMessage(text: string): Message {
    Message(User, text, None, None)
  }

  function AssistantMessage(text: string): Message {
    Message(Assistant, text, None, None)
  }

  /** The last bubble is an assistant bubble that never received text. */
  predicate EndsWithEmptyAssistant(messages: seq<Message>) {
    |messages| > 0 && messages[|messages| - 1].sender == Assistant && messages[|messages| - 1].text == ""
  }

  /** The updater given to `setMessages` when a reply fails: an empty
      assistant bubble at the end is removed, anything else is kept. */
  function DropEmptyPlaceholder(messages: seq<Message>): (r: seq<Message>)
    ensures r <= messages && |messages| - |r| <= 1
    ensures r != messages <==> EndsWithEmptyAssistant(messages)
  {
    if EndsWithEmptyAssistant(messages) then messages[..|messages| - 1] else messages
  }
}
