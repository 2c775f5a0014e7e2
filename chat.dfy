/** The chat panel of a call: the message list, the input box, and what the
    panel sends. Encryption is a parameter: whatever `encryptMessage` and
    `decryptMessage` compute for a text and the room id, including a throw. */
module ChatPanel {
  import opened Wrappers
  import opened JsText

  /** A message in the list: who wrote it and when. */
  datatype Message = Message(text: string, isOwn: bool, timestamp: nat)

  /** A `chat-message` emit. */
  datatype ChatEmit = ChatEmit(roomId: string, message: string)

  class ChatState {
    const roomId: string
    /** `getSocket()` returned a socket. */
    const socket: bool
    var messages: seq<Message>
    var messageInput: string
    /** Every `chat-message` emitted, in order. */
    var sent: seq<ChatEmit>

    /** An empty panel for `roomId`. */
    constructor(roomId: string, socket: bool)
      ensures this.roomId == roomId && this.socket == socket
      ensures messages == [] && messageInput == "" && sent == []
    {
      this.roomId := roomId;
      this.socket := socket;
      messages := [];
      messageInput := "";
      sent := [];
    }

    /** `setMessageInput` from the input box. */
    method Type(value: string)
      modifies this`messageInput
      ensures messageInput == value
    {
      messageInput := value;
    }

    /** `handleSendMessage` at time `now`. A blank input or a missing socket
        changes nothing. Otherwise the ciphertext of the input is emitted, the
        untrimmed input is appended as the user's own message and the input is
        cleared; if encryption throws, nothing is emitted or changed. */
    method HandleSendMessage(encrypt: (string, string) -> Result<string>, now: nat)
      modifies this`messages, this`messageInput, this`sent
      ensures IsBlank(old(messageInput)) || !socket || encrypt(old(messageInput), roomId).Err? ==>
        messages == old(messages) && messageInput == old(messageInput) && sent == old(sent)
      ensures !IsBlank(old(messageInput)) && socket && encrypt(old(messageInput), roomId).Ok? ==>
        && sent == old(sent) + [ChatEmit(roomId, encrypt(old(messageInput), roomId).value)]
        && messages == old(messages) + [Message(old(messageInput), true, now)]
        && messageInput == ""
    {
      if IsBlank(messageInput) || !socket {
        return;
      }
      var encrypted := encrypt(messageInput, roomId);
      if encrypted.Err? {
        return;
      }
      sent := sent + [ChatEmit(roomId, encrypted.value)];
      messages := messages + [Message(messageInput, true, now)];
      messageInput := "";
    }

    /** `handleChatMessage` for a received ciphertext at time `now`: it is
        decrypted with the room id and appended as someone else's message;
        a failed decryption drops it. Without a socket the handler is never
        registered and nothing arrives. */
    method HandleChatMessage(message: string, decrypt: (string, string) -> Result<string>, now: nat)
      modifies this`messages
      ensures socket && decrypt(message, roomId).Ok? ==>
        messages == old(messages) + [Message(decrypt(message, roomId).value, false, now)]
      ensures !socket || decrypt(message, roomId).Err? ==> messages == old(messages)
    {
      if !socket {
        return;
      }
      var decrypted := decrypt(message, roomId);
      if decrypted.Ok? {
        messages := messages + [Message(decrypted.value, false, now)];
      }
    }
  }

  /** Two panels of the same room: what one user types and sends shows up
      on the other side as the same text, whenever decrypting a ciphertext
      with the room id gives back what was encrypted. Blank input never
      reaches the other side. */
  method SendAndReceive(roomId: string, text: string, encrypt: (string, string) -> Result<string>,
                        decrypt: (string, string) -> Result<string>, now: nat)
    returns (senderView: seq<Message>, receiverView: seq<Message>)
    requires encrypt(text, roomId).Ok? ==> decrypt(encrypt(text, roomId).value, roomId) == Ok(text)
    ensures !IsBlank(text) && encrypt(text, roomId).Ok? ==>
      senderView == [Message(text, true, now)] && receiverView == [Message(text, false, now)]
    ensures IsBlank(text) || encrypt(text, roomId).Err? ==> senderView == [] && receiverView == []
  {
    var sender := new ChatState(roomId, true);
    var receiver := new ChatState(roomId, true);
    sender.Type(text);
    sender.HandleSendMessage(encrypt, now);
    // the relay forwards the emitted ciphertext unchanged
    if |sender.sent| == 1 {
      receiver.HandleChatMessage(sender.sent[0].message, decrypt, now);
    }
    senderView, receiverView := sender.messages, receiver.messages;
  }
}
