/** ChatController.message: the STOMP handler for "/chat/message".  An ENTER
    message has its body replaced, in place, by a join notice; every message,
    whatever its type, is then published once to the topic of its room. */
module Chat {
  import opened Wrappers

  /** ChatMessage.MessageType */
  datatype MessageType = ENTER | TALK

  /** The contents of a chat message at one moment.  The type is None when
      the client sent none (a null field). */
  datatype MessageValue = MessageValue(messageType: Option<MessageType>, roomId: string, sender: string, message: string)

  /** The message object the handler receives and changes. */
  class ChatMessage {
    var messageType: Option<MessageType>
    var roomId: string
    var sender: string
    var message: string

    constructor(messageType: Option<MessageType>, roomId: string, sender: string, message: string)
      ensures Value() == MessageValue(messageType, roomId, sender, message)
    {
      this.messageType := messageType;
      this.roomId := roomId;
      this.sender := sender;
      this.message := message;
    }

    /** The current contents of the object: its type, room, sender and body
        as the getters read them. */
    function Value(): (v: MessageValue)
      reads this
      ensures v.messageType == messageType && v.roomId == roomId && v.sender == sender && v.message == message
    {
      MessageValue(messageType, roomId, sender, message)
    }

    /** setMessage */
    method SetMessage(message: string)
      modifies this
      ensures Value() == old(Value()).(message := message)
    {
      this.message := message;
    }
  }

  /** One publication: the destination and the message as it was sent. */
  datatype Envelope = Envelope(destination: string, payload: MessageValue)

  /** The messaging template: every convertAndSend is recorded, in order, in
      an outbox. */
  class Broker {
    var sent: seq<Envelope>

    constructor()
      ensures sent == []
    {
      sent := [];
    }

    /** convertAndSend(destination, payload): the payload is serialised when
        it is sent, so later changes to the object do not reach the outbox. */
    method ConvertAndSend(destination: string, payload: ChatMessage)
      modifies this
      ensures sent == old(sent) + [Envelope(destination, payload.Value())]
    {
      sent := sent + [Envelope(destination, payload.Value())];
    }
  }

  /** The text that follows the sender's name in a join notice. */
  const EnterSuffix: string := "님이 입장하셨습니다."

  /** The topic every room's subscribers listen on, without the room id. */
  const RoomTopic: string := "/sub/chat/room/"

  /** The join notice for a sender. */
  function EnterNotice(sender: string): (notice: string)
    ensures |notice| == |sender| + |EnterSuffix|
    ensures notice[..|sender|] == sender && notice[|sender|..] == EnterSuffix
  {
    sender + EnterSuffix
  }

  /** The destination of a room's messages. */
  function Destination(roomId: string): (d: string)
    ensures |d| == |RoomTopic| + |roomId|
    ensures d[..|RoomTopic|] == RoomTopic && d[|RoomTopic|..] == roomId
  {
    RoomTopic + roomId
  }

  /** The message as the handler leaves it: an ENTER message gets the join
      notice as its body; any other message, or one without a type, is left
      as it is. */
  function Relayed(v: MessageValue): (r: MessageValue)
    ensures r.messageType == v.messageType && r.roomId == v.roomId && r.sender == v.sender
  {
    if v.messageType == Some(ENTER) then v.(message := EnterNotice(v.sender)) else v
  }

  class ChatController {
    const messagingTemplate: Broker

    constructor(messagingTemplate: Broker)
      ensures this.messagingTemplate == messagingTemplate
    {
      this.messagingTemplate := messagingTemplate;
    }

    /** message(ChatMessage): the body of an ENTER message is rewritten, then
        the message is published to its room, whatever its type. */
    method Message(message: ChatMessage)
      modifies message, messagingTemplate
      ensures message.Value() == Relayed(old(message.Value()))
      ensures messagingTemplate.sent ==
        old(messagingTemplate.sent) + [Envelope(Destination(message.roomId), message.Value())]
    {
      if message.messageType == Some(ENTER) {
        message.SetMessage(EnterNotice(message.sender));
      }
      messagingTemplate.ConvertAndSend(Destination(message.roomId), message);
    }
  }

  // ---------------------------------------------------------------------------
  // Lemmas

  /** An ENTER message leaves with exactly the join notice as its body,
      whatever body the client supplied. */
  lemma EnterBodyIsNotice(v: MessageValue, body: string)
    requires v.messageType == Some(ENTER)
    ensures Relayed(v).message == EnterNotice(v.sender)
    ensures Relayed(v) == Relayed(v.(message := body))
  {
  }

  /** A message that is not ENTER, a TALK message or one without a type,
      leaves unchanged. */
  lemma OthersUnchanged(v: MessageValue)
    requires v.messageType != Some(ENTER)
    ensures Relayed(v) == v
  {
  }

  /** Relaying an already relayed message changes nothing more. */
  lemma RelayedIdempotent(v: MessageValue)
    ensures Relayed(Relayed(v)) == Relayed(v)
  {
  }

  /** The body changes exactly when the message is ENTER and its body was not
      already the notice. */
  lemma RelayedChangesIff(v: MessageValue)
    ensures Relayed(v) != v <==> v.messageType == Some(ENTER) && v.message != EnterNotice(v.sender)
  {
  }

  /** Different senders get different join notices. */
  lemma EnterNoticeInjective(a: string, b: string)
    requires EnterNotice(a) == EnterNotice(b)
    ensures a == b
  {
    assert |a| == |b|;
    assert a == EnterNotice(a)[..|a|];
  }

  /** Different rooms get different destinations, so a message reaches the
      subscribers of its own room only. */
  lemma DestinationInjective(a: string, b: string)
    requires Destination(a) == Destination(b)
    ensures a == b
  {
    assert a == Destination(a)[|RoomTopic|..];
  }

  /** The room id can be read back off a destination. */
  lemma DestinationRoom(roomId: string, d: string)
    ensures d == Destination(roomId) <==> |RoomTopic| <= |d| && d[..|RoomTopic|] == RoomTopic && d[|RoomTopic|..] == roomId
  {
    if |RoomTopic| <= |d| && d[..|RoomTopic|] == RoomTopic && d[|RoomTopic|..] == roomId {
      assert d == d[..|RoomTopic|] + d[|RoomTopic|..];
    }
  }

  /** Handling two messages one after the other publishes both, in order,
      each to its own room and each as rewritten.  The two may be the same
      object: the second call then finds it already rewritten, which changes
      nothing more. */
  method RelayTwo(controller: ChatController, first: ChatMessage, second: ChatMessage)
    modifies first, second, controller.messagingTemplate
    ensures controller.messagingTemplate.sent == old(controller.messagingTemplate.sent) +
      [Envelope(Destination(old(first.roomId)), Relayed(old(first.Value()))),
       Envelope(Destination(old(second.roomId)), Relayed(old(second.Value())))]
  {
    controller.Message(first);
    RelayedIdempotent(old(first.Value()));
    controller.Message(second);
  }
}
