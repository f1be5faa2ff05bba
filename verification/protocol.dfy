/** The frames the relay exchanges with browsers, as datatypes. Payload fields the server
    only copies (message text, data URIs, the quoted reference) are kept as strings. */
module Protocol {
  import opened Js

  type ConnId = nat
  type ClientId = string

  /** The `replyTo` object a reply carries: the quoted message's author, type, preview, id. */
  datatype Quote = Quote(username: string, kind: string, content: string, messageId: string)

  /** The payload of the five content frames the server relays. */
  datatype Content =
    | Text(message: string, messageId: Val)
    | Image(image: string, messageId: Val)
    | Voice(audio: string, messageId: Val)
    | Reply(message: string, replyTo: Quote, messageId: Val)
    | Reaction(messageId: Val, emoji: string)

  /** Outbound frames. `Relayed` is the echo of a content frame, stamped by the server with the
      sender's current display name and id. */
  datatype Envelope =
    | UsernameAssigned(username: string)
    | UserList(users: seq<string>)
    | RoomStatus(message: string)
    | Relayed(content: Content, username: string, clientId: ClientId)
    | RetardiooSet(clientId: ClientId, originalUsername: string)
    | RetardiooRevert(clientId: ClientId, originalUsername: string)

  /** One frame handed to one socket. */
  type Delivery = (ConnId, Envelope)

  const AlreadyHeldNotice: string := "Another user is already Retardioo in this room"

  function JoinNotice(username: string, room: string): string {
    username + " joined room " + room
  }

  function LeaveNotice(username: string, room: string): string {
    username + " left room " + room
  }
}
