/** Names and messages shared by the models of the bus daemon. */
module BusTypes {
  /** Objects of the bus are named by their addresses. */
  type Connection = int
  type Transaction = int

  /** The address of a reference-counted object. */
  type Address = int

  datatype MessageType = MethodCall | MethodReturn | Error | Signal

  /** The header fields the bus looks at. */
  datatype Message = Message(
    kind: MessageType,
    serial: nat,
    replySerial: nat,
    noReply: bool,
    errorName: string)
}
