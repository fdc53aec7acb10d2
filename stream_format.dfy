/** The line `StreamMsgHandler::put_msg` writes for one message. How a
    `MsgType` is printed (`operator<<` for `MsgType`) is not part of this
    model, so that printing is a parameter. */
module StreamFormat {
  import opened MsgTypes

  /** The kind's text, `" ["`, the label, `"]: "`, the body and an end of line. */
  function StreamLine(typeName: MsgType -> string, msg: Message): (line: string)
    ensures |line| == |typeName(msg.msgType)| + |msg.msgLabel| + |msg.body| + 6
    ensures line[..|typeName(msg.msgType)|] == typeName(msg.msgType)
    ensures line[|typeName(msg.msgType)|..|typeName(msg.msgType)| + 2] == " ["
    ensures line[|typeName(msg.msgType)| + 2..|typeName(msg.msgType)| + 2 + |msg.msgLabel|] == msg.msgLabel
    ensures line[|typeName(msg.msgType)| + 2 + |msg.msgLabel|..|typeName(msg.msgType)| + 5 + |msg.msgLabel|] == "]: "
    ensures line[|typeName(msg.msgType)| + 5 + |msg.msgLabel|..|line| - 1] == msg.body
    ensures line[|line| - 1] == '\n'
  {
    typeName(msg.msgType) + " [" + msg.msgLabel + "]: " + msg.body + "\n"
  }

  /** The line does not show where the message was emitted: two messages
      that differ only in source file and line print the same. */
  lemma StreamLineIgnoresLocation(typeName: MsgType -> string, a: Message, b: Message)
    requires a.msgType == b.msgType && a.msgLabel == b.msgLabel && a.body == b.body
    ensures StreamLine(typeName, a) == StreamLine(typeName, b)
  {
  }
}
