/** The consumer's message queue, a FreeRTOS queue of 16 used with zero waits on the sending side. */
module MessageQueues {
  import opened AppConfig
  import opened Records
  import opened Wrappers

  class MessageQueue {
    var items: seq<Msg>

    constructor ()
      ensures items == []
    {
      items := [];
    }

    /** `task_consumer_send`: never blocks, fails on a full queue. */
    method Send(msg: Msg) returns (sent: bool)
      modifies this
      ensures sent == (|old(items)| < QUEUE_LEN)
      ensures items == if sent then old(items) + [msg] else old(items)
    {
      sent := |items| < QUEUE_LEN;
      if sent {
        items := items + [msg];
      }
    }

    /** `xQueueReceive`: the oldest message, or nothing when the wait ends with the queue empty. */
    method Receive() returns (msg: Option<Msg>)
      modifies this
      ensures old(items) == [] ==> msg == None && items == []
      ensures old(items) != [] ==> msg == Some(old(items)[0]) && items == old(items)[1..]
    {
      if items == [] {
        return None;
      }
      msg := Some(items[0]);
      items := items[1..];
    }
  }
}
