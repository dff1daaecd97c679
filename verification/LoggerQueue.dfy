/**
 * The linked message queue of logger.c: what each critical section does to the heap,
 * stated on the sequence of texts that LoggerProtocol keeps as its queue.
 */
module LoggerQueue {
  class LogMessage {
    const text: string
    var next: LogMessage?

    constructor (text: string)
      ensures this.text == text && next == null
    {
      this.text := text;
      next := null;
    }
  }

  ghost function Texts(nodes: seq<LogMessage>): (ts: seq<string>) {
    seq(|nodes|, i requires 0 <= i < |nodes| => nodes[i].text)
  }

  lemma Moved(a: seq<string>, x: string, b: seq<string>, c: seq<string>)
    requires b != [] && x == b[0] && c == b[1..]
    ensures (a + [x]) + c == a + b
  {
  }

  ghost function Follower(nodes: seq<LogMessage>, i: nat): LogMessage?
    requires i < |nodes|
  {
    if i + 1 < |nodes| then nodes[i + 1] else null
  }

  class AsyncLogger {
    var queueHead: LogMessage?
    var queueTail: LogMessage?
    ghost var nodes: seq<LogMessage>

    /** The head pointer starts a chain through exactly the given nodes, ended by null. */
    ghost predicate Linked()
      reads this, nodes
    {
      && (queueHead == if nodes == [] then null else nodes[0])
      && (forall i | 0 <= i < |nodes| :: nodes[i].next == Follower(nodes, i))
      && (forall i, j | 0 <= i < j < |nodes| :: nodes[i] != nodes[j])
    }

    ghost predicate Valid()
      reads this, nodes
    {
      Linked() && queueTail == if nodes == [] then null else nodes[|nodes| - 1]
    }

    ghost function Contents(): seq<string>
      reads this
    {
      Texts(nodes)
    }

    constructor ()
      ensures Valid() && Contents() == []
    {
      queueHead, queueTail, nodes := null, null, [];
    }

    /** The append of async_logger_enqueue, once its message has been allocated. */
    method Enqueue(text: string)
      requires Valid()
      modifies this, nodes
      ensures Valid() && Contents() == old(Contents()) + [text]
      ensures |nodes| == old(|nodes|) + 1 && nodes[..|nodes| - 1] == old(nodes) && fresh(nodes[|nodes| - 1])
    {
      var msg := new LogMessage(text);
      if queueTail != null {
        queueTail.next := msg;
        queueTail := msg;
      } else {
        queueHead := msg;
        queueTail := msg;
      }
      nodes := nodes + [msg];
    }

    /** Takes the head message off the chain; the tail pointer is not looked at. */
    method Unlink() returns (msg: LogMessage)
      requires Linked() && nodes != []
      modifies this`queueHead, this`nodes
      ensures Linked() && msg == old(nodes)[0] && nodes == old(nodes)[1..]
    {
      ghost var all := nodes;
      assert all[0].next == Follower(all, 0);
      msg := queueHead;
      queueHead := msg.next;
      nodes := nodes[1..];
      assert forall i | 0 <= i < |nodes| :: nodes[i] == all[i + 1] && Follower(nodes, i) == Follower(all, i + 1);
    }

    /** The writer's removal of the head, which also repairs the tail pointer. */
    method Dequeue() returns (msg: LogMessage)
      requires Valid() && Contents() != []
      modifies this
      ensures Valid() && [msg.text] + Contents() == old(Contents())
      ensures nodes == old(nodes)[1..]
    {
      msg := Unlink();
      if queueHead == null {
        queueTail := null;
      }
    }

    /**
     * The writer's last loop: everything still queued is written, in order. The tail pointer
     * is left alone, so the queue can be used again only if it was empty to begin with.
     */
    method Drain() returns (written: seq<string>)
      requires Valid()
      modifies this
      ensures written == old(Contents()) && queueHead == null && Linked() && nodes == []
      ensures Valid() <==> old(Contents()) == []
    {
      written := [];
      while queueHead != null
        invariant Linked() && queueTail == old(queueTail)
        invariant written + Contents() == old(Contents())
        decreases |nodes|
      {
        ghost var before, rest := written, Contents();
        var msg := Unlink();
        written := written + [msg.text];
        Moved(before, msg.text, rest, Contents());
      }
    }
  }
}
