/**
  The log stream of the panel: a select loop over a subscriber's channel, a batching timer and a
  heartbeat. Writers and other subscribers run between any two of its steps. An update announced on the
  channel while it is full is dropped, yet nothing is lost.
  */
module LogStream {
  import opened Text
  import opened World
  import opened Bytes
  import opened LogBuffer

  const LINES := 500

  /** Anything other goroutines may do to the buffer, in any number of steps; they do not receive from channel `id`. */
  method Others(buffer: LogBuffer, id: nat)
    requires buffer.Valid() && id in buffer.subs
    modifies buffer, buffer.data
    ensures buffer.Valid() && id in buffer.subs
    ensures old(buffer.sequence) <= buffer.sequence
    ensures buffer.sequence == old(buffer.sequence) ==> buffer.written == old(buffer.written)
    ensures old(buffer.written) <= buffer.written
    ensures old(buffer.subs)[id].Some? || buffer.sequence > old(buffer.sequence) ==> buffer.subs[id].Some?
    ensures buffer.sequence == old(buffer.sequence) ==> buffer.subs[id] == old(buffer.subs)[id]
  {
    var steps: nat := Any();
    for n := 0 to steps
      invariant buffer.Valid() && id in buffer.subs
      invariant old(buffer.sequence) <= buffer.sequence
      invariant buffer.sequence == old(buffer.sequence) ==> buffer.written == old(buffer.written)
      invariant old(buffer.written) <= buffer.written
      invariant old(buffer.subs)[id].Some? || buffer.sequence > old(buffer.sequence) ==> buffer.subs[id].Some?
      invariant buffer.sequence == old(buffer.sequence) ==> buffer.subs[id] == old(buffer.subs)[id]
    {
      if {
        case true =>
          var text: seq<byte> := Any();
          var _ := buffer.Write(text);
        case true =>
          var _ := buffer.Subscribe();
        case exists other :: other in buffer.subs && other != id =>
          var other :| other in buffer.subs && other != id;
          buffer.Unsubscribe(other);
        case exists other :: other in buffer.subs && other != id && buffer.subs[other].Some? =>
          var other :| other in buffer.subs && other != id && buffer.subs[other].Some?;
          var _ := buffer.Receive(other);
      }
    }
  }

  /** An announced write that is not in the last event sent waits in the channel or for the timer. */
  ghost predicate NothingLost(buffer: LogBuffer, id: nat, batch: bool, sent: nat)
    requires id in buffer.subs
    reads buffer
  {
    buffer.sequence > sent ==> buffer.subs[id].Some? || batch
  }

  /** The last event sent shows the tail of what had been written up to it. */
  ghost predicate SentTail(buffer: LogBuffer, sent: nat, text: seq<byte>, seen: seq<byte>)
    reads buffer
  {
    && sent <= buffer.sequence && ShowsTail(text, seen, buffer.limit, 500)
    && seen <= buffer.written && (sent == buffer.sequence ==> seen == buffer.written)
  }

  /** Where the loop of a stream stands: the timer, the last sequence sent, and the text sent. */
  datatype Position = Position(batch: bool, sent: nat, text: seq<byte>)

  /** The stream has ended and is not subscribed any more, or it lost nothing so far. */
  ghost predicate Keeps(buffer: LogBuffer, id: nat, ended: bool, at: Position, seen: seq<byte>)
    reads buffer
  {
    if ended then id !in buffer.subs
    else id in buffer.subs && NothingLost(buffer, id, at.batch, at.sent) && SentTail(buffer, at.sent, at.text, seen)
  }

  /** writeLogs: an event with the tail at some moment; writers go on while it is sent. */
  method WriteLogs(buffer: LogBuffer, id: nat) returns (ended: bool, at: Position, ghost seen: seq<byte>)
    requires buffer.Valid() && id in buffer.subs
    modifies buffer, buffer.data
    ensures buffer.Valid() && Keeps(buffer, id, ended, at, seen) && !at.batch
  {
    hide LogBuffer.Valid, ShowsTail;
    Others(buffer, id);
    var text, sent := buffer.Snapshot(LINES);
    at, seen := Position(false, sent, text), buffer.written;
    Others(buffer, id);
    ended := *;
    if ended {
      buffer.Unsubscribe(id);
    }
  }

  /** One turn of the select loop. */
  method Turn(buffer: LogBuffer, id: nat, from: Position, ghost shown: seq<byte>)
    returns (ended: bool, at: Position, ghost seen: seq<byte>)
    requires buffer.Valid() && Keeps(buffer, id, false, from, shown)
    modifies buffer, buffer.data
    ensures buffer.Valid() && Keeps(buffer, id, ended, at, seen)
  {
    hide LogBuffer.Valid, ShowsTail;
    at, seen := from, shown;
    Others(buffer, id);
    if {
      case true =>                               // the client went away, or a heartbeat could not be written
        buffer.Unsubscribe(id);
        ended := true;
      case true =>                               // the heartbeat
        ended := false;
      case buffer.subs[id].Some? =>              // an update
        var _ := buffer.Receive(id);
        if !at.batch {
          at := at.(batch := true);
        }
        ended := false;
      case at.batch =>                           // the timer
        ended, at, seen := WriteLogs(buffer, id);
    }
  }

  /**
    logsStream, for any number of turns of its loop. Whenever it waits at its select, nothing is lost; when
    the channel is empty and no timer runs, the client has the last lines of everything written.
    */
  method Stream(buffer: LogBuffer, turns: nat) returns (ended: bool, id: nat, at: Position, ghost seen: seq<byte>)
    requires buffer.Valid()
    modifies buffer, buffer.data
    ensures buffer.Valid() && Keeps(buffer, id, ended, at, seen)
    ensures !ended && buffer.subs[id].None? && !at.batch ==>
              at.sent == buffer.sequence && IsTail(at.text, Last(buffer.written, buffer.limit), 500)
  {
    hide LogBuffer.Valid, ShowsTail, IsTail;
    id := buffer.Subscribe();
    ended, at, seen := WriteLogs(buffer, id);
    for turn := 0 to turns
      invariant buffer.Valid() && Keeps(buffer, id, ended, at, seen)
    {
      if ended {
        return;
      }
      ended, at, seen := Turn(buffer, id, at, seen);
    }
    if !ended {
      SnapshotMeans(at.text, seen, buffer.limit, 500);
    }
  }

  /** Left alone, a waiting stream sends whatever it has not sent: first the update, then the timer. */
  method Drain(buffer: LogBuffer, id: nat, batch: bool, sent: nat) returns (text: seq<byte>, last: nat)
    requires buffer.Valid() && id in buffer.subs && NothingLost(buffer, id, batch, sent) && sent < buffer.sequence
    modifies buffer`subs
    ensures buffer.Valid() && last == buffer.sequence && IsTail(text, Last(buffer.written, buffer.limit), 500)
    ensures buffer.subs == old(buffer.subs) || buffer.subs == old(buffer.subs)[id := None]
  {
    var armed := batch;
    if buffer.subs[id].Some? {
      var _ := buffer.Receive(id);
      armed := true;
    }
    assert armed;
    text, last := buffer.Snapshot(LINES);
    SnapshotMeans(text, buffer.written, buffer.limit, LINES);
  }
}
