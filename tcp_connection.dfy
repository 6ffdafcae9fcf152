/**
 * TcpConnection (wind/conn/TcpConnection.cpp): one established socket with
 * a send buffer, a receive buffer and a channel. The results of write(2)
 * and readv(2) are inputs; the bytes write accepted are kept in `sent`, and
 * the user-visible callbacks that ran are kept in `upcalls`.
 */
module TcpConnection {
  import opened Endian
  import opened ConnBuffer
  import opened Epoll
  import EventChannel

  datatype TcpConnectionState = CONNECTING | CONNECTED | DISCONNECTING | DISCONNECTED

  /** stateString: one capitalised name per state, distinct for distinct states. */
  function StateString(s: TcpConnectionState): (name: string)
    ensures name == "Connecting" <==> s == CONNECTING
    ensures name == "Connected" <==> s == CONNECTED
    ensures name == "Disconnecting" <==> s == DISCONNECTING
    ensures name == "Disconnected" <==> s == DISCONNECTED
  {
    match s
    case CONNECTING => "Connecting"
    case CONNECTED => "Connected"
    case DISCONNECTING => "Disconnecting"
    case DISCONNECTED => "Disconnected"
  }

  /**
   * The callbacks a connection makes to its user: the connection callback
   * (the user's or the default one) with the state it reports, the user's
   * message callback, and the close callback.
   */
  datatype Upcall = OnConnection(state: TcpConnectionState) | OnMessage(receivedTime: int) | OnClose

  /** A send that writes a prefix directly (only when nothing is queued) and queues the rest keeps the byte order. */
  lemma SplitSend(sent: seq<byte>, queued: seq<byte>, message: seq<byte>, wrote: nat)
    requires wrote <= |message| && (queued == [] || wrote == 0)
    ensures (sent + message[..wrote]) + (queued + message[wrote..]) == (sent + queued) + message
  {
    assert message == message[..wrote] + message[wrote..];
  }

  class TcpConnection {
    const fd: int
    var state: TcpConnectionState
    const channel: EventChannel.EventChannel
    const sendBuffer: Buffer
    const recvBuffer: Buffer
    const hasMessageCallback: bool
    const hasCloseCallback: bool
    /** The bytes write(2) accepted, in order. */
    var sent: seq<byte>
    var upcalls: seq<Upcall>

    ghost predicate Valid()
      reads this, sendBuffer, recvBuffer
    {
      sendBuffer != recvBuffer && sendBuffer.Valid() && recvBuffer.Valid()
    }

    /** Everything ever sent: what reached the socket, then what is still queued. */
    ghost function Outgoing(): seq<byte>
      reads this, sendBuffer
      requires sendBuffer.Valid()
    {
      sent + sendBuffer.Readable()
    }

    /** Queued bytes are always waiting for the channel to become writable. */
    ghost predicate QueueWatched()
      reads this, sendBuffer, channel
      requires sendBuffer.Valid()
    {
      sendBuffer.Readable() != [] ==> channel.IsWriting()
    }

    /**
     * A new connection is CONNECTING, its channel has all four callbacks
     * and listens to nothing, and both buffers are empty.
     */
    constructor (fd: int, hasMessageCallback: bool, hasCloseCallback: bool)
      ensures Valid() && state == CONNECTING && this.fd == fd
      ensures channel.fd == fd && channel.handlers == Handlers(true, true, true, true)
      ensures channel.HasNoEvent() && channel.loopCalls == [] && !channel.tied
      ensures sendBuffer.Readable() == [] && recvBuffer.Readable() == []
      ensures Outgoing() == [] && upcalls == []
      ensures this.hasMessageCallback == hasMessageCallback && this.hasCloseCallback == hasCloseCallback
      ensures fresh(channel) && fresh(sendBuffer) && fresh(recvBuffer)
    {
      this.fd := fd;
      this.hasMessageCallback := hasMessageCallback;
      this.hasCloseCallback := hasCloseCallback;
      var ch := new EventChannel.EventChannel(fd);
      ch.SetReadCallback(true);
      ch.SetWriteCallback(true);
      ch.SetErrorCallback(true);
      ch.SetCloseCallback(true);
      channel := ch;
      sendBuffer := new Buffer.Default();
      recvBuffer := new Buffer.Default();
      state := CONNECTING;
      sent := [];
      upcalls := [];
    }

    /** onEstablished: only from CONNECTING; ties the channel, starts reading, reports CONNECTED. */
    method OnEstablished(owner: nat)
      requires state == CONNECTING
      modifies this, channel
      ensures state == CONNECTED && upcalls == old(upcalls) + [OnConnection(CONNECTED)]
      ensures channel.tied && channel.IsReading() && channel.listening == SetBits(old(channel.listening), READ_EVENT)
      ensures channel.loopCalls == old(channel.loopCalls) + [UpdateChannel(channel.fd)] && channel.addedToLoop
      ensures sent == old(sent)
    {
      channel.Tie(owner);
      channel.EnableReading(true);
      state := CONNECTED;
      upcalls := upcalls + [OnConnection(state)];
    }

    /** onRemoved: a CONNECTED connection becomes DISCONNECTED and leaves the loop; otherwise nothing happens. */
    method OnRemoved()
      modifies this, channel
      ensures old(state) == CONNECTED ==>
        && state == DISCONNECTED && upcalls == old(upcalls) + [OnConnection(DISCONNECTED)]
        && channel.HasNoEvent() && channel.loopCalls == old(channel.loopCalls) + [RemoveChannel(channel.fd)]
      ensures old(state) != CONNECTED ==>
        state == old(state) && upcalls == old(upcalls)
        && channel.listening == old(channel.listening) && channel.loopCalls == old(channel.loopCalls)
      ensures sent == old(sent)
    {
      if state == CONNECTED {
        state := DISCONNECTED;
        channel.DisableAll(true);
        upcalls := upcalls + [OnConnection(state)];
      }
    }

    /**
     * sendInLoop with wrote the result write(2) would return. Only a
     * CONNECTED connection sends. It writes directly only when nothing is
     * queued and the channel is not waiting to write; whatever was not
     * written is queued and writing is enabled. The byte stream is kept in
     * order: what reached the socket followed by what is queued grows by
     * exactly the message.
     */
    method SendInLoop(message: seq<byte>, wrote: int)
      requires Valid() && wrote <= |message|
      modifies this`sent, sendBuffer, channel
      ensures Valid()
      ensures old(state) != CONNECTED ==>
        && sent == old(sent) && sendBuffer.Readable() == old(sendBuffer.Readable())
        && channel.listening == old(channel.listening) && channel.loopCalls == old(channel.loopCalls)
      ensures old(state) == CONNECTED ==> Outgoing() == old(Outgoing()) + message
      ensures old(state == CONNECTED && sendBuffer.BytesReadable() == 0 && !channel.IsWriting()) && wrote >= 0 ==>
        sent == old(sent) + message[..wrote] && sendBuffer.Readable() == message[wrote..]
      ensures old(state == CONNECTED && (sendBuffer.BytesReadable() > 0 || channel.IsWriting())) || wrote < 0 ==>
        sent == old(sent)
      ensures old(state) == CONNECTED && (message != [] || old(QueueWatched())) ==> QueueWatched()
      ensures old(state) == CONNECTED && sendBuffer.Readable() == [] ==> channel.listening == old(channel.listening)
    {
      if state != CONNECTED {
        return;
      }
      ghost var sent0, queued0 := sent, sendBuffer.Readable();
      var wroteBytes := 0;
      var remaining := |message|;
      if sendBuffer.BytesReadable() == 0 && !channel.IsWriting() {
        wroteBytes := wrote;
        if wroteBytes < 0 {
          wroteBytes := 0;
        } else {
          sent := sent + message[..wroteBytes];
          remaining := |message| - wroteBytes;
        }
      }
      if remaining > 0 {
        QueueRest(message[wroteBytes..]);
      }
      assert message[wroteBytes..] == [] || remaining > 0;
      assert sendBuffer.Readable() == queued0 + message[wroteBytes..];
      SplitSend(sent0, queued0, message, wroteBytes);
    }

    /** The unwritten rest of a send is queued, and the channel is made to wait for writability. */
    method QueueRest(rest: seq<byte>)
      requires Valid() && rest != []
      modifies sendBuffer, channel
      ensures Valid() && sendBuffer.Readable() == old(sendBuffer.Readable()) + rest
      ensures channel.IsWriting()
      ensures old(channel.IsWriting()) ==> channel.listening == old(channel.listening) && channel.loopCalls == old(channel.loopCalls)
    {
      sendBuffer.Append(rest);
      if !channel.IsWriting() {
        channel.EnableWriting(true);
      }
    }

    /**
     * handleWrite with wrote the result of write(2) on the queued bytes:
     * nothing happens unless the channel is writing; the accepted bytes
     * leave the front of the queue, and an emptied queue stops writing.
     */
    method HandleWrite(wrote: int)
      requires Valid() && wrote <= sendBuffer.BytesReadable()
      modifies this, sendBuffer, channel
      ensures Valid() && Outgoing() == old(Outgoing())
      ensures state == old(state) && upcalls == old(upcalls)
      ensures old(channel.IsWriting()) && wrote >= 0 ==>
        sent == old(sent) + old(sendBuffer.Readable())[..wrote] && sendBuffer.Readable() == old(sendBuffer.Readable())[wrote..]
      ensures old(channel.IsWriting()) && wrote >= 0 && sendBuffer.Readable() == [] ==> !channel.IsWriting()
      ensures old(QueueWatched()) ==> QueueWatched()
      ensures !old(channel.IsWriting()) || wrote < 0 ==>
        sent == old(sent) && sendBuffer.Readable() == old(sendBuffer.Readable())
        && channel.listening == old(channel.listening)
    {
      if !channel.IsWriting() {
        return;
      }
      if wrote >= 0 {
        var queued := sendBuffer.Readable();
        sent := sent + queued[..wrote];
        sendBuffer.Resume(wrote);
        if sendBuffer.BytesReadable() == 0 {
          channel.DisableWriting(true);
        }
        assert queued == queued[..wrote] + queued[wrote..];
      }
    }

    /** handleClose: DISCONNECTED, no events, then the connection callback and the close callback. */
    method HandleClose()
      modifies this, channel
      ensures state == DISCONNECTED && channel.HasNoEvent()
      ensures channel.loopCalls == old(channel.loopCalls) + [RemoveChannel(channel.fd)]
      ensures upcalls == old(upcalls) + [OnConnection(DISCONNECTED)] + (if hasCloseCallback then [OnClose] else [])
      ensures sent == old(sent)
    {
      state := DISCONNECTED;
      channel.DisableAll(true);
      upcalls := upcalls + [OnConnection(state)];
      if hasCloseCallback {
        upcalls := upcalls + [OnClose];
      }
    }

    /**
     * handleRead with the readv outcome as input (n and the bytes it
     * delivered): end of stream closes the connection, data goes to the
     * message callback, and an error is ignored. Without a user message
     * callback the default one discards everything received.
     */
    method HandleRead(n: int, incoming: seq<byte>, errno: int, receivedTime: int)
      requires Valid()
      requires n >= 0 ==> |incoming| == n
      requires n <= recvBuffer.BytesWritable() + (if recvBuffer.BytesWritable() < EXTRA_BUF_SIZE then EXTRA_BUF_SIZE else 0)
      modifies this, recvBuffer, channel
      ensures Valid() && sent == old(sent)
      ensures n == 0 ==>
        && state == DISCONNECTED && channel.HasNoEvent()
        && upcalls == old(upcalls) + [OnConnection(DISCONNECTED)] + (if hasCloseCallback then [OnClose] else [])
        && recvBuffer.Readable() == old(recvBuffer.Readable())
      ensures n > 0 && hasMessageCallback ==>
        && state == old(state) && upcalls == old(upcalls) + [OnMessage(receivedTime)]
        && recvBuffer.Readable() == old(recvBuffer.Readable()) + incoming
      ensures n > 0 && !hasMessageCallback ==>
        state == old(state) && upcalls == old(upcalls) && recvBuffer.Readable() == []
      ensures n < 0 ==>
        state == old(state) && upcalls == old(upcalls) && recvBuffer.Readable() == old(recvBuffer.Readable())
      ensures n != 0 ==> channel.listening == old(channel.listening) && channel.loopCalls == old(channel.loopCalls)
    {
      var savedError := 0;
      var got;
      got, savedError := recvBuffer.HandleSocketRead(n, incoming, errno, savedError);
      if got == 0 {
        HandleClose();
      } else if got > 0 {
        if hasMessageCallback {
          upcalls := upcalls + [OnMessage(receivedTime)];
        } else {
          DefaultMessageCallback();
        }
      }
    }

    /** The default message callback drops every received byte. */
    method DefaultMessageCallback()
      requires Valid()
      modifies recvBuffer
      ensures Valid() && recvBuffer.Readable() == []
    {
      recvBuffer.ResumeAll();
    }
  }
}
