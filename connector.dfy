/**
 * Connector (wind/conn/Connector.h, wind/conn/Connector.cpp): the client
 * side of a connection attempt. It moves between DISCONNECTED, CONNECTING
 * and CONNECTED, classifies the errno of connect(2), and retries with a
 * delay that starts at 500 ms and doubles up to 30 s.
 *
 * The socket calls are inputs: each attempt supplies the new socket's fd
 * and connect's errno, and a writable channel supplies SO_ERROR and whether
 * the socket connected to itself. Retry timers, cancellations, descriptors
 * closed and descriptors handed to the connected callback are logged.
 */
module Connector {
  import opened Wrappers
  import opened Numerals

  datatype State = DISCONNECTED | CONNECTING | CONNECTED

  datatype ConnectorType = INET | LOCAL | UNKNOWN

  const MILLI_SECS_PER_SECOND: int := 1000
  const MICRO_SECS_PER_MILLISECOND: int := 1000
  /** 500 ms before the first retry. */
  const INITIAL_RETRY_DELAY: int := 500
  /** Never more than 30 s between retries. */
  const MAX_RETRY_DELAY: int := 30 * MILLI_SECS_PER_SECOND

  /** The Linux errno values handleConnectResult tells apart. */
  const EAGAIN: int := 11
  const EADDRINUSE: int := 98
  const EADDRNOTAVAIL: int := 99
  const ENETUNREACH: int := 101
  const EISCONN: int := 106
  const ECONNREFUSED: int := 111
  const EINPROGRESS: int := 115

  const LOCK_SUFFIX: string := ".lock"

  /** What handleConnectResult does with the errno of connect(2). */
  datatype Outcome = Connected | InProgress | Transient | Other

  function Classify(savedErrno: int): (o: Outcome)
    ensures o == Connected <==> savedErrno == 0
    ensures o == InProgress <==> savedErrno in {EINPROGRESS, EISCONN}
    ensures o == Transient <==> savedErrno in {EAGAIN, EADDRINUSE, EADDRNOTAVAIL, ECONNREFUSED, ENETUNREACH}
  {
    if savedErrno == 0 then Connected
    else if savedErrno == EINPROGRESS || savedErrno == EISCONN then InProgress
    else if savedErrno == EAGAIN || savedErrno == EADDRINUSE || savedErrno == EADDRNOTAVAIL
      || savedErrno == ECONNREFUSED || savedErrno == ENETUNREACH then Transient
    else Other
  }

  function Min(a: int, b: int): int
  {
    if a <= b then a else b
  }

  /** The delay after k retries since the last restart: 500 ms doubled k times, capped at 30 s. */
  function Backoff(k: nat): (d: int)
    ensures INITIAL_RETRY_DELAY <= d <= MAX_RETRY_DELAY
  {
    if k == 0 then INITIAL_RETRY_DELAY else Min(MAX_RETRY_DELAY, Backoff(k - 1) * 2)
  }

  /** The closed form of the back-off: min(30000, 500 * 2^k). */
  lemma {:induction false} BackoffClosedForm(k: nat)
    ensures Backoff(k) == Min(MAX_RETRY_DELAY, INITIAL_RETRY_DELAY * Pow(2, k))
  {
    if k > 0 {
      BackoffClosedForm(k - 1);
      var p := Pow(2, k - 1);
      assert Pow(2, k) == 2 * p;
      if INITIAL_RETRY_DELAY * p >= MAX_RETRY_DELAY {
        assert Backoff(k - 1) == MAX_RETRY_DELAY;
      }
    }
  }

  /** The delays are 500, 1000, 2000, 4000, 8000, 16000 ms and then 30 s for good. */
  lemma BackoffValues(k: nat)
    ensures Backoff(0) == 500 && Backoff(1) == 1000 && Backoff(2) == 2000 && Backoff(3) == 4000
    ensures Backoff(4) == 8000 && Backoff(5) == 16000
    ensures k >= 6 ==> Backoff(k) == 30000
  {
    if k >= 6 {
      BackoffCapped(k);
    }
  }

  lemma {:induction false} BackoffCapped(k: nat)
    requires k >= 6
    ensures Backoff(k) == MAX_RETRY_DELAY
  {
    if k > 6 {
      BackoffCapped(k - 1);
    }
  }

  /** stateString: the upper-case name of each state; distinct states get distinct names. */
  function StateString(s: State): (name: string)
    ensures name == "DISCONNECTED" <==> s == DISCONNECTED
    ensures name == "CONNECTING" <==> s == CONNECTING
    ensures name == "CONNECTED" <==> s == CONNECTED
  {
    match s
    case DISCONNECTED => "DISCONNECTED"
    case CONNECTING => "CONNECTING"
    case CONNECTED => "CONNECTED"
  }

  /** The local socket path of a Unix-domain attempt: the remote path, '-', the pid. */
  function LocalPath(remotePath: string, pid: string): (p: string)
    ensures |p| == |remotePath| + 1 + |pid|
    ensures p[..|remotePath|] == remotePath && p[|remotePath|] == '-' && p[|remotePath| + 1..] == pid
  {
    remotePath + "-" + pid
  }

  /** The lock file guarding a local path: the path followed by ".lock". */
  function LockFileName(socketPath: string): (f: string)
    ensures |f| == |socketPath| + 5 && f[..|socketPath|] == socketPath && f[|socketPath|..] == ".lock"
  {
    socketPath + LOCK_SUFFIX
  }

  /** One connection attempt's inputs: the socket created, connect's errno, and the pid text. */
  datatype Attempt = Attempt(sockFd: int, savedErrno: int, pid: string)

  class Connector {
    const connectorType: ConnectorType
    const remotePath: string
    var state: State
    var started: bool
    /** The next retry delay, in ms. */
    var retryDelay: int
    /** Retries scheduled since construction or the last restart. */
    ghost var retries: nat
    var hasCallback: bool
    /** channel_: the fd of the channel watching a connecting socket, if any. */
    var channel: Option<int>
    var retryingTimer: Option<nat>
    var lockFileName: string
    /** The delays, in microseconds, of the retry timers scheduled. */
    var scheduled: seq<int>
    /** The retry timers cancelled. */
    var cancelled: seq<nat>
    /** The descriptors closed when their UniqueFd went out of scope. */
    var closed: seq<int>
    /** The descriptors handed to the connected callback. */
    var handedOff: seq<int>

    /** retryDelay_ is the back-off after the retries made so far. */
    ghost predicate DelayValid()
      reads this
    {
      retryDelay == Backoff(retries)
    }

    ghost predicate Valid()
      reads this
    {
      DelayValid() && (state == CONNECTING ==> channel.Some?)
    }

    /** Both constructors: DISCONNECTED, not started, 500 ms delay, no channel, no timer. */
    constructor (connectorType: ConnectorType, remotePath: string)
      ensures Valid() && this.connectorType == connectorType && this.remotePath == remotePath
      ensures state == DISCONNECTED && !started && retryDelay == INITIAL_RETRY_DELAY
      ensures !hasCallback && channel == None && retryingTimer == None && lockFileName == ""
      ensures scheduled == [] && cancelled == [] && closed == [] && handedOff == []
    {
      this.connectorType := connectorType;
      this.remotePath := remotePath;
      state := DISCONNECTED;
      started := false;
      retryDelay := INITIAL_RETRY_DELAY;
      retries := 0;
      hasCallback := false;
      channel := None;
      retryingTimer := None;
      lockFileName := "";
      scheduled := [];
      cancelled := [];
      closed := [];
      handedOff := [];
    }

    /** setOnConnectedCallback: ignored once started. */
    method SetOnConnectedCallback(callback: bool)
      modifies this`hasCallback
      ensures hasCallback == if old(started) then old(hasCallback) else callback
    {
      if started {
        return;
      }
      hasCallback := callback;
    }

    /** removeChannel: the channel stops listening and is dropped. */
    method RemoveChannel()
      modifies this`channel
      ensures channel == None
    {
      if channel == None {
        return;
      }
      channel := None;
    }

    /**
     * stop: clears started_; a connecting attempt is abandoned, its channel
     * removed and a pending retry timer cancelled.
     */
    method Stop()
      requires Valid()
      modifies this`started, this`state, this`channel, this`cancelled
      ensures Valid() && !started
      ensures old(state) == CONNECTING ==> state == DISCONNECTED && channel == None
      ensures old(state) == CONNECTING ==>
        cancelled == old(cancelled) + (if retryingTimer.Some? then [retryingTimer.value] else [])
      ensures old(state) != CONNECTING ==> state == old(state) && channel == old(channel) && cancelled == old(cancelled)
    {
      started := false;
      if state == CONNECTING {
        state := DISCONNECTED;
        RemoveChannel();
        if retryingTimer.Some? {
          cancelled := cancelled + [retryingTimer.value];
        }
      }
    }

    /** retry: always DISCONNECTED; when started, a timer after retryDelay_ ms and the delay doubles, capped. */
    method Retry()
      requires DelayValid()
      modifies this`state, this`retryingTimer, this`scheduled, this`retryDelay, this`retries
      ensures Valid() && state == DISCONNECTED
      ensures !started ==> retryDelay == old(retryDelay) && scheduled == old(scheduled) && retryingTimer == old(retryingTimer)
      ensures started ==> scheduled == old(scheduled) + [old(retryDelay) * MICRO_SECS_PER_MILLISECOND]
      ensures started ==> retryDelay == Min(MAX_RETRY_DELAY, 2 * old(retryDelay)) && retries == old(retries) + 1
      ensures started ==> retryingTimer == Some(|old(scheduled)|)
    {
      state := DISCONNECTED;
      if !started {
        return;
      }
      retryingTimer := Some(|scheduled|);
      scheduled := scheduled + [retryDelay * MICRO_SECS_PER_MILLISECOND];
      retryDelay := Min(MAX_RETRY_DELAY, retryDelay * 2);
      retries := retries + 1;
    }

    /** establish: CONNECTED, and the socket goes to the callback or is closed. */
    method Establish(sockFd: int)
      modifies this`state, this`handedOff, this`closed
      ensures state == CONNECTED
      ensures hasCallback ==> handedOff == old(handedOff) + [sockFd] && closed == old(closed)
      ensures !hasCallback ==> closed == old(closed) + [sockFd] && handedOff == old(handedOff)
    {
      state := CONNECTED;
      if hasCallback {
        handedOff := handedOff + [sockFd];
      } else {
        closed := closed + [sockFd];
      }
    }

    /** connecting: from DISCONNECTED with no channel, a channel now watches the socket for writability. */
    method Connecting(sockFd: int)
      requires state == DISCONNECTED && channel == None
      modifies this`state, this`channel
      ensures state == CONNECTING && channel == Some(sockFd)
    {
      state := CONNECTING;
      channel := Some(sockFd);
    }

    /**
     * handleConnectResult: 0 establishes; EINPROGRESS and EISCONN start
     * connecting; the transient errors retry; any other errno is only
     * logged. Unless the socket was established or handed to the channel,
     * it is closed.
     */
    method HandleConnectResult(sockFd: int, savedErrno: int)
      requires Valid() && state == DISCONNECTED && channel == None
      modifies this`state, this`channel, this`handedOff, this`closed, this`retryingTimer, this`scheduled,
        this`retryDelay, this`retries
      ensures Valid()
      ensures Classify(savedErrno) == Connected ==> state == CONNECTED
      ensures Classify(savedErrno) == InProgress ==> state == CONNECTING && channel == Some(sockFd)
      ensures Classify(savedErrno) == Transient ==> state == DISCONNECTED && closed == old(closed) + [sockFd]
      ensures Classify(savedErrno) == Transient && started ==> scheduled == old(scheduled) + [old(retryDelay) * MICRO_SECS_PER_MILLISECOND]
      ensures Classify(savedErrno) == Transient && started ==> retryDelay == Min(MAX_RETRY_DELAY, 2 * old(retryDelay))
      ensures Classify(savedErrno) == Other ==>
        state == DISCONNECTED && closed == old(closed) + [sockFd] && scheduled == old(scheduled)
      ensures Classify(savedErrno) != Transient ==> retryDelay == old(retryDelay)
    {
      var outcome := Classify(savedErrno);
      match outcome
      case Connected =>
        Establish(sockFd);
      case InProgress =>
        Connecting(sockFd);
      case Transient =>
        Retry();
        closed := closed + [sockFd];
      case Other =>
        closed := closed + [sockFd];
    }

    /**
     * startInLoop: requires DISCONNECTED; nothing unless started. An Inet
     * connector connects; a local one first takes the lock file of its
     * local path; an unknown type only warns.
     */
    method StartInLoop(attempt: Attempt)
      requires Valid() && state == DISCONNECTED && channel == None
      modifies this`state, this`channel, this`handedOff, this`closed, this`retryingTimer, this`scheduled,
        this`retryDelay, this`retries, this`lockFileName
      ensures Valid()
      ensures !started || connectorType == UNKNOWN ==>
        state == old(state) && closed == old(closed) && scheduled == old(scheduled) && lockFileName == old(lockFileName)
        && retryDelay == old(retryDelay)
      ensures started && connectorType == LOCAL ==> lockFileName == LockFileName(LocalPath(remotePath, attempt.pid))
      ensures started && connectorType != UNKNOWN && Classify(attempt.savedErrno) == Connected ==> state == CONNECTED
      ensures started && connectorType != UNKNOWN && Classify(attempt.savedErrno) == InProgress ==>
        state == CONNECTING && channel == Some(attempt.sockFd)
      ensures started && connectorType != UNKNOWN && Classify(attempt.savedErrno) == Transient ==>
        state == DISCONNECTED && scheduled == old(scheduled) + [old(retryDelay) * MICRO_SECS_PER_MILLISECOND]
      ensures started && connectorType != UNKNOWN && Classify(attempt.savedErrno) == Transient ==>
        retryDelay == Min(MAX_RETRY_DELAY, 2 * old(retryDelay))
    {
      if !started {
        return;
      }
      match connectorType
      case INET =>
        HandleConnectResult(attempt.sockFd, attempt.savedErrno);
      case LOCAL =>
        lockFileName := LockFileName(LocalPath(remotePath, attempt.pid));
        HandleConnectResult(attempt.sockFd, attempt.savedErrno);
      case UNKNOWN =>
    }

    /** start: idempotent; the first call sets started_ and makes an attempt. */
    method Start(attempt: Attempt)
      requires Valid() && (!started ==> state == DISCONNECTED && channel == None)
      modifies this
      ensures Valid() && started
      ensures old(started) ==> state == old(state) && scheduled == old(scheduled) && closed == old(closed)
      ensures old(started) ==> handedOff == old(handedOff) && channel == old(channel) && retryDelay == old(retryDelay)
    {
      if started {
        return;
      }
      started := true;
      StartInLoop(attempt);
    }

    /**
     * restart: stops a started connector, then starts afresh: DISCONNECTED,
     * the delay back to 500 ms, started, and a new attempt.
     */
    method Restart(attempt: Attempt)
      requires Valid() && (channel.Some? ==> started && state == CONNECTING)
      modifies this
      ensures Valid() && started
      ensures connectorType == UNKNOWN ==> state == DISCONNECTED && retryDelay == INITIAL_RETRY_DELAY
      ensures Classify(attempt.savedErrno) == Connected && connectorType != UNKNOWN ==> state == CONNECTED
      ensures Classify(attempt.savedErrno) == InProgress && connectorType != UNKNOWN ==>
        state == CONNECTING && channel == Some(attempt.sockFd)
      ensures Classify(attempt.savedErrno) == Transient && connectorType != UNKNOWN ==>
        scheduled == old(scheduled) + [INITIAL_RETRY_DELAY * MICRO_SECS_PER_MILLISECOND] && retryDelay == 1000
    {
      if started {
        Stop();
      }
      state := DISCONNECTED;
      retryDelay := INITIAL_RETRY_DELAY;
      retries := 0;
      started := true;
      StartInLoop(attempt);
    }

    /**
     * onChannelWritable: the channel's socket is taken over and the channel
     * removed. When connecting, SO_ERROR 0 without a self-connect
     * establishes; anything else retries and closes the socket. In any
     * other state the socket is closed and the connector DISCONNECTED.
     */
    method OnChannelWritable(sockError: int, selfConnect: bool)
      requires Valid() && channel.Some?
      modifies this
      ensures Valid() && channel == None
      ensures old(state) == CONNECTING && sockError == 0 && !selfConnect ==> state == CONNECTED
      ensures old(state) == CONNECTING && (sockError != 0 || selfConnect) ==>
        state == DISCONNECTED && closed == old(closed) + [old(channel).value]
      ensures old(state) == CONNECTING && (sockError != 0 || selfConnect) && started ==>
        scheduled == old(scheduled) + [old(retryDelay) * MICRO_SECS_PER_MILLISECOND]
      ensures old(state) != CONNECTING ==>
        state == DISCONNECTED && closed == old(closed) + [old(channel).value] && scheduled == old(scheduled)
    {
      var sockFd := channel.value;
      RemoveChannel();
      if state == CONNECTING {
        if sockError == 0 {
          if selfConnect {
            Retry();
            closed := closed + [sockFd];
          } else {
            Establish(sockFd);
          }
        } else {
          Retry();
          closed := closed + [sockFd];
        }
      } else {
        state := DISCONNECTED;
        closed := closed + [sockFd];
      }
    }

    /**
     * onChannelError: when connecting, the channel is removed, its socket
     * closed and a retry made; otherwise the connector becomes
     * DISCONNECTED and nothing else changes.
     */
    method OnChannelError()
      requires Valid() && channel.Some?
      modifies this
      ensures Valid() && state == DISCONNECTED
      ensures old(state) == CONNECTING ==> channel == None && closed == old(closed) + [old(channel).value]
      ensures old(state) == CONNECTING && started ==>
        scheduled == old(scheduled) + [old(retryDelay) * MICRO_SECS_PER_MILLISECOND]
      ensures old(state) != CONNECTING ==>
        channel == old(channel) && closed == old(closed) && scheduled == old(scheduled)
    {
      if state == CONNECTING {
        var sockFd := channel.value;
        RemoveChannel();
        Retry();
        closed := closed + [sockFd];
      } else {
        state := DISCONNECTED;
      }
    }

    /** The destructor removes the channel. */
    method Destroy()
      modifies this`channel
      ensures channel == None
    {
      RemoveChannel();
    }
  }
}
