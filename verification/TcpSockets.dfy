/**
 * One end of a TCP connection (kernel/src/net/tcp.rs and the socket part of
 * kernel/src/net/mod.rs): what each received or sent segment does to a socket.
 */
module TcpSockets {
  import opened Basics

  const MODULUS: nat := 0x1_0000_0000

  datatype State = Closed | Listen | SynReceived | SynSent | Established | FinWait1 | FinWait2 | CloseWait | Closing | LastAck | TimeWait

  datatype Socket = Socket(state: State, seqNum: nat, nextRecv: nat, buf: seq<u8>)

  /** The parts of a segment the state machine looks at. */
  datatype Segment = Segment(seqNum: nat, ackNum: nat, syn: bool, ack: bool, fin: bool, data: seq<u8>)

  function Add(a: nat, n: nat): nat { (a + n) % MODULUS }

  const FRESH: Socket := Socket(Closed, 0, 0, [])

  // ----- the state machine, transition by transition

  function StartPassive(s: Socket): Option<Socket> {
    if s.state != Closed then None else Some(s.(state := Listen, seqNum := 0, buf := []))
  }

  function StartActive(s: Socket): Option<Socket> {
    if s.state != Closed then None else Some(s.(state := SynSent, seqNum := 0, buf := []))
  }

  function ReceiveSyn(s: Socket, remote: nat): Option<Socket> {
    if s.state != Listen then None
    else Some(s.(state := SynReceived, nextRecv := Add(remote, 1), seqNum := Add(s.seqNum, 1)))
  }

  function ReceiveSynAck(s: Socket, remote: nat): Option<Socket> {
    if s.state != SynSent then None
    else Some(s.(state := Established, nextRecv := Add(remote, 1), seqNum := Add(s.seqNum, 1)))
  }

  function ReceiveAck(s: Socket): Option<Socket> {
    if s.state != SynReceived && s.state != Established then None else Some(s.(state := Established))
  }

  /** A FIN is taken whatever its sequence number. */
  function ReceiveFin(s: Socket): Option<Socket> {
    if s.state != Established then None else Some(s.(state := CloseWait, nextRecv := Add(s.nextRecv, 1)))
  }

  /** Data is taken only when it starts at the next expected byte. */
  function ReceiveData(s: Socket, data: seq<u8>, seqNum: nat): Option<Socket> {
    if s.state != Established then None
    else if seqNum != s.nextRecv || data == [] then Some(s)
    else Some(s.(buf := s.buf + data, nextRecv := Add(s.nextRecv, |data|)))
  }

  function AckReply(s: Socket): Segment {
    Segment(s.seqNum, s.nextRecv, false, true, false, [])
  }

  /** The socket and the reply after one received segment. */
  function Receive(s: Socket, p: Segment): (Socket, Option<Segment>) {
    match s.state
    case Listen =>
      if !p.syn then (s, None)
      else
        var t := ReceiveSyn(s, p.seqNum).value;
        (t, Some(Segment(s.seqNum, t.nextRecv, true, true, false, [])))
    case SynSent =>
      if !p.syn || !p.ack then (s, None)
      else
        var t := ReceiveSynAck(s, p.seqNum).value;
        (t, Some(AckReply(t)))
    case SynReceived =>
      if !p.ack then (s, None) else (ReceiveAck(s).value, None)
    case Established =>
      var a := if p.ack then ReceiveAck(s).value else s;
      var d := if p.data != [] then ReceiveData(a, p.data, p.seqNum).value else a;
      var f := if p.fin then ReceiveFin(d).value else d;
      (f, if p.data != [] || p.fin then Some(AckReply(f)) else None)
    case _ => (s, None)
  }

  /** The bytes a segment adds to the receive buffer. */
  function Taken(s: Socket, p: Segment): seq<u8> {
    if s.state == Established && p.seqNum == s.nextRecv then p.data else []
  }

  /** All that receiving does to a socket: bytes appended in order, and the next number moved past them. */
  lemma ReceiveEffect(s: Socket, p: Segment)
    ensures var t := Receive(s, p).0;
            && t.buf == s.buf + Taken(s, p)
            && (s.state == Established ==>
                  && t.state == (if p.fin then CloseWait else Established)
                  && t.nextRecv == (if p.fin then Add(Add(s.nextRecv, |Taken(s, p)|), 1)
                                    else if Taken(s, p) == [] then s.nextRecv else Add(s.nextRecv, |Taken(s, p)|))
                  && t.seqNum == s.seqNum)
  {
  }

  /** Which segments move a socket to another state, and to which. */
  lemma ReceiveMoves(s: Socket, p: Segment)
    ensures var t := Receive(s, p).0;
            t.state == if s.state == Listen && p.syn then SynReceived
                       else if s.state == SynSent && p.syn && p.ack then Established
                       else if s.state == SynReceived && p.ack then Established
                       else if s.state == Established && p.fin then CloseWait
                       else s.state
  {
  }

  /** A handshake segment fixes what is expected next, one past the peer's number, and counts as one in the own numbers. */
  lemma HandshakeNumbers(s: Socket, p: Segment)
    requires Receive(s, p).0.state != s.state && (s.state == Listen || s.state == SynSent)
    ensures var t := Receive(s, p).0;
            t.nextRecv == (p.seqNum + 1) % MODULUS && t.seqNum == (s.seqNum + 1) % MODULUS && t.buf == s.buf
  {
  }

  /**
   * A reply is sent to a SYN while listening, to a SYN-ACK while connecting and
   * to data or a FIN while established. It acknowledges everything up to the
   * number expected next, carries no data, and is numbered with the first number
   * of the connection in a SYN-ACK and the current one otherwise.
   */
  lemma ReplyMeans(s: Socket, p: Segment)
    ensures Receive(s, p).1.Some? <==>
              || (s.state == Listen && p.syn)
              || (s.state == SynSent && p.syn && p.ack)
              || (s.state == Established && (p.data != [] || p.fin))
    ensures var (t, r) := Receive(s, p);
            r.Some? ==>
              && r.value.ack && r.value.ackNum == t.nextRecv && !r.value.fin && r.value.data == []
              && (r.value.syn <==> s.state == Listen)
              && r.value.seqNum == if s.state == Listen then s.seqNum else t.seqNum
  {
  }

  // ----- sending

  function SynSegment(s: Socket): Segment {
    Segment(s.seqNum, 0, true, false, false, [])
  }

  function DataSegment(s: Socket, data: seq<u8>): Segment {
    Segment(s.seqNum, s.nextRecv, false, true, false, data)
  }

  function FinSegment(s: Socket): Segment {
    Segment(s.seqNum, s.nextRecv, false, true, true, [])
  }

  // ----- the socket object

  class TcpSocket {
    var state: State
    var seqNum: nat
    var nextRecv: nat
    var buf: seq<u8>

    function Abs(): Socket
      reads this
    {
      Socket(state, seqNum, nextRecv, buf)
    }

    constructor ()
      ensures Abs() == FRESH
    {
      state, seqNum, nextRecv, buf := Closed, 0, 0, [];
    }

    method ResetBuf() returns (data: seq<u8>)
      modifies this`buf
      ensures data == old(buf) && buf == []
    {
      data := buf;
      buf := [];
    }

    method StartPassiveOpen() returns (ok: bool)
      modifies this
      ensures ok <==> old(state) == Closed
      ensures ok ==> state == Listen && seqNum == 0 && buf == [] && nextRecv == old(nextRecv)
      ensures Abs() == if ok then StartPassive(old(Abs())).value else old(Abs())
    {
      if state != Closed {
        return false;
      }
      state, seqNum := Listen, 0;
      var _ := ResetBuf();
      return true;
    }

    method StartActiveOpen() returns (ok: bool)
      modifies this
      ensures ok <==> old(state) == Closed
      ensures ok ==> state == SynSent && seqNum == 0 && buf == [] && nextRecv == old(nextRecv)
      ensures Abs() == if ok then StartActive(old(Abs())).value else old(Abs())
    {
      if state != Closed {
        return false;
      }
      state, seqNum := SynSent, 0;
      var _ := ResetBuf();
      return true;
    }

    method TakeData(data: seq<u8>, number: nat) returns (ok: bool)
      modifies this
      ensures ok <==> ReceiveData(old(Abs()), data, number).Some?
      ensures Abs() == if ok then ReceiveData(old(Abs()), data, number).value else old(Abs())
    {
      if state != Established {
        return false;
      }
      if number != nextRecv {
        return true;
      }
      if data != [] {
        buf := buf + data;
        nextRecv := Add(nextRecv, |data|);
      }
      return true;
    }

    /** The first half of a handshake on a listening socket; hands out the number to answer with. */
    method TakeSyn(remote: nat) returns (isn: Option<nat>)
      modifies this
      ensures isn.Some? <==> ReceiveSyn(old(Abs()), remote).Some?
      ensures isn.Some? ==> isn.value == old(seqNum) && Abs() == ReceiveSyn(old(Abs()), remote).value
      ensures isn.None? ==> Abs() == old(Abs())
    {
      if state != Listen {
        return None;
      }
      isn := Some(seqNum);
      state, nextRecv, seqNum := SynReceived, Add(remote, 1), Add(seqNum, 1);
    }

    /**
     * The kernel's handling of a segment for this socket. A listening socket
     * stays as it is and answers a SYN with a new socket for the connection;
     * every other socket handles the segment itself.
     */
    method ReceiveTcpPacket(p: Segment) returns (reply: Option<Segment>, connection: Option<TcpSocket>)
      modifies this
      ensures connection.Some? <==> old(state) == Listen && p.syn
      ensures connection.Some? ==>
                && fresh(connection.value) && Abs() == old(Abs())
                && (connection.value.Abs(), reply) == Receive(StartPassive(FRESH).value, p)
      ensures connection.None? ==> (Abs(), reply) == Receive(old(Abs()), p)
    {
      reply, connection := None, None;
      match state
      case Listen =>
        if p.syn {
          var s := new TcpSocket();
          var ok := s.StartPassiveOpen();
          var isn := s.TakeSyn(p.seqNum);
          reply := Some(Segment(isn.value, s.nextRecv, true, true, false, []));
          connection := Some(s);
        }
      case SynSent =>
        if p.syn && p.ack {
          state, nextRecv, seqNum := Established, Add(p.seqNum, 1), Add(seqNum, 1);
          reply := Some(Segment(seqNum, nextRecv, false, true, false, []));
        }
      case SynReceived =>
        if p.ack {
          state := Established;
        }
      case Established =>
        var ackNeeded := false;
        if p.ack {
          state := Established;
        }
        if p.data != [] {
          var ok := TakeData(p.data, p.seqNum);
          ackNeeded := true;
        }
        if p.fin {
          state, nextRecv := CloseWait, Add(nextRecv, 1);
          ackNeeded := true;
        }
        if ackNeeded {
          reply := Some(Segment(seqNum, nextRecv, false, true, false, []));
        }
      case _ =>
    }

    method SendTcpSyn() returns (p: Option<Segment>)
      ensures p == if state == SynSent then Some(SynSegment(Abs())) else None
    {
      if state != SynSent {
        return None;
      }
      p := Some(Segment(seqNum, 0, true, false, false, []));
    }

    method SendTcpPacket(data: seq<u8>) returns (p: Option<Segment>)
      modifies this`seqNum
      ensures p == if old(state) == Established then Some(DataSegment(old(Abs()), data)) else None
      ensures seqNum == if old(state) == Established && data != [] then Add(old(seqNum), |data|) else old(seqNum)
    {
      if state != Established {
        return None;
      }
      p := Some(Segment(seqNum, nextRecv, false, true, false, data));
      if data != [] {
        seqNum := Add(seqNum, |data|);
      }
    }

    method SendTcpFin() returns (p: Option<Segment>)
      modifies this`seqNum
      ensures p == if old(state) == Established then Some(FinSegment(old(Abs()))) else None
      ensures seqNum == if old(state) == Established then Add(old(seqNum), 1) else old(seqNum)
    {
      if state != Established {
        return None;
      }
      p := Some(Segment(seqNum, nextRecv, false, true, true, []));
      seqNum := Add(seqNum, 1);
    }
  }
}
