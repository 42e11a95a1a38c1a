// The write path of one TCP connection (socket_server.c): senders that may write directly, and the
// socket thread with its two lists. One step for each shared access or locked region.

module SocketWrite {
  import opened Options

  /** What one send call hands over; 'no' counts the calls, 'high' is its priority. */
  datatype Packet = Packet(sender: nat, no: nat, size: nat, high: bool)

  /** Byte 'k' of a packet, as it appears on the connection. */
  datatype Cell = Cell(p: Packet, k: nat)

  /** A packet of which 'sent' bytes are written. */
  datatype Buf = Buf(p: Packet, sent: nat)

  datatype Kind = Connecting | Connected | HalfClose | Invalid

  datatype Owner = Socket | Sender(t: nat)

  /**
   * Where a sender is. 'Check(p, locked, k)' is about to make the k-th read of 'can_direct_write':
   * high list, low list, leftover, counter, type.
   */
  datatype SenderPc =
    | Idle
    | Check(p: Packet, locked: bool, k: nat)
    | TryLock(p: Packet)
    | Write(p: Packet)
    | Leave(p: Packet, n: nat)
    | Unlock(p: Packet, again: bool)
    | Inc(p: Packet)
    | ToPipe(p: Packet)

  /** What the socket thread does after it tried to send its lists. */
  datatype Then = Return | Closing(shutdown: bool)

  datatype SocketPc =
    | Waiting
    | Hand(p: Packet)
    | Dec
    | Try(next: Then)
    | Merge(next: Then)
    | SendHigh(next: Then)
    | SendLow(next: Then)
    | Release(next: Then)
    | Free(locked: bool)
    | Shut(locked: bool)
    | Decide(shutdown: bool)

  /** 'whole' and 'torn' record what the stream is made of: finished packets, and one cut off. */
  datatype State = State(
    kind: Kind, high: seq<Buf>, low: seq<Buf>, dw: Option<Buf>, sending: nat, size: int,
    lock: Option<Owner>, pipe: seq<Packet>, senders: map<nat, SenderPc>, socket: SocketPc,
    stream: seq<Cell>, calls: nat, whole: seq<Packet>, torn: Option<Buf>)

  const MAX_SENDING := 0xffff

  function Start(kind: Kind): State {
    State(kind, [], [], None, 0, 0, None, [], map[], Waiting, [], 0, [], None)
  }

  /** What 'write' does with a request, and what else happens from outside. */
  datatype Choice =
    | Accept(n: nat)
    | Again
    | Interrupted
    | Error
    | Send(size: nat, high: bool)
    | Command
    | Writable
    | CloseRequest(shutdown: bool)
    | Abort
    | Connect

  function PcOf(s: State, t: nat): SenderPc { if t in s.senders then s.senders[t] else Idle }

  /** Bytes 'from' up to 'to' of a packet. */
  function Bytes(p: Packet, from: nat, to: nat): (r: seq<Cell>)
    requires from <= to
    ensures |r| == to - from
  {
    seq(to - from, k requires 0 <= k < to - from => Cell(p, from + k))
  }

  function Rest(b: Buf): nat { if b.sent <= b.p.size then b.p.size - b.sent else 0 }

  function Moved(s: State, t: nat, pc: SenderPc): State { s.(senders := s.senders[t := pc]) }

  predicate Empty(high: seq<Buf>, low: seq<Buf>) { high == [] && low == [] }

  /**
   * Nothing is left to send. That is one look at lists, leftover and counter: the threads that run in
   * between only raise the counter or leave packets behind, and the socket thread alone lowers it.
   */
  predicate NoMore(s: State) { Empty(s.high, s.low) && s.dw.None? && s.sending == 0 }

  /** The k-th condition for a direct write. */
  predicate Allows(s: State, k: nat) {
    if k == 0 then s.high == []
    else if k == 1 then s.low == []
    else if k == 2 then s.dw.None?
    else if k == 3 then s.sending == 0
    else s.kind.Connected?
  }

  /** One step of sender 't'. */
  function SenderStep(s: State, t: nat, c: Choice): State {
    match PcOf(s, t)
    case Idle =>
      if c.Send? && !s.kind.Invalid? then
        var p := Packet(t, s.calls, c.size, c.high);
        Moved(s, t, if c.high then Check(p, false, 0) else Inc(p)).(calls := s.calls + 1)
      else s
    case Check(p, locked, k) =>
      if Allows(s, k) then
        Moved(s, t, if k < 4 then Check(p, locked, k + 1) else if locked then Write(p) else TryLock(p))
      else Moved(s, t, if locked then Unlock(p, true) else Inc(p))
    case TryLock(p) =>
      if s.lock.None? then Moved(s, t, Check(p, true, 0)).(lock := Some(Sender(t)))
      else Moved(s, t, Inc(p))
    case Write(p) =>
      var n := if c.Accept? && c.n <= p.size then c.n else 0;
      var s' := s.(stream := s.stream + Bytes(p, 0, n));
      if n == p.size then Moved(s', t, Unlock(p, false)).(whole := s.whole + [p])
      else Moved(s', t, Leave(p, n))
    case Leave(p, n) => Moved(s, t, Unlock(p, false)).(dw := Some(Buf(p, n)))
    case Unlock(p, again) => Moved(s, t, if again then Inc(p) else Idle).(lock := None)
    case Inc(p) =>
      if s.sending < MAX_SENDING then Moved(s, t, ToPipe(p)).(sending := s.sending + 1) else s
    case ToPipe(p) => Moved(s, t, Idle).(pipe := s.pipe + [p])
  }

  /** 'send_socket': a request that came through the pipe is queued, or dropped. */
  function Queued(s: State, p: Packet): State {
    if s.kind.Invalid? || s.kind.HalfClose? then s
    else if (Empty(s.high, s.low) && s.kind.Connected?) || p.high then
      s.(high := s.high + [Buf(p, 0)], size := s.size + p.size)
    else s.(low := s.low + [Buf(p, 0)], size := s.size + p.size)
  }

  /** Both lists are empty: a half-closed connection goes down. */
  function AllSent(s: State, next: Then): State {
    s.(socket := if s.kind.HalfClose? then Free(true) else Release(next))
  }

  /** One write of the head of the high list. */
  function WriteHigh(s: State, next: Then, c: Choice): State
    requires s.high != []
  {
    var b := s.high[0];
    match c
    case Accept(n) =>
      if n > Rest(b) then s
      else
        var s' := s.(stream := s.stream + Bytes(b.p, b.sent, b.sent + n), size := s.size - n);
        if n == Rest(b) then s'.(high := s.high[1..], whole := s.whole + [b.p])
        else s'.(high := [Buf(b.p, b.sent + n)] + s.high[1..], socket := Release(next))
    case Again => s.(socket := Release(next))
    case Error => s.(socket := Free(true))
    case _ => s
  }

  /** One write of the head of the low list; a packet sent in part moves to the high list. */
  function WriteLow(s: State, next: Then, c: Choice): State
    requires s.low != []
  {
    var b := s.low[0];
    match c
    case Accept(n) =>
      if n > Rest(b) then s
      else
        var s' := s.(stream := s.stream + Bytes(b.p, b.sent, b.sent + n), size := s.size - n);
        if n == Rest(b) then s'.(low := s.low[1..], whole := s.whole + [b.p])
        else if b.sent + n > 0 then
          s'.(high := [Buf(b.p, b.sent + n)], low := s.low[1..], socket := Release(next))
        else s'.(socket := Release(next))
    case Again => s.(socket := Release(next))
    case Error => s.(socket := Free(true))
    case _ => s
  }

  /** The packet that is cut off when the lists are freed now. */
  function Cut(s: State): Option<Buf> {
    if s.high != [] && s.high[0].sent > 0 then Some(s.high[0]) else s.torn
  }

  /** The socket thread takes a command or an event. */
  function Event(s: State, c: Choice): State {
    match c
    case Command => if s.pipe == [] then s else s.(socket := Hand(s.pipe[0]), pipe := s.pipe[1..])
    case Writable => if s.kind.Connected? || s.kind.HalfClose? then s.(socket := Try(Return)) else s
    case CloseRequest(shutdown) =>
      if s.kind.Invalid? then s
      else s.(socket := if NoMore(s) then Decide(shutdown) else Try(Closing(shutdown)))
    case Abort => if s.kind.Invalid? then s else s.(socket := Free(false))
    case Connect => if s.kind.Connecting? then s.(kind := Connected) else s
    case _ => s
  }

  /** The first part of 'force_close' frees the lists, the second, under the lock, the leftover. */
  function Close(s: State): State
    requires s.socket.Free? || s.socket.Shut?
  {
    if s.socket.Free? then s.(high := [], low := [], torn := Cut(s), socket := Shut(s.socket.locked))
    else if s.socket.locked || s.lock.None? then
      var torn := if s.dw.Some? && s.dw.value.sent > 0 then s.dw else s.torn;
      s.(kind := Invalid, dw := None, torn := torn, socket := if s.socket.locked then Release(Return) else Waiting)
    else s
  }

  /** 'send_buffer' adds the leftover of a direct write before the head of the high list. */
  function Merged(s: State, next: Then): State {
    if s.dw.Some? then
      s.(high := [s.dw.value] + s.high, dw := None, size := s.size + Rest(s.dw.value), socket := SendHigh(next))
    else s.(socket := SendHigh(next))
  }

  /** One step of the socket thread. */
  function SocketStep(s: State, c: Choice): State {
    match s.socket
    case Waiting => Event(s, c)
    case Hand(p) => Queued(s, p).(socket := Dec)
    case Dec => if s.sending > 0 then s.(sending := s.sending - 1, socket := Waiting) else s
    case Try(next) =>
      if s.lock.None? then s.(lock := Some(Socket), socket := Merge(next))
      else s.(socket := if next.Closing? then Decide(next.shutdown) else Waiting)
    case Merge(next) => Merged(s, next)
    case SendHigh(next) =>
      if s.high != [] then WriteHigh(s, next, c)
      else if s.low != [] then s.(socket := SendLow(next))
      else AllSent(s, next)
    case SendLow(next) => if s.low != [] then WriteLow(s, next, c) else AllSent(s, next)
    case Release(next) =>
      s.(lock := None, socket := if next.Closing? then Decide(next.shutdown) else Waiting)
    case Free(_) => Close(s)
    case Shut(_) => Close(s)
    case Decide(shutdown) =>
      if s.kind.Invalid? then s.(socket := Waiting)
      else if shutdown || NoMore(s) then s.(socket := Free(false))
      else s.(kind := HalfClose, socket := Waiting)
  }
}
