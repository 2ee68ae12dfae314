/**
 * `rudp::Connection`: the per-connection protocol engine. Its fields are
 * updated in place by the configuration operations, `send` and `receive`.
 *
 * The socket is replaced by inputs: the outcome of `bind` and of address
 * parsing are flags, each `send` consumes a trace of attempt outcomes and each
 * `receive` a trace of inbound datagrams. `send` and `receive` are proved
 * against `SendSpec.SendRun` and `ReceiveSpec.ReceiveRun`.
 */
module Rudp {
  import opened Wire
  import opened SendSpec
  import opened ReceiveSpec

  datatype Endpoint = Endpoint(address: string, port: U16)

  /** `address_v4::any()`. */
  const AnyAddress: string := "0.0.0.0"

  datatype ConfigError = BindFailed | InvalidAddress | NonPositiveRetriesLimit
  datatype ConfigResult = ConfigOk | ConfigFailed(error: ConfigError)

  /** Copies `n` bytes of `buffer` from `offset` into a fresh cache, one byte at a time. */
  method CopyOut(buffer: array<Byte>, offset: nat, n: nat) returns (cache: seq<Byte>)
    requires offset + n <= buffer.Length
    ensures cache == buffer[offset..offset + n]
  {
    cache := [];
    for k := 0 to n
      invariant cache == buffer[offset..offset + k]
    {
      cache := cache + [buffer[offset + k]];
    }
  }

  /** `receive_from` into the receive buffer: the datagram overwrites a prefix, cut to the buffer's size. */
  method ReceiveFrom(buffer: array<Byte>, bytes: seq<Byte>)
    modifies buffer
    ensures buffer[..] == ReceiveInto(old(buffer[..]), bytes)
  {
    var n := if |bytes| < buffer.Length then |bytes| else buffer.Length;
    for k := 0 to n
      invariant forall j :: 0 <= j < k ==> buffer[j] == bytes[j]
      invariant forall j :: k <= j < buffer.Length ==> buffer[j] == old(buffer[j])
    {
      buffer[k] := bytes[k];
    }
  }

  class Connection {
    /** Retransmission timeout, used only by the deadline timer. */
    const timeoutMs: Int32
    /** Sequence number of the message being sent. */
    var sequenceSend: U16
    /** Expected sequence number of each sender seen since the last reset. */
    var sequenceRecvMap: map<SenderId, U16>
    var endpointLocal: Endpoint
    var endpointRemote: Endpoint
    var hasEndpointLocal: bool
    var hasEndpointRemote: bool
    /** -1 means unbounded. */
    var sendRetriesLimit: Int32
    var sendRetries: int

    /** Every counter stays below USHRT_MAX and the limit is -1 or positive. */
    ghost predicate Valid()
      reads this
    {
      && sequenceSend < UshrtMax
      && TableBounded(sequenceRecvMap)
      && (sendRetriesLimit == -1 || sendRetriesLimit > 0)
      && sendRetries >= 0
    }

    /** The state of a newly created connection (Connection.cpp:23-28). */
    ghost predicate Initial()
      reads this
    {
      && sequenceSend == 0
      && sequenceRecvMap == map[]
      && !hasEndpointLocal && !hasEndpointRemote
      && sendRetriesLimit == -1
      && sendRetries == 0
    }

    constructor (timeoutMs: Int32)
      ensures Valid() && Initial()
      ensures this.timeoutMs == timeoutMs
    {
      this.timeoutMs := timeoutMs;
      sequenceRecvMap := map[];
      sequenceSend := 0;
      hasEndpointLocal := false;
      hasEndpointRemote := false;
      sendRetriesLimit := -1;
      sendRetries := 0;
      endpointLocal := Endpoint(AnyAddress, 0);
      endpointRemote := Endpoint(AnyAddress, 0);
    }

    /**
     * Binds to `port` on all interfaces. The endpoint is recorded before the
     * bind; only a successful bind sets the flag and forgets every sender.
     */
    method SetEndpointLocal(port: U16, bindSucceeds: bool) returns (r: ConfigResult)
      requires Valid()
      modifies this`endpointLocal, this`hasEndpointLocal, this`sequenceRecvMap
      ensures Valid()
      ensures endpointLocal == Endpoint(AnyAddress, port)
      ensures r == if bindSucceeds then ConfigOk else ConfigFailed(BindFailed)
      ensures bindSucceeds ==> hasEndpointLocal && sequenceRecvMap == map[]
      ensures !bindSucceeds ==> hasEndpointLocal == old(hasEndpointLocal) && sequenceRecvMap == old(sequenceRecvMap)
    {
      endpointLocal := Endpoint(AnyAddress, port);
      if !bindSucceeds {
        return ConfigFailed(BindFailed);
      }
      hasEndpointLocal := true;
      ResetConnectionReceive();
      r := ConfigOk;
    }

    /** Sets the destination. A valid address sets the flag and restarts the send sequence at 0. */
    method SetEndpointRemote(address: string, port: U16, addressValid: bool) returns (r: ConfigResult)
      requires Valid()
      modifies this`endpointRemote, this`hasEndpointRemote, this`sequenceSend
      ensures Valid()
      ensures r == if addressValid then ConfigOk else ConfigFailed(InvalidAddress)
      ensures addressValid ==> endpointRemote == Endpoint(address, port) && hasEndpointRemote && sequenceSend == 0
      ensures !addressValid ==> unchanged(this`endpointRemote, this`hasEndpointRemote, this`sequenceSend)
    {
      if !addressValid {
        return ConfigFailed(InvalidAddress);
      }
      endpointRemote := Endpoint(address, port);
      hasEndpointRemote := true;
      ResetConnectionSend();
      r := ConfigOk;
    }

    /** Stores a positive limit; any other value is refused and the limit kept. */
    method SetSendRetriesLimit(limit: Int32) returns (r: ConfigResult)
      requires Valid()
      modifies this`sendRetriesLimit
      ensures Valid()
      ensures r == if limit > 0 then ConfigOk else ConfigFailed(NonPositiveRetriesLimit)
      ensures sendRetriesLimit == if limit > 0 then limit else old(sendRetriesLimit)
    {
      if limit > 0 {
        sendRetriesLimit := limit;
        r := ConfigOk;
      } else {
        r := ConfigFailed(NonPositiveRetriesLimit);
      }
    }

    method ResetConnectionReceive()
      requires Valid()
      modifies this`sequenceRecvMap
      ensures Valid()
      ensures sequenceRecvMap == map[]
    {
      sequenceRecvMap := map[];
    }

    method ResetConnectionSend()
      requires Valid()
      modifies this`sequenceSend
      ensures Valid()
      ensures sequenceSend == 0
    {
      sequenceSend := 0;
    }

    /**
     * Sends the first `len` bytes of `buf`, retransmitting until the ACK for
     * `sequenceSend` arrives or the retry budget is spent. Returns the result,
     * the frame transmitted on every attempt and the number of transmissions.
     * Only a success advances `sequenceSend`; `sendRetries` ends at 0 on every
     * return.
     */
    method Send(buf: seq<Byte>, len: Int32, attempts: seq<Attempt>)
      returns (result: SendResult, frame: seq<Byte>, transmissions: nat)
      requires Valid()
      requires len <= |buf|
      modifies this`sendRetries, this`sequenceSend
      ensures Valid()
      ensures !old(hasEndpointRemote) ==>
        result == SendFailed(NoRemoteEndpoint) && transmissions == 0 && unchanged(this)
      ensures old(hasEndpointRemote) ==>
        var x := SendRun(old(sequenceSend), sendRetriesLimit, len, attempts);
        && result == x.result && transmissions == x.transmissions
        && sequenceSend == (if result.Sent? then NextSequence(old(sequenceSend)) else old(sequenceSend))
        && sendRetries == (if result == SendBlocked then transmissions else 0)
        && (0 <= len ==> frame == BuildFrame(old(sequenceSend), len, buf))
    {
      if !hasEndpointRemote {
        return SendFailed(NoRemoteEndpoint), [], 0;
      }
      sendRetries := 0;
      var ackReceived := false;
      // A negative count puts the byte stream in a failed state.
      if len < 0 {
        return SendFailed(FrameWriteFailed), [], 0;
      }
      frame := EncodeU16(sequenceSend) + EncodeI32(len) + buf[..len];
      assert frame == BuildFrame(sequenceSend, len, buf);
      var sentSize := 0;
      while !ackReceived && (sendRetriesLimit == -1 || sendRetries < sendRetriesLimit)
        invariant Valid() && sequenceSend == old(sequenceSend)
        invariant 0 <= sendRetries <= |attempts|
        invariant sendRetriesLimit == -1 || sendRetries <= sendRetriesLimit
        invariant !ackReceived ==>
          SendLoop(sequenceSend, sendRetriesLimit, 0, attempts) == SendLoop(sequenceSend, sendRetriesLimit, sendRetries, attempts[sendRetries..])
        invariant ackReceived ==> SendLoop(sequenceSend, sendRetriesLimit, 0, attempts) == AckAccepted(sendRetries)
        invariant ackReceived ==> sendRetries > 0
        invariant sendRetries > 0 ==> sentSize == |frame|
        decreases |attempts| - sendRetries, !ackReceived
      {
        if sendRetries == |attempts| {
          // The next transmission's outcome is not in the trace: the call is still waiting.
          return SendBlocked, frame, sendRetries;
        }
        var attempt := attempts[sendRetries];
        assert attempts[sendRetries..][0] == attempt && attempts[sendRetries..][1..] == attempts[sendRetries + 1..];
        sendRetries := sendRetries + 1;
        if attempt == TransmitFailed {
          transmissions := sendRetries;
          sendRetries := 0;
          return SendFailed(TransmitError), frame, transmissions;
        }
        sentSize := |frame|;
        if attempt == AckTimedOut {
          ackReceived := false;
        } else {
          ackReceived := attempt.value == sequenceSend;
        }
      }
      transmissions := sendRetries;
      if sendRetriesLimit != -1 && sendRetries >= sendRetriesLimit {
        sendRetries := 0;
        return SendFailed(RetriesExhausted), frame, transmissions;
      }
      sequenceSend := NextSequence(sequenceSend);
      sendRetries := 0;
      result := Sent(sentSize);
    }

    /**
     * One iteration of the receive loop (Connection.cpp:281-393): read a
     * datagram into `buffer`, look its sender up, parse the header and act on
     * the comparison with the sender's expected number. `sender` is the
     * sender id carried over from the previous iteration.
     */
    method ReceiveIteration(buffer: array<Byte>, len: nat, sender: SenderId, d: Datagram)
      returns (senderId: SenderId, out: StepOut)
      requires buffer.Length == HeaderSize + len
      modifies buffer, this`sequenceRecvMap
      ensures var r := Step(RecvState(old(sequenceRecvMap), old(buffer[..]), sender), len, d);
        sequenceRecvMap == r.state.expected && buffer[..] == r.state.buffer && senderId == r.state.sender && out == r.out
    {
      var errorOccured := false;
      senderId := sender;
      if d.RecvFailed? {
        errorOccured := true;
      } else {
        ReceiveFrom(buffer, d.bytes);
        senderId := d.sender;
      }
      if senderId !in sequenceRecvMap {
        sequenceRecvMap := sequenceRecvMap[senderId := 0];
      }
      var sequenceRecv := sequenceRecvMap[senderId];
      if errorOccured {
        return senderId, Continue([]);
      }
      var cache := CopyOut(buffer, 0, SequenceSize);
      var receivedSequence := DecodeU16(cache);
      var payload: seq<Byte> := [];
      var receivedLen: Int32 := 0;
      if receivedSequence == sequenceRecv {
        cache := CopyOut(buffer, SequenceSize, LengthSize);
        receivedLen := DecodeI32(cache);
        if len < receivedLen {
          return senderId, Abort(BufferTooSmall);
        }
        // A negative length makes the payload cache's allocation throw.
        if receivedLen < 0 {
          return senderId, Abort(NegativeLength);
        }
        payload := CopyOut(buffer, HeaderSize, receivedLen);
      }
      var acks: seq<Ack> := [];
      if receivedSequence <= sequenceRecv {
        acks := [Ack(senderId, receivedSequence)];
        if !d.ackSendOk {
          errorOccured := true;
        }
      }
      if errorOccured || receivedSequence != sequenceRecv {
        out := Continue(acks);
      } else {
        out := Deliver(receivedLen, payload, acks);
      }
    }

    /**
     * Receives into a buffer of `len` bytes, ACKing duplicates and dropping
     * datagrams that are ahead, until a datagram with the sender's expected
     * sequence number is ACKed. Returns the result and the ACKs transmitted;
     * the table is the one `ReceiveRun` ends with. A length below -6 makes the
     * buffer's size wrap around, and its allocation fails before the loop.
     */
    method Receive(len: Int32, datagrams: seq<Datagram>) returns (result: ReceiveResult, acks: seq<Ack>)
      requires Valid()
      requires len < -(HeaderSize as int) || 0 <= len
      modifies this`sequenceRecvMap
      ensures Valid()
      ensures !hasEndpointLocal ==>
        result == ReceiveFailed(NoLocalEndpoint) && acks == [] && sequenceRecvMap == old(sequenceRecvMap)
      ensures hasEndpointLocal && len < 0 ==>
        result == ReceiveFailed(BufferLengthError) && acks == [] && sequenceRecvMap == old(sequenceRecvMap)
      ensures hasEndpointLocal && 0 <= len ==>
        var e := ReceiveRun(InitialState(old(sequenceRecvMap), len), len, datagrams);
        result == e.result && acks == e.acks && sequenceRecvMap == e.state.expected
    {
      if !hasEndpointLocal {
        return ReceiveFailed(NoLocalEndpoint), [];
      }
      // `6 + len` wraps to a size beyond any vector's maximum, and the allocation throws.
      if len < 0 {
        return ReceiveFailed(BufferLengthError), [];
      }
      ghost var start := InitialState(sequenceRecvMap, len);
      ReceiveKeepsTableBounded(start, len, datagrams);
      var buffer := new Byte[HeaderSize + len](_ => 0);
      assert buffer[..] == start.buffer;
      result, acks := ReceiveLoop(buffer, len, datagrams);
    }

    /**
     * The loop of `receive` (Connection.cpp:279-396) over a receive buffer,
     * starting from the default sender id, followed by the increment of the
     * delivering sender's entry.
     */
    method ReceiveLoop(buffer: array<Byte>, len: nat, datagrams: seq<Datagram>) returns (result: ReceiveResult, acks: seq<Ack>)
      requires buffer.Length == HeaderSize + len
      modifies buffer, this`sequenceRecvMap
      ensures var e := ReceiveRun(RecvState(old(sequenceRecvMap), old(buffer[..]), DefaultSenderId), len, datagrams);
        result == e.result && acks == e.acks && sequenceRecvMap == e.state.expected
    {
      ghost var start := RecvState(sequenceRecvMap, buffer[..], DefaultSenderId);
      var senderId := DefaultSenderId;
      var receivedLen: Int32 := 0;
      var payload: seq<Byte> := [];
      var continueReceiving := true;
      var i := 0;
      acks := [];
      assert datagrams[0..] == datagrams;
      while continueReceiving && i < |datagrams|
        invariant 0 <= i <= |datagrams|
        invariant buffer.Length == HeaderSize + len
        invariant continueReceiving ==>
          Resumes(ReceiveRun(start, len, datagrams), len, datagrams[i..], RecvState(sequenceRecvMap, buffer[..], senderId), acks)
        invariant !continueReceiving ==>
          senderId in sequenceRecvMap &&
          ReceiveRun(start, len, datagrams) ==
            RecvExit(Advance(RecvState(sequenceRecvMap, buffer[..], senderId)), acks, Received(receivedLen, payload, senderId))
        decreases |datagrams| - i
      {
        ghost var before := RecvState(sequenceRecvMap, buffer[..], senderId);
        ghost var whole := ReceiveRun(start, len, datagrams);
        assert datagrams[i..][0] == datagrams[i] && datagrams[i..][1..] == datagrams[i + 1..];
        var out;
        senderId, out := ReceiveIteration(buffer, len, senderId, datagrams[i]);
        match out {
          case Continue(a) =>
            ResumeContinue(whole, len, datagrams[i..], before, acks);
            acks := acks + a;
          case Deliver(n, p, a) =>
            ResumeDeliver(whole, len, datagrams[i..], before, acks);
            acks := acks + a;
            receivedLen, payload := n, p;
            continueReceiving := false;
          case Abort(error) =>
            ResumeAbort(whole, len, datagrams[i..], before, acks);
            return ReceiveFailed(error), acks;
        }
        i := i + 1;
      }
      if continueReceiving {
        assert datagrams[i..] == [];
        return ReceiveBlocked, acks;
      }
      sequenceRecvMap := sequenceRecvMap[senderId := NextSequence(sequenceRecvMap[senderId])];
      result := Received(receivedLen, payload, senderId);
    }
  }
}
