/**
 * The taxi's side of the framed socket protocol: building a frame, its own
 * (laxer) frame check, and the authentication exchange with the coordinator.
 */
module SocketService {
  import opened Java
  import opened Checksum

  /** "ACK" */
  const Ack: JString := [0x41, 0x43, 0x4B]
  /** "AUTH#", the start of the authentication format. */
  const AuthPrefix: JString := [0x41, 0x55, 0x54, 0x48, 0x23]
  /** "#token123", the end of the authentication format. */
  const AuthSuffix: JString := [0x23, 0x74, 0x6F, 0x6B, 0x65, 0x6E, 0x31, 0x32, 0x33]

  /** The data of the authentication frame, `String.format("AUTH#%s#token123", taxiId)`. */
  function AuthData(taxiId: JString): (d: JString)
    ensures |d| == |taxiId| + 14
  {
    AuthPrefix + taxiId + AuthSuffix
  }

  /** `buildMessage`: STX, the data, ETX and the data's LRC, computed by the accumulator loop. */
  method BuildMessage(data: JString) returns (message: JString)
    ensures message == Frame(data)
    ensures Etx !in data ==> IsValidMessage(message) == Ok(true) && ExtractData(message) == Ok(data)
  {
    var lrc := CalculateLrc(data);
    message := [Stx] + data + [Etx] + [lrc];
    if Etx !in data {
      FrameAccepted(data);
    }
  }

  /**
   * `isValidMessage` on the taxi: STX first and an ETX somewhere, and the
   * last character equal to the LRC of the data before the first ETX.
   * `charAt(0)` on an empty reply throws.
   */
  function IsValidMessage(message: JString): (r: Result<bool>)
    ensures r.Throw? <==> |message| == 0
    ensures r == Ok(true) ==> message[0] == Stx && Etx in message
    ensures r == Ok(true) ==> ExtractData(message).Ok? && message[|message| - 1] == Lrc(ExtractData(message).value)
  {
    if |message| == 0 then Throw(IndexOutOfBounds)
    else if message[0] == Stx && Etx in message then
      var k := IndexOf(message, Etx);
      Ok(message[|message| - 1] == Lrc(message[1..k]))
    else Ok(false)
  }

  /** The decision `authenticate` takes on the coordinator's reply: a valid frame whose data is exactly ACK. */
  function AuthReplyAccepted(reply: JString): (r: Result<bool>)
    ensures r.Throw? <==> |reply| == 0
    ensures r == Ok(true) ==> IsValidMessage(reply) == Ok(true) && ExtractData(reply) == Ok(Ack)
  {
    match IsValidMessage(reply)
    case Throw(e) => Throw(e)
    case Ok(valid) => Ok(valid && ExtractData(reply) == Ok(Ack))
  }

  /** A frame of ETX-free data passes the taxi's check and gives the data back. */
  lemma FrameAccepted(data: JString)
    requires Etx !in data
    ensures IsValidMessage(Frame(data)) == Ok(true)
    ensures ExtractData(Frame(data)) == Ok(data)
  {
    FrameData(data);
  }

  /**
   * The taxi's check only compares the last character: anything inserted
   * between the closing ETX and the LRC is tolerated.
   */
  lemma ExtraCharactersTolerated(data: JString, junk: JString)
    requires Etx !in data
    ensures IsValidMessage([Stx] + data + [Etx] + junk + [Lrc(data)]) == Ok(true)
    ensures ExtractData([Stx] + data + [Etx] + junk + [Lrc(data)]) == Ok(data)
  {
    var m := [Stx] + data + [Etx] + junk + [Lrc(data)];
    assert m[..|data| + 1] == [Stx] + data;
    assert m[|data| + 1] == Etx;
    IndexOfAt(m, Etx, |data| + 1);
    assert m[1..|data| + 1] == data;
  }

  /** The checksum character of an ACK frame: 'A' ^ 'C' ^ 'K' is 'I'. */
  lemma AckLrc()
    ensures Lrc(Ack) == 0x49
  {
    var a: JString := [0x41];
    var b: JString := [0x41, 0x43];
    assert a[..0] == [];
    assert b[..1] == a;
    assert Ack[..2] == b;
  }

  /**
   * An accepted reply starts with STX, ACK, ETX and ends with LRC(ACK), with
   * at least one character after the ETX.
   */
  lemma AcceptedReplyShape(reply: JString)
    requires AuthReplyAccepted(reply) == Ok(true)
    ensures |reply| >= 6 && reply[..5] == [Stx] + Ack + [Etx] && reply[|reply| - 1] == Lrc(Ack)
  {
    AckLrc();
    var k := IndexOf(reply, Etx);
    assert reply[1..k] == Ack;
    assert reply[..5] == reply[..1] + reply[1..k] + [reply[k]];
  }

  /** Conversely, every reply of that shape is accepted, whatever stands between ETX and the last character. */
  lemma ShapedReplyAccepted(reply: JString)
    requires |reply| >= 6 && reply[..5] == [Stx] + Ack + [Etx] && reply[|reply| - 1] == Lrc(Ack)
    ensures AuthReplyAccepted(reply) == Ok(true)
  {
    AckLrc();
    assert reply[..4] == [Stx] + Ack;
    IndexOfAt(reply, Etx, 4);
    assert reply[1..4] == Ack;
  }

  /** The taxi's connection to the coordinator. */
  class SocketService {
    const taxiId: JString
    /** Whether `connectToCentral` has opened a socket. */
    var connected: bool
    /** Every frame written to the coordinator, in order. */
    var sent: seq<JString>

    constructor(taxiId: JString)
      ensures this.taxiId == taxiId && !connected && sent == []
    {
      this.taxiId := taxiId;
      connected := false;
      sent := [];
    }

    /**
     * `authenticate`: connect, send the authentication frame, read one reply
     * and accept it when it is a valid frame carrying ACK. `canConnect` says
     * whether opening the socket succeeds; `reply` is the frame read back, or
     * None when reading fails. Both failures are IOExceptions.
     */
    method Authenticate(canConnect: bool, reply: Option<JString>) returns (r: Result<bool>)
      modifies this
      ensures !canConnect ==> r == Throw(IO) && connected == old(connected) && sent == old(sent)
      ensures canConnect ==> connected && sent == old(sent) + [Frame(AuthData(taxiId))]
      ensures canConnect && reply.None? ==> r == Throw(IO)
      ensures canConnect && reply.Some? ==> r == AuthReplyAccepted(reply.value)
    {
      if !canConnect {
        return Throw(IO);
      }
      connected := true;
      var message := BuildMessage(AuthData(taxiId));
      sent := sent + [message];
      if reply.None? {
        return Throw(IO);
      }
      var response := reply.value;
      var valid := IsValidMessage(response);
      if valid.Throw? {
        return Throw(valid.error);
      }
      if valid.value {
        var data := ExtractData(response);
        r := Ok(data == Ok(Ack));
      } else {
        r := Ok(false);
      }
    }
  }
}
