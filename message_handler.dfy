/**
 * The coordinator's side of the framed socket protocol: building request and
 * acknowledgement frames, checking a received frame's delimiters and LRC,
 * recognising the authentication frame and reading a request's destination.
 */
module MessageHandler {
  import opened Java
  import opened Checksum

  /** The field separator `#`. */
  const Hash: JChar := 0x23

  /** "ACK" */
  const Ack: JString := [0x41, 0x43, 0x4B]
  /** "NACK" */
  const Nack: JString := [0x4E, 0x41, 0x43, 0x4B]
  /** "AUTH" */
  const Auth: JString := [0x41, 0x55, 0x54, 0x48]
  /** The shared secret every authentication frame carries in its third field: "token123". */
  const SharedSecret: JString := [0x74, 0x6F, 0x6B, 0x65, 0x6E, 0x31, 0x32, 0x33]

  /** `buildRequest`: the operation code and `#field` for each field, framed. */
  method BuildRequest(operationCode: JString, fields: seq<JString>) returns (frame: JString)
    ensures frame == Frame(Join(operationCode, fields, Hash))
    ensures frame[0] == Stx && frame[|frame| - 2] == Etx
    ensures frame[|frame| - 1] == Lrc(frame[1..|frame| - 2])
  {
    var builder := operationCode;
    var i := 0;
    while i < |fields|
      invariant 0 <= i <= |fields|
      invariant builder == Join(operationCode, fields[..i], Hash)
    {
      assert fields[..i + 1][..i] == fields[..i];
      builder := builder + [Hash] + fields[i];
      i := i + 1;
    }
    assert fields[..i] == fields;
    var lrc := CalculateLrc(builder);
    frame := [Stx] + builder + [Etx] + [lrc];
    assert frame[1..|frame| - 2] == builder;
  }

  /**
   * `isValidMessage`: STX first, ETX second to last, and the last character
   * equal to the LRC of the characters between STX and the FIRST ETX.
   * `charAt(0)` on an empty message and `charAt(-1)` on a one-character
   * message starting with STX throw.
   */
  function IsValidMessage(message: JString): (r: Result<bool>)
    ensures r.Throw? <==> |message| == 0 || message == [Stx]
    ensures r.Throw? ==> r.error == IndexOutOfBounds
    ensures r == Ok(true) ==> |message| >= 3 && message[0] == Stx && message[|message| - 2] == Etx
  {
    if |message| == 0 then Throw(IndexOutOfBounds)
    else if message[0] != Stx then Ok(false)
    else if |message| < 2 then Throw(IndexOutOfBounds)
    else if message[|message| - 2] != Etx then Ok(false)
    else
      var k := IndexOf(message, Etx);
      Ok(message[|message| - 1] == Lrc(message[1..k]))
  }

  /** `buildAck`: a frame whose data is ACK or NACK. */
  function BuildAck(isAck: bool): (frame: JString)
    ensures IsValidMessage(frame) == Ok(true)
    ensures ExtractData(frame) == Ok(if isAck then Ack else Nack)
  {
    var data := if isAck then Ack else Nack;
    FrameRoundTrip(data);
    Frame(data)
  }

  /**
   * `isValidRequest`: at least four characters, STX first, ETX second to
   * last, and the last character the LRC of everything in between.
   */
  function IsValidRequest(request: JString): bool {
    if |request| < 4 then false
    else if request[0] == Stx && request[|request| - 2] == Etx then
      request[|request| - 1] == Lrc(request[1..|request| - 2])
    else false
  }

  /** `isValidAuthentication`: a valid frame whose data splits into AUTH, an identifier and the shared secret. */
  function IsValidAuthentication(message: JString): Result<bool> {
    match IsValidMessage(message)
    case Throw(e) => Throw(e)
    case Ok(valid) =>
      if !valid then Ok(false)
      else
        var parts := Split(message[1..IndexOf(message, Etx)], Hash);
        Ok(|parts| == 3 && parts[0] == Auth && parts[2] == SharedSecret)
  }

  /** `extractDestination`: the second `#` field of a valid request, or null. */
  function ExtractDestination(request: JString): (r: Option<JString>)
    ensures r.Some? ==> IsValidRequest(request)
  {
    if IsValidRequest(request) then
      var parts := Split(request[1..IndexOf(request, Etx)], Hash);
      if |parts| > 1 then Some(parts[1]) else None
    else None
  }

  /** A frame built from ETX-free data passes the check and gives the data back. */
  lemma FrameRoundTrip(data: JString)
    requires Etx !in data
    ensures IsValidMessage(Frame(data)) == Ok(true)
    ensures ExtractData(Frame(data)) == Ok(data)
  {
    FrameData(data);
  }

  /**
   * Round trip of `buildRequest`: the frame is valid, its data is the joined
   * fields, and splitting the data on `#` gives the operation code and the
   * fields back when none holds `#` and the last one is not empty.
   */
  lemma RequestRoundTrip(operationCode: JString, fields: seq<JString>)
    requires Etx !in operationCode && Hash !in operationCode
    requires forall i | 0 <= i < |fields| :: Etx !in fields[i] && Hash !in fields[i]
    requires |fields| > 0 ==> fields[|fields| - 1] != []
    ensures IsValidMessage(Frame(Join(operationCode, fields, Hash))) == Ok(true)
    ensures ExtractData(Frame(Join(operationCode, fields, Hash))) == Ok(Join(operationCode, fields, Hash))
    ensures Split(Join(operationCode, fields, Hash), Hash) == [operationCode] + fields
  {
    JoinFree(operationCode, fields, Hash, Etx);
    FrameRoundTrip(Join(operationCode, fields, Hash));
    JavaSplitJoin(operationCode, fields, Hash);
  }

  /**
   * Soundness of the check: a valid message with no other ETX before its
   * closing one is exactly the frame of its data.
   */
  lemma ValidMessageIsFrame(message: JString)
    requires IsValidMessage(message) == Ok(true)
    requires Etx !in message[1..|message| - 2]
    ensures message == Frame(message[1..|message| - 2])
  {
    var n := |message|;
    assert message[..n - 2] == [Stx] + message[1..n - 2];
    IndexOfAt(message, Etx, n - 2);
    assert message == message[..n - 2] + [message[n - 2]] + [message[n - 1]];
  }

  /**
   * Tamper detection: changing one data character of a built frame to any
   * other character that is not ETX makes the check fail.
   */
  lemma TamperedFrameRejected(data: JString, i: int, y: JChar)
    requires Etx !in data
    requires 0 <= i < |data|
    requires y != data[i] && y != Etx
    ensures IsValidMessage(Frame(data)[i + 1 := y]) == Ok(false)
  {
    var tampered := data[i := y];
    assert Frame(data)[i + 1 := y] == [Stx] + tampered + [Etx] + [Lrc(data)];
    assert Etx !in tampered by {
      forall j | 0 <= j < |tampered| ensures tampered[j] != Etx {
        if j != i { assert tampered[j] == data[j]; }
      }
    }
    assert Lrc(tampered) != Lrc(data) by {
      LrcChangedAt(data, i, y);
    }
    CheckedAgainst(tampered, Lrc(data));
  }

  /** Replacing one character by a different one changes the LRC. */
  lemma LrcChangedAt(data: JString, i: int, y: JChar)
    requires 0 <= i < |data| && y != data[i]
    ensures Lrc(data[i := y]) != Lrc(data)
  {
    assert data == data[..i] + [data[i]] + data[i + 1..];
    assert data[i := y] == data[..i] + [y] + data[i + 1..];
    LrcDetectsOneChange(data[..i], data[i], y, data[i + 1..]);
  }

  /** A frame around ETX-free data passes the check exactly when its last character is the data's LRC. */
  lemma CheckedAgainst(t: JString, z: JChar)
    requires Etx !in t
    ensures IsValidMessage([Stx] + t + [Etx] + [z]) == Ok(z == Lrc(t))
  {
    var m := [Stx] + t + [Etx] + [z];
    assert m[..|t| + 1] == [Stx] + t;
    IndexOfAt(m, Etx, |t| + 1);
    assert m[1..|t| + 1] == t;
  }

  /**
   * The request check accepts exactly the frames with non-empty data, and
   * unlike `IsValidMessage` it takes the LRC over everything up to the last
   * ETX, so ETX inside the data does not matter to it.
   */
  lemma ValidRequestIsFrame(request: JString)
    ensures IsValidRequest(request) <==> |request| >= 4 && request == Frame(request[1..|request| - 2])
  {
    var n := |request|;
    if n >= 4 {
      assert request[1..n - 2] == Frame(request[1..n - 2])[1..n - 2];
      assert request == [request[0]] + request[1..n - 2] + [request[n - 2]] + [request[n - 1]];
    }
  }

  /**
   * The destination of a request built by `buildRequest(op, dest, ...)` is
   * `dest`, provided no field holds `#` or ETX and the last one is not empty.
   */
  lemma DestinationOfRequest(operationCode: JString, fields: seq<JString>)
    requires |fields| > 0
    requires Etx !in operationCode && Hash !in operationCode
    requires forall i | 0 <= i < |fields| :: Etx !in fields[i] && Hash !in fields[i]
    requires fields[|fields| - 1] != []
    ensures ExtractDestination(Frame(Join(operationCode, fields, Hash))) == Some(fields[0])
  {
    var data := Join(operationCode, fields, Hash);
    RequestRoundTrip(operationCode, fields);
    var f := Frame(data);
    assert f == Frame(f[1..|f| - 2]) by { assert f[1..|f| - 2] == data; }
    ValidRequestIsFrame(f);
  }
}
