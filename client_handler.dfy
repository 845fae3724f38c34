/**
 * The coordinator's per-connection session with a taxi: authentication,
 * the registration check, the key exchange, the session tables, and the
 * request loop that acknowledges every frame until end of transmission.
 *
 * A connection's input is the sequence of strings the taxi writes, read one
 * `readUTF` at a time; reading past its end is an IOException.
 */
module ClientHandler {
  import opened Java
  import opened Checksum
  import opened Entities
  import MessageHandler
  import SocketService
  import CentralTaxiService

  const Hash: JChar := MessageHandler.Hash
  /** "EOT" */
  const Eot: JString := [0x45, 0x4F, 0x54]
  const StartServiceTopic: JString := Lit("taxi-start-service-")

  /**
   * A taxi's socket: an identity and what its `isConnected()` answers. That
   * answer only says the socket was once connected: it is true for every
   * socket the server accepted, even after the socket is closed.
   */
  datatype Socket = Socket(handle: nat, connected: bool)

  /** What the coordinator writes on a taxi's connection. */
  datatype Reply =
    | Acknowledgement(accepted: bool)  // the frame `buildAck(accepted)`: ACK or NACK
    | CentralPublicKey            // the coordinator's public key, Base64-encoded
    | TokenAck(token: JString)    // the acknowledgement that carries the session token

  /** `authMessage.split("#")[1]`, on the whole frame; a missing piece is an index error. */
  function TaxiIdOf(authMessage: JString): (r: Result<JString>)
    ensures r.Throw? <==> |Split(authMessage, Hash)| < 2
    ensures r.Ok? ==> Hash !in r.value
  {
    var parts := Split(authMessage, Hash);
    if |parts| < 2 then Throw(IndexOutOfBounds)
    else
      assert Hash !in parts[1] by {
        if Hash in authMessage {
          assert parts[1] == SplitAll(authMessage, Hash)[1];
        }
      }
      Ok(parts[1])
  }

  /** The first piece of a split is not shortened by appending to the string. */
  lemma FirstPieceNonEmpty(a: JString, b: JString, c: JChar)
    requires SplitAll(a, c)[0] != []
    ensures SplitAll(a + b, c)[0] != []
  {
    var k := IndexOf(a, c);
    if k >= 0 {
      assert (a + b)[..k + 1] == a[..k + 1];
      IndexOfAt(a + b, c, k);
      assert (a + b)[..k] == a[..k];
    } else {
      assert (a + b)[0] == a[0];
    }
  }

  /** Neither fixed field of the authentication data holds a separator or ETX. */
  lemma FixedFieldsFree()
    ensures Hash !in MessageHandler.Auth && Hash !in MessageHandler.SharedSecret
    ensures Etx !in MessageHandler.Auth && Etx !in MessageHandler.SharedSecret
  {
  }

  /** The authentication data is AUTH, `#`, the identifier, `#` and the shared secret. */
  lemma AuthDataShape(taxiId: JString)
    ensures SocketService.AuthData(taxiId) ==
      MessageHandler.Auth + [Hash] + (taxiId + [Hash] + MessageHandler.SharedSecret)
  {
    assert SocketService.AuthPrefix == MessageHandler.Auth + [Hash];
    assert SocketService.AuthSuffix == [Hash] + MessageHandler.SharedSecret;
  }

  lemma AuthDataJoin(taxiId: JString)
    ensures SocketService.AuthData(taxiId) == Join(MessageHandler.Auth, [taxiId, MessageHandler.SharedSecret], Hash)
  {
    AuthDataShape(taxiId);
    var auth := MessageHandler.Auth;
    var secret := MessageHandler.SharedSecret;
    assert [taxiId, secret][..1] == [taxiId] && [taxiId][..0] == [];
    assert Join(auth, [taxiId], Hash) == auth + [Hash] + taxiId;
  }

  /**
   * The frame a taxi authenticates with is accepted by the coordinator
   * whenever the identifier holds neither `#` nor ETX.
   */
  lemma AuthFrameAccepted(taxiId: JString)
    requires Hash !in taxiId && Etx !in taxiId
    ensures MessageHandler.IsValidAuthentication(Frame(SocketService.AuthData(taxiId))) == Ok(true)
  {
    var data := SocketService.AuthData(taxiId);
    AuthDataJoin(taxiId);
    FixedFieldsFree();
    JavaSplitJoin(MessageHandler.Auth, [taxiId, MessageHandler.SharedSecret], Hash);
    JoinFree(MessageHandler.Auth, [taxiId, MessageHandler.SharedSecret], Hash, Etx);
    MessageHandler.FrameRoundTrip(data);
    FrameData(data);
  }

  /**
   * The coordinator reads the taxi's own identifier out of the taxi's
   * authentication frame, whatever its checksum character is, when the
   * identifier holds no `#`.
   */
  lemma AuthFrameTaxiId(taxiId: JString)
    requires Hash !in taxiId
    ensures TaxiIdOf(Frame(SocketService.AuthData(taxiId))) == Ok(taxiId)
  {
    var data := SocketService.AuthData(taxiId);
    var rest := AuthFramePieces(taxiId, Lrc(data));
    assert rest[0] != [] by {
      FixedFieldsFree();
      SplitAllNone(MessageHandler.SharedSecret, Hash);
      FirstPieceNonEmpty(MessageHandler.SharedSecret, [Etx] + [Lrc(data)], Hash);
    }
    SecondPiece(Frame(data), Hash, [Stx] + MessageHandler.Auth, taxiId, rest);
  }

  /**
   * How the taxi's authentication frame splits on `#`, whatever its
   * checksum character `z`: STX and AUTH, the identifier, then the rest.
   */
  lemma AuthFramePieces(taxiId: JString, z: JChar) returns (rest: seq<JString>)
    requires Hash !in taxiId
    ensures var f := [Stx] + SocketService.AuthData(taxiId) + [Etx] + [z];
      rest == SplitAll(MessageHandler.SharedSecret + ([Etx] + [z]), Hash) &&
      Hash in f && SplitAll(f, Hash) == [[Stx] + MessageHandler.Auth, taxiId] + rest
  {
    var head := [Stx] + MessageHandler.Auth;
    var tail := MessageHandler.SharedSecret + ([Etx] + [z]);
    AuthFrameShape(taxiId, z);
    SplitAllTwoFree(head, taxiId, tail, Hash);
    rest := SplitAll(tail, Hash);
  }

  /** The authentication frame around its two `#`: STX and AUTH, then the identifier, then the rest. */
  lemma AuthFrameShape(taxiId: JString, z: JChar)
    ensures var head := [Stx] + MessageHandler.Auth;
      Hash !in head &&
      [Stx] + SocketService.AuthData(taxiId) + [Etx] + [z] ==
        head + [Hash] + (taxiId + [Hash] + (MessageHandler.SharedSecret + ([Etx] + [z])))
  {
    var head := [Stx] + MessageHandler.Auth;
    assert Hash !in head by {
      FixedFieldsFree();
    }
    AuthDataShape(taxiId);
  }

  /** Java's `split` keeps the second piece when a non-empty piece follows it. */
  lemma SecondPiece(s: JString, c: JChar, p0: JString, p1: JString, rest: seq<JString>)
    requires c in s && SplitAll(s, c) == [p0, p1] + rest && |rest| > 0 && rest[0] != []
    ensures |Split(s, c)| > 2 && Split(s, c)[1] == p1
  {
    assert SplitAll(s, c)[2] != [];
  }

  /** An identifier holding `#` makes the taxi's own authentication frame fail the coordinator's check. */
  lemma AuthFrameWithHashRefused(taxiId: JString)
    requires Hash in taxiId && Etx !in taxiId
    ensures MessageHandler.IsValidAuthentication(Frame(SocketService.AuthData(taxiId))) == Ok(false)
  {
    var data := SocketService.AuthData(taxiId);
    AuthDataWithHashPieces(taxiId);
    assert Etx !in data by {
      FixedFieldsFree();
      AuthDataShape(taxiId);
    }
    MessageHandler.FrameRoundTrip(data);
    FrameData(data);
  }

  /** The authentication data of an identifier holding `#` splits into more than three pieces. */
  lemma AuthDataWithHashPieces(taxiId: JString)
    requires Hash in taxiId
    ensures |Split(SocketService.AuthData(taxiId), Hash)| > 3
  {
    var data := SocketService.AuthData(taxiId);
    var auth := MessageHandler.Auth;
    var secret := MessageHandler.SharedSecret;
    var all := SplitAll(data, Hash);
    assert all == [auth] + SplitAll(taxiId, Hash) + [secret] by {
      AuthDataShape(taxiId);
      FixedFieldsFree();
      SplitAllAround(auth, taxiId + [Hash] + secret, Hash);
      SplitAllAround(taxiId, secret, Hash);
      SplitAllNone(auth, Hash);
      SplitAllNone(secret, Hash);
    }
    assert |SplitAll(taxiId, Hash)| >= 2;
    assert Hash in data by {
      AuthDataShape(taxiId);
      assert data[|auth|] == Hash;
    }
    assert all[|all| - 1] == secret != [];
  }

  /** The taxi reads the coordinator's NACK as a refusal, not as an error. */
  lemma NackRefusedByTaxi()
    ensures SocketService.AuthReplyAccepted(MessageHandler.BuildAck(false)) == Ok(false)
  {
    var nack := MessageHandler.Nack;
    assert Etx !in nack;
    SocketService.FrameAccepted(nack);
    assert nack != SocketService.Ack by { assert |nack| == 4; }
  }

  /**
   * `isTaxiRegistered`: the single-result lookup finds a row; a failing
   * lookup counts as not registered.
   */
  function IsTaxiRegistered(taxis: seq<Taxi>, taxiId: JString): bool {
    var found := CentralTaxiService.FindByIdentifier(taxis, taxiId);
    found.Ok? && found.value.Some?
  }

  /**
   * A taxi counts as registered exactly when one row carries its
   * identifier: a duplicated identifier makes the lookup fail, which
   * refuses the taxi.
   */
  lemma RegisteredIffUnique(taxis: seq<Taxi>, taxiId: JString)
    ensures IsTaxiRegistered(taxis, taxiId) <==>
      exists k | 0 <= k < |taxis| :: taxis[k].identifier == taxiId &&
        forall j | 0 <= j < |taxis| && taxis[j].identifier == taxiId :: j == k
  {
    var keep := (t: Taxi) => t.identifier == taxiId;
    if IsTaxiRegistered(taxis, taxiId) {
      var t := CentralTaxiService.FindByIdentifier(taxis, taxiId).value.value;
      var k :| 0 <= k < |taxis| && taxis[k] == t;
      var matching := CentralTaxiService.WithIdentifier(taxis, taxiId);
      assert |matching| == 1;
      forall j | 0 <= j < |taxis| && taxis[j].identifier == taxiId
        ensures j == k
      {
        if j != k {
          MatchingTwo(taxis, keep, k, j);
        }
      }
    } else {
      forall k | 0 <= k < |taxis| && taxis[k].identifier == taxiId
        ensures exists j | 0 <= j < |taxis| && taxis[j].identifier == taxiId :: j != k
      {
        if forall j | 0 <= j < |taxis| && taxis[j].identifier == taxiId :: j == k {
          FilterSingle(taxis, keep, k);
          assert false;
        }
      }
    }
  }

  /** How the request loop ends. */
  datatype ServingEnd =
    | EndOfTransmission    // a request containing EOT was answered
    | StreamClosed         // the input ran out: an IOException
    | Crashed(e: Exception)  // `isValidMessage` threw on a request

  /** The replies the request loop writes and how it ends. */
  datatype Serving = Serving(replies: seq<Reply>, end: ServingEnd)

  /** A request containing EOT ends the session once it has been answered. */
  predicate EndsSession(request: JString) {
    Contains(request, Eot)
  }

  /** The reply to one request: an ACK for a valid frame, a NACK otherwise; `isValidMessage` may throw. */
  function Answer(request: JString): (r: Result<Reply>)
    ensures r.Ok? <==> MessageHandler.IsValidMessage(request).Ok?
    ensures r.Ok? ==> r.value == Acknowledgement(MessageHandler.IsValidMessage(request).value)
    ensures r.Throw? ==> r.error == IndexOutOfBounds
  {
    match MessageHandler.IsValidMessage(request)
    case Throw(e) => Throw(e)
    case Ok(valid) => Ok(Acknowledgement(valid))
  }

  /**
   * `handleTaxiRequests` on the requests still to be read: every request
   * read is answered, and the loop stops after the first request that
   * contains EOT.
   */
  function Serve(requests: seq<JString>): (s: Serving)
    ensures |s.replies| <= |requests|
  {
    if |requests| == 0 then Serving([], StreamClosed)
    else
      match Answer(requests[0])
      case Throw(e) => Serving([], Crashed(e))
      case Ok(reply) =>
        if EndsSession(requests[0]) then Serving([reply], EndOfTransmission)
        else
          var rest := Serve(requests[1..]);
          Serving([reply] + rest.replies, rest.end)
  }

  /**
   * Every request read is answered in order, ACK for a valid frame and NACK
   * otherwise, and only the last one answered may contain EOT.
   */
  lemma {:induction false} ServeReplies(requests: seq<JString>)
    ensures var s := Serve(requests);
      (forall i | 0 <= i < |s.replies| :: Answer(requests[i]) == Ok(s.replies[i])) &&
      (forall i | 0 <= i < |s.replies| - 1 :: !EndsSession(requests[i]))
  {
    if |requests| > 0 && Answer(requests[0]).Ok? && !EndsSession(requests[0]) {
      ServeReplies(requests[1..]);
      assert forall i | 0 <= i < |requests[1..]| :: requests[1..][i] == requests[i + 1];
    }
  }

  /** The request loop ends with end of transmission exactly when the last request it answered contains EOT. */
  lemma {:induction false} ServeEndOfTransmission(requests: seq<JString>)
    ensures var s := Serve(requests);
      s.end == EndOfTransmission <==> 0 < |s.replies| && EndsSession(requests[|s.replies| - 1])
  {
    if |requests| > 0 && Answer(requests[0]).Ok? && !EndsSession(requests[0]) {
      ServeEndOfTransmission(requests[1..]);
      var rest := Serve(requests[1..]);
      if 0 < |rest.replies| {
        assert requests[1..][|rest.replies| - 1] == requests[|rest.replies|];
      }
    }
  }

  /** The input runs out exactly when every request was answered and none contained EOT. */
  lemma {:induction false} ServeStreamClosed(requests: seq<JString>)
    ensures var s := Serve(requests);
      s.end == StreamClosed <==>
        |s.replies| == |requests| && forall i | 0 <= i < |requests| :: !EndsSession(requests[i])
  {
    if |requests| > 0 && Answer(requests[0]).Ok? && !EndsSession(requests[0]) {
      ServeStreamClosed(requests[1..]);
      assert forall i | 0 <= i < |requests[1..]| :: requests[1..][i] == requests[i + 1];
    }
  }

  /**
   * The loop crashes only when checking the first unanswered request
   * throws, which is an index error, after no answered request contained EOT.
   */
  lemma {:induction false} ServeCrashed(requests: seq<JString>)
    ensures var s := Serve(requests);
      s.end.Crashed? ==>
        |s.replies| < |requests| && Answer(requests[|s.replies|]).Throw? && s.end.e == IndexOutOfBounds &&
        forall i | 0 <= i < |s.replies| :: !EndsSession(requests[i])
  {
    if |requests| > 0 && Answer(requests[0]).Ok? && !EndsSession(requests[0]) {
      ServeCrashed(requests[1..]);
      var rest := Serve(requests[1..]);
      assert forall i | 0 <= i < |requests[1..]| :: requests[1..][i] == requests[i + 1];
      if |rest.replies| < |requests[1..]| {
        assert requests[1..][|rest.replies|] == requests[|rest.replies| + 1];
      }
    }
  }

  /**
   * The request loop of `handleTaxiRequests`: read a request, answer it,
   * and stop after a request containing EOT; running out of input is the
   * IOException `readUTF` throws.
   */
  method HandleTaxiRequests(requests: seq<JString>) returns (replies: seq<Reply>, end: ServingEnd)
    ensures Serving(replies, end) == Serve(requests)
  {
    replies := [];
    var i := 0;
    while i < |requests|
      invariant 0 <= i <= |requests| && |replies| == i
      invariant Serve(requests) == Serving(replies + Serve(requests[i..]).replies, Serve(requests[i..]).end)
    {
      ServeFrom(requests, i);
      var answer := Answer(requests[i]);
      if answer.Throw? {
        assert replies + [] == replies;
        return replies, Crashed(answer.error);
      }
      var rest := Serve(requests[i + 1..]).replies;
      assert replies + ([answer.value] + rest) == replies + [answer.value] + rest;
      replies := replies + [answer.value];
      if EndsSession(requests[i]) {
        return replies, EndOfTransmission;
      }
      i := i + 1;
    }
    end := StreamClosed;
  }

  /** One step of the request loop, from the `i`-th request on. */
  lemma ServeFrom(requests: seq<JString>, i: int)
    requires 0 <= i < |requests|
    ensures Answer(requests[i]).Throw? ==> Serve(requests[i..]) == Serving([], Crashed(Answer(requests[i]).error))
    ensures Answer(requests[i]).Ok? && EndsSession(requests[i]) ==>
      Serve(requests[i..]) == Serving([Answer(requests[i]).value], EndOfTransmission)
    ensures Answer(requests[i]).Ok? && !EndsSession(requests[i]) ==>
      var rest := Serve(requests[i + 1..]);
      Serve(requests[i..]) == Serving([Answer(requests[i]).value] + rest.replies, rest.end)
  {
    assert requests[i..][0] == requests[i];
    assert requests[i..][1..] == requests[i + 1..];
  }

  /** How the handling of one connection ends. */
  datatype SessionEnd =
    | Refused                // a NACK was written and the handler returned
    | Finished               // the taxi sent EOT and its session entries were removed
    | ConnectionLost         // an IOException was caught and logged
    | Escaped(e: Exception)  // a runtime exception left the handler

  class ClientHandler {
    /** The coordinator's taxi table, which `isTaxiRegistered` queries. */
    const repository: CentralTaxiService.TaxiService
    /** The sockets of the taxis in session, by identifier. */
    var connectedTaxis: map<JString, Socket>
    /** The session token of every taxi in session, by identifier. */
    var tokenRegistry: map<JString, JString>
    /** Every topic the handler asked the Kafka admin to create, in order. */
    var topicRequests: seq<JString>

    /** A taxi has a socket entry exactly when it has a token entry. */
    predicate Valid()
      reads this
    {
      connectedTaxis.Keys == tokenRegistry.Keys
    }

    constructor(repository: CentralTaxiService.TaxiService)
      ensures Valid() && this.repository == repository
      ensures connectedTaxis == map[] && tokenRegistry == map[] && topicRequests == []
    {
      this.repository := repository;
      connectedTaxis := map[];
      tokenRegistry := map[];
      topicRequests := [];
    }

    /**
     * `handleTaxiConnection` on the strings the taxi writes: the
     * authentication frame, the taxi's public key, then its requests.
     * `keyAccepted` says whether the taxi's key decodes (the key exchange is
     * otherwise opaque) and `token` is the fresh random session token.
     */
    method HandleTaxiConnection(socket: Socket, input: seq<JString>, keyAccepted: bool, token: JString)
      returns (end: SessionEnd, written: seq<Reply>)
      requires Valid()
      modifies this
      ensures Valid()
      // no authentication frame: the read fails
      ensures |input| == 0 ==> end == ConnectionLost && written == []
      // the authentication check throws
      ensures |input| > 0 && MessageHandler.IsValidAuthentication(input[0]).Throw? ==>
        end == Escaped(MessageHandler.IsValidAuthentication(input[0]).error) && written == []
      // an invalid authentication frame is refused with a NACK
      ensures |input| > 0 && MessageHandler.IsValidAuthentication(input[0]) == Ok(false) ==>
        end == Refused && written == [Acknowledgement(false)]
      ensures |input| > 0 && MessageHandler.IsValidAuthentication(input[0]) == Ok(true) ==>
        var id := TaxiIdOf(input[0]);
        // the frame has no second `#` piece
        (id.Throw? ==> end == Escaped(id.error) && written == []) &&
        // an unregistered taxi is refused with a NACK
        (id.Ok? && !IsTaxiRegistered(repository.taxis, id.value) ==> end == Refused && written == [Acknowledgement(false)]) &&
        // the key exchange fails
        (id.Ok? && IsTaxiRegistered(repository.taxis, id.value) && (|input| < 2 || !keyAccepted) ==>
          end == ConnectionLost && written == [])
      // every session that did not start leaves the tables alone
      ensures !Started(input, keyAccepted) ==>
        connectedTaxis == old(connectedTaxis) && tokenRegistry == old(tokenRegistry) && topicRequests == old(topicRequests)
      // a started session: key, token, entries, topic, then the request loop
      ensures Started(input, keyAccepted) ==>
        var id := TaxiIdOf(input[0]).value;
        var s := Serve(input[2..]);
        written == [CentralPublicKey, TokenAck(token)] + s.replies &&
        topicRequests == old(topicRequests) + [StartServiceTopic + id] &&
        (s.end == EndOfTransmission ==>
          end == Finished && connectedTaxis == old(connectedTaxis) - {id} && tokenRegistry == old(tokenRegistry) - {id}) &&
        (s.end != EndOfTransmission ==>
          connectedTaxis == old(connectedTaxis)[id := socket] && tokenRegistry == old(tokenRegistry)[id := token]) &&
        (s.end == StreamClosed ==> end == ConnectionLost) &&
        (s.end.Crashed? ==> end == Escaped(s.end.e))
    {
      if |input| == 0 {
        return ConnectionLost, [];
      }
      var authMessage := input[0];
      var authenticated := MessageHandler.IsValidAuthentication(authMessage);
      if authenticated.Throw? {
        return Escaped(authenticated.error), [];
      }
      if !authenticated.value {
        return Refused, [Acknowledgement(false)];
      }
      var id := TaxiIdOf(authMessage);
      if id.Throw? {
        return Escaped(id.error), [];
      }
      var taxiId := id.value;
      if !IsTaxiRegistered(repository.taxis, taxiId) {
        return Refused, [Acknowledgement(false)];
      }
      // the key exchange reads the taxi's key and answers with the coordinator's
      if |input| < 2 || !keyAccepted {
        return ConnectionLost, [];
      }
      var replies;
      end, replies := RunSession(socket, taxiId, token, input[2..]);
      written := [CentralPublicKey, TokenAck(token)] + replies;
    }

    /**
     * The authenticated part of `handleTaxiConnection`, after the key
     * exchange and the token reply: the session entries and the topic, the
     * request loop, then the removal of the entries when the taxi ends the
     * session. An exception from the loop skips the removal.
     */
    method RunSession(socket: Socket, taxiId: JString, token: JString, requests: seq<JString>)
      returns (end: SessionEnd, replies: seq<Reply>)
      requires Valid()
      modifies this
      ensures Valid()
      ensures replies == Serve(requests).replies
      ensures topicRequests == old(topicRequests) + [StartServiceTopic + taxiId]
      ensures Serve(requests).end == EndOfTransmission ==>
        end == Finished && connectedTaxis == old(connectedTaxis) - {taxiId} && tokenRegistry == old(tokenRegistry) - {taxiId}
      ensures Serve(requests).end != EndOfTransmission ==>
        connectedTaxis == old(connectedTaxis)[taxiId := socket] && tokenRegistry == old(tokenRegistry)[taxiId := token]
      ensures Serve(requests).end == StreamClosed ==> end == ConnectionLost
      ensures Serve(requests).end.Crashed? ==> end == Escaped(Serve(requests).end.e)
    {
      connectedTaxis := connectedTaxis[taxiId := socket];
      tokenRegistry := tokenRegistry[taxiId := token];
      topicRequests := topicRequests + [StartServiceTopic + taxiId];
      var servingEnd;
      replies, servingEnd := HandleTaxiRequests(requests);
      match servingEnd
      case EndOfTransmission =>
        assert connectedTaxis - {taxiId} == old(connectedTaxis) - {taxiId};
        assert tokenRegistry - {taxiId} == old(tokenRegistry) - {taxiId};
        connectedTaxis := connectedTaxis - {taxiId};
        tokenRegistry := tokenRegistry - {taxiId};
        end := Finished;
      case StreamClosed =>
        end := ConnectionLost;
      case Crashed(e) =>
        end := Escaped(e);
    }

    /** The session starts: a valid authentication frame of a registered taxi whose key exchange succeeds. */
    predicate Started(input: seq<JString>, keyAccepted: bool)
      reads this, repository
    {
      |input| >= 2 && keyAccepted &&
      MessageHandler.IsValidAuthentication(input[0]) == Ok(true) &&
      TaxiIdOf(input[0]).Ok? && IsTaxiRegistered(repository.taxis, TaxiIdOf(input[0]).value)
    }
  }
}
