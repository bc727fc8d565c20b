/**
 * The ConnectionManager of the chat server (backend/app/main.py): who is
 * connected, which QKD handshakes are pending and which chat sessions are
 * established. WebSocket traffic, sleeping and the encryption manager stay
 * outside; what the manager learns from them arrives as parameters.
 */
module ChatServer {
  import opened Wrappers
  import Qkd

  type UserId = string
  type SessionId = string

  /** An accepted WebSocket, known to the manager only by an opaque handle. */
  type Connection = nat

  /** The record kept in `users` (the connection time is left out). */
  datatype UserInfo = UserInfo(id: UserId, displayName: string, status: string)

  datatype HandshakeStatus = Pending | PerformingQkd

  /** An entry of `pending_qkd`. */
  datatype PendingHandshake = PendingHandshake(initiator: UserId, target: UserId, status: HandshakeStatus)
  {
    predicate Involves(u: UserId) {
      u == initiator || u == target
    }
  }

  datatype ChatStatus = Active

  /** An entry of `chat_sessions`. */
  datatype ChatSession = ChatSession(user1: UserId, user2: UserId, status: ChatStatus)

  /** The reason carried by a `qkd_failed` notification. */
  datatype FailureReason = EavesdropperDetected | EncryptionSetupFailed

  /**
   * What send_encrypted_message does: an error to the sender, or one chat
   * message addressed to both members (an offline member's copy is dropped
   * by the sending layer, which is not modelled).
   */
  datatype SendOutcome =
    | SessionNotFound
    | EncryptionFailed
    | Addressed(recipients: seq<UserId>, senderName: string, ciphertext: string)

  /**
   * What generate_session_key draws at random for one handshake: the raw
   * material of a run with key length 32 and the sample of tested positions.
   */
  datatype QkdRun = QkdRun(aliceBits: seq<Qkd.Bit>, aliceBases: seq<Qkd.Bit>, bobBases: seq<Qkd.Bit>,
                           bobResults: seq<Qkd.Bit>, testIndices: seq<nat>)
  {
    ghost predicate WellFormed() {
      && Qkd.RawMaterial(32, aliceBits, aliceBases, bobBases, bobResults)
      && Qkd.IsSample(testIndices, |Qkd.MatchingBases(aliceBases, bobBases, 32 * 4)|)
    }
  }

  /** The (key, eavesdropper_detected) pair generate_session_key returns for `run`. */
  function SessionKeyOf(run: QkdRun, digest: seq<Qkd.Byte> -> string): (r: (Option<string>, bool))
    requires run.WellFormed()
    ensures r.0 == None <==> r.1
    ensures KeyRefused(r.0, r.1) <==> r.1
  {
    var (key, detected) := Qkd.ProtocolOutcome(32, run.aliceBits, run.aliceBases, run.bobBases, run.bobResults,
                                               run.testIndices, digest);
    Qkd.SessionKeyResult(key, detected)
  }

  /**
   * Whether a QKD result is treated as a failure: detection, or no key (None
   * or ""). A result that is not refused carries a non-empty key.
   */
  predicate KeyRefused(sessionKey: Option<string>, eavesdropperDetected: bool): (r: bool)
    ensures eavesdropperDetected ==> r
    ensures !r ==> sessionKey.Some? && |sessionKey.value| > 0
  {
    eavesdropperDetected || sessionKey == None || sessionKey.value == ""
  }

  /**
   * The failure an accepted handshake ends in, None when the chat session is
   * established; `createCipher` stands for encryption_manager.create_session_cipher.
   */
  function HandshakeFailure(result: (Option<string>, bool), sessionId: SessionId,
                            createCipher: (SessionId, string) -> bool): (r: Option<FailureReason>)
    ensures r == None <==> !KeyRefused(result.0, result.1) && createCipher(sessionId, result.0.value)
    ensures r == Some(EavesdropperDetected) <==> KeyRefused(result.0, result.1)
  {
    if KeyRefused(result.0, result.1) then Some(EavesdropperDetected)
    else if !createCipher(sessionId, result.0.value) then Some(EncryptionSetupFailed)
    else None
  }

  /**
   * Without interception and with at least 9 agreeing bases, a handshake can
   * only fail while setting up the cipher.
   */
  lemma HonestHandshakeFailsOnlyAtCipherSetup(run: QkdRun, intercepted: seq<bool>, sessionId: SessionId,
                                              digest: seq<Qkd.Byte> -> string, createCipher: (SessionId, string) -> bool)
    requires run.WellFormed()
    requires Qkd.FaithfulMeasurement(run.aliceBits, run.aliceBases, run.bobBases, run.bobResults, intercepted)
    requires forall i :: 0 <= i < |intercepted| ==> !intercepted[i]
    requires |Qkd.MatchingBases(run.aliceBases, run.bobBases, 32 * 4)| >= 9
    requires forall bytes :: digest(bytes) != ""
    ensures HandshakeFailure(SessionKeyOf(run, digest), sessionId, createCipher) != Some(EavesdropperDetected)
  {
    Qkd.HonestChannelIssuesSessionKey(run.aliceBits, run.aliceBases, run.bobBases, run.bobResults,
                                      intercepted, run.testIndices, digest);
  }

  /**
   * A run that loses its material to the sample is reported with the same
   * reason as an eavesdropper, although nobody intercepted anything.
   */
  lemma LackOfMaterialIsReportedAsEavesdropping(run: QkdRun, intercepted: seq<bool>, sessionId: SessionId,
                                               digest: seq<Qkd.Byte> -> string, createCipher: (SessionId, string) -> bool)
    requires run.WellFormed()
    requires Qkd.FaithfulMeasurement(run.aliceBits, run.aliceBases, run.bobBases, run.bobResults, intercepted)
    requires forall i :: 0 <= i < |intercepted| ==> !intercepted[i]
    requires |Qkd.MatchingBases(run.aliceBases, run.bobBases, 32 * 4)| < 9
    ensures HandshakeFailure(SessionKeyOf(run, digest), sessionId, createCipher) == Some(EavesdropperDetected)
  {
    Qkd.HonestChannelFailsOnlyForLackOfMaterial(32, run.aliceBits, run.aliceBases, run.bobBases, run.bobResults,
                                                intercepted, run.testIndices, digest);
  }

  /**
   * The key exchange inside accept_qkd_handshake: generate_session_key on
   * `run`, then, when a key was issued, the cipher setup. The result is the
   * reason reported to both users, None when the session can be opened.
   */
  method ExchangeKey(sessionId: SessionId, run: QkdRun, digest: seq<Qkd.Byte> -> string,
                     createCipher: (SessionId, string) -> bool)
    returns (failure: Option<FailureReason>)
    requires run.WellFormed()
    ensures failure == HandshakeFailure(SessionKeyOf(run, digest), sessionId, createCipher)
  {
    var sessionKey, eavesdropperDetected := Qkd.GenerateSessionKey(
      run.aliceBits, run.aliceBases, run.bobBases, run.bobResults, run.testIndices, digest);
    assert (sessionKey, eavesdropperDetected) == SessionKeyOf(run, digest);
    if eavesdropperDetected || sessionKey == None || sessionKey.value == "" {
      return Some(EavesdropperDetected);
    }
    var success := createCipher(sessionId, sessionKey.value);
    if !success {
      return Some(EncryptionSetupFailed);
    }
    return None;
  }

  /** Deleting a key undoes any earlier update of it. */
  lemma UpdateThenRemove<K, V>(m: map<K, V>, k: K, v: V)
    ensures m[k := v] - {k} == m - {k}
  {
  }

  /**
   * The first loop of disconnect: the ids of the pending handshakes that
   * `userId` initiated or is the target of, each listed once.
   */
  method HandshakesInvolving(pending: map<SessionId, PendingHandshake>, userId: UserId)
    returns (ids: seq<SessionId>)
    ensures forall sid :: sid in ids <==> sid in pending && pending[sid].Involves(userId)
    ensures forall i, j :: 0 <= i < j < |ids| ==> ids[i] != ids[j]
  {
    ids := [];
    var unvisited := pending.Keys;
    while unvisited != {}
      invariant unvisited <= pending.Keys
      invariant forall sid :: sid in ids <==> sid in pending && sid !in unvisited && pending[sid].Involves(userId)
      invariant forall i, j :: 0 <= i < j < |ids| ==> ids[i] != ids[j]
      decreases unvisited
    {
      var sid :| sid in unvisited;
      if pending[sid].Involves(userId) {
        ids := ids + [sid];
      }
      unvisited := unvisited - {sid};
    }
  }

  /**
   * The second loop of disconnect: deletes each listed id that is still
   * present and keeps every other entry as it was.
   */
  method RemoveSessions(pending: map<SessionId, PendingHandshake>, ids: seq<SessionId>)
    returns (rest: map<SessionId, PendingHandshake>)
    ensures forall sid :: sid in rest <==> sid in pending && sid !in ids
    ensures forall sid :: sid in rest ==> rest[sid] == pending[sid]
  {
    rest := pending;
    var k := 0;
    while k < |ids|
      invariant 0 <= k <= |ids|
      invariant forall sid :: sid in rest <==> sid in pending && sid !in ids[..k]
      invariant forall sid :: sid in rest ==> rest[sid] == pending[sid]
    {
      var sid := ids[k];
      assert ids[..k + 1] == ids[..k] + [sid];
      if sid in rest {
        rest := rest - {sid};
      }
      k := k + 1;
    }
    assert ids[..k] == ids;
  }

  /** The guards of accept and reject: the handshake is pending and `userId` is its target. */
  predicate CanAnswer(pending: map<SessionId, PendingHandshake>, sessionId: SessionId, userId: UserId) {
    sessionId in pending && pending[sessionId].target == userId
  }

  /** A ciphertext that counts as an encryption result (neither None nor ""). */
  predicate Usable(ciphertext: Option<string>) {
    ciphertext.Some? && ciphertext.value != ""
  }

  class ConnectionManager {
    var activeConnections: map<UserId, Connection>
    var users: map<UserId, UserInfo>
    var chatSessions: map<SessionId, ChatSession>
    var pendingQkd: map<SessionId, PendingHandshake>

    /**
     * Connected users are exactly the registered ones, each under its own id,
     * and every pending handshake is between registered users.
     */
    ghost predicate Valid()
      reads this
    {
      && activeConnections.Keys == users.Keys
      && (forall u :: u in users ==> users[u].id == u)
      && (forall sid :: sid in pendingQkd ==> pendingQkd[sid].initiator in users && pendingQkd[sid].target in users)
    }

    constructor ()
      ensures Valid()
      ensures activeConnections == map[] && users == map[]
      ensures chatSessions == map[] && pendingQkd == map[]
    {
      activeConnections, users := map[], map[];
      chatSessions, pendingQkd := map[], map[];
    }

    /** Registers `userId` as online on `connection`, replacing an earlier registration. */
    method Connect(userId: UserId, connection: Connection, displayName: string)
      requires Valid()
      modifies this
      ensures Valid()
      ensures activeConnections == old(activeConnections)[userId := connection]
      ensures users == old(users)[userId := UserInfo(userId, displayName, "online")]
      ensures chatSessions == old(chatSessions) && pendingQkd == old(pendingQkd)
    {
      activeConnections := activeConnections[userId := connection];
      users := users[userId := UserInfo(userId, displayName, "online")];
    }

    /**
     * Records a pending handshake under sessionIdOf(initiator, target) when
     * the target is connected; an earlier entry under that id is replaced.
     * `fromUser` and `targetUser` are the display names the qkd_request and
     * qkd_initiated notifications carry; looking up the initiator's needs the
     * initiator registered.
     */
    method InitiateQkdHandshake(initiatorId: UserId, targetId: UserId, sessionIdOf: (UserId, UserId) -> SessionId)
      returns (initiated: bool, fromUser: string, targetUser: string)
      requires Valid()
      requires targetId in activeConnections ==> initiatorId in users
      modifies this
      ensures Valid()
      ensures initiated <==> targetId in old(activeConnections)
      ensures initiated ==> && initiatorId in users && targetId in users
                            && fromUser == users[initiatorId].displayName
                            && targetUser == users[targetId].displayName
      ensures initiated ==> pendingQkd == old(pendingQkd)[sessionIdOf(initiatorId, targetId) :=
                                                         PendingHandshake(initiatorId, targetId, Pending)]
      ensures !initiated ==> pendingQkd == old(pendingQkd)
      ensures activeConnections == old(activeConnections) && users == old(users)
      ensures chatSessions == old(chatSessions)
    {
      if targetId !in activeConnections {
        return false, "", "";
      }
      var sessionId := sessionIdOf(initiatorId, targetId);
      pendingQkd := pendingQkd[sessionId := PendingHandshake(initiatorId, targetId, Pending)];
      return true, users[initiatorId].displayName, users[targetId].displayName;
    }

    /**
     * The target accepts: the key exchange runs on `run`, the entry leaves
     * `pending_qkd` whatever happens, and a chat session between initiator
     * and target is opened only when a key was issued and the cipher was set
     * up. `failure` is the reason sent to both users when it was not;
     * `chatPartners` holds the display names sent to the initiator and to the
     * target on success.
     */
    method AcceptQkdHandshake(sessionId: SessionId, userId: UserId, run: QkdRun, digest: seq<Qkd.Byte> -> string,
                              createCipher: (SessionId, string) -> bool)
      returns (accepted: bool, failure: Option<FailureReason>, chatPartners: (string, string))
      requires Valid()
      requires run.WellFormed()
      modifies this
      ensures Valid()
      ensures !CanAnswer(old(pendingQkd), sessionId, userId) ==>
                && !accepted && failure == None
                && pendingQkd == old(pendingQkd) && chatSessions == old(chatSessions)
      ensures CanAnswer(old(pendingQkd), sessionId, userId) ==>
                && pendingQkd == old(pendingQkd) - {sessionId}
                && failure == HandshakeFailure(SessionKeyOf(run, digest), sessionId, createCipher)
      ensures accepted <==> CanAnswer(old(pendingQkd), sessionId, userId) && failure == None
      ensures accepted ==> chatSessions == old(chatSessions)[sessionId :=
                                                              ChatSession(old(pendingQkd)[sessionId].initiator, userId, Active)]
      ensures !accepted ==> chatSessions == old(chatSessions)
      ensures accepted ==> && userId in users && old(pendingQkd)[sessionId].initiator in users
                           && chatPartners == (users[userId].displayName,
                                               users[old(pendingQkd)[sessionId].initiator].displayName)
      ensures activeConnections == old(activeConnections) && users == old(users)
    {
      chatPartners := ("", "");
      if sessionId !in pendingQkd {
        return false, None, chatPartners;
      }
      var qkdSession := pendingQkd[sessionId];
      if qkdSession.target != userId {
        return false, None, chatPartners;
      }
      qkdSession := qkdSession.(status := PerformingQkd);
      pendingQkd := pendingQkd[sessionId := qkdSession];

      failure := ExchangeKey(sessionId, run, digest, createCipher);
      if failure == None {
        chatSessions := chatSessions[sessionId := ChatSession(qkdSession.initiator, qkdSession.target, Active)];
        chatPartners := (users[userId].displayName, users[qkdSession.initiator].displayName);
      }
      ghost var updated := pendingQkd;
      pendingQkd := pendingQkd - {sessionId};
      assert pendingQkd == old(pendingQkd) - {sessionId} by {
        assert updated == old(pendingQkd)[sessionId := qkdSession];
        UpdateThenRemove(old(pendingQkd), sessionId, qkdSession);
      }
      accepted := failure == None;
    }

    /**
     * The target declines: the pending entry is dropped and nothing else
     * changes; `declinedBy` is the display name the initiator is told.
     */
    method RejectQkdHandshake(sessionId: SessionId, userId: UserId) returns (rejected: bool, declinedBy: string)
      requires Valid()
      modifies this
      ensures Valid()
      ensures rejected <==> CanAnswer(old(pendingQkd), sessionId, userId)
      ensures rejected ==> userId in users && declinedBy == users[userId].displayName
      ensures rejected ==> pendingQkd == old(pendingQkd) - {sessionId}
      ensures !rejected ==> pendingQkd == old(pendingQkd)
      ensures activeConnections == old(activeConnections) && users == old(users)
      ensures chatSessions == old(chatSessions)
    {
      if sessionId !in pendingQkd {
        return false, "";
      }
      var qkdSession := pendingQkd[sessionId];
      if qkdSession.target != userId {
        return false, "";
      }
      pendingQkd := pendingQkd - {sessionId};
      return true, users[userId].displayName;
    }

    /**
     * Forgets `userId` and drops every pending handshake it takes part in;
     * `removed` lists those sessions in the order their ciphers are removed.
     * Established chat sessions are kept.
     */
    method Disconnect(userId: UserId) returns (removed: seq<SessionId>)
      requires Valid()
      modifies this
      ensures Valid()
      ensures activeConnections == old(activeConnections) - {userId}
      ensures users == old(users) - {userId}
      ensures forall sid :: sid in removed <==> sid in old(pendingQkd) && old(pendingQkd)[sid].Involves(userId)
      ensures forall i, j :: 0 <= i < j < |removed| ==> removed[i] != removed[j]
      ensures forall sid :: sid in pendingQkd <==> sid in old(pendingQkd) && !old(pendingQkd)[sid].Involves(userId)
      ensures forall sid :: sid in pendingQkd ==> pendingQkd[sid] == old(pendingQkd)[sid]
      ensures chatSessions == old(chatSessions)
    {
      activeConnections := activeConnections - {userId};
      users := users - {userId};
      removed := HandshakesInvolving(pendingQkd, userId);
      pendingQkd := RemoveSessions(pendingQkd, removed);
    }

    /**
     * Encrypts `message` for the session with `encrypt` (standing for
     * encryption_manager.encrypt_message) and addresses it to both members;
     * an unknown session or a failed encryption yields an error for the
     * sender instead. Nothing is stored.
     */
    method SendEncryptedMessage(sessionId: SessionId, senderId: UserId, message: string,
                                encrypt: (SessionId, string) -> Option<string>)
      returns (outcome: SendOutcome)
      requires sessionId in chatSessions && Usable(encrypt(sessionId, message)) ==> senderId in users
      ensures outcome == SessionNotFound <==> sessionId !in chatSessions
      ensures outcome == EncryptionFailed <==> sessionId in chatSessions && !Usable(encrypt(sessionId, message))
      ensures outcome.Addressed? ==>
                && outcome.recipients == [chatSessions[sessionId].user1, chatSessions[sessionId].user2]
                && outcome.senderName == users[senderId].displayName
                && outcome.ciphertext == encrypt(sessionId, message).value
    {
      if sessionId !in chatSessions {
        return SessionNotFound;
      }
      var encryptedMessage := encrypt(sessionId, message);
      if encryptedMessage == None || encryptedMessage.value == "" {
        return EncryptionFailed;
      }
      var session := chatSessions[sessionId];
      return Addressed([session.user1, session.user2], users[senderId].displayName, encryptedMessage.value);
    }
  }
}
