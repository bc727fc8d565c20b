# Privacy-Chat: QKD key agreement and the connection manager in Dafny

Privacy-Chat is a chat server in which two users set up an encrypted session only
after a simulated BB84 quantum key distribution run. This project models the two
parts of the server that carry that logic:

- `qkd.dfy` (module `Qkd`) covers the classical post-processing of
  `backend/app/security/qkd.py`:
  - sifting, which keeps the positions where Alice's and Bob's bases agree;
  - error estimation on a random sample, with the 11 % threshold, after which the
    disclosed test bits are removed from both lists in place;
  - privacy amplification: doubling the bit string up to the key length, truncating
    it, turning it into big-endian bytes and hashing those bytes;
  - one protocol run (`run_protocol`) and `generate_session_key`.

  `BB84Simulator` is a class whose fields are written by a run. The Python lists
  that `detect_eavesdropping` clears and extends are modelled as `BitList` objects.
- `connection_manager.dfy` (module `ChatServer`) covers the `ConnectionManager`
  of `backend/app/main.py`:
  - its four dictionaries: connections, users, pending QKD handshakes and chat
    sessions;
  - connecting and disconnecting a user;
  - initiating, accepting and rejecting a handshake;
  - the checks made before an encrypted chat message is sent.

  Accepting a handshake runs `Qkd.GenerateSessionKey` on the drawn material.
- `wrappers.dfy` holds `Option`, which stands for Python's `None`.

The quantum circuits and every random draw are parameters, not computed values:
- Alice's bits and bases;
- Bob's bases and measurement results;
- the indices chosen by `random.sample`.

`FaithfulMeasurement` states what the circuits guarantee: where the bases agree and
nobody intercepted the qubit, Bob measures Alice's bit. The lemmas about honest
channels rest on this predicate. SHA-256 with `hexdigest` is the function parameter
`digest`. The calls into the encryption manager are also function parameters:
`create_session_key_hash`, `create_session_cipher` and `encrypt_message`.

Some behaviours of the code that a reader might not expect, all kept in the model:
- a failed or rejected handshake is deleted from `pending_qkd`; no terminal status is
  stored;
- a disconnect leaves the user's established chat sessions in place;
- initiating a handshake does not check for an existing session, and a new request
  overwrites a pending one under the same session id;
- lack of key material is reported with the same `eavesdropper_detected` reason as
  an interception (`ChatServer.LackOfMaterialIsReportedAsEavesdropping`);
- the test bits are removed only when no eavesdropper is detected.

## Model

| member | source | states |
|---|---|---|
| Qkd.MatchingBases | backend/app/security/qkd.py:166-176 | the kept positions increase, lie below the window and are positions where the two bases agree |
| Qkd.MatchingBasesExactly | backend/app/security/qkd.py:169-174 | a position below the window is kept if and only if Alice's and Bob's bases agree there, and the kept positions keep their order |
| Qkd.Bb84Simulator.SiftKey | backend/app/security/qkd.py:153-176 | the loop over the zipped lists returns Alice's bits and Bob's results at exactly the matching-basis positions, in order, as two lists of equal length |
| Qkd.SiftedDisagreeOnlyWhereIntercepted | backend/app/security/qkd.py:169-176 | when the channel measures faithfully, the sifted lists can differ only at positions whose qubit was intercepted |
| Qkd.SampleSize | backend/app/security/qkd.py:195-198 | the sample never exceeds the list, is empty only for an empty list, and otherwise holds at least one index and at least a tenth of the list |
| Qkd.Mismatches | backend/app/security/qkd.py:200-203 | the error count never exceeds the number of tested positions |
| Qkd.NoMismatchesIffAgreement | backend/app/security/qkd.py:200-203 | the error count is zero if and only if the lists agree at every tested position |
| Qkd.ThresholdIsElevenPercent | backend/app/security/qkd.py:211-218 | the integer test 100·errors > 11·tested holds exactly when the error rate errors/tested exceeds 0.11, and an empty sample gives rate 0, which never exceeds it |
| Qkd.EavesdroppingDetected | backend/app/security/qkd.py:192-218 | lists of unequal length are always flagged; lists of one length are flagged only over a non-empty sample with at least one disagreeing tested position |
| Qkd.AgreementIsNeverDetected | backend/app/security/qkd.py:192-218 | identical sifted lists never raise the eavesdropping alarm, whatever the sample |
| Qkd.Bb84Simulator.DetectEavesdropping | backend/app/security/qkd.py:178-226 | the answer is the eavesdropping verdict: lists of unequal length are always flagged, otherwise the sample's error rate is compared with the threshold; on detection both lists are left as they were, and otherwise each is replaced in place by its untested bits |
| Qkd.Untested | backend/app/security/qkd.py:206-209 | the untested positions lie below the list length, none of them is in the sample, and there are no more of them than the list has entries |
| Qkd.WithoutTested | backend/app/security/qkd.py:206-209 | removing the tested positions never lengthens a list, and an empty sample leaves the list as it was |
| Qkd.UntestedExactly | backend/app/security/qkd.py:205-209 | the remainder keeps exactly the positions not in the sample, in their original order |
| Qkd.WithoutTestedLength | backend/app/security/qkd.py:195-209 | removing the sample shortens a list by exactly the sample size |
| Qkd.UndisclosedBitsDetermineRemainder | backend/app/security/qkd.py:205-209 | lists that agree at every untested position have equal remainders, so the key material depends on the undisclosed bits only |
| Qkd.BitString | backend/app/security/qkd.py:239 | joining the bits gives a string of '0' and '1' of the same length |
| Qkd.Stretched | backend/app/security/qkd.py:241-246 | after the doubling loop and the slice, the string holds exactly key_length binary digits |
| Qkd.StretchedShape | backend/app/security/qkd.py:241-246 | the stretched string begins with the input's own bits and repeats them with period len(bits), so long input is simply truncated |
| Qkd.DoubledIsRepeat | backend/app/security/qkd.py:242-243 | r passes of `bit_string += bit_string` write the original string out 2^r times in a row |
| Qkd.DoublingEmptyStaysEmpty | backend/app/security/qkd.py:242-243 | doubling the empty string any number of times leaves it empty, so the loop cannot end on empty input |
| Qkd.ToBytes | backend/app/security/qkd.py:249 | to_bytes produces the requested number of big-endian bytes, and reading them back gives the number |
| Qkd.Encode | backend/app/security/qkd.py:249 | int(bit_string, 2).to_bytes((len+7)//8, "big") has (len+7)//8 bytes whose big-endian value is the binary value of the string, so the conversion never overflows |
| Qkd.EncodeInjective | backend/app/security/qkd.py:249-250 | two bit strings of equal length produce the same hash input only if they are equal |
| Qkd.Bb84Simulator.PrivacyAmplification | backend/app/security/qkd.py:228-253 | the doubling loop ends and the result is the digest of the encoded first key_length characters of the repeated bit string; a key length of 0 gives None, where int('', 2) raises ValueError |
| Qkd.Amplified | backend/app/security/qkd.py:239-253 | privacy amplification gives no key exactly for key length 0, where int('', 2) raises ValueError; when the input holds at least key_length bits the key is the digest of the encoded first key_length of them |
| Qkd.InsufficientAsWritten | backend/app/security/qkd.py:298 | the guard as written fires only for key_length ≥ 4 and a remainder shorter than the key length, so it never fires for key lengths 0 to 3 |
| Qkd.InsufficientMaterial | backend/app/security/qkd.py:298 | the corrected guard fires on an empty remainder and wherever the guard as written fires |
| Qkd.AsWrittenGuardAdmitsEmptyMaterial | backend/app/security/qkd.py:297-302 | with key_length 1 and no basis agreement, nothing is sifted, sampled or detected, and the guard as written lets the empty remainder through to a doubling loop that never reaches length 1 |
| Qkd.GuardAdmitsOnlyStretchableMaterial | backend/app/security/qkd.py:297-302 | material that passes the corrected guard is non-empty with a positive key length, and for key_length ≥ 4 the corrected guard agrees with the guard as written |
| Qkd.StretchedFromAnyRepetition | backend/app/security/qkd.py:241-246 | every repetition of the bit string at least key_length long begins with the stretched string, so where the doubling loop stops does not change the key |
| Qkd.Bb84Simulator.PostProcess | backend/app/security/qkd.py:286-302 | sifting, the eavesdropping test, the material guard and amplification produce exactly the protocol outcome, and the test's verdict is the eavesdropping verdict on the sifted lists |
| Qkd.ProtocolOutcome | backend/app/security/qkd.py:286-304 | a failed run always carries the empty key, and a successful run needs a positive key length |
| Qkd.Bb84Simulator.constructor | backend/app/security/qkd.py:24-38 | a new simulator has the given key length (default 32), empty lists, an empty shared key and no detection |
| Qkd.Bb84Simulator.RunProtocol | backend/app/security/qkd.py:255-304 | the run returns the protocol outcome: ("", True) on detection or when too little material remains, otherwise the amplified key with False; it records the raw material and the detection verdict in the fields and sets shared_key only on success |
| Qkd.KeyAbsentExactlyWhenDetected | backend/app/security/qkd.py:292-304 | a run returns the empty key exactly when it reports detection, and otherwise a key of one full 64-character digest |
| Qkd.HonestChannelFailsOnlyForLackOfMaterial | backend/app/security/qkd.py:286-304 | without interception the sample finds no error, |sifted| − sample size bits remain, and the run fails only when the material guard fires; otherwise it yields the digest of the stretched remainder |
| Qkd.HonestChannelIssuesSessionKey | backend/test_app.py:40-48 | with key length 32, no interception and at least 9 agreeing bases, the run issues the digest of the stretched remainder and generate_session_key returns it without a detection flag |
| Qkd.SessionKeyResult | backend/app/security/qkd.py:328-331 | the key is None exactly when the flag is raised, and a key that is handed out is the run's non-empty key |
| Qkd.GenerateSessionKey | backend/app/security/qkd.py:307-335 | a simulator with key length 32 runs once; the result is None together with True on detection or an empty key, and otherwise the key with False |
| ChatServer.SessionKeyOf | backend/app/main.py:216-224 | the session key the handshake receives is absent exactly when eavesdropping is reported, so the `not session_key` half of the failure test never fires on its own |
| ChatServer.KeyRefused | backend/app/main.py:224 | a reported eavesdropper always refuses the result, and a result that is not refused carries a non-empty key |
| ChatServer.HandshakeFailure | backend/app/main.py:224-285 | an accepted handshake establishes the session if and only if there is a non-empty key, no detection and a successful cipher setup; every QKD failure carries the eavesdropper_detected reason |
| ChatServer.HonestHandshakeFailsOnlyAtCipherSetup | backend/app/main.py:207-248 | on an honest channel with at least 9 agreeing bases the handshake is never failed for eavesdropping |
| ChatServer.LackOfMaterialIsReportedAsEavesdropping | backend/app/main.py:224-239 | on an honest channel with fewer than 9 agreeing bases the handshake fails with the eavesdropper_detected reason although nothing was intercepted |
| ChatServer.ExchangeKey | backend/app/main.py:207-277 | the key exchange ends in the failure reason that HandshakeFailure assigns to the generated session key and the cipher setup, and in None exactly when the session can be opened |
| ChatServer.HandshakesInvolving | backend/app/main.py:88-92 | the first loop collects, each once, exactly the pending sessions whose initiator or target is the user |
| ChatServer.RemoveSessions | backend/app/main.py:94-96 | the second loop deletes exactly the listed sessions and leaves every other entry as it was |
| ChatServer.ConnectionManager.constructor | backend/app/main.py:46-54 | all four dictionaries start empty and the manager invariant holds |
| ChatServer.ConnectionManager.Connect | backend/app/main.py:56-78 | the user is registered as online under its own id with its connection, replacing an earlier entry; handshakes and sessions are untouched; the invariant is kept |
| ChatServer.ConnectionManager.InitiateQkdHandshake | backend/app/main.py:135-172 | the handshake is initiated exactly when the target is connected; it then records a pending entry (initiator, target, pending) under the session id, overwriting any earlier one, and otherwise changes nothing; chat sessions are untouched; on success it returns the registered display names of the initiator and the target, which the two notifications carry |
| ChatServer.ConnectionManager.AcceptQkdHandshake | backend/app/main.py:174-322 | without a pending entry targeted at the caller nothing changes and False is returned; otherwise the entry leaves pending_qkd on every path, and the chat session (initiator, target, active) is added and True returned exactly when the QKD key and the cipher setup succeed; the failure reason is the one sent to both users; on success it returns the registered display names of the target and the initiator, sent to the initiator and the target as their chat partner |
| ChatServer.ConnectionManager.RejectQkdHandshake | backend/app/main.py:324-345 | only the target of a pending handshake can reject it; that removes just this entry and returns the target's registered display name, which the initiator is told; every other call changes nothing |
| ChatServer.ConnectionManager.Disconnect | backend/app/main.py:80-101 | the user leaves both connection maps; exactly the pending handshakes it takes part in are deleted, each once, the others are kept unchanged, and chat sessions are untouched |
| ChatServer.ConnectionManager.SendEncryptedMessage | backend/app/main.py:347-380 | an unknown session gives an error and nothing is sent; a missing or empty ciphertext gives an error; otherwise the ciphertext is addressed to both members of the session under the sender's display name |

## Left out

- The quantum circuits (`alice_prepare_qubits`, `eve_intercept`, `bob_measure_qubits`) and the Aer simulator are left out. Their results are parameters, constrained only by `FaithfulMeasurement` in the lemmas about honest channels.
- `generate_random_bits`, `generate_random_bases`, `random.sample` and the 10 % eavesdropper coin in `accept_qkd_handshake` are left out. Their draws are parameters, and `IsSample` states what a sample is.
- SHA-256 and `hexdigest` are the uninterpreted parameter `digest`. Only the lemmas that say so require a 64-character digest.
- `create_session_key_hash`, `create_session_cipher`, `encrypt_message`, `remove_session_cipher` and `get_session_fingerprint` belong to the encryption module, which is not part of this model. The first three are function parameters. `Disconnect` returns the sessions whose ciphers are removed.
- WebSocket traffic is left out: `accept`, `send_personal_message`, `send_to_session`, `broadcast_user_list` and the notification fields other than the display names that the handshake methods return. `SendEncryptedMessage` returns the recipients and the fields of the chat message instead of sending it.
- Interleavings at `await` points are not modelled. A failed send that calls `disconnect` halfway through a handshake is one such case. The model stops where a notification is addressed.
- Connection timestamps, `print` logging, and the HTTP endpoints and WebSocket endpoint of `main.py` are left out, as are `send_encrypted_image` and its image compression.
- Qkd.SampleSize: models `test_fraction` only at its default of 0.1, which is the only value any caller passes. It computes `int(len * 0.1)` as `len / 10`; these agree for every list length the lists can reach.
- Qkd.Bb84Simulator.RunProtocol: Python exceptions from the circuits are not modelled, and neither is a negative key length.
- Qkd.Bb84Simulator.RunProtocol: uses the corrected material guard described under Findings.
- Qkd.ProtocolOutcome: uses the corrected material guard. For key_length 0 to 3 with an empty remainder it gives ("", True), where the code as written loops forever (key_length 1 to 3) or raises ValueError (key_length 0); for every other input, and always at key_length 32, the two agree.
- Qkd.Bb84Simulator.PostProcess: is proved against `ProtocolOutcome` and so inherits its corrected guard, with the same difference from the code for key_length 0 to 3 and an empty remainder.
- Qkd.GenerateSessionKey: the `except Exception` branch has nothing to catch in the model. The one exception that could arise, `int('', 2)`, cannot occur with key length 32.
- ChatServer.ConnectionManager.InitiateQkdHandshake: requires that the initiator be registered whenever the target is connected. Otherwise the display-name lookup raises KeyError after the pending entry has been stored.
- ChatServer.ConnectionManager.AcceptQkdHandshake: requires the manager invariant. The invariant keeps both registered users behind a pending entry, so the display names of the success notifications, returned as `chatPartners`, can always be looked up; the code would raise KeyError otherwise.
- ChatServer.ConnectionManager.SendEncryptedMessage: returns the message as addressed to both members. `send_personal_message` silently skips a member who is not connected, and that delivery step is not modelled.
- ChatServer.ConnectionManager.SendEncryptedMessage: requires that the sender be registered whenever a ciphertext is produced, because `users[sender_id]` would raise KeyError otherwise. It does not model that `encrypt_message` is never called for an unknown session.

## Findings

| source | as written | input that shows it | evidently intended | confidence | as-written member | corrected member |
|---|---|---|---|---|---|---|
| backend/app/security/qkd.py:298 | the run refuses the material only when `len(alice_sifted) < key_length // 4`, which is never true for key_length 0 to 3 | key_length = 1 with Alice's bases [0,0,0,0] and Bob's [1,1,1,1]: nothing is sifted or tested and no eavesdropper is found; the empty remainder passes the guard, and privacy_amplification doubles "" forever (for key_length 0, `int('', 2)` raises ValueError) | an empty remainder counts as insufficient material | medium: the application always uses key_length 32, where the two guards agree; not executed | Qkd.AsWrittenGuardAdmitsEmptyMaterial | Qkd.GuardAdmitsOnlyStretchableMaterial |
