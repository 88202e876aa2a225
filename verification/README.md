# GoKey in Dafny

GoKey is an OpenPGP smartcard, a CCID reader and a U2F token. This project models
the parts of it that carry state or structure, and proves what holds of them over
every input and every run.

* **The card** (`LockMachine`, `LockSteps`, `CardRuns`, `CardStatus`, `CardReports`,
  `CardAttempts`, `CardStarts`, `PublicKeys`, `ManySignatures`, `HostView`, `HostAccess`,
  `CardObjects`). GoKey has no "verified" flag: a password counts as verified while a decrypted private key is
  reachable through a subkey pointer. `CardObjects` models that with objects (subkeys that may be one object under two names, keys decrypted in
  place, locking by a pointer swap, an authentication copy that shares a key object).
  `LockMachine` is the same card over values. Every method of `CardObjects.Card` ends
  in the state of the corresponding function of `LockMachine`, and `Session` lifts that
  to every command sequence. The run theorems are proved about `LockMachine` through
  one induction principle (`LockSteps.RunKeeps`): a property closed under a dozen
  elementary transitions holds after every run. A log records decryptions, refusals
  and uses; `CardReports.RepliesAreRecorded` and `CardAttempts.AttemptsAreRecorded` tie
  it to the replies that callers see. `HostView` and `HostAccess` say what every command
  answers, with the codes, tags and status words of the protocol written out.
* **TLV data objects** (`Tlv`, `DataObjects`), **raw ECDSA signatures** (`EcdsaLayout`).
* **Step systems**: the user-presence handshake (`Presence`), the USB hand-off beside
  the console (`Handoff`), the wake timer (`WakeTimer`); `UsbCard` joins hand-off,
  framing, console and card.
* **Codecs and storage**: CCID frames (`Ccid`), the SNVS envelope (`Snvs`), the eMMC
  counter (`UsageCounter`).

Library calls, hardware and randomness are parameters: `Env` holds the fixed ones (key
unwrapping, entity parsing, key decryption), `Oracle` what they answer during one
command (as functions of key and data), `Suite` the ciphers of the envelope; whether the device key can be derived is
an argument of each initializing command. Each card command is atomic.

Some expectations fail, and the lemmas below say exactly when:

* The documentation of VERIFY (internal/icc/verify.go:36-37) says the verification
  status matches the presence of a decrypted subkey in memory. For Sig and Dec it does
  (`VerifyStatusIsLockStatus`). The Aut copy keeps the key object it shares, so it stays
  decrypted after its origin is locked: `AuthenticationCopy` gives the exact condition,
  `CopyOutlivesLock` a run.
* Locking restores by fingerprint, in the order Sig, Dec, Aut. A decryption key is
  locked by it exactly when that first match is encrypted: `LockRestoresHome`,
  `HomeIsOwnKey`, and the run `SharedFingerprintStaysOpen`.
* `v` decodes what `tlv` prints exactly up to 0xff bytes; above that it panics
  (`Tlv.RoundTrip`), so PSO:DECIPHER takes points of at most 248 bytes.
* The reported signature count is the number of signatures exactly up to 0xffffff
  (`HostSeesSignatureCount`); `CountIsLost` has a run for every number of signatures, and
  beyond that limit the host reads zero until the 32-bit counter starts over.
* PSO:DECIPHER does not always need the decryption key unlocked: its AES form answers
  before any key check. `LockedServesExactlyAes` says what a locked key still serves,
  `AesNeedsNoUnlock` gives the run, and `ServiceFollowsUnlock` covers everything else.
* Some inputs stop the firmware. `CrashesExactly` gives them over bytes (a truncated
  object at one of three levels, or a shared secret longer than one coordinate, or
  PSO:ENCIPHER without a decryption key); `EncipherStopsBlankCard`,
  `TruncatedCipherStopsCard` and `OverlongSecretStopsCard` are runs, the last one on
  condition that the library returns such a secret.
* An unsuccessful initialization replaces the stored key: by nothing when unwrapping
  fails, by the unwrapped text when parsing fails. `InitializesExactly` says which runs
  initialize a card, `FirstTryDecides` that the first attempt decides alone when
  unwrapped text does not unwrap again, and `TransientFailureIsFinal` that a failed key
  derivation in the first attempt loses a card that a working one would have initialized.
* A re-initialization of the U2F token replaces the token's channel even if it fails,
  and the counter's only if it succeeds. A request can be confirmed exactly while its
  channel is the token's (`ConfirmableExactly`), a new one exactly when the last
  re-initialization succeeded (`NewRequestConfirmableExactly`, and the run
  `FailedReinitStrands`).
* The SNVS envelope is appended to the slice of the IV, so it may be written behind the
  caller's IV: `EncryptCtr` says exactly what is left there.

## Model

| member | source | states |
|---|---|---|
| `CardObjects.PrivateKey.Decrypt` | internal/icc/verify.go:92-95 | in-place decryption: success clears `Encrypted` and sets the material, failure changes nothing |
| `CardObjects.DecodeSubkeys` | internal/icc/openpgp.go:32-52 | the loop chooses the subkeys of `HostAccess.SlotsFollowFlags`: Sig and Dec are entity subkeys themselves; Aut is a new subkey with the public key and the private key pointer of its origin |
| `LockMachine.LastIndexIsLast` | internal/icc/openpgp.go:33-49 | the chosen subkey qualifies and every other qualifying subkey comes before it |
| `HostAccess.SlotsFollowFlags` | internal/icc/openpgp.go:33-49 | in every run after loading an entity, Sig is the last subkey whose valid binding has the sign flag, Dec the last with both encryption flags, Aut the last with the authenticate flag; a slot is empty exactly if there is none |
| `HostAccess.LoadedKeys` | internal/icc/interface.go:135-168 | right after loading, every subkey has the private and public key of its packet, Aut its origin's, three attempts are left, and flags, counter and log are as before |
| `CardObjects.DecryptAt` | internal/icc/verify.go:92-95 | decrypting through one subkey changes that subkey's value, the Aut copy's exactly while the object is shared, and no other |
| `CardObjects.SwapAt` | internal/icc/verify.go:109 | replacing one subkey's key pointer ends its sharing with Aut and leaves all other keys as they were |
| `CardObjects.DecodeAndCache` | internal/icc/interface.go:143-154 | after decoding, the pointers reach the entity's keys and the caches are copies of the slot keys by value |
| `CardObjects.Card.Restore` | internal/icc/interface.go:177-189 | a new object equal to the first cached key with the subkey's fingerprint, nil if there is none |
| `CardObjects.Card.AnyUnlocked` | internal/icc/verify.go:133-142 | true exactly when Sig or Dec reaches unencrypted key material |
| `CardObjects.Card.SignalVerificationStatus` | internal/icc/verify.go:132-143 | the blue LED is set to whether a slot holds unencrypted material, nothing else changes |
| `CardObjects.Card.Verify` | internal/icc/verify.go:42-130 | the heap and the reply refine the VERIFY step: status, unlock, retry counter, block, lock, then the indicator |
| `CardObjects.Card.Relock` | internal/icc/verify.go:106-115 | locking replaces the slot's pointer with a fresh object of the cached value; no cache object is shared |
| `CardObjects.Card.ComputeDigitalSignature` | internal/icc/crypto.go:43-120 | refines PSO:CDS: lock check, signature, counter, and a lock on every way out after the check |
| `CardObjects.Card.Decipher` | internal/icc/crypto.go:124-183 | refines PSO:DECIPHER with its AES, RSA and ECDH forms, their errors and their run-time panics |
| `CardObjects.Card.Encipher` | internal/icc/crypto.go:187-201 | refines PSO:ENCIPHER, including the panic without a decryption key and the errors of the AES engine |
| `CardObjects.Card.Select` | internal/icc/interface.go:193-209 | refines SELECT: the selected flag, and the lock of every password when another application is named |
| `CardObjects.Card.DigitalSignatureCounter` | internal/icc/data.go:380-389 | the three low bytes of the counter, which starts over once they cannot hold it |
| `CardObjects.Card.GetData` | internal/icc/data.go:412-446 | refines GET DATA: only the signature counter can change |
| `HostView.DataFields` | internal/icc/data.go:417-442 | tags 0x4F, 0x5E, 0x5F50, 0x5F52, 0x7F66 and 0xDE answer their field, 0xC4 the seven password status bytes |
| `HostView.CardholderData` | internal/icc/data.go:425-426 | tag 0x65 answers one object of that tag that parses to name, language and sex |
| `HostView.ApplicationData` | internal/icc/data.go:427-428 | tag 0x6E answers one object of that tag that parses, two levels deep, with the card's retry counter |
| `HostView.AlgorithmData` | internal/icc/data.go:370-378 | tag 0xFA answers a list that parses to the attributes of the three keys |
| `HostView.UnknownData` | internal/icc/data.go:441-445 | any other tag answers the status word 8800 |
| `CardObjects.Card.GenerateAsymmetricKeyPair` | internal/icc/data.go:466-527 | refines GENERATE ASYMMETRIC KEY PAIR: the pointer a template names reaches the public key of its entity subkey, for Aut through the copy |
| `CardObjects.Card.Command` | internal/icc/interface.go:232-286 | refines the APDU dispatch of all commands; the white LED is off again afterwards |
| `HostView.OthersAreRefused` | internal/icc/interface.go:239-275 | other class and instruction bytes are refused and change nothing |
| `HostView.OtherOperationsAreRefused` | internal/icc/interface.go:261-271 | so are other parameters of the security operation |
| `CardObjects.Card.GetObjects` | internal/icc/rpc.go:26-118 | refines object listing: lock check, key types, and the lock on every way out after the check |
| `CardObjects.Card.Init` | internal/icc/interface.go:124-168 | refines initialization, with or without a derived device key, refused once initialized; a failed one still replaces the armored key |
| `CardObjects.Card.ConsoleLock` | internal/usb/ssh.go:108-118 | refines the `lock` command for one or both passwords |
| `CardObjects.Card.ConsoleUnlock` | internal/usb/ssh.go:119-137 | refines the `unlock` command, which initializes the card first if needed |
| `CardObjects.Card.Session` | internal/icc/interface.go:232-286 | over every command sequence the pointer-level card is in the state of the value machine's run |
| `CardObjects.Life` | internal/icc/interface.go:60-116 | from power-on, after any session: at most three retries, white LED off, blue LED on exactly when a slot pointer reaches unencrypted material |
| `LockSteps.RestoreFinds` | internal/icc/interface.go:177-189 | from every invariant state the search finds a cache: Sig's own for Sig, for Dec the first of Sig and Dec with the fingerprint |
| `LockSteps.MicroKeepsInv` | internal/icc/verify.go:68-116 | every elementary transition keeps the invariant: slot keys are cached forms, retries at most three, LEDs agree |
| `LockSteps.RunKeeps` | internal/icc/interface.go:232-286 | what survives every elementary transition survives every command sequence |
| `LockSteps.ReachableInv` | internal/icc/interface.go:124-168 | the invariant holds in every state reachable from power-on |
| `CardRuns.KeysAreFixed` | internal/icc/interface.go:125-154 | after initialization caches, slots, public keys, fingerprints and private keys outside the slots never change |
| `CardRuns.LiveKeysAreCachedForms` | internal/icc/interface.go:145-154 | in every reachable state each live slot key is a cached key or that key decrypted |
| `CardRuns.OneUsePerUnlock` | internal/icc/crypto.go:57-63 | for a protected signature key, a decryption of it lies before every use with no use in between, so uses never exceed decryptions |
| `CardRuns.RetriesAreExact` | internal/icc/verify.go:88-103 | in every run the counter is three minus the refusals since the last success, over both subkeys and both front ends |
| `CardRuns.RetryBound` | internal/icc/verify.go:88-103 | refusals plus remaining retries are at most three plus two per successful decryption |
| `CardRuns.AtMostThreeRefusals` | internal/icc/verify.go:88-103 | a stretch without a successful decryption refuses at most three times |
| `CardRuns.BlockingIsPermanent` | internal/icc/verify.go:88-91 | at counter zero no continuation decrypts or tries to, and the set of open keys only shrinks |
| `CardStatus.VerifyStatusIsLockStatus` | internal/icc/verify.go:68-104 | VERIFY answers 9000 exactly when the key is unlocked afterwards |
| `HostAccess.VerifyTellsStatus` | internal/icc/verify.go:68-91 | VERIFY 00 for references 81 and 82, without a passphrase, on an open key or without attempts: 9000 or 63 with the retries, and nothing changes |
| `HostAccess.VerifyTries` | internal/icc/verify.go:92-104 | with a passphrase for a locked key: the library's answer opens exactly that key and leaves three attempts, or costs one |
| `HostAccess.VerifyLocks` | internal/icc/verify.go:105-116 | VERIFY FF answers 9000 and puts the first matching cached key in place of an open one, changing no other |
| `HostAccess.VerifyRefused` | internal/icc/verify.go:45-64 | other references, slots without a key and other modes are refused and change nothing |
| `CardStatus.LockRestoresHome` | internal/icc/verify.go:105-116 | locking puts the first matching cache in place; the key is then locked exactly when that cache is encrypted |
| `CardStatus.HomeIsOwnKey` | internal/icc/interface.go:145-154 | the restored key is the slot's own, for Dec exactly when Sig has another fingerprint or the same key |
| `CardStatus.SigningLocks` | internal/icc/crypto.go:46-63 | after PSO:CDS a protected key is unlocked exactly if it was and there was no data: every other way out locks it, whatever the reply |
| `CardStatus.ListingLocks` | internal/icc/rpc.go:34-41 | after an object listing, successful or not, a protected signature key is locked |
| `HostAccess.ListsExactly` | internal/icc/rpc.go:61-112 | a listing succeeds exactly with an open RSA key or standard ECDSA key and working constructors |
| `CardStatus.StaysLocked` | internal/icc/verify.go:92-116 | an encrypted key is unchanged by every run that does not successfully decrypt it |
| `CardStatus.SelectedMeansLastSelect` | internal/icc/interface.go:193-209 | in every run the card is selected exactly when the last SELECT named the bytes d27600012401, alone or with version, manufacturer, serial number and reserved bytes |
| `HostView.SelectAnswers` | internal/icc/interface.go:193-209 | in every state, SELECT of either name answers 9000, selects and changes nothing else; any other answers file not found and leaves the card not selected |
| `HostView.ReportedNameSelects` | internal/icc/data.go:192-204 | SELECT of the name that GET DATA 0x4F reports selects the card |
| `CardStatus.SelectLocksKeys` | internal/icc/interface.go:199-206 | a SELECT of anything else while selected leaves Sig unlocked only if unprotected, Dec only if it was and its cache is open |
| `CardStatus.SelectLocksUntilUnlock` | internal/icc/interface.go:199-206 | each protected slot then stays encrypted until a later decryption of it succeeds |
| `CardStatus.ConsoleUnlockOpensBoth` | internal/usb/ssh.go:132-136 | `unlock all` with a passphrase right for both keys opens both, also when Sig and Dec are one subkey |
| `CardStatus.ConsoleLockLocksBoth` | internal/usb/ssh.go:114-118 | `lock all` leaves Sig open only if unprotected, Dec only if it was and its cache is open |
| `HostAccess.ConsoleLockIsVerify` | internal/usb/ssh.go:108-118 | `lock` is refused before initialization, and otherwise is VERIFY FF for 81, 82 or both |
| `HostAccess.ConsoleUnlockIsVerify` | internal/usb/ssh.go:119-137 | `unlock` of an initialized card is VERIFY 00 for 81, 82 or both |
| `HostAccess.ConsoleUnlockInitializes` | internal/usb/ssh.go:119-131 | before that it is `init` and, if it succeeds, the same `unlock` |
| `CardStatus.IndicatorAgrees` | internal/icc/verify.go:132-143 | after initialization, at every command boundary, blue is on exactly when Sig or Dec holds material, white is off |
| `CardStatus.LockedServesExactlyAes` | internal/icc/crypto.go:131-144 | with a locked decryption key, PSO:DECIPHER answers 9000 exactly in its AES form, on whole blocks, with a working engine; PSO:ENCIPHER never does |
| `CardStatus.ServedOnceDecrypted` | internal/icc/crypto.go:131-144 | from power-on, any other PSO:DECIPHER and any PSO:ENCIPHER that answers 9000 with a protected decryption key follows a decryption of it |
| `CardStatus.ServiceFollowsUnlock` | internal/icc/crypto.go:131-144 | from any state with the decryption key locked, after any run, such an answer implies a new decryption of that key since |
| `CardStatus.AuthenticationCopy` | internal/icc/openpgp.go:46-48 | the Aut copy is unencrypted exactly when it had no passphrase or its origin was decrypted at least once |
| `CardReports.CopyOutlivesLock` | internal/icc/openpgp.go:46-48 | a run after which the signature key is locked and the Aut copy of it is decrypted |
| `CardReports.SharedFingerprintStaysOpen` | internal/icc/interface.go:182-186 | a run after which a locked decryption key is open because an unprotected Sig shares its fingerprint |
| `CardReports.CdsRecords` | internal/icc/crypto.go:116-119 | PSO:CDS answers 9000 exactly when it records one signature |
| `HostView.RsaSignatureAnswer` | internal/icc/crypto.go:66-119 | an open RSA key answers PSO:CDS of 51, 67 or 83 bytes with the library's signature, under SHA-256, 384 or 512, of what follows the first 19; otherwise 6A80, or 91A1 if the library fails |
| `HostView.EcdsaSignatureAnswer` | internal/icc/crypto.go:90-105 | an open ECDSA key answers with both numbers of the library's signature of the data, each in ((bits+7)/8)+2 bytes |
| `HostView.P256SignatureSize` | internal/icc/crypto.go:29-39 | for a 256-bit key that is 68 bytes |
| `HostView.SignatureRefused` | internal/icc/crypto.go:46-59 | PSO:CDS answers 6A80 without data, 6382 without key or material, 6982 with a locked key |
| `HostView.OtherSignatureAnswers` | internal/icc/crypto.go:106-114 | and 91A1 when the ECDSA library fails, 6382 for other key types |
| `CardReports.RepliesAreRecorded` | internal/icc/crypto.go:116-119 | over every run the recorded signatures and uses are exactly the successful replies |
| `CardReports.RepliesPerUnlock` | internal/icc/rpc.go:34-41 | successful PSO:CDS replies plus listings never exceed decryptions of a protected signature key |
| `CardReports.ReportIsStoredCounter` | internal/icc/data.go:380-395 | unwrapping the reply for 0x7A through 0x7A and 0x93 gives the stored counter after the call, from every state |
| `HostView.CounterData` | internal/icc/data.go:380-395 | tag 0x7A in bytes: 7A 05 93 03 and the counter after the call |
| `CardReports.HostSeesSignatureCount` | internal/icc/data.go:380-395 | in every run the host reads the number of successful PSO:CDS exactly while it is at most 0xffffff |
| `ManySignatures.CountIsLost` | internal/icc/data.go:380-389 | initialization with an unprotected RSA key and any number n of PSO:CDS give n signatures; the host reads n exactly up to 0xffffff, then zero up to 2^32 |
| `ManySignatures.SixteenMillionSignatures` | internal/icc/data.go:380-389 | the run of 0x1000000 signatures after which the host reads zero |
| `CardReports.HostSeesRetries` | internal/icc/data.go:271-291 | in every run the password status shows three minus the refusals since the last success |
| `CardReports.SignsExactly` | internal/icc/crypto.go:46-114 | PSO:CDS succeeds exactly with data, an unlocked RSA key and a SHA-2 digest size, or an unlocked ECDSA key, and a working library |
| `CardReports.EcdsaReplySplits` | internal/icc/crypto.go:92-105 | an ECDSA reply cut in the middle gives r and s whenever both fit the width |
| `CardReports.DecipherPadsSecret` | internal/icc/crypto.go:154-169 | a wrapped point of at most 248 bytes is decoded and the secret comes back padded to one coordinate, with the same value |
| `CardReports.AgreeExactly` | internal/icc/crypto.go:160-169 | the key agreement succeeds exactly on nested objects holding a point wide enough for the secret, and panics exactly on a truncated object or a longer secret |
| `CardReports.DeciphersExactly` | internal/icc/crypto.go:124-183 | PSO:DECIPHER succeeds exactly in its three forms, the latter two with an unlocked key of the matching type |
| `HostView.RsaDecipherAnswer` | internal/icc/crypto.go:146-153 | an open RSA key answers PSO:DECIPHER with the library's plaintext of what follows the zero byte, 91A1 if it fails, 6382 for another first byte |
| `HostView.EcdhDecipherAnswer` | internal/icc/crypto.go:154-182 | an open ECDH key answers a wrapped point with the library's secret in one coordinate, 91A1 if it fails, a panic if it does not fit |
| `HostView.EcdhDecipherRefused` | internal/icc/crypto.go:154-166 | data without a point: 6382 for another first byte, a panic if truncated, else 6A80 |
| `HostView.DecipherRefused` | internal/icc/crypto.go:127-144 | PSO:DECIPHER answers 6A80 without data; outside the AES form 6382 without a usable key, 6982 with a locked one |
| `HostView.AesDecipherAnswer` | internal/icc/crypto.go:131-133 | in every state the AES form answers what the engine decrypts of the data after the first byte, or the engine's error |
| `HostView.EncipherAnswer` | internal/icc/crypto.go:187-201 | PSO:ENCIPHER answers what the engine encrypts of all the data, or its error, exactly with an open decryption key, else 6982 |
| `HostView.AesRoundTrip` | internal/icc/crypto_imx6.go:29-62 | PSO:DECIPHER gives back what PSO:ENCIPHER sealed, in any two states, if the engine's directions fit |
| `HostView.ChallengeAnswer` | internal/icc/crypto.go:205-214 | GET CHALLENGE answers as many random bytes as asked for, or nothing |
| `PublicKeys.PublicKeyIsShown` | internal/icc/data.go:466-527 | in every run after loading an entity, whatever is locked, a template is answered exactly when the entity has the subkey with the flags it asks for; the answer parses back to that subkey's public key and the card does not change |
| `PublicKeys.ShownKeyIsUnique` | internal/icc/data.go:507-526 | an answer parses back to one public key only |
| `PublicKeys.PublicKeyRefused` | internal/icc/data.go:471-503 | the command is refused for other parameters and templates, answers 6A88 for an absent subkey, nothing for an unknown key type |
| `CardReports.CrashesExactly` | internal/icc/crypto.go:154-192 | with libraries that do not panic, a command panics exactly for PSO:ENCIPHER without a decryption key, or PSO:DECIPHER with an open ECDH key of a truncated cipher object or of a point shorter than the secret; locking never does |
| `CardReports.EncipherStopsBlankCard` | internal/icc/crypto.go:187-192 | the run: PSO:ENCIPHER as the first command |
| `CardReports.TruncatedCipherStopsCard` | internal/icc/crypto.go:160-161 | the run: initialization with an ECDH key without passphrase, then PSO:DECIPHER of the byte 0xa6 |
| `CardReports.OverlongSecretStopsCard` | internal/icc/crypto.go:168-169 | the run: the same with a well-formed point and a library that returns a longer secret than one coordinate |
| `CardReports.AesNeedsNoUnlock` | internal/icc/crypto.go:131-133 | the run: initialization, then an AES PSO:DECIPHER that is served while the decryption key is locked |
| `CardStarts.InitializesExactly` | internal/icc/interface.go:124-141 | from power-on a run initializes the card exactly when, for some k, its first k attempts all derive the device key and the armored key unwrapped k times parses; without a device key, when there is an attempt and the key parses |
| `CardStarts.FirstTryDecides` | internal/icc/interface.go:129-141 | if unwrapped text does not unwrap again: exactly when the first attempt derives the device key and the armored key unwraps to one that parses |
| `CardStarts.TransientFailureIsFinal` | internal/icc/interface.go:129-135 | a card whose armored key unwraps to one that parses is initialized by exactly the runs whose first attempt derives the device key |
| `CardStarts.TransientFailureRuns` | internal/icc/interface.go:129-135 | the runs: one working attempt initializes it, one failed attempt followed by anything does not |
| `CardStarts.SealedKeyInitializes` | internal/snvs/snvs.go:109-127 | a card holding an OpenPGP key sealed by `Encrypt` is initialized by exactly the runs whose first attempt derives the device key |
| `CardAttempts.VerifyRecords` | internal/icc/verify.go:68-104 | a call of `Verify` records a decryption or a refusal exactly as its arguments, the lock before it and its status word say |
| `CardAttempts.AttemptsAreRecorded` | internal/icc/verify.go:68-104 | over every run the recorded decryptions and refusals are, in order, the outcomes of the VERIFY commands and console unlocks |
| `CardAttempts.FailureShowsRetries` | internal/icc/verify.go:88-104 | in every run a failing VERIFY, refused or blocked, shows in SW2 three minus the refusals since the last success, its own included |
| `CardAttempts.CallersSeeBounds` | internal/icc/verify.go:88-104 | in calls of `Verify`, the lock before them and their status words: refusals at most three plus two per success, uses of a protected signature key at most the successful attempts on it |
| `Tlv.Print` | internal/icc/tlv.go:15-41 | the appended buffer is tag bytes, length field and value |
| `Tlv.Parse` | internal/icc/tlv.go:43-97 | the cursor computes the specified value, empty result or index panic |
| `Tlv.RoundTrip` | internal/icc/tlv.go:43-97 | for every tag and trailing bytes `v` returns the printed value up to 0xff bytes and panics above |
| `Tlv.CipherKeyRoundTrip` | internal/icc/crypto.go:160-161 | the triple decode recovers a wrapped public key exactly up to 248 bytes |
| `Tlv.ValueExactly` | internal/icc/tlv.go:43-97 | `v` returns a non-empty value exactly when the buffer starts with an object of that tag holding it, in a one- or two-byte length |
| `Tlv.CipherKeyPanicsExactly` | internal/icc/tlv.go:72-90 | the triple decode panics exactly when one of its three objects is truncated |
| `Tlv.CipherKeyExactly` | internal/icc/crypto.go:160-161 | and yields a point exactly when the three objects hold it |
| `Tlv.UniqueDecoding` | internal/icc/tlv.go:15-41 | a buffer parses to a list exactly when the list is well-formed and the buffer is its encoding |
| `Tlv.SingleField` | internal/icc/tlv.go:26-36 | a printed object parses back exactly when its value is at most 0xffff bytes |
| `DataObjects.CardholderParses` | internal/icc/data.go:212-220 | object 0x65 parses back exactly when its content fits a length field; name, language and sex then parse from the bytes, each the only object under its tag |
| `DataObjects.ApplicationParses` | internal/icc/data.go:399-408 | object 0x6E parses back exactly when its content fits a length field; its four objects and the eight inside then parse from the bytes, each the only one under its tag |
| `DataObjects.DiscretionaryParses` | internal/icc/data.go:223-236 | the discretionary data parses to eight objects, each the only one under its tag; the fifth status byte is the retry counter |
| `DataObjects.PublicTemplateParses` | internal/icc/data.go:505-526 | a public key template parses back to modulus and exponent, or to the point, exactly when its content fits a length field |
| `DataObjects.TemplateUnwraps` | internal/icc/data.go:392-395 | unwrapping 0x7A and 0x93 with the card's own parser gives the three counter bytes |
| `EcdsaLayout.PadToKeySize` | internal/icc/crypto.go:29-39 | the padded width, and the number unchanged |
| `EcdsaLayout.SplitRecovers` | internal/icc/crypto.go:92-104 | cutting the signature in the middle recovers r and s exactly when both halves have one width |
| `EcdsaLayout.FittingNumbersSplit` | internal/icc/crypto.go:92-104 | so whenever r and s fit the computed width |
| `Presence.OneToOneHandOff` | internal/u2f/counter.go:149-173 | over every interleaving a request with a channel is granted exactly when one unique `p` was accepted for it, on its channel, while it waited |
| `Presence.PressFollowsRequest` | internal/u2f/counter.go:149-162 | the accepted `p` comes after the call of `UserPresence` it confirms, and after that call has reached its select |
| `Presence.ReturnsTrueOnlyWhenPressed` | internal/u2f/counter.go:159-172 | a waiting call returns true exactly when a `p` was accepted for it before |
| `Presence.CallsReturn` | internal/u2f/counter.go:159-172 | no call is stuck: by its own steps it returns true if confirmed, and false after its timeout |
| `Presence.OrphansAreNeverConfirmed` | internal/usb/ssh.go:193-198 | a request whose channel was replaced is never confirmed |
| `Presence.ReinitOrphansWaiters` | internal/usb/ssh.go:193-198 | every `u2f` or `u2f !test`, failed or not, does that to all undecided requests |
| `Presence.ConfirmableExactly` | internal/usb/ssh.go:193-209 | after every history, some continuation confirms an undecided request exactly when its channel is the token's |
| `Presence.NewRequestConfirmableExactly` | internal/u2f/token.go:97-125 | after every history, some continuation confirms a new request exactly when the last re-initialization succeeded |
| `Presence.FailedReinitStrands` | internal/u2f/token.go:97-125 | the run: `u2f`, then a failing `u2f`, then a request, which no continuation confirms |
| `WakeTimer.Clock.Wake` | internal/icc/wake.go:25-43 | a no-op while awake; otherwise maximum frequency and one more timer |
| `WakeTimer.Clock.Interleave` | internal/icc/wake.go:25-43 | over every interleaving: awake exactly when one timer is outstanding, never two, maximum frequency exactly while awake |
| `Ccid.Receive` | internal/ccid/interface.go:48-79 | every reply answers its command, only level-zero transfers move the card, and their reply carries the card's answer; computed step by step |
| `Ccid.Serialize` | internal/ccid/buf.go:16-25 | the ten-byte little-endian layout of a response |
| `Ccid.RepliesAnswer` | internal/ccid/interface.go:48-79 | every reply has the answering type, echoed slot and sequence, a length counting what follows, and success or the level error |
| `Ccid.SilentExactly` | internal/ccid/interface.go:51-76 | an error comes back exactly for short or unknown commands and refused transfers; the card moves exactly for transfers |
| `Ccid.FramesInBytes` | internal/ccid/interface.go:51-76 | the command types 61 to 6F in bytes: which response each gets, which error, and which are silent |
| `Ccid.TransferInBytes` | internal/ccid/buf.go:28-38 | the card gets the last bytes of the buffer, as many as the length field says, if the buffer has more, else nothing |
| `Ccid.PowerOnDeliversAtr` | internal/ccid/icc_power.go:34-51 | powering on delivers the answer-to-reset and leaves the card alone |
| `Ccid.Transparent` | internal/ccid/xfr_block.go:42-51 | a framed APDU reaches the card unchanged and its answer is the payload unchanged |
| `Handoff.RefinesSequentialReader` | internal/usb/smartcard.go:23-45 | over every interleaving with the console, up to a panic, delivered frames plus at most one waiting are the sequential reader's responses in order |
| `UsbCard.BufferRunsCommand` | internal/icc/interface.go:213-228 | one USB buffer moves the card by the command it carries |
| `UsbCard.ApduIsAnswered` | internal/icc/interface.go:213-228 | a transfer frame is answered with the marshalled reply of the card, and with nothing exactly after an error or a panic |
| `UsbCard.InterleavingsAreRuns` | internal/usb/smartcard.go:35-45 | under any interleaving of USB traffic, console and object listings the card is in the state of a run of their commands in order |
| `UsbCard.BlockedUnderAnyTraffic` | internal/usb/smartcard.go:35-45 | so a blocked card stays blocked |
| `UsbCard.BoundsUnderAnyTraffic` | internal/usb/smartcard.go:35-45 | and from power-on the bounds on refusals and on uses of a protected signature key hold |
| `Snvs.EncryptCtr` | internal/snvs/crypto.go:18-39 | the appends produce `iv`, masked input and MAC; the IV is unchanged, and the array behind it is overwritten by exactly as much of the output as its capacity allows |
| `Snvs.DecryptCtr` | internal/snvs/crypto.go:41-68 | the buffer loop checks lengths and MAC, then unmasks |
| `Snvs.AcceptsExactlyTheImage` | internal/snvs/crypto.go:41-68 | decryption under an IV yields p exactly when IV and input are the encryption of p |
| `Snvs.EnvelopeRoundTrip` | internal/snvs/snvs.go:85-127 | whatever `Encrypt` produces, `Decrypt` turns back |
| `Snvs.DecryptAcceptsOnlyEnvelopes` | internal/snvs/snvs.go:109-127 | `Decrypt` yields a full block or more exactly on outputs of `Encrypt` |
| `Snvs.EnvelopeLayout` | internal/snvs/snvs.go:76-107 | `Encrypt` succeeds exactly with an AES key, a 16-byte IV and a full block; the output is IV, masked input and a MAC over both, byte by byte |
| `Snvs.DecryptsExactly` | internal/snvs/snvs.go:109-127 | `Decrypt` succeeds exactly when the last 32 of at least 48 bytes are the MAC of all before, and unmasks what lies between |
| `Snvs.FailsExactly` | internal/snvs/snvs.go:85-127 | and which failure either reports, in the order of the checks |
| `Snvs.OtherIvIsRefused` | internal/snvs/crypto.go:49-58 | an envelope with its IV replaced is accepted exactly if the two MACs agree |
| `UsageCounter.Emmc.CounterCmd` | internal/u2f/counter.go:107-127 | read, in-place edit and write back give the specified answer and block |
| `UsageCounter.Emmc.Perform` | internal/u2f/counter.go:107-127 | any history leaves the specified block |
| `UsageCounter.CounterAfter` | internal/u2f/counter.go:97-130 | after any history the counter is the start plus successful increments (modulo 2^32); all other bytes are unchanged |
| `UsageCounter.CounterBytes` | internal/u2f/counter.go:45 | the counter is bytes 508 to 511 of the block; all other bytes stay |
| `UsageCounter.AnswersInBytes` | internal/u2f/counter.go:107-127 | what reads and increments answer in those bytes, for every outcome of the transfers |
| `UsageCounter.IncrementAnswers` | internal/u2f/counter.go:133-141 | the k-th successful increment answers start + k (modulo 2^32) |
| `UsageCounter.ReadAnswers` | internal/u2f/counter.go:144-146 | a later read answers what the last successful increment answered |

## Left out

- Cryptographic primitives, OpenPGP armor and packet parsing, X.509, p11kit and the APDU codec: libraries; their answers are parameters.
- Key decryption: `Env.decrypt` is an arbitrary function of key and passphrase; that it never changes the key on failure is assumed of the library.
- CardReports.CrashesExactly: panics inside library calls (signing, RSA decryption, `Decaps`, AES) are not outcomes of the oracle; that the libraries do not panic is assumed, and whether `Decaps` can return a secret longer than one coordinate is left to the library.
- CardRuns.OneUsePerUnlock: a listing hands the live private key to p11kit objects (internal/icc/rpc.go:83-99); signatures made later through them are not counted as uses, here and in `CardReports.RepliesPerUnlock`.
- CardReports.RepliesPerUnlock: counts PSO:CDS replies and listings, not the signatures made later through listed p11kit objects.
- CardStarts.InitializesExactly: that nothing does not unwrap is a hypothesis; `EmptyEnvelopeFails` proves it of the SNVS envelope, and `RunTracks` is the general form without it.
- CardObjects.ReadEntity: that the packet reader makes one object for each subkey and each key is assumed of the library.
- Concurrent card commands: the card's mutex guards only `Wake`, so each command is taken as atomic.
- Contents of algorithm attributes, fingerprints, epochs, historical bytes and the other fixed tables: arbitrary byte strings in `PublicFields`.
- The output of the AES engine and random bytes: oracle values; that the AES output is as long as its input is not modelled.
- Ccid.Rx: its call of `Wake` for everything but a slot status request is left to `WakeTimer`; it does not affect the reply.
- Ccid.Data: the conversion of lengths of 2^31 and above on a 32-bit `int` is not modelled; lengths are taken as on 64 bits.
- Snvs.EncryptCtr: the input is a value; an input that itself lies behind the IV in the same array is not modelled.
- The ATECC608 counter, board detection, white-LED blinking, SSH, networking, USB descriptors, the age plugin, device keys and key bundling.
- Status output and logging.
