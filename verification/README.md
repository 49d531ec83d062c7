# A verified model of the tvbase record protocol and its transports

tvbase keeps signed key-value records on a Kademlia DHT and passes messages through mailboxes. This project
models four parts of it in Dafny and proves what they promise each other:

* **The stream-reusing message sender** (`dkvs/kaddht/message_sender.go`, `ctx_mutex.go`). `SenderProtocol` is a
  state machine over the map of senders, the senders' locks and any number of calls; one step is a critical
  section of the map lock, the taking or giving back of a sender's lock, the cancelling of a wait for it, or one
  network call under it. Its
  theorems hold in every state reachable by any interleaving of sends, requests, disconnects, failures and cancelled
  waits.
  `SenderSteps` holds the steps inside a critical section, `SendOutcome` what they come to in terms of the network's
  answers alone, `CallOutcome` a whole call; `PeerSender` is the sender as an object, whose loops
  are proved to do exactly those steps.
* **The record wire codec** (`dkvs/pb/dkvs_record.pb.go`). `WireGrammar` is a recursive grammar of fields, the
  independent definition of what the bytes mean. `DkvsPb` has the six generated classes with their byte arrays
  and loops: printing backwards into a buffer sized ahead, parsing forwards. `ParseTheory` and `RoundTrip` relate
  the two: a parse succeeds exactly on sequences of grammar fields and is their effect, and every message comes
  back from its bytes. `WireBytes` spells out the bytes of each message, `Merge` what parsing onto a message with
  values does.
* **The record protocol** (`dkvs/record.go`, `dht.go`, `dkvs_record.go`, `cert.go`, `dkvs.go`, `services.go`).
  `Certs`, `SignedBytes`, `Records`, `Validation`, `VersionOrder`, `LocalStore`, `PutRaces`, `Acceptance`,
  `Transfer` and `TransferOffer` cover certificates, the order of versions, who may
  take over a key, runs of puts into a local store, puts that interleave, and the transfer record with its nested
  prepare record and receipt, and the offers that pass its check.
* **The mailbox** (`dmsg/service/mailbox/service.go`, `client.go`). `MailboxKeys` has the keys, `MailboxPaging`
  the store in key order and the paging loop on both sides, `SubscriptionIndex` the persisted list of users, and
  `MailboxService` the service object and the client's loop over it.

`GoTypes` fixes the Go values in use: `uint64` arithmetic wraps, a `[]byte` is `None` when nil, strings are byte
sequences. Signature verification, service approvals and the clock are inputs (`Certs.Env`), so every theorem
holds for any of them.

## What is not as one might expect

The model follows the code; where that falls short of what the code is for, the exact condition is a theorem.

* Ownership of a key is checked against a greater Seq only. When two records tie on Seq, `verifyPubKey` takes the
  incoming one for the older: if that is not of EOL type nothing is checked, and otherwise it is the stored record
  that must be backed, from the incoming owner to its own. The greater version then replaces the other.
  `LocalStore.PutExact` says exactly which puts replace a record in force, `LocalStore.UnbackedExactly` which of
  them hand the key to an owner nobody backed, `LocalStore.TieTakesKey` is one that does, and
  `LocalStore.EveryChangeExplained` says what stands behind each change of owner along any run.
* `putKeyToLocalNode` reads, decides and writes without a lock. Two puts that both read before either writes can
  leave the smaller record (`PutRaces.LostPut`). A run in which every write finds the entry its put had read is a
  run of whole puts, so all that holds of those holds of it (`PutRaces.UndisturbedIsSerial`). In general the store
  ends with the greatest record exactly when it held that at first, or some write stores it while no other put in
  flight goes on to write a smaller one (`PutRaces.GreatestIff`); if every put in flight does come to write, that is a
  write of it at a moment when all in flight carry it too (`PutRaces.GreatestIffAllWrite`).
* Once every call has returned, a sender that holds a stream is forgotten exactly when a wait to invalidate it, in
  `OnDisconnect` or `prepOrInvalidate`, was cancelled (`SenderProtocol.QuietForgetsNothing`), and then its stream stays
  open along every later run (`SenderProtocol.AbandonedForGood`). Both waits can do it
  (`SenderProtocol.CancelledDropForgets`, `SenderProtocol.CancelledPrepForgets`); cancelled sends are harmless.
* `CheckTransferPara` looks at neither the size nor the expiry of the record it lets through, nor whether the
  receiver's key is empty: the record is stored exactly if it passes on these three as well (`Transfer.TransferValid`,
  `Transfer.TransferStored`).
* The mailbox's client loop ends exactly when no message but the last in key order reaches 2 MiB
  (`MailboxPaging.EndsIff`). Messages get into the store only by `OnPubsubMsgRequest`, and
  `tvbase/tvbase.go:445-455` sets no message size; the default of go-libp2p-pubsub is 1 MiB, so with that
  library no stored message comes near. The library is not part of this model and no theorem rests on it.
* A mailbox key parses back exactly when both public keys and the ID are nonempty, contain no slash and are not
  `.` or `..` (`MailboxKeys.KeyRoundTrip`). A message with an empty ID is stored and fails the read of its page
  (`MailboxPaging.ReadAllIff`). The pages before are returned; that page is deleted all the same, and with it the
  well-formed messages it holds (`MailboxPaging.FailedRead`, `MailboxPaging.PageIsLost`). So is a page whose reply is
  lost on the way (`MailboxPaging.LostTrip`).
* `MsgSrcUserPubKeyIndex` and `MsgDestUserPubKeyIndex` are named for the opposite order of the key's fields; the
  client's variables undo that, and the round trip holds.

## Model

| member | source | states |
|---|---|---|
| SenderProtocol.NextKeepsInv | dkvs/kaddht/message_sender.go:52-318 | every step of every call keeps the protocol invariant: references, locks, stream ownership, accounting of removed senders |
| SenderProtocol.NoForgottenStream | dkvs/kaddht/message_sender.go:181-190 | in every reachable state a sender holding a stream is the map entry of its peer or has an invalidation on its way, unless the wait for one was cancelled; an invalid one holds none; singleMes is at most streamReuseTries + 1 |
| SenderProtocol.QuietForgetsNothing | dkvs/kaddht/message_sender.go:137-203 | when all calls have returned, a sender holding a stream is forgotten iff a wait to invalidate it was cancelled; with none cancelled, a stream is open iff the map entry of some peer holds it; no lock is taken |
| SenderProtocol.NextKeepsRemoved | dkvs/kaddht/message_sender.go:52-203 | a sender waiting to be dropped is out of the map, and one whose invalidating wait was cancelled is or is about to be |
| SenderProtocol.ForgottenForever | dkvs/kaddht/message_sender.go:137-163 | a forgotten sender that no call refers to keeps its stream open along every later run |
| SenderProtocol.AbandonedForGood | dkvs/kaddht/message_sender.go:62-68 | so does one whose invalidating wait was cancelled, if it holds a stream when all is quiet |
| SenderProtocol.CancelledDropForgets | dkvs/kaddht/message_sender.go:62-68 | a disconnect whose wait is cancelled leaves a stream open with nobody to find it |
| SenderProtocol.CancelledPrepForgets | dkvs/kaddht/message_sender.go:148-163 | so does a preparation whose wait is cancelled, when another call opened the sender's stream meanwhile |
| SenderProtocol.MutualExclusion | dkvs/kaddht/ctx_mutex.go:7-28 | at most one call is in a sender's critical section, Unlock never finds the channel empty, and no step dereferences a nil stream |
| SenderProtocol.SectionIsAlone | dkvs/kaddht/message_sender.go:232-318 | while a call holds a sender's lock no other step changes that sender or that call |
| SenderProtocol.InvalidForever | dkvs/kaddht/message_sender.go:181-190 | along any later run an invalidated sender never has a stream again, a sender out of the map never comes back, singleMes never goes down |
| SenderProtocol.StreamsConserved | dkvs/kaddht/message_sender.go:205-318 | streams opened and not reset or closed are exactly those held, each by one sender |
| SenderProtocol.Progress | dkvs/kaddht/message_sender.go:52-318 | no deadlock: while some call has not returned, some call can take a step |
| SenderProtocol.StepsBounded | dkvs/kaddht/message_sender.go:232-318 | whatever the interleaving, the failures and the cancellations, calls take at most sixteen steps each and disconnects three |
| SenderProtocol.Settles | dkvs/kaddht/message_sender.go:137-318 | from every state of the invariant all calls can return without a new one |
| SenderProtocol.DisconnectKeeps | dkvs/kaddht/message_sender.go:52-69 | a disconnect keeps the invariant, takes the entry out and leaves its sender with an invalidation pending |
| SenderProtocol.PrepFailedKeeps | dkvs/kaddht/message_sender.go:148-163 | after a failed preparation the sender that failed, invalid or abandoned by a cancelled wait, is out of the map and every other entry stays; the call goes on with the sender that has taken its place, if any |
| SenderSteps.DriveConserves | dkvs/kaddht/message_sender.go:205-318 | a section closes every stream it opened or found, but for the one it still holds |
| SenderSteps.SendAttempts | dkvs/kaddht/message_sender.go:238-301 | a send makes at most two attempts, whether the write or the read of the answer fails, the second over a newly opened stream other than the first; it opens at most two streams |
| SenderSteps.DriveMonotone | dkvs/kaddht/message_sender.go:255-261 | singleMes never decreases nor passes streamReuseTries + 1; invalid stays |
| SenderSteps.OneMessagePerStream | dkvs/kaddht/message_sender.go:255-261 | a send that starts above streamReuseTries ends with no stream held |
| SenderSteps.SuccessMeansGotThrough | dkvs/kaddht/message_sender.go:232-318 | a send reports success only if a write, and for a request a read, succeeded; one that got through fails only in closing its one-message stream |
| SendOutcome.SendExactly | dkvs/kaddht/message_sender.go:232-318 | the result of a send, the stream left, singleMes and the streams opened, exactly, from the sender found and the outcomes of the network calls: a failed write or read is tried once more over a new stream, a stream is kept just when the send got through with singleMes at most 3, and a retried success then counts one |
| SendOutcome.SendFails | dkvs/kaddht/message_sender.go:232-318 | a send fails iff the sender is invalid, a stream cannot be opened, both attempts fail, or the close of a one-message stream does |
| SendOutcome.PrepExactly | dkvs/kaddht/message_sender.go:192-225 | a preparation fails iff the sender is invalid or gets no stream, and then leaves it invalid without one |
| CallOutcome.NextKeepsUsable | dkvs/kaddht/message_sender.go:52-203 | an invalid sender in the map is about to be taken out by the call that failed to prepare it |
| CallOutcome.EntriesAreValid | dkvs/kaddht/message_sender.go:137-190 | so when no call has just failed to prepare, every entry of the map is valid |
| CallOutcome.SectionRuns | dkvs/kaddht/message_sender.go:192-318 | in the interleaving model a call left alone in its section ends as the section does on its own, and touches nothing else |
| CallOutcome.CallSucceeds | dkvs/kaddht/message_sender.go:71-163 | with nobody in its way and the network up a call succeeds, over the sender of the map entry if there is one, else over a new one it enters and prepares |
| PeerSender.PeerMessageSender.Invalidate | dkvs/kaddht/message_sender.go:184-190 | marks the sender and resets its stream if it has one |
| PeerSender.PeerMessageSender.Prep | dkvs/kaddht/message_sender.go:205-225 | refuses when invalid, keeps a stream it has, opens one otherwise |
| PeerSender.PeerMessageSender.PrepOrInvalidate | dkvs/kaddht/message_sender.go:192-203 | is the preparing section of the protocol, run from lock to unlock; a cancelled wait is an error that changes nothing |
| PeerSender.PeerMessageSender.SendMessage | dkvs/kaddht/message_sender.go:232-267 | the retry loop is the sending section of the protocol, for every outcome of its network calls; a cancelled wait changes nothing |
| PeerSender.PeerMessageSender.SendRequest | dkvs/kaddht/message_sender.go:269-318 | the same with a read between write and finish |
| Varint.SovIsLength | dkvs/pb/dkvs_record.pb.go:1194-1196 | the bit-length formula is the number of varint bytes written, for every value |
| Varint.ScanEnc | dkvs/pb/dkvs_record.pb.go:1005-1015 | scanning an encoded uint64 gives it back and stops at its end, whatever follows |
| Varint.ScanLocal | dkvs/pb/dkvs_record.pb.go:1206-1219 | a scan depends on no byte after the varint |
| Varint.ReadVarint | dkvs/pb/dkvs_record.pb.go:1206-1219 | the shifting loop reads the varint truncated to the variable's width, or fails as the definition does |
| Varint.EncodeVarint | dkvs/pb/dkvs_record.pb.go:1005-1015 | writes the encoding just before the offset and touches nothing else |
| WireBytes.VarintDigits | dkvs/pb/dkvs_record.pb.go:1005-1015 | a varint is the groups of seven bits, lowest first, as many as it takes, all but the last marked |
| WireBytes.ScanExactly | dkvs/pb/dkvs_record.pb.go:1206-1219 | a scan succeeds iff one of the first ten bytes ends the varint; otherwise it overflows or runs out of input, exactly |
| WireGrammar.ReadItem | dkvs/pb/dkvs_record.pb.go:2438-2500 | one round of the skip loop, in bounds on every input |
| WireGrammar.SkipDkvsRecord | dkvs/pb/dkvs_record.pb.go:2434-2511 | the depth-counter loop equals the skip it is specified by, with 64-bit index overflow as an error |
| WireGrammar.SkipComplete | dkvs/pb/dkvs_record.pb.go:2434-2511 | at any depth, the skip passes over one whole grammar field, nested groups included |
| WireGrammar.SkipLevels | dkvs/pb/dkvs_record.pb.go:2434-2511 | a skip that succeeds at depth d has read d levels of fields, each closed by an end tag |
| WireGrammar.SkipIsOneField | dkvs/pb/dkvs_record.pb.go:2434-2511 | a skip ends inside the buffer at n iff the first n bytes are one field of the recursive grammar |
| ParseTheory.StepOfField | dkvs/pb/dkvs_record.pb.go:1200-1499 | one round of a parse loop consumes one grammar field and has that field's effect |
| ParseTheory.StepSound | dkvs/pb/dkvs_record.pb.go:1200-1499 | a round that succeeds has consumed one grammar field |
| ParseTheory.UnmarshalIsGrammar | dkvs/pb/dkvs_record.pb.go:1200-2433 | Unmarshal succeeds with m' iff the bytes are a sequence of grammar fields whose effects in turn give m' |
| ParseTheory.Homomorphism | dkvs/pb/dkvs_record.pb.go:1200-1962 | parsing a + b is parsing b on top of a's result |
| ParseTheory.ParseBase | dkvs/pb/dkvs_record.pb.go:1200-1499 | success and result do not depend on where the buffer starts |
| ParseTheory.UnknownFieldTransparent | dkvs/pb/dkvs_record.pb.go:1479-1492 | a well-formed unknown field at any field boundary changes nothing |
| RoundTrip.UnmarshalMarshal | dkvs/pb/dkvs_record.pb.go:650-1015 | for all six messages, unmarshalling the marshalled bytes into a fresh struct gives the message up to nil versus empty |
| RoundTrip.CertRoundTrip | dkvs/pb/dkvs_record.pb.go:731-812 | the same for a certificate on its own, as nested in a bundle |
| RoundTrip.MarshalInjective | dkvs/pb/dkvs_record.pb.go:650-1003 | equal bytes mean equal messages up to nil versus empty |
| RoundTrip.MarshalNorm | dkvs/pb/dkvs_record.pb.go:665-1003 | nil and empty slices marshal alike |
| WireBytes.RecordBytes | dkvs/pb/dkvs_record.proto:7-28 | a record is the tags of the schema in ascending order, each before its value, zero and empty values left out |
| WireBytes.CertBytes | dkvs/pb/dkvs_record.proto:36-47 | so is a certificate |
| WireBytes.CertsBytes | dkvs/pb/dkvs_record.proto:50-54 | so is a bundle, its certificates one after the other, empty ones too |
| WireBytes.PrepareBytes | dkvs/pb/dkvs_record.proto:57-60 | so is the data of a prepare certificate |
| WireBytes.CompletedBytes | dkvs/pb/dkvs_record.proto:63-69 | so is that of a receipt |
| WireBytes.TokenBytes | dkvs/pb/dkvs_record.proto:72-77 | so is that of a GUN certificate |
| WireBytes.FieldsAscend | dkvs/pb/dkvs_record.pb.go:665-1003 | every message prints its fields in ascending order of numbers, equal only within CertVect |
| Merge.MergeOnto | dkvs/pb/dkvs_record.pb.go:1200-2433 | unmarshalling onto a message with values merges: printed fields take the place of the old values, others stay, certificates are appended |
| Merge.KnownFields | dkvs/pb/dkvs_record.proto:7-77 | the field numbers each message knows, and of which kind |
| Merge.WrongFieldRejected | dkvs/pb/dkvs_record.pb.go:1222-1237 | a known field of another wire type, or a number that is not positive, is that error |
| Merge.OverlongField | dkvs/pb/dkvs_record.pb.go:1273-1300 | a declared length beyond the input, or beyond any index, is that error |
| Merge.BrokenVarint | dkvs/pb/dkvs_record.pb.go:1238-1256 | a varint cut off or past ten bytes is that error |
| DkvsPb.DkvsRecord.Size | dkvs/pb/dkvs_record.pb.go:1016-1057 | the size is the length of the encoding |
| DkvsPb.DkvsRecord.MarshalToSizedBuffer | dkvs/pb/dkvs_record.pb.go:665-729 | prints the fields backwards so that they end at the end, and overwrites no earlier byte |
| DkvsPb.DkvsRecord.Marshal | dkvs/pb/dkvs_record.pb.go:650-663 | the buffer of that size is filled exactly with the encoding |
| DkvsPb.DkvsRecord.Unmarshal | dkvs/pb/dkvs_record.pb.go:1200-1499 | total on every input: the loop parses on top of the current fields or reports the error, and ends at the end of the input |
| DkvsPb.Cert.Size | dkvs/pb/dkvs_record.pb.go:1058-1102 | the size is the length of the encoding |
| DkvsPb.Cert.MarshalToSizedBuffer | dkvs/pb/dkvs_record.pb.go:746-812 | prints backwards without underflow or overwriting |
| DkvsPb.Cert.Marshal | dkvs/pb/dkvs_record.pb.go:731-744 | fills the buffer exactly |
| DkvsPb.Cert.Unmarshal | dkvs/pb/dkvs_record.pb.go:1500-1812 | parses on top of the current fields, totally |
| DkvsPb.CertsRecordValue.Size | dkvs/pb/dkvs_record.pb.go:1103-1124 | the size is the length of the encoding, nested certificates included |
| DkvsPb.CertsRecordValue.MarshalCerts | dkvs/pb/dkvs_record.pb.go:834-848 | the descending loop prints every certificate, each before its length and tag |
| DkvsPb.CertsRecordValue.MarshalToSizedBuffer | dkvs/pb/dkvs_record.pb.go:829-863 | prints backwards without underflow or overwriting |
| DkvsPb.CertsRecordValue.Marshal | dkvs/pb/dkvs_record.pb.go:814-827 | fills the buffer exactly |
| DkvsPb.CertsRecordValue.Unmarshal | dkvs/pb/dkvs_record.pb.go:1813-1962 | parses on top of the current fields, appending certificates in order |
| DkvsPb.CertDataTransferPrepare.Marshal | dkvs/pb/dkvs_record.pb.go:865-898 | fills the buffer exactly |
| DkvsPb.CertDataTransferPrepare.Unmarshal | dkvs/pb/dkvs_record.pb.go:1963-2063 | parses on top of the current fields, totally |
| DkvsPb.CertDataTxCompleted.Marshal | dkvs/pb/dkvs_record.pb.go:900-954 | fills the buffer exactly |
| DkvsPb.CertDataTxCompleted.Unmarshal | dkvs/pb/dkvs_record.pb.go:2064-2264 | parses on top of the current fields, totally |
| DkvsPb.SimpleContractIssueToken.Marshal | dkvs/pb/dkvs_record.pb.go:956-1003 | fills the buffer exactly |
| DkvsPb.SimpleContractIssueToken.Unmarshal | dkvs/pb/dkvs_record.pb.go:2265-2433 | parses on top of the current fields, totally |
| Services.BytesToHexString | dkvs/services.go:111-117 | the loop builds the prefixed hexadecimal name |
| Services.HexRoundTrip | dkvs/services.go:111-134 | decoding the name of a key gives the key back |
| Services.HexExactly | dkvs/services.go:111-117 | the name is "0x" and two lower-case digits a byte, the high one first |
| Services.DecodeHexExactly | dkvs/services.go:119-134 | decoding takes an even number of digits of either case and nothing else |
| Services.GunNameExactly | dkvs/services.go:92-109 | a GUN key is /contract/ and a name without a slash of at most 32 bytes |
| Certs.SignDataDetermines | dkvs/cert.go:51-61 | equal sign data mean equal certificates but for IssuerSign, up to nil versus empty |
| SignedBytes.CertSigned | dkvs/cert.go:51-61 | the signed bytes of a certificate are its fields but the signature, tag by tag |
| SignedBytes.GunSigned | dkvs/cert.go:403-429 | those of a GUN certificate, spelled out: version 1, contract, subtype 1, the token with name, score and receiver |
| SignedBytes.TransferCertSigned | dkvs/cert.go:431-457 | those of a prepare certificate |
| SignedBytes.ReceiptCertSigned | dkvs/cert.go:459-487 | those of a receipt |
| Validation.CertInForce | dkvs/cert.go:26-49 | a certificate verifies iff its issuer signed it and it has no time to live or the issue time plus that, modulo 2^64, is not past |
| Validation.ExpiredBacksNothing | dkvs/cert.go:253-307 | an expired certificate neither hands over a key nor acknowledges a payment |
| Validation.KeysInOrder | dkvs/services.go:164-183 | the search takes the first key of the table whose certificate verifies |
| Validation.SearchFirst | dkvs/cert.go:87-94 | and of each issuer the first certificate |
| Validation.GunSound | dkvs/cert.go:159-187 | a GUN value is accepted only with a verified certificate of the gun service whose token names the key and whose times are the record's |
| Validation.GunComplete | dkvs/cert.go:159-187 | and accepted when that is its only certificate of the gun service |
| Certs.VerifyNorm | dkvs/cert.go:26-49 | a certificate still verifies after a trip through its bytes |
| Certs.SearchKeysFinds | dkvs/services.go:164-183 | the search over the service's keys finds a single verified certificate whose issuer is among them |
| Certs.GunValueVerifies | dkvs/cert.go:127-187 | an encoded GUN value, properly signed and in force, verifies under the key of its name, through three nested encodings and the table of hexadecimal keys |
| Records.GetRecordSignData | dkvs/dkvs.go:191-204 | the buffer filled by offsets is key, value, public key, and the two times little-endian |
| Records.SignDataDetermines | dkvs/dkvs.go:191-204 | for a fixed key and public key the signed bytes determine value, issue time and time to live |
| SignedBytes.RecordSigned | dkvs/dkvs.go:191-204 | where each part stands: key, value, public key, then issue time and time to live, lowest byte first |
| Validation.ValidExactly | dkvs/record.go:27-42 | a value is valid iff the key is "/dkvs" and an inner key, and the value decodes to a record of fitting size, signed by its own public key over those bytes, of a known type, verified as a GUN value under a GUN key, and not expired |
| Validation.ErrorExactly | dkvs/dkvs_record.go:88-151 | which error an invalid value gives: the first check that fails, in order |
| Validation.StoredIsSigned | dkvs/dht.go:69-107 | whatever a put stores is signed by the owner it gives the key to |
| Validation.ForgedNeverOwns | dkvs/dht.go:69-107 | along any run of puts a public key under which nothing verifies never comes to own a key |
| Records.IssueTimeRecovered | dkvs/dkvs_record.go:25-39 | Validity minus Ttl is the issue time supplied, wrap-around included |
| Records.SeqClock.TimestampSeq | dkvs/dkvs_record.go:176-187 | sequence numbers strictly increase whatever the wall clock does, until uint64 is exhausted |
| Records.VersionOrderTotal | dkvs/dkvs_record.go:67-85 | Seq, then Validity, then the bytes are a total order on records with their bytes |
| Records.SelectRecord | dkvs/record.go:71-95 | the loop returns the best index, or the error for no records |
| Records.BestIndexIsMax | dkvs/record.go:71-95 | that index is the first of the greatest versions |
| Records.SelectTwo | dkvs/record.go:49-69 | selection between two values is by version once the owner check passes, and fails otherwise |
| VersionOrder.VersionsExactly | dkvs/dkvs_record.go:67-85 | one version is newer iff its Seq is greater, or of equal Seq its Validity, or of equal both its bytes at the first difference |
| VersionOrder.SelectsNewer | dkvs/record.go:49-95 | selection between two takes the newer, wherever it stands |
| VersionOrder.SelectsNewest | dkvs/record.go:49-95 | of any number of values no other is newer than the one selected, and it is the first of its like |
| VersionOrder.PutKeepsNewer | dkvs/dht.go:82-106 | of two valid records of one owner the newer is stored, whichever is put over the other |
| LocalStore.Dkvs.GetLocal | dkvs/dht.go:109-156 | returns v iff the entry is filed under this key, holds v and v is valid now; corrupt, invalid and misfiled entries read as absent, a datastore error is returned |
| LocalStore.Dkvs.PutKeyToLocalNode | dkvs/dht.go:69-107 | an accepted put stores exactly the value under the key; a refused one, or one the datastore fails, changes nothing |
| LocalStore.ConfirmIsBacking | dkvs/cert.go:253-343 | the transfer confirmation succeeds iff the record carries the old owner's certificate and, for a nonzero fee, a miner's receipt, both for this key and these two owners |
| LocalStore.ReceiptAcknowledges | dkvs/cert.go:276-307 | a receipt verifies iff a miner in force signed it for this key, this fee and these two owners |
| LocalStore.CheckOwnerExact | dkvs/record.go:98-184 | a record may follow another iff the older is not of EOL type, the owners agree, or the transfer or the shared service backs it |
| LocalStore.ServiceIsBacking | dkvs/record.go:150-172 | two keys may follow each other without a certificate iff both are listed or approved for the service that is the key's second component, and that service is listed or approved |
| LocalStore.AcceptedReplacement | dkvs/dht.go:86-96 | an accepted replacement never lowers Seq and passed the owner check in the order of Seq |
| LocalStore.OwnerStep | dkvs/dht.go:82-106 | a put that replaces an older record in force keeps the owner or is backed |
| LocalStore.EveryChangeIsBacked | dkvs/dht.go:82-106 | along any run of such puts each change of owner is backed |
| LocalStore.OwnerLosesOnlyByBacking | dkvs/dht.go:82-106 | an owner who no longer holds a key at the end of a run lost it to a put that carried its own backing |
| LocalStore.PutExact | dkvs/dht.go:82-106 | a valid put replaces a record in force iff its Seq is greater and it may follow, or the Seqs tie, the stored record may follow it and it is the greater version |
| Acceptance.PutAccepts | dkvs/dht.go:69-107 | a put is accepted iff its value is valid and nothing is in force, the same value is, or one it supersedes |
| LocalStore.UnbackedExactly | dkvs/record.go:98-184 | a change of owner without backing is accepted iff the Seq is greater over a record that is not EOL, or on a tie the incoming record is greater and not EOL or may be followed by the stored one |
| LocalStore.ChangeExplained | dkvs/dht.go:82-106 | a put over a record in force keeps the owner or changes it with what the two Seqs and types call for |
| LocalStore.EveryChangeExplained | dkvs/dht.go:82-106 | so along every run of puts, but where the record was no longer in force |
| LocalStore.TieBackedInReverse | dkvs/record.go:110-125 | on equal Seq an incoming record of another owner is not EOL, and nothing is checked, or the stored record is backed from the incoming owner to its own |
| LocalStore.TieTakesKey | dkvs/record.go:110-184 | a record that is not EOL, of equal Seq and greater Validity, takes a key with no backing in either direction, both being properly signed |
| LocalStore.StoreKeepsGreatest | dkvs/dht.go:82-106 | of valid records of one owner, put one at a time in any order with any repetition, the store ends with the greatest of those delivered and the one in force before, if any |
| LocalStore.ReplicasConverge | dkvs/dht.go:82-106 | two replicas offered the same records, put in any order, one at a time, or in force before, store the same bytes |
| PutRaces.UndisturbedIsSerial | dkvs/dht.go:69-107 | interleaved puts whose writes find what they had read are whole puts in the order of the writes |
| PutRaces.GreatestIff | dkvs/dht.go:69-107 | however valid puts of one owner interleave, whichever writes fail and whatever was stored before, the store ends with a record no smaller than any put iff it started so or some write stores it and no put in flight then goes on to write another |
| PutRaces.GreatestIffAllWrite | dkvs/dht.go:69-107 | when every accepted put writes, iff it started so or is written at a moment when all puts in flight carry it |
| PutRaces.UndisturbedKeepsGreatest | dkvs/dht.go:69-107 | when no write fails or is disturbed the store ends with the greatest of the records put and the one it started from |
| PutRaces.LostPut | dkvs/dht.go:69-107 | of two puts that both read before either writes, the smaller can stay, though both wrote |
| Transfer.TransferKey | dkvs/dkvs.go:280-315 | fails as the check does, otherwise builds the transfer record with prepare record and receipt nested, its Seq drawn second |
| Acceptance.TransferAccepts | dkvs/dkvs.go:210-276 | the check accepts iff the key fits, the first party owns its record, value and time to live are kept, both values are signed, and the owner's certificate in the bundle hands the key over, with a miner's receipt for the fee if one is given |
| Acceptance.TransferCarries | dkvs/dkvs.go:293-315 | what a replica reads off the transfer record and the prepare record in it, field by field |
| Transfer.TransferSelected | dkvs/dkvs.go:210-326 | an offer that passes the check with the fee settled makes a record that Select prefers to the old one once its Seq is greater |
| Transfer.TransferValid | dkvs/dkvs_record.go:88-118 | of an accepted offer the record is valid iff it is small enough, unexpired and names a receiver |
| Transfer.TransferStored | dkvs/dht.go:69-107 | hence a replica holding the old record stores the receiver's in its place, iff those three hold |
| TransferOffer.EncodeCertsRecordValueWithCert | dkvs/cert.go:500-526 | the bundle's user data is replaced and the certificate appended unless one of its name is there; the bytes are the new bundle's |
| TransferOffer.PrepareRead | dkvs/cert.go:431-457 | a signed prepare certificate comes back out of any bundle whose user data it is, verified for key, owner, receiver and fee |
| TransferOffer.ReceiptVerifies | dkvs/cert.go:459-487 | a receipt a miner issued and signed verifies for the key, fee and parties it names |
| TransferOffer.GunKept | dkvs/cert.go:159-187 | a GUN value with its user data replaced by the certificate still verifies |
| TransferOffer.WellMadePasses | dkvs/dkvs.go:210-276 | an offer whose certificate and values are so made and signed by both sides passes CheckTransferPara |
| TransferOffer.TransferGoesThrough | dkvs/dkvs.go:280-326 | the transfer end to end: such an offer, its fee settled, gives the receiver the key on every replica that holds the old record |
| TransferOffer.AgreedGoesThrough | dkvs/dkvs.go:280-326 | the same from a valid standing record of any key, GUN keys included: the certificate put into the user data of the standing value, and a miner's receipt where there is a fee |
| MailboxKeys.FormatParses | dmsg/service/mailbox/client.go:668-672 | parsing a formatted int64 timestamp gives it back |
| MailboxKeys.KeyRoundTrip | dmsg/service/mailbox/service.go:630-637 | the client parses a stored key back to the request iff its three names are plain |
| MailboxKeys.KeySpelled | dmsg/service/mailbox/service.go:622-637 | the key is /dmsg/receiver/sender/from/ID/timestamp |
| MailboxKeys.DigitsSpelled | dmsg/service/mailbox/service.go:636 | the timestamp is its decimal digits, highest first |
| MailboxKeys.KeysDistinct | dmsg/service/mailbox/service.go:626-637 | messages that differ in sender, receiver, ID or time have different keys |
| MailboxKeys.PrefixSelectsUser | dmsg/service/mailbox/service.go:622-637 | a user's query selects the messages to that user and no others |
| MailboxPaging.PutItems | dmsg/service/mailbox/service.go:429-430 | storing a message is a map update that keeps the key order |
| MailboxPaging.WithoutFirst | dmsg/service/mailbox/service.go:333-343 | deleting a page leaves the rest of the user's mail in order and everyone else's untouched |
| MailboxPaging.FullFills | dmsg/service/mailbox/service.go:311-331 | a page is the least prefix whose contents reach the limit, or all there is |
| MailboxPaging.PageExactly | dmsg/service/mailbox/service.go:311-343 | contents below 2 MiB are one page, all deleted; otherwise the page ends with the message that reaches 2 MiB, which stays, and there is more iff another follows |
| MailboxPaging.LeftExactly | dmsg/service/mailbox/service.go:311-343 | after a drain the last message stays iff it fills the last page |
| MailboxPaging.NobodyElse | dmsg/service/mailbox/service.go:294-303 | serving one user leaves every other user's mail as it was |
| MailboxPaging.EndsIff | dmsg/service/mailbox/client.go:584-607 | the client's loop ends iff no message but the last reaches 2 MiB |
| MailboxPaging.DrainEchoes | dmsg/service/mailbox/client.go:584-607 | the pages together are the mailbox in key order, each message once or twice in a row |
| MailboxPaging.DrainDelivers | dmsg/service/mailbox/service.go:311-343 | each message is delivered at least once and at most twice, nothing else is, and the mailbox ends empty or with its last message |
| MailboxPaging.ReadAllIff | dmsg/service/mailbox/client.go:576-614 | a read succeeds iff every stored key parses, and then returns all that was drained |
| MailboxPaging.FailedRead | dmsg/service/mailbox/client.go:576-614 | a failed read ends at a page that does not parse; it returns the pages before, and that page is deleted but for a message that filled it |
| MailboxPaging.PageIsLost | dmsg/service/mailbox/client.go:597-602 | every other message of that page is neither returned nor left in the store |
| MailboxPaging.ReadOverIff | dmsg/service/mailbox/client.go:584-612 | a read over a network succeeds iff every key parses and every page's request and reply arrive, and then the network makes no difference |
| MailboxPaging.LostTrip | dmsg/service/mailbox/client.go:608-612 | when a request or reply is lost the pages before it are returned; a lost reply's page is deleted all the same |
| MailboxPaging.MalformedMailIsLost | dmsg/service/mailbox/client.go:658-672 | a mailbox of one message whose names are not plain fails the read and is emptied |
| MailboxPaging.MailArrives | dmsg/service/mailbox/client.go:576-614 | a mailbox of messages with plain names is read without failure, and returns each as it was sent and nothing else |
| MailboxPaging.MailStays | dmsg/service/mailbox/service.go:391-441 | storing a message with plain names adds it to its receiver's mail and keeps every mailbox such |
| MailboxService.Service.OnPubsubMsgRequest | dmsg/service/mailbox/service.go:391-441 | stores the message of a known receiver under its key; an unknown receiver or a failing write changes nothing and is reported |
| MailboxService.Service.OnReadMailboxRequest | dmsg/service/mailbox/service.go:272-351 | serves the mailbox of the proxy key if the request has one, else of the requester: a page, deleted but for a message that filled it and keys whose deletion fails, and whether there is more; clear mode deletes all; no other mail changes |
| MailboxService.CollectPage | dmsg/service/mailbox/service.go:311-331 | the loop over the results gathers the page, the keys to delete and whether another result follows |
| MailboxService.ParseReadMailboxResponse | dmsg/service/mailbox/client.go:649-689 | parses every item or fails |
| MailboxService.ReadPage | dmsg/service/mailbox/client.go:584-607 | one round of the loop: request, page and parse, with every way it can fail |
| MailboxService.ReadMailbox | dmsg/service/mailbox/client.go:576-614 | over any network the loop gathers what its specification says and leaves the store as it says; a refused read changes nothing; no other user's mail changes, the requester's own neither when it reads for a proxy key |
| MailboxService.Service.SaveSubscribeMailboxList | dmsg/service/mailbox/service.go:730-798 | afterwards users are marked, all other records cleared, none dropped |
| MailboxService.Service.LoadSubscribeMailboxList | dmsg/service/mailbox/service.go:841-897 | takes over an older version's list once and adds the marked users whose subscription succeeds |
| SubscriptionIndex.SaveLoad | dmsg/service/mailbox/service.go:730-897 | from any database, the marks after a save are the users, loading gives them back, saving again changes nothing |
| SubscriptionIndex.SavedExactly | dmsg/service/mailbox/service.go:748-795 | a save keeps every record, marks users "1" and all others "0" |
| SubscriptionIndex.ImportedExactly | dmsg/service/mailbox/service.go:862-871 | an older version's list marks its users "1" and leaves other records alone |
| SubscriptionIndex.Restart | dmsg/service/mailbox/service.go:841-897 | a restart loses exactly the users whose subscription fails |
| SubscriptionIndex.ImportedUsers | dmsg/service/mailbox/service.go:800-839 | users of an older version's list come up beside those saved |

## Left out

- SenderProtocol: `messageSenderImpl` and the map it guards are a state machine on values, not an object, because its two methods run concurrently; the reader goroutine and timeout of `ctxReadMsg`, metrics and message contents are outcomes of steps.
- DkvsPb: on a parse error the classes may hold part of the input, as in Go; only the error is specified then.
- Varint.ReadVarint: the source's `|=` of bits above those already gathered is written as an addition.
- Marshalling into a caller's buffer that is too small, or of a message of 2^63 bytes or more, where Go would panic.
- Cryptography, key unmarshalling, base32 datastore keys and the libp2p record wrapper: an arbitrary `verify`, an injective key mapping and a wrapper that decodes to key and value or not at all.
- The constant table of services: theorems hold for any table whose key names are not one byte long, which `HexStringToBytes` would slice out of range.
- `IsGunName` of an empty key and `Select` of fewer than two values index out of range in the source; both are preconditions.
- LocalStore.OwnerStep: replacements on equal Seq or of a record that is not EOL are outside its guarantee; `PutExact`, `UnbackedExactly` and `EveryChangeExplained` say what holds there.
- LocalStore.Dkvs.PutKeyToLocalNode: one call alone; `PutRaces` splits it into its read and its write.
- LocalStore.StoreKeepsGreatest: takes each put as one step; `PutRaces` says what becomes of it when puts interleave.
- LocalStore.ReplicasConverge: likewise one put at a time; records of several owners, and records that expire between two puts, are outside it.
- Transfer.TransferKey: how the put then reaches other nodes, and `putRecord`'s network and retry paths; the current record is an input.
- The other permission checks of `dkvs.go`, `QueryAllKeyOption` and the unsynced-key store: thin reads.
- `dhtGetRecord`, `asyncPut`, provider announcements: they rest on library behaviour.
- MailboxKeys.PrefixSelectsUser: the datastore is taken to clean keys as `path.Clean` does and to answer a prefix query with the keys below the prefix.
- MailboxService.ReadMailbox: failing deletions and messages arriving during the loop.
- `LastTimestamp`, the cleaning of idle users, and the opening of the LevelDB files.
- `saveSubscribeMailboxList1`: an unused predecessor.
- The generated `dmsg/pb` and `common/protocol/pb` code, whose codec is a library, and the PubSub and ACL plumbing.
