# Skycoin transaction signing on a Ledger device

A Dafny model of how a host script, the Skycoin application on a Ledger device and its user sign a
transaction together, with proofs about all of them at once.

**The stream.** A transaction travels as a count, inputs of 36 bytes (32-byte id, 4-byte address
index), a count, and outputs of 37 bytes. `Transaction` defines the stream and the part of it that is
hashed, knowing nothing of the device. `TxnStream` is the resumable parser of `txn.c` as a function
on states, numeric coincidences included (`TXN_OUT` is `TXN_APPROVE_OUT`, `TXN_COMPUTE_SIGS` is
`TXN_READY`); what `THROW` carries is the result of a step. `TxnSigner` is the same parser as an
object that updates its 37-byte buffer, its slots and a window into the shared I/O buffer in place,
proved equal to the function. `Chunking` proves what a resumed parse means for the stream.

**Device, user and host.** `DeviceModel` is the transition system: an APDU arrives, or a button is
pressed while one waits. `LedgerDevice` holds the two handlers, proved to be those transitions.
`Approval`, `Integrity`, `Answers`, `Screen`, `Sessions`, `SessionAnswers`, `SessionIndependence`,
`DisplayIndependence` and `OldHash` quantify over all runs: presses between outputs, what is signed and
sent out against what was taken, what is shown, what is approved against what was sent, and independence
from earlier sessions. `Protocol` and `Host` prove the script `send_txn` against the device object.

**Encoders.** `Base58` and `Addresses` (in-place conversion against the host's decoder), `Amount`,
`Decimals` and `DisplayText` (what a person reads), `Der`, `Signing`, `Bip44`, `HostText` (Python's hexadecimal text) and `RawTransaction`, which ends with
`createRawTransaction` run against the device. `Positional` and `Bytes` hold the arithmetic.

**Where the code does not keep a promise without a condition,** the exact condition is proved:

- A chunk that begins inside an element and ends before completing it destroys the carried bytes,
  because `save_data_to_buffer` copies to index 0; so does a chunk that completes the output count with
  fewer than four bytes of its own, because `TXN_START_OUT` does not count carried bytes. A split works if
  and only if it has no such chunk.
- An APDU that takes the first output may be answered by the `default` branch without preparing the
  screen. For `n` inputs this happens if and only if the chunk with byte 45 + 36 n, where the first output
  ends, is not the first chunk, begins before byte 4 + 36 n and ends before byte 82 + 36 n. A first chunk
  is worked on by a press, and presses always prepare the screen. With chunks of 254 bytes it happens for
  12 and 19 inputs, and with a single output for 7 to 12 and 15 to 19. The display then keeps what it
  showed before the session.
- An output count of zero skips approval, and the session goes on with the inner hash found there: a press
  that ends the intake answers with it, and if an APDU ended the intake (its answer is empty), the next
  requests answer with signatures over it. The answers of a run depend on the old hash if and only if such
  a press occurs, or such a page comes out differently, before a session takes its last output.
- Cancelling does not end the session; the next attempt to begin fails too.
- The conversion of signatures is right if and only if both integers take at least 32 bytes. The source
  comment promises 70 to 72 bytes of input, while the buffer filled by the SDK has 70.
- Amounts are exact up to what an `int` and a 16-byte buffer hold; addresses whose hash starts with a
  byte below 0x10 are misread by the host; `to_le` fails for Python longs, and `createRawTransaction` then
  ends with an exception of `fromhex`, in the middle of the session if a chunk has gone out before.

Well-formed transactions have 1 to 20 inputs and 1 to 255 outputs. Buttons count only while an APDU
waits for its answer, and no APDU arrives before the last one is answered.

## Model
| member | source | states |
|---|---|---|
| `Sessions.ApprovedIsSent` | src/apdu_handlers.c:107-152 | In every run of a session for a well-formed transaction whose split meets the condition of `Chunking.ChunkingTheorem`, wherever the run stops and whether or not a cancel ends it: the outputs taken are the first outputs of the transaction sent; the display reads back as the address, amount and number of the last one taken, except that it is the one from before the session while no output has been taken, or only the first and the chunk lengths hide it (`Screen.HidesFirst`); and a device past its outputs has taken all of them, has seen more accept presses than outputs, and holds the hash of this transaction |
| `Sessions.HostShows` | scripts/sign_transaction.py:19-22 | With the host's chunks the first output is displayed while it waits if and only if the counts are not 12 or 19 inputs, nor one output behind 7 to 11 or 15 to 18 inputs; every later output is displayed |
| `Sessions.HostHidesFirst` | scripts/sign_transaction.py:19-22 | For the host's chunks the condition on chunk lengths is that condition on the two counts |
| `Integrity.SignedIsApproved` | src/skycoin-api/txn.c:22-156 | In every run from an idle device, with any bytes, any split and any cancels: once accept has been pressed, a device past the outputs of a session that has some, finished or not, has consumed the stream of exactly one transaction, whose outputs are those it has taken one by one with more accept presses than outputs; the inner hash is that of this transaction, and the slots hold its inputs or, after signing, the signature of each input under the index received with it |
| `Answers.AnswersAreApproved` | src/apdu_handlers.c:92-152 | In every such run every answer is an error, an empty body, the inner hash, or the next page of the signed slots; with outputs to approve, a hash or page goes out only after all of them were taken and accepted, and is the hash of exactly the transaction consumed or the next of its signatures in input order |
| `Answers.PageAnswer` | src/skycoin-api/txn.c:118-153 | A request after approval is answered, without any press, with the next three signatures of the approved transaction or the rest, and the rest ends the session |
| `Answers.PagesAddUp` | src/skycoin-api/txn.c:140-153 | These pages, one after the other, are the list of signatures in input order |
| `SessionAnswers.AnswersAreForThis` | src/apdu_handlers.c:92-152 | In every run of a session for a well-formed transaction under the same condition on the split, with any user: every answer is an error, an empty body, the inner hash of this transaction, or the next page of its signatures |
| `SessionAnswers.HostHears` | scripts/sign_transaction.py:19-25 | This holds of what the host hears when it sends its 254-byte chunks |
| `SessionAnswers.ApprovedFor` | src/skycoin-api/txn.c:118-139 | In such a session the transaction consumed, approved and signed is the one that was sent |
| `DisplayIndependence.DisplaysIgnoreThePast` | src/apdu_handlers.c:128-141 | From any two idle devices, whatever their paths and pasts, and for any run: both displays agree once an event has changed one of them, and before that each keeps what it showed |
| `Host.SendTxn` | scripts/sign_transaction.py:15-37 | On any hexadecimal text of a well-formed transaction the host loop ends with the inner hash and n signatures in input order, each over SHA256(inner hash, its own id) under the path with its own index, after ceil(len/254) + 1 + ceil(n/3) exchanges, whatever the device did before; the device is idle again with its path unchanged. On a text that stops being hexadecimal it raises after exactly the chunks before that place |
| `Chunking.ChunkingTheorem` | src/skycoin-api/txn.c:8-117 | For every transaction, split and leftover state, the resumed parse takes in the whole stream if and only if every chunk that begins inside an element completes it, the output count with at least four bytes of that chunk; it then holds exactly the counts, inputs, outputs, hashed bytes and inner hash |
| `Chunking.LargeChunks` | src/skycoin-api/txn.c:22-117 | Every split whose chunks have at least 37 bytes, the last excepted, meets that condition |
| `Chunking.LikeOneShot` | src/skycoin-api/txn.c:22-117 | Such a split gives the same counts, inputs, outputs and hash as one chunk, from any two leftover states |
| `Chunking.SyncSave` | src/skycoin-api/txn.c:8-13 | Saving over carried bytes loses them: what is left still spells the rest of the stream if and only if nothing was carried |
| `Chunking.TinyChunksFail` | src/skycoin-api/txn.c:8-13 | Two one-byte chunks at the start make the device miss the stream |
| `Chunking.AtEnd` | src/skycoin-api/txn.c:82-86 | After the last output no byte is left over and the next call reports TXN_READY |
| `Chunking.FeedConserves` | src/skycoin-api/txn.c:8-20 | Over any chunks, bytes taken in plus bytes carried never exceed the bytes received |
| `TxnStream.Step` | src/skycoin-api/txn.c:22-156 | Every step keeps the parser invariant (carry below the element size, counters within the counts); a step that does not stop uses up data |
| `TxnStream.StepIn` | src/skycoin-api/txn.c:40-61 | A complete input that is not among the first 20 is written past the slots, and nothing else is undefined |
| `TxnStream.Run` | src/skycoin-api/txn.c:158-181 | txn_next_elem always stops, in a state that keeps the invariant |
| `Transaction.HashedIsPreimage` | src/skycoin-api/txn.c:32-107 | What is fed to the hash element by element is count, input ids, count, outputs, without the interleaved indices |
| `Transaction.PreimageFormat` | src/skycoin-api/txn.c:32-107 | Byte by byte: the number of inputs, 32 bytes of id each, the number of outputs, 37 bytes each |
| `Transaction.StreamFormat` | scripts/generating_txn.py:43-47 | Byte by byte: the same with 36 bytes for each input |
| `Transaction.InputFormat` | scripts/generating_txn.py:17-18 | 32 bytes of id, then the index as four little-endian bytes |
| `Transaction.OutputFormat` | src/skycoin-api/txn.c:95-98 | 21 bytes of address, then coins and hours as eight little-endian bytes each |
| `Transaction.OutputRoundTrip` | src/skycoin-api/txn.c:94-98 | Reading back the 37 bytes of an output gives its fields |
| `Transaction.InputRoundTrip` | src/skycoin-api/txn.c:127-129 | Id and index read from the 36 bytes of an input are the ones sent |
| `Transaction.EncodeTells` | src/skycoin-api/txn.c:32-98 | Two streams of as many inputs and the same outputs are equal only if all ids and indices are |
| `Protocol.SignaturesAreRight` | src/skycoin-api/txn.c:118-139 | With the inputs of a transaction in the slots, every slot afterwards holds the signature of its own input |
| `Protocol.SigOfIs` | src/skycoin-api/txn.c:125-133 | A signature is over the digest of 64 bytes, the inner hash and then the id of the input, under the device's path with its last word replaced by the index of the input |
| `Protocol.PageIs` | src/skycoin-api/txn.c:140-153 | A page of signatures continues the list in input order where the last page ended |
| `Protocol.SignatureExchange` | src/skycoin-api/txn.c:140-153 | Each request returns at most 255 bytes of whole signatures, three or the rest, and the session ends exactly with the last signature |
| `Protocol.HashExchange` | src/ui/newTransaction.c:89-96 | The press after the last output answers with the inner hash, and the device then owes all signatures |
| `Protocol.ChunkExchange` | src/apdu_handlers.c:120-145 | A chunk with an approving user is acknowledged once, with an empty body, and the parse stands where the byte count says |
| `Protocol.ExchangeAnswersOnce` | src/apdu_handlers.c:92-104 | Every exchange that meets no undefined behaviour is answered exactly once |
| `DeviceModel.RunOutputs` | src/skycoin-api/txn.c:79-117 | One call of txn_next_elem passes at most one output, and TXN_READY comes only when all announced outputs were passed; an intake stop leaves no data unread |
| `DeviceModel.ApplyKeepsSession` | src/apdu_handlers.c:107-152 | Every APDU, accept and cancel keeps the session invariant |
| `Approval.ApprovalDiscipline` | src/ui/newTransaction.c:77-96 | In every run from an idle device, with any bytes and any cancels: past the outputs, exactly the announced number was parsed and accept was pressed more often, counted in the run itself; the display shows, and reads back as, the output now waiting, unless it is the first and the last output of the run came in an APDU with fewer than 37 bytes behind it |
| `Approval.PressesCounted` | src/ui/newTransaction.c:64-77 | The presses counted in a session are accept presses of the run |
| `Approval.PressSeparatesOutputs` | src/ui/newTransaction.c:77-88 | Between any two events that take an output, however far apart in a run, accept is pressed |
| `Approval.WaitsForPress` | src/apdu_handlers.c:121-145 | Without accept, no sequence of APDUs and cancels moves the device on from an output |
| `Approval.ApduSkipsApproval` | src/apdu_handlers.c:121-142 | An APDU alone takes the device past its outputs if and only if the output count it completes is zero |
| `Approval.PressCompletesApproval` | src/skycoin-api/txn.c:82-86 | A press takes the device past its outputs only when all have been parsed |
| `Approval.ShownUnlessAnswered` | src/apdu_handlers.c:128-141 | The output an APDU takes is displayed, whatever was displayed before, if and only if the default branch did not answer TXN_PARTIAL_OUT |
| `Approval.EventShows` | src/apdu_handlers.c:128-141 | For any bytes, an event changes the display if and only if it takes an output and is not an APDU with fewer than 37 bytes behind that output, counted from the device before it; the display is then that output |
| `Screen.ShownIsApproved` | src/ui/newTransaction.c:17-52 | While output k waits, the three texts read back as its address with checksum, its amount and "k/m", if k is at least 2 or the default branch did not answer the first output |
| `DisplayText.ShownReads` | src/ui/newTransaction.c:17-52 | Read by a person who knows nothing of the device: the progress line is the number k, a slash and the number m; the address line decodes to hash, version and checksum of the output; the amount line is the exact amount if and only if it fits the screen, and always below 10^8 coins |
| `Screen.FirstOutputShown` | src/apdu_handlers.c:128-141 | An APDU that completes the first output while inputs or their count are being read displays it if and only if its chunk goes on for at least 37 bytes |
| `SessionIndependence.AnswersIgnoreThePast` | src/ui/newTransaction.c:71-76 | From any two idle devices with the same path, a run gets the same answers byte for byte if their old inner hashes agree or the first session to settle its hash announces outputs |
| `SessionIndependence.SameStep` | src/skycoin-api/txn.c:22-156 | Two parsers that agree on what their session has written so far take the same step, up to the stale hash of a session without outputs |
| `OldHash.OldHashExactly` | src/skycoin-api/txn.c:82-86 | For every run from an idle device and every other hash that might have been there, the answers are the same if and only if no press settles a session without outputs and no page of signatures asked for in such a session differs, before a session takes its last output |
| `OldHash.FirstSettledTells` | src/skycoin-api/txn.c:82-86 | If the first session to settle its hash has outputs, no other hash tells; if it has none and a press settles it, every other hash does |
| `OldHash.OldPage` | src/skycoin-api/txn.c:118-153 | A session without outputs answers each request with the next page of signatures over the old hash, without any press |
| `OldHash.PressRepeatsOldHash` | src/ui/newTransaction.c:89-96 | A press that takes a session without outputs past them answers with the inner hash found there, for any inputs and any split |
| `OldHash.HashKept` | src/skycoin-api/txn.c:103-104 | No run changes the inner hash unless a session takes its last output |
| `SessionIndependence.ZeroOutputsRepeatOldHash` | src/skycoin-api/txn.c:82-86 | Such runs exist from every idle device: one input and no outputs in one chunk |
| `SessionIndependence.CancelNeedsSecondError` | src/ui/newTransaction.c:57-62 | After a cancel in mid-session the next attempt to begin is an error as well, and that one frees the device |
| `TxnSigner.Signer.SaveDataToBuffer` | src/skycoin-api/txn.c:8-13 | The new data replaces the buffer from index 0 |
| `TxnSigner.Signer.ReadDataToBuffer` | src/skycoin-api/txn.c:15-20 | The buffer holds carried bytes followed by new ones, and the window moves on |
| `TxnSigner.Signer.In` | src/skycoin-api/txn.c:40-61 | Hashes 32 of 36 bytes and stores all 36 in the slot of the input |
| `TxnSigner.Signer.StartOut` | src/skycoin-api/txn.c:62-78 | The count is read once four new bytes are there |
| `TxnSigner.Signer.Out` | src/skycoin-api/txn.c:79-117 | Takes an output, closes the hash after the last one, and stops |
| `TxnSigner.Signer.ComputeSigs` | src/skycoin-api/txn.c:118-139 | Signing over the inputs in place equals signing a snapshot of them; the shared path is restored |
| `TxnSigner.Signer.RetSigs` | src/skycoin-api/txn.c:140-153 | The response holds whole signatures only and at most 255 bytes |
| `TxnSigner.Signer.TxnNextElem` | src/skycoin-api/txn.c:158-181 | The in-place parser refines the functional one: same result, same state, same response bytes |
| `LedgerDevice.Device.HandleSignTxn` | src/apdu_handlers.c:107-152 | The handler refines the APDU transition and keeps the device consistent |
| `LedgerDevice.Device.TransactionScreenButton` | src/ui/newTransaction.c:54-110 | The button handler refines the accept and cancel transitions |
| `LedgerDevice.Device.PrepareOutputApproval` | src/ui/newTransaction.c:17-52 | The three display texts become those of the current output, and read back as its address, amount and number |
| `LedgerDevice.Device.IoExchangeWithCode` | src/apdu_handlers.c:92-96 | One answer goes out: the body and two bytes that are the status word, high byte first |
| `DeviceModel.StatusBytes` | src/apdu_handlers.c:93-104 | A success ends in the bytes 0x90 0x00 and an error in 0x06 0xB0 |
| `Host.DongleExchange` | scripts/sign_transaction.py:20-25 | The host gets the body of an answer that ends in 0x9000, and an exception on any other |
| `Host.SendChunks` | scripts/sign_transaction.py:17-22 | All chunks up to the first that is not hexadecimal go out, each acknowledged with an empty body |
| `Host.CollectAnswers` | scripts/sign_transaction.py:24-25 | Empty APDUs bring back the hash and all signatures, in exactly 1 + ceil(n/3) exchanges |
| `Host.SplitAnswer` | scripts/sign_transaction.py:29-37 | Splitting gives the hash and the signatures in order, and nothing is left over |
| `Host.CeilDivIs` | scripts/sign_transaction.py:19 | The number of chunks and of requests is the least number of parts of that size |
| `Host.CountField` | scripts/sign_transaction.py:24 | The first four bytes of the text are the number of inputs |
| `Host.PieceIs` | scripts/sign_transaction.py:32-35 | The i-th piece of 65 bytes is the signature of input i |
| `Base58.MulAdd` | src/skycoin-api/skycoin_crypto.c:51-60 | The inner loop multiplies the base-58 number by 256 and adds the byte; digits stay below 58, unused ones zero, and the carry ends at zero |
| `Base58.Convert` | src/skycoin-api/skycoin_crypto.c:48-62 | After the outer loop the digits spell the bytes, with a non-zero top digit |
| `Base58.EncodeBase58` | src/skycoin-api/skycoin_crypto.c:35-74 | The text and its terminator are written, even over the input itself, and nothing else changes |
| `Base58.Significant` | src/skycoin-api/skycoin_crypto.c:63-66 | The loop that skips leading zero digits does not move: it starts at the top digit in use, and the digits from there on are the text |
| `Base58.SizeBound` | src/skycoin-api/skycoin_crypto.c:48 | 58^(n*138/100 + 1) > 256^n for every n |
| `Base58.AlphabetIs` | src/skycoin-api/skycoin_crypto.c:71-72 | The alphabet is the digits and letters in the order of their codes, without 0, O, I and l |
| `Base58.RoundTrip` | src/skycoin-api/skycoin_crypto.c:63-74 | Decoding the text, one zero byte per leading 1, gives back the bytes |
| `Base58.Injective` | src/skycoin-api/skycoin_crypto.c:35-74 | Different byte strings have different texts |
| `Base58.TextLength` | src/skycoin-api/skycoin_crypto.c:44-73 | 25 bytes give at most 35 characters |
| `Base58.NoTerminator` | src/skycoin-api/skycoin_crypto.c:71-73 | No character of the text is the terminator |
| `Base58.Base58Decode` | scripts/generating_txn.py:22-27 | The loop computes the value of the text, and fails exactly on a foreign character |
| `Base58.DecodeValueOfEncode` | scripts/generating_txn.py:22-27 | The host value of a device text is the big-endian value of the encoded bytes |
| `Addresses.AddressToBase58` | src/skycoin-api/skycoin_crypto.c:76-90 | The text, of at most 35 characters, and its terminator stand in the result buffer, encoded over their own bytes; decoded, the text is the 20 bytes of the hash, the version, and the first four bytes of the digest of these 21 |
| `Addresses.ReadAddress` | scripts/generating_txn.py:29-31 | On the device text of an address the result is its 21 bytes, version first, if and only if the hash starts with a byte of at least 0x10; a foreign character, and nothing else, is an exception |
| `Addresses.HostReadsAddress` | scripts/generating_txn.py:29-31 | The host recovers the 21 address bytes from the device text if and only if the hash starts with a byte of at least 0x10 |
| `Amount.PrepareAmount` | src/ui/newTransaction.c:40-50 | The text fits 16 bytes, keeps its dot and has no trailing zero; the stripping loop stops in time; below 10^8 coins of 1000000 units it reads as the exact amount |
| `Amount.AmountIsExact` | src/ui/newTransaction.c:40-50 | The text, read as a decimal in units of 10^-6, is the exact amount if and only if the whole coins fit an int and the fraction digits cut off by the buffer are zero: none below 10^8 coins, one below 10^9, two from there |
| `Amount.AmountFits` | src/ui/newTransaction.c:40-50 | It is exact for every amount below 10^8 coins of 1000000 units |
| `Amount.WholeCoins` | src/ui/newTransaction.c:40-45 | In front of the dot stands the number of whole coins without leading zeros |
| `Amount.DecimalReads` | src/ui/newTransaction.c:24 | A printed number reads back as itself, without leading zeros, after a minus sign if negative |
| `Der.ConvertSignature` | src/skycoin-api/skycoin_crypto.c:198-210 | The two 32-byte windows are copied, with offsets that may be negative, and nothing else changes |
| `Der.ConversionIsExact` | src/skycoin-api/skycoin_crypto.c:198-210 | R and S come out right if and only if both integers take at least 32 bytes, whatever surrounds the encoding in memory |
| `Der.LongEnough` | src/skycoin-api/skycoin_crypto.c:181-190 | A half is long enough if and only if it is at least 2^247 |
| `Der.DerFields` | src/skycoin-api/skycoin_crypto.c:175-190 | The encoding has the tags, lengths and two integers of the standard, in their places |
| `Der.IntegerIs` | src/skycoin-api/skycoin_crypto.c:175-190 | An encoded integer is the big-endian value, in as few bytes as a leading zero bit allows |
| `Der.Fixed32Is` | src/skycoin-api/skycoin_crypto.c:207-209 | A half is right if and only if its big-endian value is |
| `Signing.Sign` | src/skycoin-api/skycoin_crypto.c:213-241 | Over an unknown ECDSA, the 65 bytes are R and S as 32 big-endian bytes each if and only if both are at least 2^247, whatever surrounds the buffer; bit 0 of the last byte is the parity of the point and bit 1 says whether x exceeds the order, in any case |
| `Signing.PagesHoldRS` | src/skycoin-api/txn.c:140-153 | In every run, with any bytes and any cancels, and for 1 to 20 inputs: the signatures sent in answer to a request are those of the one transaction consumed and approved, each R and S of its input under its own index if and only if both are at least 2^247, with the right two bits of recovery id in any case |
| `Signing.SlotsHoldRS` | src/skycoin-api/txn.c:118-139 | The same of the signed slots, finished sessions included |
| `Bip44.GetBip44Path` | src/skycoin-api/skycoin_crypto.c:5-33 | Accepts or rejects, and says how much of the shared path a rejected request has already overwritten |
| `Bip44.AcceptsBip44` | src/skycoin-api/skycoin_crypto.c:5-33 | Twenty bytes are accepted if and only if they spell m/44'/coin'/account'/change/index within the limits |
| `Bip44.WordIs` | src/skycoin-api/skycoin_crypto.c:11 | A word of the path is read big-endian |
| `Bytes.U8LEofLE` | src/skycoin-api/txn.c:5 | U8LE undoes eight little-endian bytes anywhere in a buffer |
| `Bytes.U4LEofLE` | src/skycoin-api/txn.c:33 | U4LE undoes four little-endian bytes anywhere in a buffer |
| `HostText.ToLeExact` | scripts/generating_txn.py:4-10 | to_le writes exactly k little-endian bytes if and only if the number fits them and is below 2^63 |
| `HostText.HexlifyAt` | scripts/sign_transaction.py:23-25 | Every byte becomes two digits of 0-9 and a-f, the high one first |
| `RawTransaction.Serialized` | scripts/generating_txn.py:35-40 | The loop appends both amounts to the address |
| `RawTransaction.StreamTextIsExact` | scripts/generating_txn.py:43-47 | The text sent is the stream the device expects if and only if every amount is below 2^63 |
| `RawTransaction.LongBreaks` | scripts/generating_txn.py:35-47 | With a larger amount the text is right up to the first such amount and not hexadecimal there |
| `RawTransaction.PreimageIsStripped` | scripts/generating_txn.py:49 | The stripped serialisation is the hash preimage of the device if and only if every amount is below 2^63 |
| `RawTransaction.RawTextIs` | scripts/generating_txn.py:50-52 | With the right hash and signatures the text spells the signed transaction if and only if every amount is below 2^63 |
| `RawTransaction.RawRoundTrip` | scripts/generating_txn.py:42-53 | A parser driven by length and counts recovers every part, and the length field is the total length |
| `RawTransaction.CreateRawTransaction` | scripts/generating_txn.py:42-53 | End to end, for every well-formed transaction: the result is the signed transaction with the right hash and signatures if every amount is below 2^63, and an exception otherwise |

## Left out
- Cryptography of the Ledger SDK: SHA-256 and signing along a path are two unknown functions (`Crypto.Sdk`), and `Signing` says what the second is when the device's own `sign` runs over an unknown key derivation and ECDSA; hashing in pieces is modelled as hashing the concatenation of the pieces.
- Signing.Sign: an encoding of 71 or 72 bytes is longer than the buffer of 70; it is modelled as written into the memory behind it, and what else lives there is not modelled.
- Transport: `io_exchange`, USB, event handling and the exception macros; an answer is an entry in a log, a `THROW` a result value.
- Screens, icons, menus and scrolling (`transaction_screen_prepro`, `go_to_transaction_screen`, `custom_text_line_*`); only the three texts of the approval screen are modelled.
- The other instructions (`lookupHandler`, version, public key, message signing): each is settled by reading one branch.
- `TXN_ERROR` branches: nothing in the parser throws it, so no run reaches them.
- A press with no APDU waiting and an APDU while one waits: excluded by assumption (`DeviceModel.Enabled`).
- A transaction that announces no inputs or more than 20 makes the device write past `sig_input`; that write ends a run as undefined behaviour, and what follows it is not modelled.
- Memory layout: `tx` and `dataBuffer` are indices, a slot of the union is one sequence of 65 bytes in an array cell, and the inner hash and the shared path are sequences assigned as wholes.
- Sessions.ApprovedIsSent: a cancel ends the run, since the host raises an exception on its status word; what a host would see that went on sending the same transaction after the cancel has dropped a chunk is not stated (Integrity.SignedIsApproved and Approval.ApprovalDiscipline still hold of such runs).
- Amount.AmountIsExact: SPRINTF belongs to the SDK and is not part of this model; it is taken to write at most 15 characters and a terminator into its 16-byte buffer.
- Bip44.GetBip44Path: the coin type is not checked, as in the source.
- Python's floating-point scaling of amounts, and the framing of requests in `adpu_call.py`; its exception for a status other than 0x9000 is a missing result (Host.DongleExchange), which does not occur in the runs of Host.SendTxn.
- Host.SendTxn: blanks in the text, which `fromhex` would skip, count as characters that are not hexadecimal.
- HostText.ToLeExact: Python 2 is taken to run where a C `long` has 64 bits, so that numbers become longs at 2^63; with 32 bits the bound is 2^31.
