# The native MT5 wire path, verified

A Dafny model of the part of the terminal client that speaks the broker's native
protocol: the bytes on the socket, what they mean, and the client state built on
them. Each file models one component and proves what that component promises;
`EndToEnd.dfy`, `SessionSafety.dfy`, `Synchronization.dfy` and `ClientState.dfy` put
the components together and prove what holds over whole streams and whole runs.

`dafny verify dfyconfig.toml` checks everything.

## How it is organised

| File | Component |
|---|---|
| `Results`, `Bits` | options and results; bit strings, little-endian words, segments of a sequence |
| `PackedCode`, `Spellings`, `BitPack` | the bit-packed integer code, which spellings the writer makes, and its reader and writer |
| `WireFormats` | the formats of frames, quotes, depth, ticks and bars written out field by field, and known answers of the ciphers |
| `Depth`, `Quotes` | market depth (command 52) and quote records (commands 50 and 51) |
| `Lzo`, `Compression` | LZO1X tokens and their meaning; the decoder, the literal store and the payload envelope |
| `Framing`, `Cipher`, `Reassembly` | the frame parser, the two stream ciphers, joining fragments |
| `Account`, `Delivery`, `EndToEnd` | account updates; receiving as functions on values; the delivery theorem |
| `Handshake`, `Connection`, `Session` | the authentication phases, the framed connection, the session object |
| `Synchronization`, `SessionSafety`, `Requests` | what logging in achieves; safety over every run of session operations; what a run sends and takes in |
| `Bars`, `BarContinuity`, `Paging`, `Columns`, `ColumnGroups`, `Ticks`, `TickReplies`, `TickPrices` | bar and tick history |
| `Calendar` | the civil date of a second and the 16-bit date token |
| `Conversion`, `ConversionOrder`, `ClientState` | currency conversion; the client's copy of the account and what its callers do to it |
| `QuoteHistory`, `TicketHistory`, `ClientHistory`, `Subscriptions` | what quotes, orders, positions, symbols, account, queues and subscription requests hold after any run |
| `Trading` | trades and finding their results |

Code that changes things in place is modelled in place: `BitReader`, `BitWriter`,
`FrameParser`, `SessionCipher`, `Reassembler`, `HandshakeDriver`, `Link`, `Session`,
`ByteReader`, `Budget`, `Client` and `Trader` are classes whose methods run the
program's loops. Each method is proved equal to a function on values, so that the
theorems, which are about those functions, hold of the methods.

## Main results

* **Delivery** (`EndToEnd.MessagesDelivered`). Cut messages into pieces, interleave
  them on distinct sequences, wrap any of the pieces in any compressed form, encipher
  them with one cipher, frame them, and cut the bytes into any reads with idle polls
  between them: polling returns exactly those messages in the order of their last
  pieces, both cipher ends finish in the same state, and exactly the delivered account
  records have taken effect. Every layer's law is proved on its own as well.
* **Requests** (`Requests.SentIsAccepted`). Over every run, a receiver that deciphers a
  session's frames in order reads exactly the accepted requests, in order.
* **Codes.** Packed integers are self-delimiting at every position for every digit
  size; any batch of depth or quote records decodes to exactly what was encoded, and
  depth batches outside the limits are refused, exactly. The formats are also written
  out field by field (`WireFormats`), apart from the layouts the codecs work with.
* **LZO1X.** The decoder succeeds exactly on the spellings of lists of literal runs
  and back-references, and returns what they mean.
* **State machines.** Over every order of handshake calls, session operations and
  broker messages: which secrets exist when, one uninterrupted cipher stream, frames
  numbered 1, 2, ... modulo 65535, read-only never cleared, failure final, the
  symbol index sound, every quote and depth record queued once and in order, and
  quotes, orders, positions, symbols and the account holding what was received for
  them last.
* **History.** Bar containers read back from a reference encoding on absolute bars, and
  every bar of a decoded run hangs on the close of the bar before it; page requests
  descend strictly; tick replies are accounted for to the last byte, tick and inflated
  byte; the date formulas are the Gregorian calendar.
* **Searches.** The conversion search finds the first of the shortest chains, and the
  rate is the product of what its steps are worth; the outcome of a trade is, on every
  input, that of the first result heard that decides it.

Three facts of the code are kept as they are, each with an input that shows it and its
exact condition. The packed reader accepts spellings the writer never makes
(`Spellings.NonMinimalAccepted`): what was read is the writer's spelling if and only
if it has no value bits or its top two-bit group is not zero
(`Spellings.PackedSpelling`); for sign and magnitude, if and only if its top group is
not zero or it has no magnitude bits and no sign (`Spellings.SignedMagnitudeSpelling`).
And a frame parser drops the frames already found in a call when a later header in the
same call is bad (`Framing.CuttingMatters`): a failing call loses frames that another
cutting of the same bytes delivers if and only if what it parses does not begin with
the bad header (`Framing.FailedCallLoses`). Third, a healthy client can count ids as
subscribed that no request has named (`Subscriptions.FailedWriteIsLost`): the last
request written names exactly what is subscribed if and only if every request that
asked for something new and was not written is followed by one that was
(`Subscriptions.HealthyIsSubscribed`).

## Model

| member | source | states |
|---|---|---|
| PackedCode.PackedRead | mt5-native/src/bitpack.rs:94-102 | At any position of any stream, for every digit size 1 to 8 and width 8, 16, 32 or 64, the reader returns the written value (in two's complement when signed) and stops exactly where the writer stopped |
| PackedCode.ViewedIsIdentity | mt5-native/src/bitpack.rs:94-102 | The value read equals the value written if and only if it lies in the reader's range |
| PackedCode.SignedMagnitudeRead | mt5-native/src/bitpack.rs:87-92 | A sign-and-magnitude integer reads back exactly, wherever it stands and whatever follows |
| PackedCode.PrefixRead | mt5-native/src/bitpack.rs:68-85 | The length prefix, with its chains of sentinel digits, is self-delimiting |
| Spellings.PackedSpelling | mt5-native/src/bitpack.rs:68-102 | Wherever a read succeeds, signed or not, it read the writer's own spelling of the value and nothing else if and only if there are no value bits or the top two-bit group is not zero |
| Spellings.SignedMagnitudeSpelling | mt5-native/src/bitpack.rs:68-92 | The same for sign and magnitude: the writer's own spelling if and only if the top two-bit group is not zero or, with no magnitude bits, the sign bit is clear |
| Spellings.UnitsSpelled | mt5-native/src/bitpack.rs:68-85 | The length prefix has one spelling for each count: whatever prefix is read is the one the writer makes |
| Spellings.NonMinimalAccepted | mt5-native/src/bitpack.rs:68-102 | An input that meets the failing condition: four bits read as zero where the writer spells zero in two |
| WireFormats.PackedShape | mt5-native/src/bitpack.rs:146-163 | A packed integer is its two's complement bits in as few groups of two as hold them, after the number of groups in digits that are all ones until the last |
| WireFormats.SignedMagnitudeShape | mt5-native/src/bitpack.rs:165-183 | The same of a magnitude, with the sign bit between the count and the groups |
| PackedCode.LayoutRead | mt5-native/src/bitpack.rs:87-102 | Any list of fields written one after another reads back as that list, ending where it ends |
| PackedCode.LayoutReadExact | mt5-native/src/bitpack.rs:87-102 | The same with the values unchanged, for values in the readers' ranges |
| PackedCode.LayoutReadable | mt5-native/src/bitpack.rs:87-102 | Everything a reader returns lies in its field's range, on every input |
| BitPack.BitReader.Bits | mt5-native/src/bitpack.rs:53-64 | Reads the next bits, least significant first, within the limit; a failed read moves nothing |
| BitPack.BitReader.Prefix | mt5-native/src/bitpack.rs:68-85 | The digit loop reads exactly the prefix code |
| BitPack.BitReader.Packed | mt5-native/src/bitpack.rs:94-102 | Reads the packed code at the cursor and leaves the cursor behind it |
| BitPack.BitReader.SignedMagnitude | mt5-native/src/bitpack.rs:87-92 | Reads the sign-and-magnitude code at the cursor |
| BitPack.BitReader.StrictBoundary | mt5-native/src/bitpack.rs:106-111 | Skips 1 to 8 bits to the next byte boundary and reports them |
| BitPack.BitReader.WithLimit | mt5-native/src/bitpack.rs:41-51 | A bounded reader exists exactly when the limit fits the data and the digit size is 1 to 8, and sees exactly the bits below the limit |
| BitPack.BitWriter.Bits | mt5-native/src/bitpack.rs:130-143 | Appends the value's bits, leaves earlier bits untouched and keeps the unused bits of the last byte zero |
| BitPack.BitWriter.Packed | mt5-native/src/bitpack.rs:146-163 | For every digit size and width the machine word admits, appends the packed code exactly when the value can be written, and nothing otherwise |
| BitPack.BitWriter.SignedMagnitude | mt5-native/src/bitpack.rs:165-183 | Appends the sign-and-magnitude code exactly when the value can be written, and nothing otherwise |
| BitPack.BitWriter.StrictBoundary | mt5-native/src/bitpack.rs:185-188 | Appends 1 to 8 zero bits up to the next byte boundary |
| Depth.EncodeDepthRecord | mt5-native/src/depth.rs:32-46 | The bytes hold exactly the record's bits, zero-padded to a byte |
| Depth.DecodeRecord | mt5-native/src/depth.rs:74-101 | The record reader and its cursor follow the record function of `Depth.RecordRead`, including its entry limit |
| Depth.DecodeDepthRecord | mt5-native/src/depth.rs:49-53 | Decodes one record and reports how many bits it took |
| Depth.DecodeDepth | mt5-native/src/depth.rs:56-72 | The loop over the reader is the batch function of `Depth.BatchRoundTrip`: same records, same limits, same padding check |
| Depth.RecordRead | mt5-native/src/depth.rs:74-101 | A record reads back at any bit position unless it has more entries than the reader admits, and takes at least 8 bits |
| Depth.RecordRoundTrip | mt5-native/src/depth.rs:32-53 | Encoding then decoding one record gives it back with its exact bit length |
| Depth.BatchRoundTrip | mt5-native/src/depth.rs:56-101 | Records joined bit to bit, with fewer than eight bits after them, decode to exactly that list if and only if the batch limits hold and those bits are zero |
| WireFormats.DepthWritten | mt5-native/src/depth.rs:32-46 | The fields of a depth record and its entries, in order and with their widths |
| Quotes.EncodeQuote | mt5-native/src/quotes.rs:78-123 | Succeeds exactly when every present field has a value its width can hold, and then produces the record's bits with 1 to 8 padding bits |
| Quotes.DecodeQuotes | mt5-native/src/quotes.rs:157-253 | Decodes a run of records, for commands 50 and 51 only |
| Quotes.QuoteRead | mt5-native/src/quotes.rs:157-253 | A record that starts on a byte boundary reads back as its row and ends on a byte boundary |
| Quotes.BatchRoundTrip | mt5-native/src/quotes.rs:78-253 | Any number of encoded records, concatenated, decode to their rows in order |
| Quotes.RowMeans | mt5-native/src/quotes.rs:157-253 | For values in the reader's ranges the row has the record's symbol, seconds, mask, every main field and extension under its own bit, the second reading of bits 62 and 63, and 1 to 8 zero padding bits |
| Quotes.InRangeEncodable | mt5-native/src/quotes.rs:78-123 | Whatever lies in the reader's ranges can be encoded |
| Quotes.LiveProjections | mt5-native/src/quotes.rs:176-198 | A live row's time is seconds and milliseconds modulo 2^64, and its volume joins lots and fraction exactly when one of them is present |
| Quotes.SnapshotProjections | mt5-native/src/quotes.rs:40-46 | A snapshot row lists its fields in transmission order, 27 before 26, and shows a time only when field 26 is present |
| WireFormats.LiveWritten | mt5-native/src/quotes.rs:78-123 | The fields of a live tick in order: bits 0 to 8 that the mask marks, number 5 in 16 bits and the others in 64, then 9 to 63 |
| WireFormats.SnapshotWritten | mt5-native/src/quotes.rs:78-123 | The fields of a market-watch record in order: bits 0 to 25, 27, 26, 28 to 40, then 41 to 63, then 62 and 63 again |
| Lzo.CopyIsPeriodic | mt5-native/src/compression.rs:81-93 | A back-reference keeps the output so far and repeats its last `distance` bytes with that period, also where it overlaps what it writes |
| Lzo.InstructionMeans | mt5-native/src/compression.rs:70-93 | A run adds its literals; a back-reference keeps the output, adds bytes each equal to the one a distance before it, and then its own literals |
| Lzo.StreamRead | mt5-native/src/compression.rs:21-144 | The spelling of any list of instructions decodes to what the list means |
| Lzo.StreamSpelled | mt5-native/src/compression.rs:21-144 | Every input that decodes is the spelling of some list of instructions, and decodes to its meaning with the declared length and nothing unread |
| Compression.Decompress | mt5-native/src/compression.rs:21-46 | The decoder terminates on every input, never reads outside it, and is the decoding that `Compression.DecodesExactly` characterises |
| Compression.Instructions | mt5-native/src/compression.rs:69-144 | The token loop: unread input shrinks with every token and output stays within the declared size |
| Compression.LengthExtension | mt5-native/src/compression.rs:48-68 | Reads the zero-run length extension within the output limit |
| Compression.DoMatch | mt5-native/src/compression.rs:81-93 | The byte-by-byte copy is the overlapping back-reference |
| Compression.DecodesExactly | mt5-native/src/compression.rs:21-144 | Decoding returns `out` if and only if `out` has the declared length within the limit and the input spells a stream that means `out` |
| Compression.Store | mt5-native/src/compression.rs:148-167 | Writes the stream that spells the data as one literal run, in the short or the extended form |
| Compression.ExtensionClosed | mt5-native/src/compression.rs:157-162 | The store's count of zero bytes and its last byte are the length extension the decoder reads |
| Compression.StoredDecodes | mt5-native/src/compression.rs:148-167 | What is stored decodes to itself |
| Compression.DecompressPayload | mt5-native/src/compression.rs:170-187 | Opens the size envelope and decodes, refusing sizes that disagree |
| Compression.MakeCompressedPayload | mt5-native/src/compression.rs:190-202 | Wraps any payload within the message limit and refuses longer ones |
| Compression.PayloadRoundTrip | mt5-native/src/compression.rs:148-202 | A wrapped payload unwraps to itself exactly when the receiver's limit admits it |
| Compression.UnwrapsExactly | mt5-native/src/compression.rs:170-187 | An envelope opens to an output if and only if its two size fields name the lengths, the output is within the limit, and the rest spells a stream that means it |
| Framing.PackParses | mt5-native/src/frame.rs:74-82 | A packed frame is the first frame of any stream it starts |
| WireFormats.FrameBytes | mt5-native/src/frame.rs:74-82 | The nine header bytes of a frame one by one, then the payload |
| Framing.ParsePacks | mt5-native/src/frame.rs:107-138 | Whatever the parser takes as a frame is exactly that frame's packing |
| Framing.FrameParser.Feed | mt5-native/src/frame.rs:107-138 | Returns every whole frame of the buffered stream and keeps the rest; on a bad header it returns only the error and the buffer holds everything |
| Framing.FrameParser.Finish | mt5-native/src/frame.rs:141-149 | Succeeds exactly when no partial frame is left |
| Framing.ParsesExactly | mt5-native/src/frame.rs:107-138 | A stream parses to frames and a leftover if and only if it is their packing followed by an incomplete frame, all within the limit |
| Framing.ParseExtends | mt5-native/src/frame.rs:107-138 | More bytes never change what was found before them |
| Framing.ChunkingIrrelevant | mt5-native/src/frame.rs:107-138 | Feeding any chunks is parsing their concatenation: same failure, same frames, same leftover |
| Framing.FailsExactly | mt5-native/src/frame.rs:107-138 | Parsing fails if and only if the stream is whole frames within the limit followed by a bad header |
| Framing.CutFramesArePrefix | mt5-native/src/frame.rs:107-138 | However a stream is cut and whether or not a call fails, the frames delivered are a beginning of its whole frames |
| Framing.FailedCallLoses | mt5-native/src/frame.rs:107-138 | A failing call delivers nothing while a cutting of the same bytes delivers every whole frame; some cutting delivers a frame if and only if what is parsed does not begin with the bad header |
| Framing.CuttingMatters | mt5-native/src/frame.rs:107-138 | Bytes that deliver a frame when fed in two calls and none when fed in one |
| Cipher.SessionCipher.Encrypt | mt5-native/src/cipher.rs:78-89 | Masks each byte with the plaintext byte before it, or the one the cipher remembers, plus the next key byte, and advances the cipher by the plaintext |
| Cipher.EncryptedFeedsPlain | mt5-native/src/cipher.rs:78-89 | The same of the cipher as a function, byte by byte at every position of the key |
| Cipher.SessionCipher.Decrypt | mt5-native/src/cipher.rs:91-103 | Returns the plaintext whose masking by that rule is the input, and advances the cipher by it |
| Cipher.XorIsExclusive | mt5-native/src/cipher.rs:78-103 | Each bit of the masked byte is set exactly where the byte and the mask differ |
| WireFormats.HelloEnciphered | mt5-native/src/cipher.rs:111-127 | The two ciphers give the known answers on "hello" |
| Cipher.SessionCipher.Create | mt5-native/src/cipher.rs:67-76 | A session cipher exists exactly for nonempty keys and starts at position 0 |
| Cipher.DecryptUndoesEncrypt | mt5-native/src/cipher.rs:78-103 | A receiver in the sender's state recovers the plaintext, and so keeps step |
| Cipher.EncryptUndoesDecrypt | mt5-native/src/cipher.rs:78-103 | The inverse in the other direction |
| Cipher.EncryptInPieces | mt5-native/src/cipher.rs:78-89 | Enciphering in pieces is enciphering the whole: state crosses packet boundaries |
| Cipher.StartupEncrypt | mt5-native/src/cipher.rs:23-34 | Refuses an empty key, otherwise masks each byte with the ciphertext byte before it, zero at first, plus the next key byte |
| Cipher.StartupDecrypt | mt5-native/src/cipher.rs:36-47 | Refuses an empty key, otherwise returns the plaintext that this rule masks to the input |
| Cipher.StartupRoundTrip | mt5-native/src/cipher.rs:23-47 | The startup cipher's two loops undo each other both ways |
| Reassembly.Reassembler.Push | mt5-native/src/reassembly.rs:47-86 | Checks everything before it changes anything: a rejected fragment leaves the pending map as it was |
| Reassembly.Reassembler.Finish | mt5-native/src/reassembly.rs:88-96 | Succeeds exactly when nothing is pending |
| Reassembly.RunRefinesLogs | mt5-native/src/reassembly.rs:47-86 | After any run of pushes each pending entry is the log of its sequence since its last final fragment, the messages are exactly the finished logs, and the size and pending limits hold |
| Reassembly.TakenExactly | mt5-native/src/reassembly.rs:47-86 | After any run a fragment is taken if and only if the log it continues began with its command, the whole stays within the size limit, and it continues, completes or finds room for a message; otherwise nothing changes |
| Account.ParseAccountUpdate19 | mt5-native/src/account.rs:84-113 | Succeeds if and only if the body opens an account update with a nonnegative count and is long enough for that many records; then there are exactly that many and record i is read at its own stride |
| Account.RecordRead | mt5-native/src/account.rs:64-80 | Every field of a record is read from where it stands in the record |
| Delivery.UpdatesMean | mt5-session/src/lib.rs:355-366 | After a message's updates the account is the last of them, and the session is restricted exactly when it was or one of them has trade flag bit 3 set |
| Delivery.StreamReflects | mt5-session/src/lib.rs:318-378 | Whatever frames are received: the account records of the delivered messages, all of the session's login, and nothing else have taken effect |
| Delivery.PollReflects | mt5-session/src/lib.rs:318-378 | The same of one poll |
| Delivery.NextFrameKeepsTotal | mt5-session/src/connection.rs:92-120 | Taking a frame, or an idle deadline, loses no byte and no frame of the stream |
| Delivery.PollKeepsMeaning | mt5-session/src/lib.rs:318-378 | One poll, idle or not, leaves the meaning of the rest of the stream unchanged |
| Delivery.PollingIsStreaming | mt5-session/src/lib.rs:318-378 | Polling to the end delivers what the whole byte stream means, for every cut and every idle poll, or fails when it does |
| EndToEnd.FramesReceived | mt5-session/src/lib.rs:345-366 | Frame by frame the receiver follows the sender through interleaved and enciphered pieces, plain or in any compressed form that opens to the piece |
| EndToEnd.MessagesDelivered | mt5-session/src/lib.rs:318-378 | End-to-end delivery, whatever compressor wrapped the pieces: exactly the finished messages, in the order of their last pieces, no bytes left over, the reassembler holding exactly the sent pieces of unfinished ones, both cipher ends in the same state, and the account and the restriction exactly as the delivered account records say |
| EndToEnd.DeliveryConserves | mt5-session/src/lib.rs:318-378 | What polling returns, as a multiset, is what was begun less what is unfinished: nothing lost, doubled or invented between sender and receiver |
| EndToEnd.SendingConserves | mt5-native/src/reassembly.rs:47-86 | The same balance on the sending side, from any outbox |
| Handshake.DeriveKeys | mt5-native/src/handshake.rs:194-212 | The last TLV 7 and the last TLV 27 give the keys, and any empty TLV 7 fails |
| Handshake.ReplyInstalls | mt5-native/src/handshake.rs:182-225 | An awaited reply is used exactly when its status is 0 or 1003, its build positive, no TLV 7 empty and the last TLV 7 makes a nonempty key; then the session key comes from that TLV, the trade key from the last TLV 27 if any, and a certificate is required exactly at status 1003; any other reply wipes the handshake |
| Handshake.HandshakeDriver.Fail | mt5-native/src/handshake.rs:103-112 | Wipes everything a reply brought |
| Handshake.HandshakeDriver.Hello | mt5-native/src/handshake.rs:125-137 | Only from the initial phase |
| Handshake.HandshakeDriver.OnChallenge | mt5-native/src/handshake.rs:140-152 | Accepts a good challenge after hello; a bad one fails and wipes |
| Handshake.HandshakeDriver.Auth | mt5-native/src/handshake.rs:155-177 | Only after a challenge |
| Handshake.HandshakeDriver.OnAuthResult | mt5-native/src/handshake.rs:182-225 | Installs keys and a fresh cipher on a good reply; a bad one fails and wipes, leaving no partial state |
| Handshake.HandshakeDriver.CertificateContinuation | mt5-native/src/handshake.rs:232-252 | Enciphers at the cipher's position and advances it; an out-of-order call changes nothing |
| Handshake.HandshakeDriver.Sync | mt5-native/src/handshake.rs:292-323 | The same for the synchronization request |
| Handshake.HandshakeDriver.TakeSendCipher | mt5-native/src/handshake.rs:284-289 | Hands over the live cipher once, with its position |
| Handshake.EveryRunSane | mt5-native/src/handshake.rs:103-323 | After any calls in any order: session keys exist exactly in the three phases after a good reply, a failed handshake holds nothing a reply brought, and the frames sent with the cipher handed over are one cipher stream from position 0 |
| Handshake.FailedIsFinal | mt5-native/src/handshake.rs:103-122 | Failure is absorbing |
| Handshake.FailsExactly | mt5-native/src/handshake.rs:140-225 | Over every order of calls a handshake has failed if and only if some call brought a bad reply while that reply was awaited |
| Connection.Link.NextSequence | mt5-session/src/connection.rs:71-75 | Returns the current number and moves to the next, skipping 0 |
| Connection.Link.Send | mt5-session/src/connection.rs:77-81 | A frame counts as sent exactly when its write succeeds |
| Connection.Link.PollFrame | mt5-session/src/connection.rs:92-120 | Returns queued frames first, then reads; a deadline keeps partial bytes and parsed frames |
| Connection.SequencesCount | mt5-session/src/connection.rs:71-75 | The n-th request has number n modulo 65535, plus 1: never 0 |
| Session.Session.Authenticate | mt5-session/src/lib.rs:80-122 | Performs the login exchange; any failure consumes the session |
| Session.Session.Reply | mt5-session/src/connection.rs:122-133 | Accepts only the awaited final, uncompressed startup reply |
| Session.Session.Synchronize | mt5-session/src/lib.rs:129-217 | Sends the request, collects and checks the account state and becomes ready with the taken cipher; refusals before the request change nothing |
| Session.Session.Collect | mt5-session/src/lib.rs:171-196 | Collects the reply frames: skips empty pings, refuses foreign frames and anything beyond the message limit |
| Session.Session.SendEncoded | mt5-session/src/lib.rs:245-275 | Performs exactly the request step of `Requests.RequestMeans`: a refused request changes nothing; a failed write fails the session |
| Requests.RequestMeans | mt5-session/src/lib.rs:245-275 | A request within 16 MiB that the restriction allows adds exactly one frame, with its command, its flags and the current number, that deciphers to its payload; any other changes nothing |
| Requests.TradeMeans | mt5-session/src/lib.rs:279-301 | An unrestricted session with a trade key adds exactly one frame of command 108, final and compressed, that deciphers and opens to the signed body |
| Requests.SynchronizeMeans | mt5-session/src/lib.rs:129-217 | The synchronization request goes out as command 12 with the plan's body; the session that becomes ready is of the authenticated login and restricted exactly when its account or its profile is |
| Requests.SentIsAccepted | mt5-session/src/lib.rs:129-301 | From authentication on, over every run and also when it fails: a receiver that deciphers the frames in order reads exactly the accepted requests, in order |
| Requests.RunReflects | mt5-session/src/lib.rs:318-378 | Over every run of a ready session: its account is the last record in the messages that polls returned, and it is restricted exactly when it was or one of those records is |
| Session.Session.SendTrade | mt5-session/src/lib.rs:279-301 | Refused when read-only or without a trade key; otherwise the signed, wrapped body goes out as one request |
| Session.Session.PollMessage | mt5-session/src/lib.rs:318-378 | Ciphers, parser, reassembler and account advance in place exactly as in `Delivery.Poll`, so every result about streams and runs holds of it; idle polls keep all state, errors fail the session |
| Synchronization.AuthenticateSucceeds | mt5-session/src/lib.rs:80-122 | Two good replies under the right numbers, in any reads, authenticate a fresh session, which has sent exactly its two requests; later frames are still to come |
| Synchronization.AuthenticatesExactly | mt5-session/src/lib.rs:80-122 | A fresh session authenticates if and only if its two writes work, the next two frames are the final uncompressed answers to its two requests, the challenge has status 0, and the reply has status 0 and can be used; otherwise it fails |
| Synchronization.FirstHeld | mt5-session/src/connection.rs:92-120 | On a live connection the next frame is the first one the remaining bytes hold, however they are cut |
| Synchronization.CollectingIsStreaming | mt5-session/src/lib.rs:171-196 | Collecting the reply depends only on the frames of the stream, not on how it is cut, in success and in failure |
| Synchronization.SyncCollected | mt5-session/src/lib.rs:171-196 | A reply in any parts, plain or in any compressed form that opens to the part, with empty pings of any number and flags between them, is collected whole, and both cipher ends stand at its end |
| Synchronization.CollectedExactly | mt5-session/src/lib.rs:171-196 | Collecting succeeds if and only if the frames begin with such a reply, and returns what it says and what it leaves |
| Synchronization.SynchronizeSucceeds | mt5-session/src/lib.rs:129-217 | Such a reply for the authenticated login, in any reads, makes the session ready with that account, both ciphers in step, nothing pending, and later frames still to come |
| SessionSafety.EveryRunSafe | mt5-session/src/lib.rs:80-378 | Over every run of operations, networks and write failures: while ready the account is the authenticated login, frames sent are numbered 1, 2, ... modulo 65535, and all enciphered payloads are one cipher stream from position 0, so refused requests left no trace |
| SessionSafety.EveryRunFollows | mt5-session/src/lib.rs:245-378 | Over every run: read-only is never cleared, a read-only session sends only commands 10, 101, 102, 105 and 106, and a failed session never changes again |
| SessionSafety.PollKeeps | mt5-session/src/lib.rs:355-366 | Receiving never changes the login and never clears read-only |
| Bars.DecodeContainer | mt5-native/src/bars.rs:28-131 | The nested loops terminate on every bit stream and return the container of `Bars.ContainerRoundTrip` |
| Bars.ReadBars | mt5-native/src/bars.rs:49-130 | Success yields exactly the declared number of bars; gaps and empty runs consume bits, so the recursion ends on every stream |
| Bars.ContainerRoundTrip | mt5-native/src/bars.rs:28-131 | Anchors, gaps and spans of absolute bars, encoded in any mixture, decode to exactly those bars, whatever follows |
| WireFormats.ContainerWritten | mt5-native/src/bars.rs:49-130 | That encoding written out: tags, an anchor's flags, time and open, each bar's fields with their widths, spread and traded volume where this or an earlier anchor switched them on, and steps from the last close |
| WireFormats.ExtrasAnnounced | mt5-native/src/bars.rs:111-115 | Each of the flag bits 3 to 63 that is set announces one more number |
| WireFormats.HeadersRefused | mt5-native/src/bars.rs:36-48 | Only headers within the bounds decode |
| Bars.PlainAnchorFits | mt5-native/src/bars.rs:66-99 | An anchor without optional fields expresses every bar whose open and offsets fit 32 bits |
| Bars.PlainBarFits | mt5-native/src/bars.rs:90-100 | A run without optional fields expresses every bar a minute later on the limit's grid, within the field widths |
| BarContinuity.ContainerHangs | mt5-native/src/bars.rs:56-130 | In every container that decodes, the first bar is an anchor's, and every bar of a run comes 60 seconds and 60 for each skipped minute after the bar before it and opens a whole number of limits from that bar's close, also over gaps and run boundaries and where offsets wrap |
| BarContinuity.TokensAllowed | mt5-native/src/bars.rs:58-81 | No anchor with flag bit 2 is read, and gaps and runs only after an anchor |
| BarContinuity.RunsContinue | mt5-native/src/bars.rs:90-97 | The same of one run, from any state |
| Bars.DecodeHistory | mt5-native/src/bars.rs:156-165 | Inserts the containers' bars by time in the order received and returns them in key order |
| Bars.HistoryIsLatest | mt5-native/src/bars.rs:156-165 | The merged history has strictly increasing times and holds exactly the last bar received for each time |
| Columns.ByteReader.Take | mt5-native/src/history.rs:34-45 | Takes exactly that many bytes or fails without moving |
| Columns.ReadColumnGroupLimited | mt5-native/src/history.rs:98-192 | The three in-place stages (descriptors, blocks, projection) are those of `Columns.ReadGroup`, within the tick and byte limits |
| Columns.ReadGroup | mt5-native/src/history.rs:98-192 | A group takes 52 bytes, 36 per column and its blocks, and has at most the allowed ticks |
| Columns.GroupInflates | mt5-native/src/history.rs:129-146 | The inflated bytes of a group never exceed its budget |
| Columns.FirstColumnWins | mt5-native/src/history.rs:148-182 | Every cell comes from the first column with its id, which is long enough; duplicates and unknown ids leave the table alone |
| Columns.FillColumn | mt5-native/src/history.rs:163-181 | The in-place row loop fills every cell of one column |
| Columns.GroupTabulates | mt5-native/src/history.rs:98-192 | In every group that is read, bid, ask and last are the cells of columns 2, 4 and 8, volume and auxiliary those of 16 and 64, and each time is the one before it plus a difference from column 1, modulo 2^64 |
| ColumnGroups.MakeColumnGroup | mt5-native/src/history.rs:203-242 | Builds header, descriptors and blocks in that order |
| ColumnGroups.GroupRoundTrip | mt5-native/src/history.rs:98-242 | A built group reads back at any position: declared row count, exact end, and every cell from the first column with its id, or absent |
| Ticks.DecodeGroup | mt5-native/src/tick_history.rs:44-65 | Decodes a group within the shared budget and subtracts exactly what it used; neither budget goes below zero |
| Ticks.DecodeTicks | mt5-native/src/tick_history.rs:117-142 | Reads the declared number of packed ticks |
| Ticks.TicksRead | mt5-native/src/tick_history.rs:119-140 | Written packed ticks read back field by field, with the volume joined modulo 2^64 |
| Ticks.DecodeContainer | mt5-native/src/tick_history.rs:67-156 | The decoder over reader and budget objects is `Ticks.ContainerOf`, for hourly, grouped and packed bodies |
| Ticks.ContainerOf | mt5-native/src/tick_history.rs:67-156 | A container takes 115 bytes, its declared size and 384 more when hourly, holds its declared tick count, and shrinks the budget by exactly its ticks and inflated bytes |
| Ticks.DecodeTickHistory | mt5-native/src/tick_history.rs:158-195 | The whole decoder with its shared budget is the reply function that `Ticks.ReplyAccounted` is about |
| Ticks.ReplyAccounted | mt5-native/src/tick_history.rs:158-195 | A decoded reply is accounted for to the last byte; all its ticks stay within one million and all inflated bytes within 64 MiB, over any number of containers and hours |
| TickReplies.ContainerMeans | mt5-native/src/tick_history.rs:67-156 | The ticks of a container are the rows of the groups of exactly the marked hours in order, or of its single group, or the declared packed ticks; all that the tables leave out is kept with its hour |
| TickReplies.ReplyMeans | mt5-native/src/tick_history.rs:158-195 | Symbol and status are read from the prefix, more follows exactly at status 14, and the containers stand one after another to the end under one budget |
| TickReplies.HeaderRead | mt5-native/src/tick_history.rs:67-93 | Every header field is read from where it stands in the header |
| WireFormats.TickWritten | mt5-native/src/tick_history.rs:119-140 | The fields of a packed tick in order and with their widths |
| TickPrices.MaterializeTicks | mt5-native/src/tick_history.rs:209-252 | Succeeds exactly when every row can be used; each tick has its row's time and flags, and each price and the volume is the one given by the last row up to it that gives one, or zero |
| TickPrices.PriceIsLastGiven | mt5-native/src/tick_history.rs:221-230 | The carried price is the one given by the last row that gives that side, or zero when none did |
| TickPrices.VolumeIsLastGiven | mt5-native/src/tick_history.rs:231-237 | The same of the carried volume |
| Paging.BarsBetween | mt5-session/src/client/history.rs:114-149 | Refuses an unknown symbol before anything else; otherwise returns the history of the pages it took, having asked for exactly the seconds that `Paging.RequestsDescend` is about |
| Paging.RequestsDescend | mt5-session/src/client/history.rs:119-148 | Whatever the replies, each request asks for a strictly earlier second than the one before, every one has a date, and there are at most 256 requests and at most one more than replies |
| Paging.PagesExactly | mt5-session/src/client/history.rs:119-148 | Every page but the last is the symbol's own, lies after the start and leads to exactly the next request, for the second before its earliest bar; paging succeeds if and only if the last page is the symbol's own and is empty, asked for at the start, or reaches it |
| Paging.HistoryMeans | mt5-session/src/client/history.rs:119-141 | That history has strictly increasing times inside the range and holds exactly the last bar received for each time in it |
| Paging.PagesReachStart | mt5-session/src/client/history.rs:140-147 | Paging that succeeds made one request for each page, and its last request was for the start or earlier, or was answered by an empty page or one with a bar at or before the start |
| Calendar.DatesAreTheCalendar | mt5-session/src/client/history.rs:152-167 | On every day from 1970 on, the formulas give the calendar's date: the n-th successor of 1 January 1970, and a valid date |
| Calendar.PlaceFound | mt5-session/src/client/history.rs:157-162 | The year and day-of-year formulas invert the lengths of centuries, cycles and years |
| Calendar.CivilNext | mt5-session/src/client/history.rs:163-165 | The month formulas step to the calendar's next day, across month and year ends |
| Calendar.TokensNameDays | mt5-native/src/subscription.rs:26-34 | Every accepted second's date has a token whose bit fields are its year, month and day, and later days have larger tokens |
| Calendar.TokenExactly | mt5-native/src/subscription.rs:26-51 | A date has a token if and only if it is the date of a second that history requests accept |
| Conversion.ConversionPath | mt5-session/src/client.rs:168-203 | The queue loop returns a shortest usable chain of at most three conversions, or nothing exactly when there is none |
| Conversion.FoundAnswers | mt5-session/src/client.rs:168-203 | The same of the search as a function: breadth first is shortest first |
| Conversion.ConversionRate | mt5-session/src/client.rs:205-216 | Multiplies the factors along the found chain: the rate that `Conversion.RateMeans` is about |
| Conversion.RateMeans | mt5-session/src/client.rs:168-216 | A rate exists if and only if a chain of at most three quoted conversions leads there; it is the product along a shortest one of the bid, or the ask on the losing side, where the base is converted, and otherwise of the number that times the ask, or the bid, makes one |
| Conversion.FoundIsShortestChain | mt5-session/src/client.rs:168-203 | The search as chains of currencies: each conversion is a usable symbol with the two currencies as base and profit in either order |
| ConversionOrder.FirstChainFound | mt5-session/src/client.rs:168-203 | Of several shortest chains the search finds the one that uses the earlier symbol of the list where they first differ |
| Conversion.RatesAgree | mt5-session/src/client.rs:205-216 | A rate exists if and only if at most three quoted conversions lead there; with no crossed quote the losing side's rate is at least the other's, and both are positive |
| Conversion.LossRateIsNotLower | mt5-session/src/client.rs:205-216 | The same for every chain |
| Conversion.BackAgain | mt5-session/src/client.rs:205-216 | Converting along a chain on one side and back on the other is the identity |
| ClientState.Client.constructor | mt5-session/src/client.rs:80-101 | Starts from a synchronized state with a sound index |
| ClientState.IndexedOk | mt5-session/src/client.rs:80-85 | The initial index maps every id to a symbol with that id and covers all symbols |
| ClientState.SymbolsAfter | mt5-session/src/client.rs:323-332 | Symbol updates keep the index sound, never move a known symbol, and make every updated symbol known |
| ClientState.ScaleMeans | mt5-session/src/client.rs:272 | Prices are scaled by ten to the power of the symbol's digits, also of a negative number of them |
| ClientState.Client.ApplyQuotes | mt5-session/src/client.rs:261-309 | Applies the rows in order and stops at the first that is refused |
| ClientState.Client.ApplyDepth | mt5-session/src/client.rs:310-321 | Queues depth records of known symbols within the limit |
| ClientState.Client.ApplySymbols | mt5-session/src/client.rs:323-332 | Replaces known symbols in place and appends new ones |
| ClientState.Client.ApplyAccounts | mt5-session/src/client.rs:333-339 | Takes over records of the client's own login only |
| ClientState.Client.ApplyOrders | mt5-session/src/client.rs:340-347 | Drops and re-adds orders by ticket |
| ClientState.Client.ApplyPositions | mt5-session/src/client.rs:348-377 | Applies positions and their related positions and balances, and writes one request for old and new subscriptions when positions need new ones |
| ClientState.Client.Poll | mt5-session/src/client.rs:218-250 | Sends the keepalive when due, applies what arrived, and becomes unhealthy at a failed send, a refused message or the silence deadline; an unhealthy client refuses |
| ClientState.HealthyIsAlive | mt5-session/src/client.rs:231-250 | A poll that leaves the client healthy left less than the keepalive time since the last send and heard from the broker within the deadline |
| ClientState.PutIsMapUpdate | mt5-session/src/client.rs:340-359 | On distinct tickets, dropping and re-adding is exactly a map update or removal |
| ClientState.PutKeepsOrder | mt5-session/src/client.rs:340-359 | The record put stands at the end and the others keep their order |
| ClientState.OrdersKeep | mt5-session/src/client.rs:340-347 | Under the updates of one message the order list behaves as a map keyed by ticket |
| ClientState.DealsKeep | mt5-session/src/client.rs:350-358 | The same for positions: open ones are stored, closed ones leave |
| TicketHistory.TicketsAreLastUpdates | mt5-session/src/client.rs:340-359 | After any run tickets are distinct, and each ticket's order and position is what the last update received for it says, or as at the start when there was none |
| ClientState.PositionsSubscribed | mt5-session/src/client.rs:363-376 | After a position update every open position's symbol is subscribed |
| ClientState.Client.Subscribe | mt5-session/src/client.rs:115-136 | Refuses unknown names without effect; otherwise subscribes to the names and the conversions they need before it writes, whatever the client's health, and leaves that health alone when the write fails |
| ClientState.Client.SubscribeDepth | mt5-session/src/client.rs:139-158 | The same for market depth, without conversions and refusing negative ids |
| ClientState.WantedBy | mt5-session/src/client.rs:116-131 | Collects the ids of the names and of the conversions of their profit and margin currencies, or refuses at an unknown name |
| Subscriptions.WantedMeans | mt5-session/src/client.rs:116-131 | A request asks for exactly the named symbols' ids and those on the chains from their profit and margin currencies to the account's |
| Subscriptions.HealthyIsSubscribed | mt5-session/src/client.rs:115-136 | Over every run of messages and callers' operations, the last subscription request written names exactly what is subscribed if and only if every request that asked for something new and was not written is followed by one that was; while the client is healthy only callers' requests can have been lost |
| Subscriptions.DepthIsSubscribed | mt5-session/src/client.rs:139-158 | The same condition for depth requests |
| Subscriptions.FailedWriteIsLost | mt5-session/src/client.rs:131-134 | An input that meets the failing condition: one subscription whose write fails, after which the client is healthy |
| Subscriptions.UnhealthyStillWrites | mt5-session/src/client.rs:115-136 | An unhealthy client still writes a subscription and a request |
| QuoteHistory.LiveQuotesAreLastPrices | mt5-session/src/client.rs:261-309 | After any run whose quotes are decoded from records, a symbol has a live quote exactly when a record was accepted for it, and each side is the last positive value that the records gave for it (bits 0 and 1 of a live tick, 0 and 3 of a market-watch record) over the scale in force then, or zero |
| QuoteHistory.RowsAreLastPrices | mt5-session/src/client.rs:261-309 | The same of rows from anywhere |
| QuoteHistory.QuotesPublishedOnce | mt5-session/src/client.rs:164-166 | Over any run what callers took and what is queued are exactly the quotes with both sides filled, one for each tick that left them so, in order; after a refusal a beginning of them |
| ClientHistory.SymbolsAreLastUpdates | mt5-session/src/client.rs:323-332 | After any run each id leads to the symbol that the last update for it says |
| ClientHistory.AccountIsLastReceived | mt5-session/src/client.rs:333-362 | After any run balance and credit are those that came last, with an own record or with a position, and all else is as in the last own record |
| ClientHistory.DepthQueuedOnce | mt5-session/src/client.rs:310-321 | Over any run what callers took and what is queued are exactly the depth records received, each once and in order; after a refusal a beginning of them |
| ClientState.EveryRunKeeps | mt5-session/src/client.rs:103-400 | Over every run of polls, subscriptions, requests, deadline changes and taken queues: the index stays sound, tickets stay distinct, published quotes have both sides positive, a filled side never empties, the login never changes, queues stay within limits, no request names what is not subscribed and written requests stay; and after a refusal no message changes anything, though callers still can |
| Trading.Trader.Trade | mt5-session/src/client.rs:403-459 | The waiting loop with its mutable ticket is the step that the rows below are about; a failed poll leaves the client unhealthy, a broken write ends the session, and a restriction read while waiting stays |
| Trading.TradeMeans | mt5-session/src/client.rs:403-459 | A refusal writes and changes nothing; otherwise the request is written once if its write succeeds, the outcome is exactly the one the results heard call for, only a beginning of what comes is taken, and the client can trade on if and only if no write broke, no poll failed and no restriction came in the call |
| Trading.FinalAnswerFound | mt5-session/src/client.rs:422-458 | On every input, the outcome of waiting is `o` if and only if the results heard before the waiting is cut short call for `o`: uncertain when none decides, else that of the first final result that names the request, or names none but the last ticket reported under the request's id |
| Trading.TicketReported | mt5-session/src/client.rs:438-444 | A carried ticket was reported under the request's own id |
| Trading.TicketSettlesFirst | mt5-session/src/client.rs:438-456 | An input where a result without request id settles a trade before a final result that names the request |
| Trading.AwaitEnds | mt5-session/src/client.rs:422-458 | Waiting takes a beginning of what comes; the client ends unhealthy exactly when a poll failed in it and restricted exactly when a restriction came in it or before |
| Trading.TradesNeverRetry | mt5-session/src/client.rs:403-459 | Over any list of trades, what is written is the list of their request ids with some left out, each call's at most once; and after a call in which a write broke, a poll failed or a restriction came, no later trade writes or reads anything |

## Left out

- Sockets, DNS, the clock and entropy: reads are arbitrary chunks, a deadline is an idle read, and clock readings, random values and the outcome of each write are inputs.
- AES, SHA-256, HMAC, MD5, key derivation, trade signing and the challenge interpreter: function parameters; only what is done with their results is modelled.
- DEFLATE (RFC 1950 and RFC 1951): an arbitrary function that keeps to its byte limit.
- Floating point: prices and rates are integers in units of the last digit, eight uninterpreted bytes, or reals, so laws of rates hold in exact arithmetic only.
- Error texts: every failure is one error value.
- Paging.BarsBetween: the replies to the requests are a given list, one per request.
- Fixed-offset record fields other than the ones that decide control flow, UTF-16 text, JSON profiles: decoded values are passed in.
- Machine-size counters: the cipher's key position and buffer offsets do not wrap at 2^64.
- Session.Session.Authenticate: the request bodies and reply parsers are parameters, and the certificate branch ends in failure as in the source, where socket enrolment is not implemented.
- Session.Session.Synchronize: the answers of the login profile are computed before the call and passed in as one request body.
- Synchronization.SynchronizeSucceeds: stated for a connection none of whose reads stays silent, since logging in fails at its deadline.
- BitPack.BitReader.Fields: several reads of fixed kinds are driven by a list of fields; the source spells them out one after another.
- BitPack.BitWriter.constructor: starts with two-bit digits, the size every encoder in the source uses.
- BitPack.BitWriter.Packed: digit size 0, where the source's loop never ends, and digit sizes from 64 or widths outside 1 to 126, where its shifts leave the machine word, are not modelled.
- Quotes.RowMeans: fields of live rows are named by their bit numbers.
- Bars.ContainerRoundTrip: the program has no bar encoder, so the encoding is this model's own.
- ColumnGroups.GroupRoundTrip: assumes of the compressor that each block inflates back to what was deflated.
- ClientState.Client.ApplyPositions: whether writing the subscription request succeeds is an input; the write itself is `Session.SendEncoded`.
- ClientState.Client.Subscribe: whether the write succeeds is an input, here and in `ClientState.Client.SubscribeDepth` and `ClientState.Client.Request`.
- ClientState.Client.Request: sends; the polls that wait for the reply are further operations of a run, and matching the reply by command and number is not modelled.
- Trading.Trader.Trade: what each poll brings and what each write comes to are given sequences; the session below is modelled in `Session`.
- Paging and caching of tick requests, margin arithmetic, trailing-hour segments, depth subscriptions, endpoint pools and the web terminal crate.
