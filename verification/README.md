# cc-connect: a verified model

cc-connect lets people and their Claude sessions share chat rooms from peer to peer. This project models the
stateful protocols, the codecs and the folds at its core in Dafny, and proves what they guarantee.
`dafny verify dfyconfig.toml` checks all of it.

There are two kinds of modules. The concurrent ones describe their protocol as a **step machine**: a `State`, the
`Action`s that any process can take, when each is `Enabled`, what it does (`Apply`), and runs of actions (`Runs`,
`Exec`). A lemma over `Runs` is a statement about every interleaving. Beside the machine stands a class whose methods
are the operations of the source, with their loops and branches; each of their system calls is a step of the machine,
and between two of them the others take whatever steps a schedule gives them. The sequential modules give a method
with the loops of the source, a function that it is proved against, and lemmas that say what the function means
without repeating it.

| module | what it models |
|---|---|
| `Words`, `Crc32`, `Base32`, `RoomCode` | room codes: base32 over a ticket and its CRC-32, and which errors the code detects |
| `CrcDivision`, `RoomNumber` | what the CRC and the code are, as a division of polynomials and as numbers |
| `CursorProtocol`, `CursorInvariant`, `CursorResults`, `AdvanceCursor` | `advance_cursor` and `read_cursor` over inodes, descriptors, locks, temporary files and one path |
| `CursorFile` | what stands in a cursor file and how it reads back |
| `Strings`, `Utf8`, `Json`, `Ulid`, `Message` | the message record: constructors, canonical JSON, receiver checks, ULIDs |
| `MessageRules`, `CanonicalText` | what the checks and the canonical text mean, without the functions that make them |
| `JsonSpacing`, `JsonNesting`, `Replacement` | what the parser accepts besides what is printed; what a replacing UTF-8 decoder replaces |
| `Wrappers`, `Sequences` | options and results, and a law of concatenation |
| `ChatLog` | the newline-framed log of bytes: append, and reading above a cursor |
| `HookProtocol`, `HookDelivery` | the hook: read rooms, write once to standard output, then advance cursors |
| `MentionWait` | the ring buffer and broadcast channel behind `wait_for_mention` |
| `ConsentGate` | rooms files and pending joins, read and rewritten without locks |
| `RateLimiter`, `RateNumbers` | the sliding window of each author, and its rule in milliseconds |
| `OutputBudget` | fitting the hook's output into 8 KiB |
| `MentionToken` | the scan for `@nick`, over bytes in the hook and over characters in the chat UI |
| `RecentNicks` | the bounded most-recent-first list of nicks |
| `ClaudeBlocks`, `ClaudeEvents` | one pass over Claude's event stream with three index maps, and what the blocks say of the events |
| `LogTail` | the incremental reader of a growing JSONL file |

Some results are worth knowing when changing the code.

- A cursor call gives up only after five renames by others during that very call, and between a successful inode
  comparison and the rename nobody else is in that window, although the lock sits on a file that the rename replaces.
- The comment in the hook says that Claude never misses a message. That holds when ids ascend in the log
  (`AscendingLosesNothing`), even if cursors cannot be read or advanced. In general a message is lost only if it was
  overtaken (`LostIff`): it arrived after the read behind some cursor value, with an id not above that value. While
  cursors can be read, every overtaken message is lost; two messages in the wrong order around one fire are enough
  (`WrongOrderLosesOne`).
- A re-arming `wait_for_mention` skips a mention exactly when a scan finds more than 32 that it has not seen.
- An update of a rooms file writes an edit of what was read some time before. So a topic that nobody removes, and whose
  file nobody prunes, is dropped exactly by a writer that had read while it was not listed; and a removed topic that
  nobody adds again comes back exactly with a writer that had read while it was (`ListedAfterStepIff`,
  `ListedAtEndIff`). But no topic is ever listed that nobody consented to.
- The rate limiter keeps its bound of 30 in 10 seconds if no call of an author comes earlier than that author's calls
  before it, whatever other authors do; and a clock that falls behind by one millisecond is enough to break it
  (`BoundIffNoLag`).
- Summaries and file lists of one room always leave 5047 bytes of the 8 KiB for the header, those of two rooms 1874,
  and those of three or more may be longer than 8 KiB by themselves (`RoomsFitIff`).
- A watch callback that arrives while a read is pending is dropped, so the last lines of a burst can wait for the next
  change of the file (`WakeupCanBeLost`). Nothing waits exactly if the file has not grown since a callback last took
  its size, and the reads got that far (`AllReadIff`).
- A read that ends inside a character of the file garbles that character for good, and nothing else does that to a
  file of text (`CaughtUpIff`).

Parameters stand for what the modelled functions take from outside: clock readings, the outcome of every system call
that can fail, the order in which others act, the lower-casing of JavaScript, and the JSON parser of the chat UI.

## Model

| member | source | states |
|---|---|---|
| Crc32.Crc32IsoHdlc | crates/cc-connect-core/src/ticket.rs:82-93 | the nested loops compute the CRC, the function that the lemmas below are about |
| Crc32.MaskedStep | crates/cc-connect-core/src/ticket.rs:86-90 | the branch-free mask does what the bit test does |
| Crc32.StepBitsLinear | crates/cc-connect-core/src/ticket.rs:84-91 | any number of bit steps is linear over GF(2) |
| Crc32.FoldInjective | crates/cc-connect-core/src/ticket.rs:82-93 | over the same bytes different registers stay different |
| Crc32.BurstDetected | crates/cc-connect-core/src/ticket.rs:82-93 | changing up to four adjacent bytes, anywhere in any message, changes the CRC |
| Crc32.LastByteMovesLowBits | crates/cc-connect-core/src/ticket.rs:82-93 | changing the last byte changes one of the low 24 bits, so the change cannot hide in the first CRC byte |
| Crc32.TableForm | crates/cc-connect-core/src/ticket.rs:75-93 | the bitwise form equals the table-driven form of section 8 of RFC 1952 |
| CrcDivision.CrcIsRemainder | crates/cc-connect-core/src/ticket.rs:75-93 | the CRC of any message is the complement of the remainder of a long division by the generator polynomial, of its bits with 32 zeros behind them and the first 32 complemented |
| Base32.DecodeEncode | crates/cc-connect-core/src/ticket.rs:25 | decoding undoes encoding for all bytes (section 6 of RFC 4648, without padding) |
| Base32.EncodeDecode | crates/cc-connect-core/src/ticket.rs:48-50 | whatever decodes is the encoding of its bytes, because set trailing bits are rejected |
| Base32.LocalChange | crates/cc-connect-core/src/ticket.rs:48-50 | a symbol touches only the byte or the two adjacent bytes that its five bits fall into |
| RoomCode.EncodeRoomCode | crates/cc-connect-core/src/ticket.rs:19-30 | the buffers built one after the other are prefix, and lower-case base32 of ticket and big-endian CRC |
| RoomNumber.CodeIsNumber | crates/cc-connect-core/src/ticket.rs:19-30 | a code is `cc1-` and then, in lower-case base32, the number ticket * 2^32 + CRC, moved up to fill the last digit |
| RoomNumber.EncodeIsNumber | crates/cc-connect-core/src/ticket.rs:25 | base32 writes the number that the bytes write |
| RoomCode.RoundTrip | crates/cc-connect-core/src/ticket.rs:19-72 | every ticket decodes from its own room code |
| RoomCode.DecodeIff | crates/cc-connect-core/src/ticket.rs:39-72 | a code decodes to a ticket exactly if it is the code of that ticket up to the letter case after the prefix |
| RoomCode.ErrorIff | crates/cc-connect-core/src/ticket.rs:39-69 | which error is given: no prefix, base32 of no bytes, of fewer than four, or of a payload with another CRC |
| RoomCode.TwoByteChangeDetected | crates/cc-connect-core/src/ticket.rs:52-69 | a payload that differs from a valid one inside two adjacent bytes is refused, also across the ticket/CRC boundary and inside the CRC |
| RoomCode.SingleCharacterErrorDetected | crates/cc-connect-core/src/ticket.rs:39-72 | changing one payload character of any valid code, other than its case, always makes decoding fail |
| CursorInvariant.InvRun | crates/cc-connect-core/src/cursor_io.rs:68-144 | the invariant of locks, bindings, temporary files and retry counters holds over every interleaving with crashes |
| CursorResults.MutualExclusion | crates/cc-connect-core/src/cursor_io.rs:77-122 | at most one caller is between a successful inode match and its rename, and the path is still bound to the inode it holds locked |
| CursorResults.ExhaustedOnlyByOthers | crates/cc-connect-core/src/cursor_io.rs:77-99 | retries run out only after five renames by others during that call |
| CursorResults.AdvancedExactlyOnce | crates/cc-connect-core/src/cursor_io.rs:81-88 | a call that succeeds made exactly one rename, of its own proposal |
| CursorResults.LinearHistory | crates/cc-connect-core/src/cursor_io.rs:124-144 | the values at the path form one history that only grows, and the file at the path holds the last of them whole |
| CursorResults.ValuesWereProposed | crates/cc-connect-core/src/cursor_io.rs:124-144 | every value of the history after the first was proposed in full by the caller that renamed it; the first is the file that was there, or the empty one that an `open` created |
| CursorResults.ReadsOneValue | crates/cc-connect-core/src/cursor_io.rs:31-54 | a concurrent read gives one whole value that was current during the read, and finds no file only before the first rename |
| AdvanceCursor.Machine.AdvanceCursor | crates/cc-connect-core/src/cursor_io.rs:68-102 | the retry loop is a run of the step machine with a turn of the others before each system call; it returns what the machine records, gives up only in its fifth turn, fails only at the failing call, and hangs only if the others have no turn left and held the lock before and after every one since it last opened the file |
| AdvanceCursor.Machine.WaitForLock | crates/cc-connect-core/src/cursor_io.rs:79 | the lock is got exactly if the others let go of it in any of the turns they still have, and then after the first such turn |
| AdvanceCursor.Machine.PathMatchesFd | crates/cc-connect-core/src/cursor_io.rs:118-122 | stat and fstat with others in between: a match puts the call into the window, a mismatch sends it to retry |
| AdvanceCursor.Machine.WriteAtomically | crates/cc-connect-core/src/cursor_io.rs:124-144 | create, write, sync and rename among steps of others: it advances exactly if none of the four fails, a write part-way included |
| CursorFile.ReadsBackIff | crates/cc-connect-core/src/cursor_io.rs:31-54 | a written value reads back as itself exactly if it is not empty, does not start like the JSON form and does not end in a newline or carriage return |
| CursorFile.UlidReadsBack | crates/cc-connect-core/src/cursor_io.rs:124-130 | canonical ULIDs, which is all the hook writes, read back |
| CursorFile.ReadIff | crates/cc-connect-core/src/cursor_io.rs:31-54 | what every file reads as: absent and empty ones as no cursor, other text without its line end as itself, or as the one `id` of an object |
| CursorFile.ObjectFormReads | crates/cc-connect-core/src/cursor_io.rs:42-51 | the object form reads as its id, whatever that is |
| Ulid.NormalizeUlid | crates/cc-connect-core/src/message.rs:301-344 | the loop maps characters, or fails with the first one that cannot be mapped, then checks the length |
| Ulid.NormalizeIsProjection | crates/cc-connect-core/src/message.rs:301-344 | the outputs are exactly the 26-character Crockford strings, which it leaves alone |
| Ulid.NormalizeIdempotent | crates/cc-connect-core/src/message.rs:301-344 | normalising twice is normalising once |
| Ulid.NormalizeKeepsValue | crates/cc-connect-core/src/message.rs:301-344 | an id is normalised exactly to the 26 digits that its characters stand for in Crockford's base 32, aliases and cases included |
| Ulid.NormalizeErrors | crates/cc-connect-core/src/message.rs:301-344 | the error names the first character that stands for no digit, or else the length |
| Ulid.OrderIsNumeric | crates/cc-connect-core/src/log_io.rs:105-109 | comparing canonical ids as strings compares the 130-bit numbers they write |
| Utf8.DecodeEncode | crates/cc-connect-core/src/message.rs:171-180 | UTF-8 decoding undoes encoding |
| Utf8.EncodeDecode | crates/cc-connect-core/src/log_io.rs:86-94 | a line is text exactly if it is the encoding of that text: shortest forms only |
| Utf8.LossyKeepsIff | chat-ui/src/log_tail.ts:98 | decoding with replacement characters keeps the bytes exactly if they are well-formed |
| Utf8.SliceDecodesIff | chat-ui/src/log_tail.ts:98 | a part of a text that starts on a character boundary is well-formed exactly if it ends on one |
| Replacement.ReplacesMaximalSubpart | chat-ui/src/log_tail.ts:98 | where no character starts, one replacement stands for the longest beginning of any character, or for one byte |
| Json.StringRoundTrip | crates/cc-connect-core/src/message.rs:171-180 | any string survives escaping (section 7 of RFC 8259) and parsing, whatever follows it |
| Json.ObjectRoundTrip | crates/cc-connect-core/src/message.rs:171-192 | a printed object of strings and integers parses to its members |
| Json.PrintedHasNoControl | crates/cc-connect-core/src/message.rs:171-180 | no printed object holds a raw control character |
| CanonicalText.CanonicalJson | crates/cc-connect-core/src/message.rs:171-180 | the whole text of any message: no white space, the fields in this order under these names, and those that say nothing left out |
| CanonicalText.PrintedEscapes | crates/cc-connect-core/src/message.rs:171-180 | the escapes printed are those of the table of section 7 of RFC 8259 but the solidus, and numbers for other control characters |
| CanonicalText.ParsedEscapes | crates/cc-connect-core/src/message.rs:190-192 | the escapes of one letter are those of that table |
| JsonSpacing.SpacedObject | crates/cc-connect-core/src/message.rs:190-192 | an object with any white space between its tokens parses to its members, and no other text may follow it |
| JsonNesting.TreeParses | crates/cc-connect-core/src/message.rs:190-192 | any number, list or object, nested however deep, is moved over whole |
| JsonNesting.EscapedByNumber | crates/cc-connect-core/src/message.rs:190-192 | a character may be escaped by its number in either case; a lone surrogate is none |
| JsonNesting.EscapedByTwo | crates/cc-connect-core/src/message.rs:190-192 | other characters by two surrogates |
| Message.New | crates/cc-connect-core/src/message.rs:92-106 | succeeds exactly for a body of at most 8 KiB and a ULID; then the message is well-formed and carries its arguments |
| Message.WithNick | crates/cc-connect-core/src/message.rs:110-116 | changes the nick only, and keeps a message well-formed |
| Message.NewKeepalive | crates/cc-connect-core/src/message.rs:122-135 | succeeds exactly for a ULID; then the message is well-formed with an empty body |
| Message.NewFileDrop | crates/cc-connect-core/src/message.rs:145-168 | what it builds is well-formed and carries its arguments |
| Message.MembersCarryMessage | crates/cc-connect-core/src/message.rs:53-79 | with the default kind and absent options left out, the members still determine the record |
| Message.RoundTripIff | crates/cc-connect-core/src/message.rs:171-231 | the receiver gives an encoded message back unchanged exactly if it is well-formed |
| Message.AcceptedIsWellFormed | crates/cc-connect-core/src/message.rs:190-231 | whatever text is accepted gives a well-formed message, and encoding that and receiving it again changes nothing |
| MessageRules.WellFormedIff | crates/cc-connect-core/src/message.rs:190-299 | well-formed are just the records whose version, id, kind and nick are right, whose body has at most 8 KiB, or whose file name adds exactly one path component to any directory under either separator, with the lower-case hexadecimal of 32 bytes and at most 1 GiB |
| MessageRules.AcceptedIff | crates/cc-connect-core/src/message.rs:190-231 | a text is accepted as a message exactly if its record is that message up to the spelling of the id, and proper |
| MessageRules.FromMembersIff | crates/cc-connect-core/src/message.rs:190-192 | which members make which record: each field once, of its type and range, three of them possibly null; other names do not matter |
| MessageRules.ReceiveErrors | crates/cc-connect-core/src/message.rs:194-231 | a record is refused with the error of the first rule it breaks |
| MessageRules.NewFileDropIff | crates/cc-connect-core/src/message.rs:145-168 | a file drop is built exactly from a name that stays inside, a hash, at most 1 GiB and an id, and is then the record of those |
| MessageRules.NewIff | crates/cc-connect-core/src/message.rs:92-135 | the record or the error that the other two constructors give |
| MessageRules.WithNickIff | crates/cc-connect-core/src/message.rs:110-116 | a nick can be attached exactly if it has 1 to 64 bytes and no control character |
| MessageRules.FilenameIff | crates/cc-connect-core/src/message.rs:244-252 | a name passes exactly if it is not empty, holds no NUL and stays inside any directory it is joined to |
| MessageRules.HashIff | crates/cc-connect-core/src/message.rs:254-268 | a hash passes exactly if it is the lower-case hexadecimal of 32 bytes |
| Message.EncodingIsOneLine | crates/cc-connect-core/src/message.rs:171-180 | the encoding holds no control character, so it is one line |
| ChatLog.Log.Append | crates/cc-connect-core/src/log_io.rs:49-73 | adds the encoding and one newline; the guard against a raw newline never fires |
| ChatLog.Log.ReadSince | crates/cc-connect-core/src/log_io.rs:80-118 | the loop over lines gives the messages of the lines that pass the cursor, in order |
| ChatLog.AppendThenRead | crates/cc-connect-core/src/log_io.rs:49-118 | appending to whole lines adds exactly that message to what any cursor below its id reads |
| ChatLog.ReadsWhatWasAppended | crates/cc-connect-core/src/log_io.rs:49-118 | with any malformed or empty whole lines in between, a read gives exactly the appended messages above the cursor, in order |
| ChatLog.AppendAfterTornLine | crates/cc-connect-core/src/log_io.rs:64-69 | after a write that stopped part-way, only the torn line and the next message share a line; the rest is unharmed |
| ChatLog.LineIsText | crates/cc-connect-core/src/log_io.rs:86-104 | a line is the message that the receiver accepts of its text, whichever way the line ends |
| ChatLog.CursorOnlyFilters | crates/cc-connect-core/src/log_io.rs:105-111 | on any lines at all a cursor only filters what a read without a cursor gives |
| HookProtocol.AdvanceMovesUp | crates/cc-connect-hook/src/main.rs:87-103 | however the log is ordered, an advance after a read that used the cursor strictly increases it |
| HookProtocol.AdvanceNeverDown | crates/cc-connect-hook/src/main.rs:87-103 | if ids ascend, no advance lowers the cursor, even if the fire could not read it and took it as none |
| HookProtocol.LostIff | crates/cc-connect-hook/src/main.rs:87-187 | over every run only overtaken messages are lost: failed reads of cursors, failed writes, failed advances and fires that stop half-way lose nothing; and while cursors can be read, all overtaken messages are |
| HookProtocol.LateMessageIsLost | crates/cc-connect-core/src/log_io.rs:105-109 | a message that arrives with an id at or below the cursor is never delivered, whatever happens later, as long as cursors can be read |
| HookProtocol.WrongOrderLosesOne | crates/cc-connect-hook/src/main.rs:171-176 | two messages in the wrong order around one fire lose one with nothing failing, against the comment in the code |
| HookProtocol.AscendingLosesNothing | crates/cc-connect-hook/src/main.rs:87-187 | if ids ascend, every message at or below the cursor was rendered by a fire that wrote its output |
| HookProtocol.ExactlyOnce | crates/cc-connect-hook/src/main.rs:87-187 | if moreover no read of a cursor and no advance fails, exactly one fire did, and none rendered a message above the cursor |
| HookDelivery.HookSession.ReadRooms | crates/cc-connect-hook/src/main.rs:84-106 | the loop over topics gives each readable room the part of its log above its cursor, or above none if that cannot be read, at some moment of the fire, and owes one advance to each that had any |
| HookDelivery.HookSession.AdvanceCursors | crates/cc-connect-hook/src/main.rs:171-187 | each advance that succeeds moves its cursor to the last message read, a failed one is skipped |
| HookDelivery.HookSession.Fire | crates/cc-connect-hook/src/main.rs:84-187 | a whole fire is a run of the step machine among appends by others; cursors move only if the output was written, and just those of rooms with unread messages and a working cursor file; a fire that reads its cursors, and advances all it owes if it wrote its output, keeps the run clean |
| HookDelivery.HookSession.CleanFiresDeliverOnce | crates/cc-connect-hook/src/main.rs:84-187 | after any number of such fires among ascending messages, just the messages at or below the cursor were handed over, once each |
| HookDelivery.FilesRead | crates/cc-connect-hook/src/main.rs:89-99 | on the bytes of the two files, reading gives the unread part of the log they represent |
| HookDelivery.FilesOfNewSession | crates/cc-connect-hook/src/main.rs:86-87 | without a cursor file, with an empty one or with one that cannot be read, the hook reads above no cursor |
| HookDelivery.FilesAppend | crates/cc-connect-core/src/log_io.rs:49-73 | appending to the file appends to the log it represents |
| HookDelivery.FilesAdvance | crates/cc-connect-hook/src/main.rs:171-172 | writing the id of a logged message to the cursor file makes that id the cursor it represents |
| MentionWait.MentionState.Push | crates/cc-connect/src/chat_session.rs:135-147 | insert into the ring buffer, dropping the oldest of 32, then broadcast |
| MentionWait.MentionState.FindAfter | crates/cc-connect/src/chat_session.rs:153-160 | the oldest buffered mention above the cutoff, and nothing without a cutoff |
| MentionWait.MentionState.WaitForMention | crates/cc-connect/src/chat_session.rs:1509-1556 | the answer among any pushes: the oldest event above the given id of the 32 buffered at the scan, if there is one; or else, of those broadcast since it subscribed, the first, or the number that fell out if more than 32 were, and a timeout only if none was |
| MentionWait.StepReturns | crates/cc-connect/src/chat_session.rs:1522-1536 | what is returned is never before the watermark, the watermark again only if its broadcast was still due at subscription, and beyond the next mention exactly in an overrun |
| MentionWait.NothingSkippedIff | crates/cc-connect/src/chat_session.rs:1509-1556 | over every run a re-arming waiter skips no mention exactly if no scan finds more than 32 unseen ones |
| ConsentGate.ConsumedAtMostOnce | crates/cc-connect-core/src/session_state.rs:259-269 | over every interleaving a token is consumed at most once, for the Claude and the topic it was filed for |
| ConsentGate.EveryTopicHasConsent | crates/cc-connect-core/src/session_state.rs:98-142 | every topic in a rooms file has an earlier creation by, or accepted join for, just that Claude and topic, and none is listed twice |
| ConsentGate.ListedAfterStepIff | crates/cc-connect-core/src/session_state.rs:98-142 | in any run of any number of processes a step puts a topic in or takes it out exactly as the edit behind its write says of the file that its writer had read, or by pruning the file |
| ConsentGate.ListedAtEndIff | crates/cc-connect-core/src/session_state.rs:98-142 | after any run a topic is listed exactly if some step wrote it and no later step dropped it |
| ConsentGate.BothSurviveIff | crates/cc-connect-core/src/session_state.rs:98-109 | of two additions alone both survive exactly if one writes before the other reads |
| ConsentGate.Sessions.AddTopic | crates/cc-connect-core/src/session_state.rs:98-109 | afterwards the file holds what was read and the topic, even if others wrote in between |
| ConsentGate.AddedComesLast | crates/cc-connect-core/src/session_state.rs:98-109 | an added topic comes last, the others stay; an unreadable file counts as empty |
| ConsentGate.WithoutKeepsOrder | crates/cc-connect-core/src/session_state.rs:115-128 | a removed topic leaves the others in their order |
| ConsentGate.Sessions.RemoveTopic | crates/cc-connect-core/src/session_state.rs:115-128 | writes the list without the topic if it was listed, and otherwise changes nothing |
| ConsentGate.Sessions.RemoveAllTopics | crates/cc-connect-core/src/session_state.rs:132-142 | empties an existing file and creates none |
| ConsentGate.Sessions.ConsumePendingJoin | crates/cc-connect-core/src/session_state.rs:259-269 | success leaves one new consent with the contents that were read; alone, it succeeds if the pending join is there |
| ConsentGate.Sessions.RunAccept | crates/cc-connect/src/accept.rs:34-59 | it succeeds exactly if it takes the pending join, the daemon runs and the file can be written; then that join's topic stands in its Claude's file; the token is gone in any case, and if the daemon or the write fails the consent is recorded and nothing else changed |
| RateLimiter.RateLimiter.CheckAndRecord | crates/cc-connect-core/src/rate_limit.rs:53-71 | pops what has left the window, then drops or records; the new maps and the decision are those of `Check` |
| RateLimiter.AllowedOnlyIfFew | crates/cc-connect-core/src/rate_limit.rs:53-71 | after any calls, one that is not earlier than its author's calls is allowed only if fewer than 30 allowed ones by its author lie within the last 10000 ms |
| RateLimiter.AllowIff | crates/cc-connect-core/src/rate_limit.rs:53-71 | if the author's own calls are in order, a call is allowed exactly then |
| RateLimiter.AtMost30InAnySpan | crates/cc-connect-core/src/rate_limit.rs:14-23 | if the author's own calls are in order, no closed span of 10000 ms holds more than 30 allowed ones |
| RateLimiter.WarningsApart | crates/cc-connect-core/src/rate_limit.rs:26-37 | consecutive warnings for one author are at least 30000 ms apart, whatever the clock does |
| RateLimiter.WarnIff | crates/cc-connect-core/src/rate_limit.rs:60-67 | a dropped call warns exactly if it is the author's first warning or the cooldown is over |
| RateLimiter.AuthorsAreIsolated | crates/cc-connect-core/src/rate_limit.rs:40-43 | a decision depends on the author's own calls only |
| RateLimiter.OneMillisecondBack | crates/cc-connect-core/src/rate_limit.rs:55-59 | a clock that falls one millisecond behind lets 31 calls through in one closed span |
| RateLimiter.BoundIffNoLag | crates/cc-connect-core/src/rate_limit.rs:14-59 | the bound holds for all calls that come at most `d` ms behind an earlier one of their author exactly if `d` is 0 |
| RateNumbers.AllowedInNumbers | crates/cc-connect-core/src/rate_limit.rs:14-71 | a call in order is allowed exactly if fewer than 30 were before, or the 30th last of those came more than 10,000 ms ago |
| RateNumbers.ThirtyOneInARow | crates/cc-connect-core/src/rate_limit.rs:14-71 | any 31 allowed calls in a row span more than 10,000 ms |
| RateNumbers.WarnsInNumbers | crates/cc-connect-core/src/rate_limit.rs:26-67 | a dropped call warns exactly if it is the first to do so or the last warning is 30,000 ms ago |
| OutputBudget.FitToBudget | crates/cc-connect-core/src/hook_format.rs:453-488 | drops the least number of oldest lines whose marker and rest fit, and emits nothing if none does |
| OutputBudget.FitsIff | crates/cc-connect-core/src/hook_format.rs:453-492 | across the growth of the marker's digits, the suffixes that fit are just those no longer than the kept one |
| OutputBudget.WithinBudget | crates/cc-connect-core/src/hook_format.rs:453-488 | the output never exceeds the budget |
| OutputBudget.SilentIff | crates/cc-connect-core/src/hook_format.rs:463-474 | messages vanish without a word exactly if neither they nor the marker that counts them all fit |
| OutputBudget.BudgetMonotone | crates/cc-connect-core/src/hook_format.rs:453-488 | a larger budget never drops more |
| OutputBudget.TruncateHead | crates/cc-connect-core/src/hook_format.rs:177-187 | the text itself, or its head up to the last character boundary that leaves room for the marker |
| OutputBudget.Head | crates/cc-connect-core/src/hook_format.rs:177-187 | with a limit of at least the marker's 23 bytes the result stays within the limit |
| OutputBudget.CutKeepsCharacters | crates/cc-connect-core/src/hook_format.rs:182-186 | the cut keeps as many whole characters as fit |
| OutputBudget.TailLinesWithinBudget | crates/cc-connect-core/src/hook_format.rs:191-217 | the text itself, or a marker and the longest suffix of whole lines within the limit, or else its head |
| OutputBudget.Tail | crates/cc-connect-core/src/hook_format.rs:191-217 | the result exceeds the limit by at most the 29 bytes of its marker |
| OutputBudget.Render | crates/cc-connect-core/src/hook_format.rs:77-167 | preamble and fitted messages together with the external header stay within 8192 bytes exactly if preamble and header do |
| OutputBudget.RoomsFitIff | crates/cc-connect-core/src/hook_format.rs:116-160 | all preambles of `n` rooms with distinct ASCII topics fit beside a header exactly if that has at most 8192, 5047 or 1874 bytes for none, one or two rooms; for three or more even an empty header may be too much |
| OutputBudget.SummariesFirst | crates/cc-connect-core/src/hook_format.rs:108-160 | every summary comes before every file index, each kind in the order of the rooms |
| OutputBudget.PartTexts | crates/cc-connect-core/src/hook_format.rs:113-160 | what stands before and after a summary or an index, among several rooms with the first six characters of the topic |
| OutputBudget.MarkerCounts | crates/cc-connect-core/src/hook_format.rs:463-492 | if lines are dropped, one line says how many, and just the others follow |
| MentionToken.MatchAtTokenBytes | crates/cc-connect-core/src/hook_format.rs:367-381 | the resuming scan over bytes stays on character boundaries, ends, and finds a token exactly if there is one |
| MentionToken.BytesMentionIff | crates/cc-connect-core/src/hook_format.rs:361-381 | scanning the UTF-8 bytes finds the same mentions as scanning the characters, for any text and nick |
| MentionToken.MatchAtToken | chat-ui/src/mention.ts:112-122 | the scan over characters finds a token exactly if `@target` stands somewhere before the end or a non-nick character |
| MentionToken.MentionsSelf | crates/cc-connect-core/src/hook_format.rs:334-360 | a broadcast token, the nick, or the nick's `-cc` form unless it ends so already |
| MentionToken.BodyMentionsSelf | chat-ui/src/mention.ts:90-110 | a broadcast token or the nick, for any lower-casing |
| MentionToken.RulesAgree | chat-ui/src/mention.ts:84-110 | on ASCII text the hook's rule is the chat UI's rule or a mention of `<nick>-cc` |
| MentionToken.OneNickAtATime | crates/cc-connect-core/src/hook_format.rs:329-333 | at one position at most one nick is addressed: `@alice-cc` does not address `alice` |
| MentionToken.FollowedByIff | crates/cc-connect-core/src/hook_format.rs:329-390 | `@nick` at the end, or before anything but a letter or digit of ASCII, a hyphen or an underscore, is a mention; before those it is none |
| MentionToken.HookMentionsIff | crates/cc-connect-core/src/hook_format.rs:334-360 | the four words for everyone, the nick in any case, and the nick with `-cc` unless it ends so |
| RecentNicks.RoomTab.RecordNick | crates/cc-connect-tui/src/tabs.rs:93-105 | moves the trimmed nick to the front and cuts the list to 32; a blank one changes nothing |
| RecentNicks.BoundedIsFront | crates/cc-connect-tui/src/tabs.rs:93-105 | after any calls the bounded list is the first 32 entries of the list that is never cut |
| RecentNicks.UnboundedIsByRecency | crates/cc-connect-tui/src/tabs.rs:91-105 | that list holds just the nicks that were named, once each, the one named last first |
| RecentNicks.TrimMeans | crates/cc-connect-tui/src/tabs.rs:94 | a nick is recorded without the white space before and after it |
| RecentNicks.LastThirtyTwo | crates/cc-connect-tui/src/tabs.rs:93-105 | the list is the last 32 of all nicks named |
| ClaudeBlocks.ProcessClaude | vscode-extension/webview/processClaude.ts:93-328 | the one pass with three maps computes the fold over elementary effects that the lemmas below are about |
| ClaudeBlocks.Processor.OnEvent | vscode-extension/webview/processClaude.ts:120-315 | each branch has just the effects of its event |
| ClaudeBlocks.Processor.MaybeInsertThinking | vscode-extension/webview/processClaude.ts:111-118 | one thinking block per turn, before its first content, if the gap is at least 1500 ms |
| ClaudeBlocks.IndexAlwaysOk | vscode-extension/webview/processClaude.ts:98-100 | every map entry points at a block of its kind and id |
| ClaudeBlocks.LastAnswerWins | vscode-extension/webview/processClaude.ts:163-224 | each registered block ends with the last response to its key after it and before the next block with that key |
| ClaudeBlocks.EveryBlockExplained | vscode-extension/webview/processClaude.ts:93-328 | in the list for any event stream every tool, hook and permission block was registered by one of the events, and then shows that last response, or was pushed by a hook response that nobody waited for, and then is unchanged |
| ClaudeEvents.EveryBlockSays | vscode-extension/webview/processClaude.ts:129-280 | every such block shows what one event asked for, as it was asked for, or with the decision, exit status or stored result that one event answered; only a hook may be shown that was not asked for |
| ClaudeEvents.PlainBlocks | vscode-extension/webview/processClaude.ts:120-310 | prompts, sessions, errors and the ends of turns are pushed as their events say, an error with its first non-empty reason |
| ClaudeEvents.NumberedByPlace | vscode-extension/webview/processClaude.ts:232-240 | a tool use without an id is numbered by its place in the list |
| ClaudeEvents.ThoughtIff | vscode-extension/webview/processClaude.ts:102-118 | a thought shows exactly after 1500 ms or more, for as long as that |
| ClaudeBlocks.OnlyAppendsOrAnswers | vscode-extension/webview/processClaude.ts:97 | blocks are only appended or replaced in place by one of the same kind and id; all others never change |
| ClaudeBlocks.UnannouncedIsUnregistered | vscode-extension/webview/processClaude.ts:216-224 | a hook block pushed by a response nobody waited for is in no map |
| ClaudeBlocks.UnannouncedStays | vscode-extension/webview/processClaude.ts:216-224 | a block that no map entry points at never changes again |
| ClaudeBlocks.ThinkingPerSession | vscode-extension/webview/processClaude.ts:102-118 | there are never more thinking blocks, the running one included, than session blocks |
| LogTail.ConsumesThePrefix | chat-ui/src/log_tail.ts:56-116 | over every run on a growing file the text taken is cut into its complete lines and a rest, and it is the first `offset` bytes of the file exactly if each chunk was well-formed by itself |
| LogTail.CaughtUpIff | chat-ui/src/log_tail.ts:97-113 | once the offset is at the end of a file of text, just its complete lines were taken, in order, exactly if no read ended inside a character |
| LogTail.AllReadIff | chat-ui/src/log_tail.ts:63-96 | over every run nothing is left unread exactly if the file has not grown since a callback last took its size, and the reads got that far |
| LogTail.QuietWakeupCatchesUp | chat-ui/src/log_tail.ts:63-96 | a callback after the last append that finds no read pending leads to the end of the file, if its read succeeds in full, whatever callbacks come besides |
| LogTail.LinesOnlyGrow | chat-ui/src/log_tail.ts:97-113 | a line that was taken is never taken back or moved |
| LogTail.WakeupCanBeLost | chat-ui/src/log_tail.ts:63-66 | a callback during a pending read is dropped, and what it announced stays unread, whatever bytes are appended |
| LogTail.Tail.OnChange | chat-ui/src/log_tail.ts:63-82 | does nothing while closed or pending or if the size cannot be had; otherwise takes the size and opens the file if there is more to read |
| LogTail.Tail.TakeLines | chat-ui/src/log_tail.ts:99-113 | the loop takes the complete lines off the buffer in order and hands on those that are accepted |
| LogTail.Tail.OnRead | chat-ui/src/log_tail.ts:93-114 | a failed read, or one after closing, changes nothing; any other moves the offset by what it got and takes its text, malformed bytes replaced |

## Left out

- CursorResults.MutualExclusion: assumes, like all results about the cursor, that nobody unlinks the cursor path, that each process runs one call at a time, and that locks belong to open files; fsync durability, file modes and the creation of directories are not modelled.
- Base32.DecodeEncode: the `data_encoding` crate is not part of this repository; its decoder is modelled as section 6 of RFC 4648 without padding, refusing set trailing bits as section 3.5 allows, and its error kinds are one.
- Crc32.Crc32IsoHdlc: machine words are sequences of bits, least significant first, so shifts and masks are written out instead of using bit-vectors.
- Json.ObjectRoundTrip: only flat objects of strings and integers are printed; the parser skips over nested values but has no depth limit, and does not accept a record written as an array.
- Message.RoundTripIff: works on texts; bytes that are not UTF-8 are refused before (`ChatLog.LineMessage`), where serde would let them pass inside ignored values.
- MessageRules.FilenameIff: counts components as the separators cut them; a name of dots is one component like any other, as in the code.
- ChatLog.Log.Append: locks, file modes and the warnings about skipped lines are not modelled; an append is one write that is complete or, in `AppendAfterTornLine`, stopped part-way.
- HookDelivery.HookSession.Fire: works on parsed logs and cursors instead of the bytes of the files; `FilesRead`, `FilesAppend` and `FilesAdvance` carry that over. Topics are distinct, as `ConsentGate` proves of rooms files. Which rooms are active, the orientation header and the rendering are not modelled, so "rendered" means handed to the renderer, which may drop it to fit the budget.
- HookProtocol.AscendingLosesNothing: the hypothesis that ids ascend in the log cannot be dropped, as `WrongOrderLosesOne` shows; `LostIff` says what is lost without it.
- HookProtocol.LateMessageIsLost: a fire that cannot read its cursor hands over old messages again, and an overtaken one with them, so cursors must be readable here and in the second half of `LostIff`.
- MentionWait.MentionState.WaitForMention: one producer with ascending ids, one waiter that re-arms with the id it was given; a first call without an id sees only mentions broadcast after it subscribed. A broadcast that nobody is subscribed to is counted as sent, which no later subscriber can tell. The messages between two mentions (`context_between`) are not modelled.
- MentionWait.MentionState.Push: is called while no other push is half-way; the machine's separate steps cover a push whose broadcast comes later.
- ConsentGate.ConsumedAtMostOnce: tokens are never reused; a write that fails leaves the file as it was; the version and the JSON of the files, directory modes, and how a process is found dead are left out, and any rooms file may be pruned at any time.
- OutputBudget.RoomsFitIff: topics are ASCII, as their hexadecimal ids are.
- RateLimiter.RateLimiter.CheckAndRecord: times are not negative, so differences of times do not overflow.
- OutputBudget.Render: merging the rooms by id and formatting the lines are left out, the lines are an input; summaries and file lists come trimmed, and rooms in the order of their topics.
- MentionToken.RulesAgree: JavaScript's lower-casing is a parameter that must be right on the ASCII text at hand; `is_owner_directive`, which adds single comparisons to `mentions_self`, is not modelled.
- ClaudeBlocks.ProcessClaude: events come classified by their type and by which fields have the right type; the summary of a tool's input, the flattening of a result's content and the stripping of system wrappers are done before, lengths count characters instead of UTF-16 units, and the cost of a result is passed by.
- LogTail.ConsumesThePrefix: files only grow; the branch for a file that shrinks is there, but nothing is proved of files that do.
- LogTail.Tail.TakeLines: trimming, skipping blank lines and parsing are one parameter.
- The transport (iroh endpoints, gossip, blobs, relay), the daemons and launchers, the terminal and editor interfaces, `TabSet`, and the vendored cryptography.
