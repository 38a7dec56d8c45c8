# A verified model of the Linux RMS Gateway

The gateway links a packet-radio station (the client, on an AX.25 descriptor) with a Winlink CMS host (on a TCP socket).
For each caller one process reads a list of hosts, tries them in order, logs in to one with a challenge and response,
and then relays bytes both ways until the two sides say that they are finished. Processes share a status block; a
second program, the check-in client, reports the radio channels to Winlink at intervals. This project models that logic
in Dafny and proves what it promises, and where it does not keep a promise, exactly when it does.

Whatever the C code changes in place is changed in place here: MD5 contexts, the relay's flags, counters and static
buffer, the status block's slot arrays, linked lists of hosts and symbols, line buffers that are cut up with NULs. Each
such method is proved against a function of its inputs or of the old state, and the theorems are about that function.
System calls are sequences of results that a run is given (`selects`, `peeks`, `cmsReads`, `axReads`, `axWrites`,
`cmsWrites`, exit statuses, modification times, the clock); a theorem that says nothing about them holds for all of them.
Ghost histories hold what each side sent and received.

| files | what they model |
|---|---|
| `Word32`, `Rfc1321`, `Md5Block`, `Md5` | 32-bit words; the digest as RFC 1321 defines it; the unrolled compression; the streaming context |
| `Rfc1321Bits`, `Rfc1321Answers` | the operations of the digest on bit-vectors; the digests of some messages worked out |
| `Text`, `CBuffer`, `SglChallenge` | C strings, printf and atoi; strings in buffers; the response to the login challenge |
| `ReadLn`, `LoginMachine`, `CmsLogin` | lines from a byte stream; what a login takes; the login over a connection |
| `AxWrite`, `RelayHistory`, `RelayCourse`, `Relay` | the write loops; what a conversation amounts to; the course that the system calls dictate; the relay loop |
| `SlotNames`, `SlotSharing`, `SlotTable`, `StatBlock` | slots found by name; when two names share one; records and their operations; the shared status block |
| `HostLines`, `GetCms`, `CmsList`, `CmsNode` | the host file; its reader and printer; the order of the hosts over many runs; the linked list |
| `HostTrial` | one run of the gateway: sessions, return codes, the host loop |
| `CharSet`, `StrTrim`, `Symbols`, `Subst`, `Var` | trimming, symbol tables and variable substitution |
| `AciSchedule`, `Aci` | which channels are updated when; the check-in loop |

## Main results

- Streaming MD5 equals RFC 1321 for every message and every way of cutting it into chunks (`Md5.HashChunks`); the 64
  unrolled steps equal the loop of section 3.4 for every state and block (`Md5Block.Rounds`). The definition itself is held
  to the test suite of section A.5, worked out register by register (`Rfc1321Answers`), and the response to a challenge to
  a known answer (`SglChallenge.KnownResponse`).
- The relay is exact over whole runs and under every behaviour of the system calls (`Relay.Gateway.Run`). Which calls it
  makes, in what order, and how it ends is the course that their results dictate (`RelayCourse.CourseMeans`): it reads a
  side until there is nothing more, waits only for an input that has run out, hangs up only after the end of the stream,
  and fails only after a failed write or sixteen EAGAINs in a row; no behaviour of the writes changes the history but by
  cutting it short (`RelayCourse.WritesOnlyCut`). Every descriptor that a select reports is read until there is nothing
  more, the CMS before the client, but for what is missing of the last pass (`RelayCourse.EveryReadyIsServed`). What AX.25 gets is the concatenation of the CMS chunks that are not eaten
  as keep-alive packets, what the CMS gets is everything that was read from the client, counters included; after an I/O
  error the output is cut inside the last chunk and nowhere else; the exit code of an idle conversation is told by the
  history alone; never do more than 61 passes go by without a byte, and the sleep of the whole run is bounded by 95 seconds
  a byte sent to AX.25 and one a pass.
- The login succeeds if and only if the lines of the host contain a handshake whose opening gets through
  (`CmsLogin.Connection.SglProcess`, `LoginMachine.LoginExactly`), and what it sends is known however it ends.
- At most one host of a run reaches the relay, and it is the last that is tried (`HostTrial.Rmsgw.TryHosts`); a run as a
  whole, from the host file to its exit code, leaves the hosts rotated (`HostTrial.Rmsgw.RunOnce`).
- The host list is the unique stable sort by time of last try; whatever the clock does, a run rotates it exactly when its
  touches come in order, and with a ticking clock every host of a list of n entries is tried within n runs (`CmsList`).
- In the status block a name resolves to one slot for good, two names share one exactly when a name first comes after a
  longer one that has a slot and starts with it (`SlotSharing.SharedExactly`), every counter is the sum over the operations
  of its slot, and over the table nothing is lost or counted twice (`StatBlock.TotalsAddUp`).
- Each run of the check-in client sends for exactly those channels that are active, available, due and the first ready one on
  their port (`AciSchedule.VerdictExactly`); updates of a port are the interval apart and come in time.
- Substitution distributes over concatenation exactly at plain boundaries; escaping undoes it; in-place trimming and the
  host-file round trip hold for all inputs.

## Where the code differs from what it says

The model follows the code. Each of these is a lemma or shows in a contract.

- `lib/cmslogin.c:144` compares the result of `write`, a signed number, with an unsigned length: a write that fails
  with -1 counts as a success, and only a short write is noticed (`LoginMachine.FailedWriteSucceeds`). A response that
  could not be sent still ends in a completed login.
- `lib/md5.c:345` adds the fill of the buffer and the length of a chunk as ints. For a chunk within that fill of 2^31 bytes
  the sum wraps round and the copy no longer fits the buffer; `Md5.CopyFitsExactly` is the exact condition, and the
  contracts of the context ask for it.
- `lib/sglchallenge.c:79` calls the number that is made of the digest big endian; its bytes are taken low-order first
  (`SglChallenge.KnownResponse`).
- `lib/readln.c:54-55` promises the number of bytes read. The value is one more when the stream ends after data and when
  the line is cut by the buffer; `ReadLn.CountsBytesRead` says exactly when the promise is kept, and
  `ReadLn.OneByteCountsAsTwo` is the shortest line for which it is not.
- `rmsgw/gateway.c:215` compares the first eight bytes of a static buffer with the keep-alive packet, so a chunk of fewer
  than eight bytes is judged together with stale bytes. `RelayHistory.LongChunkEaten` and `ShortChunkEaten` give the
  exact condition for either length, and `SemicolonLost` a conversation that loses data.
- `rmsgw/gateway.c:185` looks three bytes back from the end of a chunk, in front of the buffer if the chunk is shorter. The
  model lets those bytes be anything; `RelayHistory.FirmExactly` says for which chunks they do not matter, and
  `RelayHistory.FirmFlags` that the flags of a conversation of such chunks are told by its bytes.
- The order of the hosts is meant to be least recently tried first. Two hosts that are tried within the same second come
  out in the order of the host file (`CmsList.SameSecondKeepsFileOrder`), and a clock that is set back turns their order
  round (`CmsList.ClockSetBackTurnsOrder`); `CmsList.RotatesExactly` is the exact condition, for every clock and host file.
- The status file of a host is shared by all its entries, say with different ports. A run that tries one of them and not
  another never rotates the list (`CmsList.SplitHostNeverRotates`), and of two entries of one host runs of one try only ever
  try the first (`CmsList.SecondEntryStarves`). The host itself still gets its turn (`CmsList.EveryHostIsTried`).
- The status file of a channel is named after its AX.25 port (`rmsgw_aci/wl2k_aci.c:237`), while only call signs have to be
  unique (`man/rms-channels.5:229-231`, and `lib/getchan.c:450-451` looks up both). Of two channels on one port the second is
  never sent while the first is ready (`AciSchedule.SecondOnPortStarves`, with `AciSchedule.TwoOnOnePort` as the smallest
  channel file); `AciSchedule.VerdictExactly` is the exact condition.
- A slot of the status block can be shared by two names, as N0CALL-1 shares that of N0CALL-10 when it comes later
  (`SlotSharing.CallSignsShare`); `SlotSharing.SharedExactly` is the exact condition for every sequence of lookups.
- The challenge line is recognised by a search for its tag anywhere and without regard to case (`lib/cmslogin.c:305`), but
  the code in it is read only behind a tag in upper case at the start of the line (`lib/cmslogin.c:311`).
  `CmsLogin.IndentedChallengeIsNotRead` is a line for which the reply is computed from no code at all,
  `CmsLogin.CodeReadExactly` says when a code is read, and `CmsLogin.ReadsWhatWasFound` when it is the one that was found.
- Without a channel file in the configuration the check-in interval plays no part (`AciSchedule.WithoutChannelFile`).

## Model

| member | source | states |
|---|---|---|
| Rfc1321.ZeroCountIsFewest | lib/md5.c:364-385 | the padding of section 3.1 is the shortest that leaves 56 bytes modulo 64 |
| Rfc1321.PaddedLength | lib/md5.c:364-385 | a padded message is a whole number of blocks, for every length |
| Md5Block.Masked | lib/md5.c:68-132 | a constant written as T_MASK ^ c is c with every bit turned round, which the 64 constants rest on |
| Md5Block.SetIsStep | lib/md5.c:203-209 | a SET macro is one step of section 3.4 |
| Md5Block.Load | lib/md5.c:183-198 | assembling bytes gives the sixteen little-endian words of the block |
| Md5Block.Rounds | lib/md5.c:201-305 | the 64 SET lines with rotating register arguments equal the indexed loop of section 3.4, with its word schedules, shifts and T values, for every state and block |
| Md5.State.Process | lib/md5.c:135-314 | one block: the registers become the fold of the message with that block added |
| Md5.CountAdvances | lib/md5.c:335-340 | shift by 29 and carry: the two count words are eight times the bytes appended, mod 2^64 |
| Md5.CopyFitsExactly | lib/md5.c:343-353 | the copy into the buffer stays within it if and only if the int sum of its fill and the length of the chunk does not wrap; a chunk for which it does |
| Md5.State.Append | lib/md5.c:326-362 | the context stands for the message with the chunk added: full blocks folded, the tail in the buffer, the counter exact; for every chunk whose length and the fill of the buffer stay in the range of an int |
| Md5.State.PadLength | lib/md5.c:376-381 | the pad taken from the counter has 1 to 64 bytes and is the one of section 3.1 |
| Md5.PadCount | lib/md5.c:376-381 | the expression on the count word is the number of zero bytes, also when the count has wrapped |
| Md5.State.Finish | lib/md5.c:364-385 | the digest is that of RFC 1321 of everything appended, with the length from before the padding |
| Md5.HashChunks | lib/md5.c:316-385 | for every sequence of chunks in that range the digest is that of their concatenation |
| Rfc1321Bits.AuxiliaryIs | lib/md5.c:203-300 | the auxiliary functions on words are those on the bits |
| Rfc1321Bits.SumIs | lib/md5.c:203-209 | the sum of words mod 2^32 is the sum of bit-vectors |
| Rfc1321Bits.RotatedIs | lib/md5.c:203-204 | rotation by each of the sixteen shifts is rotation of the bits |
| Rfc1321Answers.EmptyDigest | lib/md5.c:316-385 | the digest of the empty message is d41d8cd98f00b204e9800998ecf8427e |
| Rfc1321Answers.AbcDigest | lib/md5.c:316-385 | the digest of "abc" is 900150983cd24fb0d6963f7d28e17f72 |
| Rfc1321Answers.DigitsDigest | lib/md5.c:316-385 | that of eighty digits, two blocks, is 57edf4a22be3c955ac49da2e2107b67a |
| Rfc1321Answers.LoginDigest | lib/sglchallenge.c:81-120 | the digest of challenge 23753528, password FooBar and the salt |
| SglChallenge.KnownResponse | lib/sglchallenge.c:60-167 | the response to challenge 23753528 with password FooBar is 95074758 |
| SglChallenge.ChallengedPassword | lib/sglchallenge.c:81-134 | the value is the little-endian number of the first four bytes of the salted digest, the top two bits masked |
| SglChallenge.ChallengeResponse | lib/sglchallenge.c:145-167 | ten digits are printed, which the buffer holds, and the last eight are the response |
| SglChallenge.ResponseDigits | lib/sglchallenge.c:145-167 | the response is exactly eight decimal digits, worth the 30-bit code mod 10^8, for every challenge and password |
| ReadLn.LineLengthMeans | lib/readln.c:57-81 | a line stops only after its end-of-line character, at the cap, or at the end of the stream |
| ReadLn.CountsBytesRead | lib/readln.c:50-81 | the value returned is the number of bytes read, as its comment promises, if and only if an end of line comes within maxlen - 1 bytes, or there is nothing to read and room for it; otherwise it is one more, or -1 exactly for an error before the buffer is full |
| ReadLn.OneByteCountsAsTwo | lib/readln.c:50-81 | one byte and the end of the stream give the value 2 |
| ReadLn.Reader.Readln | lib/readln.c:57-81 | the line is in the buffer with its NUL, the rest of the stream is untouched, and the value is as specified |
| LoginMachine.TranscriptForm | lib/cmslogin.c:207-382 | however the login ends, what is sent is at most four CRs, then the call signs at most once, then at most one message more |
| LoginMachine.FailedWriteSucceeds | lib/cmslogin.c:143-157 | only a write of a part of the message counts as a failure, an error does not |
| LoginMachine.LoginExactly | lib/cmslogin.c:207-382 | the machine succeeds if and only if the lines make a handshake and the opening gets through; the transcript is one CR for each junk line, the call signs, the reply |
| LoginMachine.LoginWhenSendsSucceed | lib/cmslogin.c:207-382 | if neither a CR nor the call signs are cut short the condition is a handshake with at most four junk lines before the prompt |
| LoginMachine.HandshakeLogsIn | lib/cmslogin.c:207-382 | such lines always log in, from every number of junk lines already seen |
| LoginMachine.LoginNeedsHandshake | lib/cmslogin.c:207-382 | from a success the prompt line and the challenge line can be found |
| CmsLogin.CodeReadExactly | lib/cmslogin.c:305-312 | a code is read if and only if the line starts with the tag in upper case and something follows it |
| CmsLogin.ReadsWhatWasFound | lib/cmslogin.c:305-312 | on a line that the search accepts, the place that is read is behind the tag that was found if and only if the line starts with that tag exactly |
| CmsLogin.IndentedChallengeIsNotRead | lib/cmslogin.c:305-312 | a line that is taken for a challenge and gives no code |
| CmsLogin.LookMeans | lib/cmslogin.c:248-305 | a line is a lone CR, a prompt or a challenge exactly by its letters, in either case |
| CmsLogin.ReplyMeans | lib/cmslogin.c:305-325 | the answer to ;SQ: and a code is ;SR:, the response, 25000001 and 20 |
| CmsLogin.UserComesFirst | lib/cmslogin.c:264 | for call signs without blanks the CMS reads that of the user before the first blank |
| CmsLogin.PlainLogin | lib/cmslogin.c:206-382 | a prompt and a challenge, and what is sent |
| CmsLogin.Connection.ExpectSend | lib/cmslogin.c:143-157 | one write; its message enters the transcript, and only a short count fails |
| CmsLogin.Connection.OnCallsign | lib/cmslogin.c:248-292 | one turn before the prompt is one step of the machine over the lines still to come |
| CmsLogin.Connection.OnChallenge | lib/cmslogin.c:293-354 | one turn after the prompt is one step of the machine |
| CmsLogin.Connection.SglProcess | lib/cmslogin.c:206-382 | on every finite stream it ends, with SUCCEED exactly for a handshake, and has sent exactly the opening and the reply; the message before the reply is the call of the user, a blank, that of the gateway and a CR, or its first 1023 characters; after a failure too it has sent what the machine sends on these lines |
| AxWrite.AxSendExact | rmsgw/gateway.c:222-282 | the loop ends normally exactly when all bytes have gone, breaks exactly at a failed write and waits only when all results are used; no request is longer than the packet length |
| AxWrite.CmsSendExact | rmsgw/gateway.c:328-343 | the loop to the CMS never gives up on EAGAIN and never sleeps |
| AxWrite.GivesUpOnSixteenth | rmsgw/gateway.c:222-282 | fifteen EAGAINs in a row are tolerated wherever they come, and it gives up exactly on the sixteenth |
| AxWrite.RunSleepExactly | rmsgw/gateway.c:246-272 | k EAGAINs in a row sleep k(k-1)/2 seconds up to eleven and ten for each one more, from every retry on, and change nothing else |
| AxWrite.RetriesThenWrites | rmsgw/gateway.c:246-282 | k EAGAINs and a write that takes everything: that time exactly, so the first retry comes at once |
| AxWrite.RetriesThenGivesUp | rmsgw/gateway.c:253-258 | sixteen EAGAINs: 95 seconds, nothing written, given up |
| AxWrite.PartIsTaken | rmsgw/gateway.c:222-282 | a write that takes a part advances by that part, and the retries start anew |
| AxWrite.FullPackets | rmsgw/gateway.c:222-282 | while the writes take all, every piece but the last has the packet length |
| AxWrite.PartGoesToCms | rmsgw/gateway.c:328-343 | the same for a write to the CMS that takes a part |
| AxWrite.WholeRequests | rmsgw/gateway.c:328-343 | to the CMS everything is offered at once |
| AxWrite.RunSleepAtMost | rmsgw/gateway.c:246-272 | one run of EAGAINs sleeps at most 95 seconds, and a full one exactly 95 |
| AxWrite.SleepBound | rmsgw/gateway.c:222-282 | a chunk of n bytes never sleeps more than 95 n seconds, from every retry on |
| RelayHistory.ClientDoneMeans | rmsgw/gateway.c:184-205 | the flag FFDN stands exactly when a client chunk ended in FF and no later three-byte CMS chunk turned the line |
| RelayHistory.CmsDoneMeans | rmsgw/gateway.c:302-323 | the same for FFUP with the sides exchanged |
| RelayHistory.ClosedMeans | rmsgw/gateway.c:184-205 | the FQ flags are set exactly when a three-byte FQ came while the FF of the other side stood |
| RelayHistory.ClosedInLetters | rmsgw/gateway.c:184-205 | the FQ flags are set exactly when a chunk of one side has F and F before its last byte, no three-byte chunk of the other side since is neither FF nor FQ, and it then sends three bytes that start with FQ |
| RelayHistory.PassesSinceChunk | rmsgw/gateway.c:184-205 | after a chunk and n passes the idle counter is n, or 60 + n if the chunk was such an FQ |
| RelayHistory.DeliveredOrEaten | rmsgw/gateway.c:177-222 | conservation: the bytes from the CMS are those delivered and those eaten |
| RelayHistory.LongChunkEaten | rmsgw/gateway.c:215-217 | a chunk of eight bytes or more is eaten exactly if it starts with the keep-alive packet |
| RelayHistory.ShortChunkEaten | rmsgw/gateway.c:215-217 | a shorter one exactly if it and the stale bytes behind it spell the packet |
| RelayHistory.SemicolonLost | rmsgw/gateway.c:215-217 | a conversation in which a data byte is lost in this way |
| RelayHistory.FirmExactly | rmsgw/gateway.c:184-186 | the FF test of a chunk does not depend on the memory in front of the buffer if and only if it has three bytes, or two of which the first is not F; on both sides |
| RelayHistory.FirmFlags | rmsgw/gateway.c:184-205 | two conversations of such chunks with the same bytes have the same flags |
| RelayHistory.QuietWithinIdle | rmsgw/gateway.c:354-369 | the idle counter never runs behind the number of passes without a byte |
| RelayHistory.QuietThroughout | rmsgw/gateway.c:354-369 | a bound on the counter bounds the quiet passes at every point of a conversation |
| RelayHistory.ViewToAx | rmsgw/gateway.c:177-222 | what goes to AX.25 and the byte counter are functions of the chunks alone |
| RelayHistory.ViewFQ | rmsgw/gateway.c:184-205 | the FQ flags and the internal code 10 are told by the history |
| Relay.Gateway.SenseCms | rmsgw/gateway.c:184-205 | the flags after a CMS chunk |
| Relay.Gateway.SenseAx | rmsgw/gateway.c:302-323 | the flags after a client chunk |
| Relay.Gateway.WriteLoop | rmsgw/gateway.c:222-282 | the loop writes what its specification says, by fragments, retries and sleeps, and ends for every sequence of results |
| Relay.Gateway.WriteCms | rmsgw/gateway.c:328-343 | the same towards the CMS |
| RelayCourse.CourseMeans | rmsgw/gateway.c:133-374 | on every course the inputs are used from the front and the history only grows; waiting means that an input has run out; hanging up and I/O errors come exactly with the end of the stream, a failed write or sixteen EAGAINs; an idle relay has read both sides until there was nothing more |
| RelayCourse.EveryReadyIsServed | rmsgw/gateway.c:133-350 | over an idle run, as many peeks and as many ends of reading of the socket as selects reported it, as many of the client as selects reported that, and as many passes as selects; for each other way out, which of these is missing of the last select |
| RelayCourse.CourseInOrder | rmsgw/gateway.c:148-350 | in each pass one peek at most, then the chunks of the CMS, then those of the client |
| RelayCourse.WritesOnlyCut | rmsgw/gateway.c:133-374 | with the same selects, peeks and reads the histories of two runs are the same up to where one of them ends, whatever the writes do |
| Relay.NoticeMeans | rmsgw/gateway.c:157-161 | the text of the notice, with the flags as the hexadecimal number that they are |
| Relay.Gateway.PeekCms | rmsgw/gateway.c:148-171 | one peek is consumed; its byte lands in the buffer and changes nothing else; the end of the stream, and nothing else, ends the relay after a notice |
| Relay.Gateway.PassToAx | rmsgw/gateway.c:177-290 | a chunk that is eaten makes no write call, any other the calls of the write loop; after it the output is that of the history, or is cut inside this chunk |
| Relay.Gateway.PassToCms | rmsgw/gateway.c:296-350 | the same in the other direction |
| Relay.Gateway.DrainCms | rmsgw/gateway.c:177-290 | the socket is read until a read gives nothing, and the relay stands where the course leads from there |
| Relay.Gateway.DrainAx | rmsgw/gateway.c:296-350 | the same for the AX.25 descriptor |
| Relay.Gateway.EndPass | rmsgw/gateway.c:354-369 | the counter goes up by one, a pass without bytes sleeps a second, and beyond the limit the code is 0 after FQ and 1 otherwise |
| Relay.Gateway.Run | rmsgw/gateway.c:133-374 | a whole run, however it ends, is the course that the system calls dictate: its history, its way out, the calls it leaves and the reasons for its end; every descriptor that was reported is read, in the order of the passes; both outputs, both counters, all flags and the return code are functions of the history, prefixes after an error; at most 61 quiet passes at every point, at most 95 seconds of sleep for each byte to AX.25 and one for each pass, and every chunk read is in the history in order |
| HostTrial.RelayCodes | rmsgw/gateway.c:352-374 | the relay returns 0, 1, -103 or -104 and never the internal 10: success, or fatal to the run |
| HostTrial.CreditIs | rmsgw/session.c:169-171 | a session that ends well credits the bytes from the CMS as out and those to it as in, any other nothing |
| HostTrial.AnnouncedIs | rmsgw/rmsgw.c:333 | each host that is tried is shown in turn |
| HostTrial.Rmsgw.GatewayWith | rmsgw/gateway.c:95-128 | -1 exactly for a failed login, -101 and -102 for the descriptors, and otherwise the relay has taken its course on what the peer gave, with the packet length that was asked for, or 128 |
| HostTrial.Rmsgw.Judge | rmsgw/session.c:169-193 | bytes are credited exactly after a success; a code of -101 or less is fatal, -1 lets the next host be tried |
| HostTrial.Rmsgw.CmsSession | rmsgw/session.c:77-211 | fatal without port, channel or password; below zero but not fatal exactly if there was no connection or no login |
| HostTrial.Rmsgw.TryHosts | rmsgw/rmsgw.c:332-385 | walking the linked list: the status files of the first k hosts are touched; all before the last were passed over; the relay is started for the last at most; exit code 0, 1 or 99; what the status block was told |
| HostTrial.Rmsgw.RunOnce | rmsgw/rmsgw.c:324-385 | from host file to exit: the list is the stable sort, the status files are those after a run of k tries, at least one host is tried if there is any, and with a ticking clock the next run finds the list rotated by k, unless the entries of some host were tried in part or not together |
| HostTrial.OneVerdict | rmsgw/rmsgw.c:332-385 | the number of hosts that are tried is determined: up to the first that is not passed over |
| SlotNames.ClaimKeepsShape | lib/statblock.c:317-369 | a lookup keeps the occupied slots in front, no name starting with a later one, and no stored name changes |
| SlotNames.AlwaysShaped | lib/statblock.c:455-506 | so does every sequence of lookups |
| SlotNames.FullWithoutMatch | lib/statblock.c:317-369 | -1 says exactly that all slots are taken and none matches |
| SlotNames.ResolvedForGood | lib/statblock.c:317-369 | a name that got a slot gets the same slot ever after, whatever is looked up in between |
| SlotNames.RefusedForGood | lib/statblock.c:317-369 | a name that was refused is refused ever after |
| SlotSharing.SharedExactly | lib/statblock.c:317-369 | over all lookups of names from the empty table: two share a slot under different names if and only if some name is looked up for the first time after a longer one that starts with it and has a slot |
| SlotSharing.StaysRefused | lib/statblock.c:317-369 | a lookup that finds the table full is refused at every later lookup of its name, and the table does not change any more |
| SlotSharing.SameKeySameSlot | lib/statblock.c:317-369 | two lookups of one name that find slots find the same |
| SlotSharing.NewExactly | lib/statblock.c:455-506 | a lookup takes an empty slot if and only if no stored name starts with its own |
| SlotSharing.StaysSettled | lib/statblock.c:317-369 | whatever is looked up later, the slot of a lookup stays occupied, first and matching |
| SlotSharing.CallSignsShare | lib/statblock.c:480-481 | N0CALL-1 after N0CALL-10 gets the slot of N0CALL-10 |
| SlotTable.RecordIsItsOperations | lib/statblock.c:378-676 | a record is what the operations that resolve to its slot make of it, in order, and no other |
| StatBlock.TotalsAddUp | lib/statblock.c:378-676 | a counter added up over all records, and the operations that were refused, is what it was at the start and all operations, mod 2^64 |
| StatBlock.ConnectionsAreSums | lib/statblock.c:610-626 | the connections of a slot are the sum over its operations, mod 2^64 |
| StatBlock.BytesInAreSums | lib/statblock.c:634-651 | the same for bytes in, also for negative counts |
| StatBlock.BytesOutAreSums | lib/statblock.c:659-676 | the same for bytes out |
| StatBlock.FailuresAreSums | lib/statblock.c:378-394 | the total failures of a host are its errors, mod 2^64 |
| StatBlock.CheckinsAreSums | lib/statblock.c:403-419 | its check-ins are counted |
| StatBlock.CurrentFailuresAreSums | lib/statblock.c:378-419 | its current failures are its errors since its last check-in |
| StatBlock.CurrentWithinTotal | lib/statblock.c:378-419 | which never exceed the total until that has wrapped |
| StatBlock.ConnectionsAddUp | lib/statblock.c:610-626 | the connection counts of all slots and the refused connections are all connections, mod 2^64 |
| StatBlock.BytesAddUp | lib/statblock.c:634-676 | the same for the bytes in either direction |
| StatBlock.GatewayShows | lib/statblock.c:514-602 | a gateway's slot shows the client, to nine characters, the host, to 64, the state and the process that were set last for it |
| StatBlock.HostShows | lib/statblock.c:378-445 | a host's slot shows the channel counts of its last run, mod 2^32, and the times of its last check-in and failure |
| StatBlock.FirstLookup | lib/statblock.c:317-506 | ten slots of either kind; the first name is stored to nine or 64 characters |
| StatBlock.HostIndexIsOccupied | lib/statblock.c:360-369 | the published host index is -1 or an occupied slot, after every sequence of operations |
| StatBlock.RmsStatus.GetCmsSlot | lib/statblock.c:317-369 | the loop finds the first empty or matching slot, takes an empty one, and publishes the index |
| StatBlock.RmsStatus.GetGwSlot | lib/statblock.c:455-506 | the same for gateways, without an index |
| StatBlock.RmsStatus.IncrAciError | lib/statblock.c:378-394 | the whole host table changes as the operation says, or not at all when it is full |
| StatBlock.RmsStatus.IncrAciCheckin | lib/statblock.c:403-419 | the same; the current failures are cleared |
| StatBlock.RmsStatus.SetChannelStats | lib/statblock.c:427-445 | the same for the two channel counts |
| StatBlock.RmsStatus.SetGwUsercall | lib/statblock.c:562-581 | the gateway table changes in this record only, the call cut to nine characters |
| StatBlock.RmsStatus.IncrGwConnects | lib/statblock.c:610-626 | the same for a connection |
| StatBlock.RmsStatus.AddGwBytesIn | lib/statblock.c:634-651 | the same for bytes in |
| StatBlock.RmsStatus.AddGwBytesOut | lib/statblock.c:659-676 | the same for bytes out |
| HostLines.AtoiOfSigned | lib/getcms.c:133-136 | every number that is printed with %d is read back |
| HostLines.ParsePrinted | lib/getcms.c:120-150 | a printed line is read as the entry that was printed |
| HostLines.AtoiReads | lib/getcms.c:133 | white space before a number is passed over, a plus sign changes nothing, and what is no number counts as 0 |
| HostLines.CommentAnywhere | lib/getcms.c:105-107 | a line that starts with #, wherever a line may start, adds no entry |
| HostLines.BlankAnywhere | lib/getcms.c:112-118 | so does a line of white space |
| HostLines.OneEntryForALine | lib/getcms.c:120-150 | any other line with two colons or more adds exactly one entry, and which |
| HostLines.RoundTrip | lib/getcms.c:92-154 | a file of printed entries, with lines that start with # and lines of white space anywhere, gives the entries in order |
| HostLines.PrintedListIsReadBack | lib/getcms.c:242-249 | any list of entries that fit their lines survives printing and reading |
| GetCms.HostTable.FGets | lib/getcms.c:100 | the buffer holds one line, or what fits of it, and the rest stays in the file |
| GetCms.HostTable.Fields | lib/getcms.c:120-150 | the line is cut in place into host, port and password |
| GetCms.HostTable.NextEnt | lib/getcms.c:92-154 | the next entry is the first of those that remain; false exactly when there is none |
| HostLines.EntriesJoin | lib/getcms.c:92-154 | the entries of two files one after the other are those of the first and of the second, if the first ends with a line |
| GetCms.Stream.PutCmsEnt | lib/getcms.c:242-249 | a reader of the file finds the entries that were in it and this one behind them |
| GetCms.ReadAll | lib/getcms.c:186-203 | reading on until there is none gives all entries of the file in order |
| GetCms.WriteAndRead | lib/getcms.c:92-249 | a list that is written entry by entry and read back is the same list |
| CmsList.ListedIsStableSort | lib/getcmslist.c:54-126 | the list has exactly the acceptable entries whose status can be had, by time and then by file order, and no other list does |
| CmsList.ListedInFull | lib/getcmslist.c:54-126 | which entries are listed, from host, port between 1024 and 65535, password and status file, with which times, and in which order |
| CmsList.UntriedFirst | lib/getcmslist.c:96-118 | a host that was never tried precedes every host that was |
| CmsList.RotatesExactly | rmsgw/rmsgw.c:332-367 | for every clock and host file: a run that tries k entries rotates the list by k if and only if the entries, so rotated and with the times that their status files then have, ascend; where no host is named twice that is to say that each touch is later than the one before and the first than the last host not tried, or in the same second and further down in the host file |
| CmsList.SplitHostNeverRotates | rmsgw/rmsgw.c:332-367 | a run that tries one entry of a host and not another never rotates the list, whatever the clock does |
| CmsList.SecondEntryStarves | rmsgw/rmsgw.c:332-367 | with two entries of one host a run of one try leaves the order as it was, for every clock and every status file, so that the second is never tried |
| CmsList.LeastRecentlyTriedFirst | rmsgw/rmsgw.c:332-367 | with a clock that ticks between touches the list is rotated if and only if the entries of each host are tried one after the other and all of them, or none; always where no host is named twice |
| CmsList.SameSecondKeepsFileOrder | lib/statfile.c:56-81 | two hosts tried within one second come out in file order |
| CmsList.ClockSetBackTurnsOrder | lib/statfile.c:56-81 | two hosts between whose tries the clock is set back change places |
| CmsList.MovesUp | rmsgw/rmsgw.c:332-367 | an entry whose host is not tried moves up by at least the number of tries, also where hosts are named twice |
| CmsList.TriedInTime | rmsgw/rmsgw.c:332-367 | the host in place p is tried within p + 1 runs, however many entries each run tries, also where hosts are named twice |
| CmsList.EveryHostIsTried | rmsgw/rmsgw.c:332-367 | every host of a list of n entries is tried within n runs |
| CmsNode.InsertionPoint | lib/cmsnode.c:87-91 | the walk stops behind the last node that is not later |
| CmsNode.Link | lib/cmsnode.c:96-108 | relinking leaves a well-formed list with the node in its place |
| CmsNode.AddCmsNode | lib/cmsnode.c:50-111 | the list on the heap is the old one with the node inserted stably |
| CmsNode.GetCmsList | lib/getcmslist.c:54-126 | the linked list is the stable sort of the entries of the file |
| CharSet.Table.MkSet | lib/set.c:74-83 | the members are exactly the characters of the string |
| CharSet.Table.AddSet | lib/set.c:93-98 | one more member, and no other change |
| StrTrim.TrimmedIsCut | lib/strtrim.c:51-108 | the result is the source without its maximal leading and trailing runs, as the mode asks; inner characters survive |
| StrTrim.CutOnce | lib/strtrim.c:51-108 | no other piece of the source is that |
| StrTrim.TrimmedTwice | lib/strtrim.c:51-108 | trimming is idempotent in every mode |
| StrTrim.CopyToMark | lib/strtrim.c:72-101 | copying with a moving mark drops the trailing run, also onto the source itself |
| StrTrim.Trim | lib/strtrim.c:51-108 | the destination holds the trimmed source, for separate buffers and in place, and nothing outside changes |
| Symbols.SymLookup | lib/symbol.c:56-67 | the newest symbol of the name, or none |
| Symbols.SymAdd | lib/symbol.c:78-104 | a symbol goes to the front; an empty name is refused |
| Symbols.NewestWins | lib/symbol.c:78-104 | the new symbol hides older ones of its name and no others |
| Symbols.AssignedMeans | lib/var.c:62-95 | an assignment changes the value of its name and of no other |
| Symbols.Assign | lib/var.c:74-94 | replaced in place or added in front; -1 exactly for a new empty name |
| Subst.AutomatonExpands | lib/var.c:136-188 | the one-pass automaton means the same as the tokens: escapes, variables with the longest name, plain characters |
| Subst.DistributesAtBoundaries | lib/var.c:136-188 | substitution distributes over concatenation, whatever follows, if and only if the first part ends in the plain state |
| Subst.EscapedIsPlain | lib/var.c:164-169 | escaping every backslash and dollar sign and then substituting is the identity, for every table |
| Subst.VariableExpands | lib/var.c:149-163 | a value is inserted as it stands, and the character that ends the name is copied unescaped |
| Subst.ExpandsInFull | lib/var.c:149-163 | the same with names of letters, digits, underscores and dollar signs, by their codes |
| Subst.OneCharacter | lib/var.c:164-178 | an escaped character is copied, and so is every character but the two special ones |
| Var.Feed | lib/var.c:145-180 | one turn of the loop is one step of the automaton, in buffers and flags |
| Var.VarSubst | lib/var.c:136-188 | the buffer holds the expanded text |
| Var.TrimParts | lib/var.c:71-72 | both parts of one buffer are trimmed in place without touching each other |
| Var.VarAssign | lib/var.c:107-122 | the string is split at its last equal sign and the trimmed name gets the trimmed value |
| Var.AssignmentParts | lib/var.c:62-122 | the name and the value are what stands before and behind the last equal sign, without the blanks and tabs around them |
| Var.AssignThenSubstitute | lib/var.c:107-188 | what was assigned is what is substituted |
| AciSchedule.StatsCount | rmsgw_aci/wl2k_aci.c:155-279 | the counters count the channels: active is down, not due, updated and errors together |
| AciSchedule.StatusFile | rmsgw_aci/wl2k_aci.c:237-265 | after any number of channels the status file of a port has the time of the run if it was due and one of them was ready on the port, and is as it was otherwise |
| AciSchedule.VerdictExactly | rmsgw_aci/wl2k_aci.c:178-277 | the verdict on each channel from the status files before the run: it is sent if and only if it is active, available and due and no channel before it is ready on its port, unless the channel file has a time in the future |
| AciSchedule.VerdictInFull | rmsgw_aci/wl2k_aci.c:155-277 | the same from the letters of the active field, the exit statuses and the times alone |
| AciSchedule.IntervalIs | rmsgw_aci/wl2k_aci.c:131-133 | the interval is the number configured, and 7140 without one that is positive |
| AciSchedule.SecondOnPortStarves | rmsgw_aci/wl2k_aci.c:237-242 | in no run is a channel sent behind a ready one on its port |
| AciSchedule.TwoOnOnePort | rmsgw_aci/wl2k_aci.c:237-242 | of two active and available channels on one port the first is sent if it is due and the second is never due |
| AciSchedule.UpdatesExactly | rmsgw_aci/wl2k_aci.c:219-277 | a run updates a port if and only if one of its channels is active and available and its status file is due, and then the file has the time of the run |
| AciSchedule.UpdatesAreApart | rmsgw_aci/wl2k_aci.c:242-277 | successive updates of a port are the interval apart, or the channel file was modified after the first |
| AciSchedule.UpdatedInTime | rmsgw_aci/wl2k_aci.c:242-277 | a port that stays ready is updated again in less than the interval and the time between two runs |
| AciSchedule.WithoutChannelFile | rmsgw_aci/wl2k_aci.c:138-149 | without a channel file every run in a later second updates again |
| Aci.Client.Check | rmsgw_aci/wl2k_aci.c:155-277 | one turn of the loop gives the verdict, counts it and touches the status file, also after an error |
| Aci.Client.Wl2kAci | rmsgw_aci/wl2k_aci.c:119-300 | the counters, the status files and the host table after a run |

## Left out

- System calls, signals, alarms, fork and hooks: their results are inputs of the model; `select` never fails, and a write of n > 0 bytes returns -1 or at least 1.
- What `select` and the reads do after the inputs of a run are used up: the run is then said to be waiting, and its outputs are known up to that point.
- Md5.State.Append: a chunk and the fill of the buffer together stay below 2^31 bytes, the range of the int they are added in (see Md5.CopyFitsExactly); the shift of the length in bits is modelled mod 2^32.
- Md5.HashChunks: its chunks are in that range, each from where the ones before it leave the buffer.
- SglChallenge.ChallengeResponse: the first branch of the byte-order conditional, on a little-endian machine.
- CmsLogin.Connection.SglProcess: challenge, password and salt together stay below 2^31 bytes, the range of an int; the pause of two seconds before each CR is not modelled, and a read that a signal ends counts as an error of the stream.
- HostTrial.Rmsgw.TryHosts: the state names of the gateway slot, the log, the banner, the greeting and the closing message to the client are not modelled; a status file can always be touched.
- StatBlock.RmsStatus.GetCmsSlot: host names have fewer than 64 bytes, as the field has no room for a terminator otherwise; concurrent processes take turns by whole operations, for the code has no lock.
- CmsList.RotatesExactly: nothing but the gateway touches the status files.
- CmsNode.AddCmsNode: memory does not run out; freeing memory, as in `symDestroy`, is not modelled.
- GetCms.HostTable.NextEnt: lines that are not skipped have two colons; with fewer the code reads behind its line.
- CharSet.Table.MkSet: the characters of the set are ASCII, since they index the table as signed characters.
- Var.VarSubst: names are shorter than 256 characters, the result fits its buffer, and letters and digits are those of the C locale.
- Var.VarAssign: the string has an equal sign; without one the code writes into a string constant.
- AciSchedule.UpdatesAreApart: one clock value for each run, and touching a status file succeeds; the default service code is not modelled.
- Members that only copy a field, such as the gateway's state and process id in the status block, are modelled but have no row.
- `lib/sendrf.c`, the telnet login, the expect half of `expectsend`, the channel file and its XML, name mapping, configuration loading, the curses monitor and the Python and shell tools are not part of this model.
