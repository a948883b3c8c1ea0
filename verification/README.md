# A model of the TF protocol server

The repository is a C server for a stateful file-transfer protocol. This project models
its hardest parts in Dafny and proves what they are for:

- **Streaming** (`FileIo`, `HpStream`, `HpCancel`, `HpTranscript`, `HpCanTranscript`). The GET/PUT stream is three processes
  (send loop, cancel-listening thread, receiver) over two bounded FIFO channels; the
  GETCAN/PUTCAN stream is two. A run is any list of system calls in any order, each with any
  outcome the system allows: short and interrupted reads and writes, read errors, disk
  faults. The theorems are about every run; the two transcript modules say word by word what
  each end has sent. That the 64-bit words they exchange survive any
  two byte orders is `Headers.WordRoundTrip`.
- **The channel** (`Headers`, `Cipher`, `Channel`, `BlockMode`, `Connection`, `Exchanges`). The
  self-modifying cipher in place over arrays, two hosts of any byte order, framing, loops
  over short system calls, the identity token, block mode.
- **Directory trees** (`Paths`, `TreeWalk`, `LsrIter`, `WalkFacts`, `Listings`, `Volume`,
  `Copy`, `Remove`). Both listings reach a finite tree only through path strings; copy and
  delete change a map from paths to directories and inodes.
- **Permission lists** (`Text`, `PermList`, `SecureFs`). One secure directory with commands
  that change its list under a lock, crashes at any step, and readers without a lock.
- **Network mutex** (`NetMutex`). Any number of processes, one system call per step, any of
  which may fault or die.
- **Sessions** (`Session`, `Base64`, `FaiToken`, `Descriptors`). The gates of `cmd_parse`
  and the moving root, reusable entry tokens, the XS1 descriptor table.

Code that works on values is modelled by functions. Code that updates state is modelled by
classes and methods with loops (`FileIo.File`, `Cipher.Crypto`, `Connection.Conn`,
`Volume.Disk`, `Session.Server`, `FaiToken.TokenFile`, `Descriptors.Xs1`), each proved
against a function of the old state, and the theorems are about those functions.
Concurrent code is modelled by state machines.

Clocks, random keys, what the file system answers and what the kernel returns are
parameters. Integers are unbounded; where the source's width matters it is written out: the
64-bit seed and stream words, the 32-bit header, `int wb`, the `int32_t` index, the unsigned
expiry.

## What the proofs say about the code as it is

- A GET whose buffer size is 0 sends END at once, so a run without CANCEL delivers the whole
  file if and only if the buffer is not empty or the file is (`HpStream.WholeFileIff`).
- `writechunk` returns the count of its last piece, and the caller keeps it in an `int`: a
  chunk is accepted if and only if it went in one piece of at most 2^31 - 1 bytes, although
  all of it is on disk (`FileIo.ChunkAcceptedIff`, `FileIo.SplitChunkRefused`).
- The sender looks at `hpfcont` once per chunk: after a CANCEL it makes at most the one `read`
  it was already about to make and sends what that gave (`HpTranscript.CancelStopsSender`).
  With cancellation points the receiver answers CANCEL from the first chunk on that was split,
  faulted or too long, also for chunks that are all on disk (`HpCanTranscript.CodeInFlight`).
- The seed is loaded and reloaded from the key in host byte order. Two hosts in an equal
  cipher state stay in step if and only if they share a byte order or every reload on the
  way is from a key whose first eight bytes read the same both ways, which can be computed
  before anything is sent (`Cipher.EndsStayInStep`, `Channel.MessagesRoundTrip`). After the
  key exchange the first byte comes back if and only if the byte orders are equal or bytes
  0 and 7 of the key are (`Cipher.FirstByteBackIff`); two hosts that start equal and differ
  at the fifth byte are shown (`Cipher.UnlikeHostsDiffer`). The key index restarts with
  every call (`Cipher.CutMatters`).
- In block mode the token is decrypted into a buffer that keeps its old content and is
  compared with `strcmp`. A text passes if and only if that buffer then reads as the token
  (`BlockMode.TokenTakenIff`); of the texts that pass the token is exactly the one of 36
  bytes (`BlockMode.BlockAcceptedIff`), and longer and shorter ones that pass are shown.
- `rmr` returns 0 for a plain file it was told to spare: the excluded name keeps its
  trailing slash, and `access` then fails (`Remove.Rmr`).
- The result of `fclose` is not looked at, so a command may succeed with only the first
  bytes of the new list on the disk. What every identity's bits then are is proved exactly
  (`SecureFs.ShortRemoval`, `SecureFs.ShortEntry`): the number that is left in its first
  entry. They are kept if and only if that is the whole number, which for a decimal entry
  means that at most the end of its line is missing or that they were 0. Everybody may lose
  their permission (`SecureFs.LostFlushLosesAll`), and someone may gain one that nobody
  gave, as 12 is cut to 1, the set bit (`SecureFs.ShortFlushGivesSetBit`); both are runs.
- An acquire with an empty token succeeds and leaves the mutex free
  (`NetMutex.EmptyTokenExcludesNobody`). Exclusion is proved for all other tokens. The
  result of `ftruncate` is ignored, so a granted release may leave the mutex held
  (`NetMutex.FailedTruncateKeepsMutex`).
- LOCKSYS leaves the root without a slash at its end, so an accepted path lies under the
  root of the moment if and only if one of the two supplies the slash
  (`Session.UnderRootIff`). LOCKSYS does not go through `jaildir`; a `..` it puts into the
  root makes `jaildir` refuse every later path that continues it, and the jail theorem
  includes such runs.
- A negative `faitok_mq` is no limit, as it is compared as an unsigned number; the expiry is
  then in the past if nothing positive is asked for (`FaiToken.ExpiryIs`). A renewal that
  fails after it opened the token file leaves it empty, and no later use starts a session
  (`FaiToken.FileHoldsLastKey`). One whose reply is lost leaves a key in the file that the
  client does not know (`FaiToken.UsesFindLastKey`).
- `README.rst` lets KEEPALIVE and PROCKEY through before LOCKSYS. The code lets them through
  before LOGIN, and refuses them from then on until all gates are down; the model follows
  the code.

## Model

The first 37 rows are the main results; the rows after them are what these rest on and what
goes with them.

| member | source | states |
|---|---|---|
| HpStream.RunsFinishClean | src/cmd.c:1629-1765 | in every interleaving: no deadlock, a bound on the length, no FIN or misplaced word in the first loop, and at the end both channels empty and the listening thread gone |
| HpStream.RunsDeliverPrefix | src/cmd.c:1659-1765 | at every moment the disk holds a prefix of the file; at the end the file is marked for deletion exactly when the sender raised CANCEL and the receiver did not |
| HpStream.WholeFileIff | src/cmd.c:1659-1765 | a finished run without CANCEL delivered the whole file if and only if there was a buffer to read into or nothing to send |
| HpTranscript.CancelStopsSender | src/cmd.c:1659-1707 | once the receiver's CANCEL has cleared `hpfcont`, in every continuation of every run the sender reads at most once more, and only if it stood at the `read`; what it then says is that chunk, END or CANCEL, and FIN, and nothing else |
| HpTranscript.WholeConversation | src/cmd.c:1629-1765 | every word of a finished run in digits: chunks of the file in order, each behind its length; then -2 exactly if a `read` failed, 0 only if the whole file was sent or there was no buffer, nothing only if the receiver stopped it; then -127; in the other direction -2 exactly if some write broke, then -127 |
| HpCancel.BothFinish | src/cmd.c:1831-1990 | for every file, buffer and interval: both ends finish, no word is taken for something else, both channels end empty, also when the disk failed between two cancellation points |
| HpCancel.OneCodePerRound | src/cmd.c:1831-1990 | exactly one code per `canpt` chunks, none with points off, and a code is in flight only while the sender waits for it with nothing else in flight |
| HpCancel.CancelDeliversPrefix | src/cmd.c:1831-1990 | the disk always holds a prefix; without errors the whole file exactly when there is a buffer; deletion exactly when the sender raised CANCEL |
| HpCanTranscript.CodeInFlight | src/cmd.c:1831-1882 | over every run a code on its way is -2 if some chunk since the start was split, faulted or longer than an `int` can say, and -3 otherwise |
| HpCanTranscript.WholeExchange | src/cmd.c:1831-1990 | every word of a finished run: chunks of the file in order, each behind its length; then -2 exactly if a `read` failed, 0 only if the whole file was sent or there was no buffer, and nothing only if a refused chunk was answered -2; all codes but that last one are -3 |
| Cipher.EndsStayInStep | src/cmd.c:2179-2218 | through every sequence of messages and key swaps, hosts of byte orders `x` and `y` in an equal state go through the same states if and only if `x == y` or every reload is from a palindrome; then every message is recovered; the key stays at least 8 bytes |
| Channel.MessagesRoundTrip | src/tfproto.c:165-181 | with the cipher on, hosts of byte orders `x` and `y` go through the same cipher states if and only if `x == y` or every reload on the way is from a palindrome; then, and always with the cipher off, every list of messages is read back in order, with equal cipher states and exactly the sent bytes taken, with or without a token |
| Channel.WireIsCiphered | src/tfproto.c:304-338 | with the cipher on, the bytes on the wire are exactly the cipher calls over header and payload (and token), one after another in one state, and the cipher ends where these calls end |
| Exchanges.Exchange | src/tfproto.c:165-181 | for every list of messages and every schedule of reads and writes without faults, the other host reads exactly the list, nothing is left over and the ciphers are equal again, with or without identity checking, if the exchange is safe for the two byte orders |
| Exchanges.BlkExchange | src/tfproto.c:502-552 | the same in block mode, for every two byte orders, empty messages included, whatever the receiver's buffers held before |
| Channel.AcceptedBehindToken | src/tfproto.c:344-356 | with checking on a payload is accepted if and only if enough arrives and the 36 bytes before it decrypt to the token |
| BlockMode.BlockAcceptedIff | src/tfproto.c:525-551 | a payload is accepted if and only if both blocks arrive and unpad and the first one's text passes; of the texts that pass the token is exactly the one of 36 bytes |
| LsrIter.LsrIter | src/util.c:692-770 | terminates on every tree; the reports are the preorder listing; -1 exactly when the start does not open |
| Listings.ListingsAgree | src/util.c:692-770 | `lsr_iter` and `listdir` give as many entries, and entry `i` of both has the same components, of an entry that can be reached |
| Listings.NoEntryTwice | src/util.c:692-770 | `lsr_iter` reports no entry twice |
| Listings.NoEntryMissed | src/util.c:692-770 | `lsr_iter` misses no entry that can be reached |
| Copy.Cpr | src/util.c:270-308 | succeeds if and only if the destination can be made; then it is a copy, also inside the source; on failure nothing changed |
| Remove.Rmr | src/util.c:310-344 | exactly the spared entries and their ancestors are left, all other names are untouched, and the result is 0 exactly when no directory is left at the path |
| SecureFs.ReadersSeeWholeLists | src/tfproto.c:447-500 | a reader has a prefix of, and at the end exactly, the list published when it opened the file; that list stays in the history, and what is published only gets newer |
| SecureFs.SuccessIsPublished | src/cmd.c:3375-3399 | when a command releases the lock with success, the read copy equals the master and is the newest list |
| SecureFs.PermissionsChangeByAuthority | src/cmd.c:3327-3374 | over every run, whatever was flushed, each list comes from the one before it by a command whose author held the set or the remove bit (or on an empty list); bits of a well-formed list change only if the command adds the first entry, removes the identity, or is cut within or before its entry, and if all of it was flushed only by adding or removing |
| NetMutex.RunsAreSequential | src/cmd.c:3135-3256 | every interleaving does, command by command, what a sequential mutex would, whose commands fail only where a call failed and whose release may keep the file only if `ftruncate` failed; two processes never have the lock at once |
| NetMutex.Exclusive | src/cmd.c:3135-3256 | from a granted acquire until a release by the same token: no other acquire is granted, no release by others changes anything, and every command of the holder that is answered and met no failing call is granted |
| NetMutex.GrantedIff | src/cmd.c:3135-3256 | over every run, a command that was answered and met no failing call is granted if and only if the mutex was free or its own; an acquire then leaves its token in the file, a release nothing unless `ftruncate` failed, and a refusal changes nothing |
| Session.ServedBehindGates | src/cmd.c:217-434 | in every run an ordinary or XS command is served only with all gates down; each gate that was up fell before, to its own command; the earlier of two fell first |
| Session.AcceptedPathsAreJailed | src/util.c:57-77 | in every run, through every change of the root, each accepted path begins with the configured components and has ".." at most as its last |
| Session.InJailHolds | src/cmd.c:2255-2299 | after an INJAIL that succeeded, every path accepted later in the run begins with the components of the root of that moment and the directory |
| Session.LockSysHolds | src/cmd.c:3561-3581 | the same for LOCKSYS with the root, a slash and the argument; as there is no slash behind it, its last name may be continued by what follows |
| Session.FlyContextHolds | src/cmd.c:3799-3824 | the same for FLYCONTEXT with the root and its path |
| Session.SucceedsIff | src/cmd.c:217-434 | when exactly each command is answered with success: which gates are down, that the path is allowed, and what the system answered |
| FaiToken.UsesFindLastKey | src/tfproto.c:611-699 | a use starts a session if and only if it is in time and renews, and all before it were in time and lost no line; it starts with exactly the key last given to the client, unless a later one was written and not sent, and then with such a one |
| Descriptors.IndexFindsItsFile | src/xs1/xs1.c:164-219 | over every run, the index an open returned finds that file until a command closes it, and live slots stay distinct |
| FileIo.File.WriteChunk | src/util.c:470-481 | whatever short and interrupted writes happen, the file grows by a prefix of the buffer, by all of it unless a write faulted, and the result is the count of the last write alone |
| FileIo.ScheduleFacts | src/util.c:470-481 | for every schedule of writes: how much lands, and that all of it does unless the last write faults |
| FileIo.ChunkAcceptedIff | src/cmd.c:1732-1733 | the receiver takes a chunk for written if and only if it went in one piece that an `int` can hold; if the last write did not fault all of it is on disk either way |
| FileIo.SplitChunkRefused | src/util.c:470-481 | a concrete short write after which all data is on disk and the chunk is refused |
| HpStream.WriteRunIsWriteChunk | src/cmd.c:1732-1733 | the receiver's single write steps do to the disk what `writechunk` does, and leave the loop as `wb != len` decides |
| HpStream.StepKeeps | src/cmd.c:1629-1765 | the invariant of the three processes and two channels is kept by every step of every process |
| HpStream.Progress | src/cmd.c:1629-1765 | while one end has not returned some process can move, even with room for one message per channel |
| HpTranscript.ListenerHears | src/cmd.c:1629-1645 | at every moment of every run what the receiver said is what the thread heard and what is still on its way; `hpfcont` is cleared if and only if a -2 was heard, and the thread is gone if and only if a -127 was |
| HpTranscript.AnyWord | src/cmd.c:1720-1763 | the words of a stream of any peer, in digits: which of them end each of the receiver's two loops, and that only -2 in the first marks the file for deletion |
| HpTranscript.SenderErrorIff | src/cmd.c:1666-1699 | the sender raises CANCEL if and only if a `read` of the run failed |
| HpTranscript.ReceiverErrorIff | src/cmd.c:1732-1738 | the receiver raises CANCEL if and only if a write of the run faulted, was short or was longer than an `int` can say |
| HpCancel.MoveKeeps | src/cmd.c:1831-1990 | the invariant of the two processes, and whose turn it is, are kept by every step |
| HpCanTranscript.GivesUpIff | src/cmd.c:1858-1859 | writing a chunk makes the receiver give up if and only if it did not go in one piece that an `int` can hold |
| HpCanTranscript.GivenUpIff | src/cmd.c:1831-1882 | over every run the receiver has given up if and only if some chunk was so refused |
| HpCanTranscript.AnyCanWord | src/cmd.c:1844-1851 | the same for the receiver with cancellation points |
| Headers.HeaderRoundTrip | src/tfproto.c:289-302 | a header is big-endian on the wire from every host, and every host reads the length that was set |
| Headers.WordRoundTrip | include/util.h:25-28 | a 64-bit length or code, negative ones in two's complement too, is big-endian on the wire from every host and read back by every host |
| Cipher.SeedGenLossless | src/crypto.c:31-36 | with the byte arithmetic of `encrypt`, unpacking undoes packing, and the key byte shows in the packed byte |
| Cipher.XorBit | src/crypto.c:31-36 | the exclusive or, bit by bit |
| Cipher.PackedByte | src/crypto.c:31-36 | byte `n` on the wire is the data byte, exclusive-or the key byte, plus the top byte of the seed after `n` rounds |
| Cipher.RoundIs | src/crypto.c:37-41 | one round: the seed times its middle 32 bits plus 16 higher ones, reloaded from the key if that is 0, and its low byte put into the key |
| Cipher.Crypto.Encrypt | src/crypto.c:23-44 | data, key and seed rewritten in place are those of `Run` from index 0; bytes past the length are untouched; with the cipher off nothing changes |
| Cipher.RunAppend | src/crypto.c:26-41 | one call over two parts is a call over the first and a continuation, index included, over the second |
| Cipher.UnpackUndoesPack | src/crypto.c:23-44 | from equal states the receiver gets the data back and ends in the sender's state |
| Cipher.CutMatters | src/crypto.c:26-30 | the byte after a cut comes out the same with and without the cut if and only if the key byte reached equals the first |
| Cipher.SeedsAgreeIff | src/crypto.c:39-40 | two hosts load the same seed from a key if and only if their byte orders are equal or the eight bytes read the same both ways |
| Cipher.AlongAgreesIff | src/crypto.c:27-42 | two ends go through the same states, round by round, if and only if they get the same seed in every round |
| Cipher.FirstByteBackIff | src/crypto.c:167-169 | from the key exchange on the first byte of the first message comes back if and only if the byte orders or bytes 0 and 7 of the key are equal |
| Cipher.UnlikeHostsDiffer | src/crypto.c:39-40 | two hosts of unlike byte order that start equal after a key exchange, and a message whose fifth byte does not come back |
| Cipher.HostsStayInStep | src/crypto.c:167-171 | the same from the key exchange on, where each host also loads its first seed: the start must agree too, and then every message is recovered |
| Channel.SwapTakesOver | src/crypto.c:177-182 | whatever was said before, the first message after a key swap goes out under the new key and with the seed left by the messages before it |
| Connection.Conn.WrFd | src/tfproto.c:577-592 | for every schedule of writes: all bytes in order, or on failure a proper prefix; success whenever no write faults, and how much of the schedule is used |
| Connection.CallCipher | src/crypto.c:23-44 | running `encrypt` in place on a buffer is the cipher call of the channel's specification |
| Connection.Conn.RdFd | src/tfproto.c:594-609 | for every schedule of reads: exactly the next `len` bytes; success whenever no read faults and enough arrives |
| Connection.Conn.RcvBuf | src/tfproto.c:340-389 | what it accepts, and where it leaves cipher and stream, is `Received`; it accepts whenever no read faults and `Received` does |
| Connection.Conn.WriteBuf | src/tfproto.c:165-171 | on success the stream grows by the frame of the message and the cipher by the frame's calls; success whenever no write faults |
| Connection.Conn.ReadBuf | src/tfproto.c:173-181 | for every schedule of reads it returns what `ReadOne` finds in the stream, whenever no read faults and there is something to find, again and again |
| Connection.Conn.BlkRcvBuf | src/tfproto.c:521-552 | entered at most two deep, leaves `cia_send` at 0, accepts what `BlkReceived` accepts, on whatever the buffers held before, and takes exactly the padded lengths |
| Connection.Conn.BlkReadBuf | src/tfproto.c:173-181 | in block mode, for every schedule of reads, it returns what `BlkReadOne` finds, whenever no read faults and there is something to find |
| Exchanges.SendAll | src/tfproto.c:165-171 | any number of `writebuf` calls put the frames of the list on the wire, whenever no write faults |
| Exchanges.ReceiveAll | src/tfproto.c:173-181 | any number of `readbuf` calls return what `ReadAll` finds, whenever no read faults and it is there |
| Channel.PlainRoundTrip | src/tfproto.c:165-181 | with the cipher off every list is read back, whatever the two byte orders |
| Channel.ReceivedIsCiphered | src/tfproto.c:340-389 | with the cipher on, what is received is the unpacking call over the payload, after that over the token if there is one |
| Channel.PlainWire | src/tfproto.c:165-171 | with the cipher off, the bytes on the wire are each length in four big-endian digits and the message |
| Channel.FirstByteOnWire | src/tfproto.c:304-338 | with a key of ones the zero that begins a header goes out as 2, from every host |
| Channel.LikeHostsRoundTrip | src/tfproto.c:165-181 | hosts of one byte order read every list back, cipher on or off |
| BlockMode.BlockRoundTrip | src/tfproto.c:502-552 | the receiver takes exactly `(len/16+1)*16` bytes, and the token's 48 before them, nothing for an empty payload, and its buffer begins with the payload; padding of section 6.3 of RFC 5652 |
| BlockMode.BlkMessagesRoundTrip | src/tfproto.c:502-552 | in block mode every list of messages is read back in order, and exactly the sent bytes are taken |
| BlockMode.PadIs | src/crypto.c:221-232 | a message is padded to `(len / 16 + 1) * 16` bytes, each of the added ones their number |
| BlockMode.UnpadIff | src/crypto.c:234-245 | a text is taken off a block if and only if the block is it and such a padding |
| BlockMode.BlkFrameIs | src/tfproto.c:502-519 | the bytes of a message in block mode: the header as one block, the payload as the next if there is one, the token's block before each if it is sent |
| BlockMode.TokenTakenIff | src/tfproto.c:528-534 | a text passes for the token if and only if the bytes the buffer held before complete it to the token, or it is the token, a NUL and anything |
| BlockMode.LongerTextPasses | src/tfproto.c:528-534 | the token, a NUL and up to ten bytes more pass on every buffer |
| BlockMode.ShorterTextPasses | src/tfproto.c:528-534 | the first 32 to 35 bytes of the token pass on a buffer that still holds its end |
| TreeWalk.RmTrDir | src/util.c:682-690 | cuts off exactly the last component and its slash |
| TreeWalk.ListDir | src/util.c:229-268 | opening directories by path string, it collects the preorder listing, skipping what does not open |
| LsrIter.ReadEntry | src/util.c:713-761 | one entry read keeps them in step and the work left shrinks |
| WalkFacts.ListedIff | src/util.c:229-268 | an entry is listed if and only if it exists and every directory on the way opens |
| WalkFacts.ListedFlatIff | src/util.c:229-268 | without recursion exactly the entries of the directory itself are listed |
| WalkFacts.ListedOnce | src/util.c:229-268 | no entry is listed twice |
| WalkFacts.ParentsFirstOf | src/util.c:229-268 | every entry comes after its directory |
| Copy.NextVacant | src/util.c:285-304 | at each entry's turn its place is free and its directory already made |
| Copy.CopyHasSameShape | src/util.c:270-308 | where everything opens, the copy has the shape of the source and every file the inode of its original |
| Remove.ExcludedBelow | src/util.c:326-328 | what is below an excluded directory is excluded |
| Remove.ExcludedIff | src/util.c:326-328 | a path is spared if and only if the string occurs in it with its slash, and none is without a string |
| Remove.EmptyAtItsTurn | src/util.c:325-341 | at its turn a directory is empty exactly when nothing in it is to stay |
| Remove.Turn | src/util.c:326-340 | one turn removes the name unless it is spared or a directory that is not empty, touches no other, and finds the name afterwards exactly if a directory is left |
| PermList.GetFsidPerm | src/tfproto.c:478-500 | the loop returns the bits of the first entry for the identity, 0 if none |
| PermList.CopyOthers | src/cmd.c:3458-3474 | the loop writes the list without the entries of one identity |
| PermList.AppendedEntry | src/cmd.c:3358-3365 | a new entry counts only for an identity that has none; nobody else's bits change; the list stays well formed |
| PermList.TokenGives | src/cmd.c:3358-3365 | after a token `id:n` was added, `id` has `n` if it was not listed, and everybody else what they had |
| PermList.DroppedEntry | src/cmd.c:3458-3474 | removing an identity takes its bits and leaves everybody else's |
| SecureFs.StepKeeps | src/cmd.c:3302-3399 | the invariant is kept by every step of a setting or removing command, by every failure or crash, and by every reader |
| SecureFs.AuthorsHoldBits | src/cmd.c:3327-3374 | over every run, each list was made by a set from someone with bit 0 in the list before it, or on an empty one, or by a removal from someone with bit 1 in the list it read |
| SecureFs.GoesOnIff | src/cmd.c:3302-3446 | in every run the command that holds the lock can go on past its check if and only if it has bit 0 (or the list is empty), for a removal bit 1 |
| SecureFs.SettingHappens | src/cmd.c:3302-3399 | a run in which a permitted set command publishes the list, its token and a newline |
| SecureFs.LostFlushLosesAll | src/cmd.c:3475-3477 | a run in which a permitted removal of which nothing is flushed succeeds and leaves everyone without permission |
| SecureFs.ShortRemoval | src/cmd.c:3475-3477 | over every run, after a removal of which `kept` bytes are flushed the removed identity has no bits, and every other one has exactly the number left in its first entry; it keeps its bits if and only if that is the whole number, for a decimal entry if and only if at most the line's end is missing or there are none to lose |
| SecureFs.ShortEntry | src/cmd.c:3375-3376 | over every run, after a new entry of which `kept` bytes are flushed whoever was listed keeps their bits, and anyone else has the number left behind the colon of their entry, or none |
| SecureFs.ShortRemovalHappens | src/cmd.c:3475-3499 | for every number of bytes a run in which just these are flushed, and the command succeeds |
| SecureFs.ShortFlushGivesSetBit | src/cmd.c:3475-3499 | a run in which a removal cuts another identity's 12 to 1, the set bit |
| PermList.CutPerm | src/tfproto.c:478-500 | what any beginning of a good list says of any identity, exactly |
| PermList.PlainCutKeepsIff | src/tfproto.c:478-500 | a decimal entry keeps its bits in a cut list if and only if at most its line's end is missing or they are 0 |
| NetMutex.StepKeeps | src/cmd.c:3135-3256 | the invariant is kept by every system call, fault and death of every process |
| NetMutex.FaultsHappen | src/cmd.c:3135-3256 | a command is answered with a fault only if the run holds a failing call of that process |
| NetMutex.NobodyIsStuck | src/cmd.c:3135-3256 | in every run whoever has the lock, or finds it free, has a next call to make that does not fail |
| NetMutex.EmptyTokenExcludesNobody | src/cmd.c:3167-3178 | a run in which an acquire with the empty token and one with any other are both granted with no release between |
| NetMutex.FailedTruncateKeepsMutex | src/cmd.c:3252-3255 | a run in which a release is granted and the mutex is still its owner's, as `ftruncate` failed |
| Paths.DotDotInside | src/util.c:62-69 | searching for "/../" finds exactly the ".." that are not the last component |
| Session.Server.JailDir | src/util.c:57-77 | the path is the root followed by the argument, refused for "/../" inside, for a refusal of the secure file system, or if the root is gone |
| Session.Server.CmdInJail | src/cmd.c:2255-2299 | the new state is that of `InJailed`; where that leaves the root is `Session.InJailHolds` |
| Session.Server.CmdFlyContext | src/cmd.c:3799-3824 | the root rebuilt name by name is that of `Flown` |
| Session.Server.CmdParse | src/cmd.c:217-434 | the chain of gates does what `Step` says |
| Session.FallsOnce | src/cmd.c:217-434 | a gate falls at most once and never rises |
| Session.SuccessOpens | src/cmd.c:217-434 | a command that succeeds takes down its own gate and no other |
| Session.FailureChangesNothing | src/cmd.c:2255-2299 | a command that fails, a failed INJAIL too, or is an ordinary one leaves gates and root as they were |
| Session.UnderRootIff | src/util.c:60-68 | a path lies under the root of the moment if and only if one of the two supplies the slash between them |
| Base64.DecodeUndoesEncode | src/util.c:849-881 | base64 of section 4 of RFC 4648, with `base64dec`'s count of the padding, gives every key back |
| Base64.AlphabetIs | src/util.c:849-881 | the alphabet of section 4 of RFC 4648, by character code |
| Base64.SameNumber | src/util.c:849-881 | four characters are the number of the three bytes, in digits to base 64 |
| Base64.Vectors | src/util.c:849-881 | test vectors of section 10 of RFC 4648 |
| FaiToken.ExpiryIs | src/cmd.c:3865-3868 | the expiry for every time asked for and every limit, negative ones too, in unsigned arithmetic |
| FaiToken.ExpiryBounded | src/cmd.c:3865-3868 | between now and `faitok_mq` minutes from now for a limit that is not negative; for a negative one it is in the future exactly if a positive time was asked for, and then what was asked for |
| Text.PrintIsDecimal | src/cmd.c:3870 | numbers are printed in decimal, most significant digit first |
| FaiToken.CheckUndoesLine | src/tfproto.c:611-640 | a line written for an expiry and a key is read back as exactly these until it expires |
| FaiToken.TokenFile.Enter | src/tfproto.c:642-699 | a use starts with the key in the file and replaces it by the one the client is told; a late use removes the file; a failed renewal starts nothing and leaves the file as it was, or empty |
| FaiToken.FileHoldsLastKey | src/tfproto.c:675-699 | after any number of uses the file holds the key last written and the first expiry, or is spent for good once a use was late or emptied it |
| Descriptors.Xs1.GetIdx | src/xs1/xs1utils.c:29-36 | the first slot with the given descriptor, -1 if none |
| Descriptors.Xs1.CmdOpen | src/xs1/xs1.c:164-206 | the index told to the client, found by value, is the slot just filled; a reply that is lost closes the descriptor, keeps the slot and ends the session |
| Descriptors.OpenAdds | src/xs1/xs1.c:164-206 | opening adds one file at an index that had none and leaves all others |
| Descriptors.CloseTakes | src/xs1/xs1.c:208-219 | closing takes one file away and leaves all others |
| Descriptors.TextNamesIndex | src/xs1/xs1.c:255-265 | the text of an index is read back as that index |
| Descriptors.GrowsOnlyWhenFull | src/xs1/xs1utils.c:8-27 | the table grows by one slot, and only when it has no hole |

## Left out

- OpenSSL, the RSA key exchange, SHA-256, UUIDs, DNS, dates, user look-up and `setuid` are foreign calls. AES-CBC is an invertible function on two contexts that already agree, because `blkinit_en` clears the structure, key included, before it uses it (src/crypto.c:196).
- Failing network calls inside a stream, signals, forking, daemon start-up, UDP keepalive, the transparent proxy, logging and configuration search are plumbing.
- INTREAD and INTWRITE: `sha256sum` opens and closes the file while its record lock is held, and the close drops the lock, so compare-and-write is not atomic.
- NETLOCK, XS_ACE, XS_NTMEX, XS_GATEWAY, XS_RPCPROXY, XS_IME and the SQL modules are processes, sockets and library wrappers; the head of the SQL modules' lists is not repaired on erasure.
- SNDFILE, RCVFILE, SUP, SDOWN and the date, stat and formatting commands would add easy members only.
- Connection.Conn.BlkRcvBuf: a decrypted text that is longer than its buffer runs past the end of it, which is undefined in C; the model says what a comparison that starts at the buffer sees.
- Connection.Conn.WriteBuf: the server tags nothing; `tags` makes an end a peer that does, so that both directions can be composed.
- Channel.MessagesRoundTrip: messages are shorter than the buffer, as the protocol demands of its callers; longer ones overrun it.
- Paths are strings that fit in `PATH_MAX` and lines fit in `LINE_MAX`; the tree has no symbolic links, and allocation does not fail outside the descriptor table and the renewal of a token.
- LsrIter.LsrIter: the two nested loops of the source are one loop, which reads the top directory or closes it; the growth of its array of directories by 32 is not modelled.
- Copy.Cpr: hard links across devices and link counts at their limit are not modelled, so the first `mkdir` is the only failure.
- Remove.Rmr: stated for trees in which every directory opens and every entry can be read, and no call is refused for lack of permission.
- SecureFs.StepKeeps: waiting for the lock is a step that is not yet possible, so the processes that wait have no state of their own. That a blocking lock call may fail, and that `open` of the lock file is checked by `!lck`, is not modelled.
- SecureFs.ReadersSeeWholeLists: what `secfs_proc` then decides from the bits is one comparison and is an input of `Session` (`Answers.secfs`).
- NetMutex.RunsAreSequential: tokens are at most 254 bytes; the source writes past its buffer for longer ones.
- Session.Server.CmdParse: how a name is cut out of the buffer and put in upper case, and the handlers of ordinary commands, are not modelled; an ordinary command is one call of `jaildir`. The look-up in the user database is an input.
- FaiToken.UsesFindLastKey: two sessions that use one token at the same time are not modelled; times stay below 2^63 seconds.
- Descriptors.Xs1.CmdOpen: after a reply that cannot be sent the error message cannot be sent either, which ends the session.
