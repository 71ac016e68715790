# nastd, modelled and verified

nastd is a caching key/value daemon. A client asks for a key or sends new values
for it; the server answers from a memory cache, from a constant database file
(CDB), or through a queue of worker threads that ask an SQL server. This project
models the parts of it that carry hard properties and proves those properties
for all inputs, all runs and all interleavings:

- **CDB lookup** (`CdbFormat`, `CdbFind`, `CdbRecord`, `CdbWitness`, `CdbReal`): the
  wrapping probe over an arbitrary well-formed image finds the first record with
  the key, and says no only if there is none; one file, byte by byte.
- **Configuration parser** (`ConfigScan`, `ConfigNum` and the other `Config`
  files): the parser as it moves through its buffer computes a recursive function
  of the text; exactly which texts are numbers, and which numbers; and
  parsing what a printer wrote gives the tree back, at any depth and with any
  white space; exactly which strings, keys and files this holds for can be told
  from them.
- **MD5** (`Md5Spec`, `Md5Pad`, `Md5`): the incremental buffer, split counter and
  padding compute the digest of RFC 1321, sections 3.1 to 3.5.
- **Reader/writer lock** (`RwMutex`, `RwProtocol`) and **fallthrough queue**
  (`Fqm`, `FqmProtocol`, `FqmRun`): transition systems over the critical
  sections, with signals that wake several threads and spurious wakeups; the
  linked list is run under the steps of the queue's system.
- **Memory cache** (`CacheSpec`, `MemDb`, `CacheRuns`): hash chains relinked in
  place refine a map, and over every run an update is what a get returns.
- **Wire protocol, server and client** (`Wire`, `WireBytes`, `Codec`, `Client`,
  `ServerSpec`, `Server`, `Answers`, `History`, `EndToEnd`, `Replies`,
  `ReplyHistory`):
  what one client updates is what any client gets, from the buffer it sends to
  what a caller receives, over any history of connections, commands, workers and
  late answers; and which commands are replied to, on which connection.

Where the code changes state, the model does: classes over linked nodes and
arrays, loops over offsets. Each such method is proved to compute a function of
its inputs or of the old state, and the properties are proved of that function.
`Bytes`, `Separated` and `Wrappers` hold what the parts share. `CdbReal`,
`ConfigNumbers`, `ConfigSample`, `Md5Pad`, `WireBytes` and `Answers` say the same
in numbers and bytes, without the functions that the other files are stated with.

## Where the code and its promise part

Each of these is proved as the exact condition, with an input at which the
promise fails:

- The chunk size in `match` is fixed before its loop (server/cdb_find.c:32-34),
  and `cdb_findbykey` takes the image's length as an int (server/cdb.c:42). A
  stored key is found if and only if it is at most 32 bytes long or a multiple
  of 32, and the image is shorter than 2^31 bytes (`CdbFindByKey`,
  `LongKeyIsLost`, `LongImageIsLost`).
- The scanner counts braces whether quoted or not, and quotes within a string end
  it for the scanner (libconfig/Parser.m:21-53). A string is safe in every
  configuration if and only if it is not empty, its braces balance, its quotes
  pair up, and it has no `;` outside braces in a part its own quotes leave
  unquoted (`QuotedInert`, `StringSafe`). The empty string is not, nor is a lone
  quote (`EmptyUnsafe`, `QuoteUnsafe`).
- A key inside a dictionary is read back in every configuration if and only if it
  has no `=`, no NUL and no white space at its ends, its braces balance within the
  dictionary's own, its quotes pair up, and it has no `;` that these leave exposed
  (`KeyInert`, `KeySafe`); every other key is lost in one of four small
  configurations (`UnsafeKey`).
- A configuration file whose first key starts with `{` is taken for a braced
  dictionary (libconfig/DictData.m:86); every other file of readable keys and
  writable values parses back (`FileParses`, `BracedKeyLost`).
- The scanner is told that the body ends before its last character
  (libconfig/DictData.m:122). A file whose last `;` is missing is read without
  the last character of its last value, and as it was meant if and only if that
  value is the number 0 (`UnfinishedFileReads`, `UnfinishedFileParses`).
- `build_array` does not cut an empty item and takes it together with the one
  after it (server/nastdio.c:370-378). An update is answered OK if and only if its
  values make as many groups, in this sense, as the database has fields
  (`ItemsOfAnyList`, `UpdateAccepted`); so three values, one of them empty, pass
  for two fields (`EmptyValueTaken`). A get then decodes to the values that were
  sent, but for a last empty one whose separator ended an item (`UpdateThenGet`).
- `process_cmd` returns at the first command that fails, and the rest of the buffer
  is not looked at (server/nastdio.c:541-574). A command that asks is answered, or
  waits for the fallthrough, if and only if its own answer fits into a response and
  every command before it in its buffer goes on (`OneReply`, `ReachedIffPassed`,
  `AnsweredIffServed`); one behind an unknown option is dropped
  (`CommandIsDropped`).
- A response with no values decodes as one empty value; every other list of
  separator-free values decodes as itself (`ResponseDecodes`).
- A slot without a response is marked with -1 in an unsigned short
  (client/nastapi.c:113,254). A response with request id 65535, which
  `thread_id` can give (client/thread.c:44-48), is never seen by the thread that
  waits for it; all others are (`GotAmongOthers`, `WhatIsUpdatedIsGot`).
- `nast_get` and `nast_upd` count the bytes of a key that `snprintf` did not
  write (client/nastapi.c:744-746). The longest query that stays in the buffer
  has its last byte replaced by a NUL, and a key of 505 bytes its separator
  (`NastGet`, `NastUpd`).
- `do_opt_set` reads options in pairs (server/nastdio.c:129-131); an odd one out
  takes the first byte of the next command, or what follows the buffer, as its
  value (`DoOptSet`, `ProcessCmd`, `OddOptionReadsOn`).
- The test for a full queue is outside the lock and for equality
  (server/fqm.c:426). It bounds the queue if and only if at most one pusher is in
  flight, or there are no places; with two there is no bound at all
  (`BoundIffOnePusher`, `NoBoundForTwoPushers`).
- `i + 63 < inputLen` in `MD5Update` (server/md5.c:143) wraps exactly when the
  buffer is partly full and filling it up with the input would pass 2^32 bytes
  (`OverrunExactly`, `OverrunHappens`). `md5_calc` starts with an empty buffer, so it is right for
  every length an unsigned int can hold (`Md5Calc`).

## Model

| member | source | states |
|---|---|---|
| CdbFind.CdbFind | server/cdb_find.c:50-120 | on any image, 1 means the record that `ret` points into has the key, and the search ends with an error, in a table without slots, after a whole tour, or at the first probe that is not passed over; on a well-formed image and a comparable key, 1 exactly if the key is stored and 0 otherwise, with the data of the first match in probe order |
| CdbFind.Match | server/cdb_find.c:25-48 | 1 exactly if the length is at most 32 or a multiple of 32 and the image continues with the key, -1 for such a length exactly if the image runs out in a chunk before they differ; for other lengths no memory after the key makes it succeed |
| CdbFind.TrySlot | server/cdb_find.c:85-114 | one pass of the probe loop: which of empty, hit, passed and error it is, and what each says about the slot and its record |
| CdbFind.ProbeSettled | server/cdb_find.c:84-117 | in a well-formed image a hit is the lookup's answer, an empty slot proves the key absent, and a pass extends the run of misses |
| CdbFind.CdbBread | server/cdb_find.c:12-23 | fails exactly when the bytes are not there, and then leaves the pointer alone |
| CdbFind.ReadPair | server/cdb_find.c:86-91 | the bounds check and two little-endian words of a pointer, slot or record head |
| CdbFind.CdbHash | server/cdb_hash.c:4-16 | the shift-and-add loop computes the hash of the format, 33 h modulo 2^32 xor the byte; `CdbReal.HashOfKey` and the four after it say it in numbers |
| CdbFind.CdbUnpack | server/cdb_unpack.c:4-15 | four bytes read as a little-endian word |
| CdbFormat.ProbesDistinct | server/cdb_find.c:84-117 | the wrapping probe visits each slot at most once |
| CdbFormat.StoredIsProbed | server/cdb_find.c:81-117 | a stored key is met by some probe, with no empty slot before it |
| CdbFormat.LookupFindsStored | server/cdb_find.c:50-120 | the meaning of a lookup has an answer exactly for the stored keys |
| CdbFormat.EmptySlotProvesAbsence | server/cdb_find.c:93-94 | an empty slot after misses means the key is in no table |
| CdbFormat.FullTourProvesAbsence | server/cdb_find.c:117-119 | so does a whole tour of misses, or a table without slots |
| CdbRecord.CdbFindByKey | server/cdb.c:41-49 | on a well-formed image succeeds if and only if the key is stored and comparable and the length of the image is a positive int, with the data of its first record |
| CdbRecord.CdbGet | server/cdb.c:233-262 | on a well-formed image the fields of the first record with the key, under exactly that condition; on any image the fields of some record whose key is the one asked for |
| CdbRecord.FieldNames | server/cdb.c:175-210 | the counting pass and the cutting pass agree, and the names are the split of the terminated text |
| CdbRecord.CountNames | server/cdb.c:179-184 | counts one name more than there are separators |
| CdbRecord.CutNames | server/cdb.c:194-210 | cuts exactly the counted names |
| CdbRecord.NameEnd | server/cdb.c:196 | the inner scan stops at a separator or at the terminator and never passes it |
| CdbWitness.OneRecordWellFormed | server/cdb_find.c:50-120 | for every key and datum there is a well-formed image that stores them, so the lookup theorem is about something |
| CdbWitness.LongKeyIsLost | server/cdb_find.c:32-45 | every key of a length that cannot be compared is stored in a well-formed image where the search does not find it |
| CdbWitness.LongImageIsLost | server/cdb.c:41-46 | every key is stored in a well-formed image of 2^31 bytes or more, if it fits, where it is not found |
| CdbReal.HashOfKey | server/cdb_hash.c:4-16 | the hash of `_KEY_` is 237002738, so its pointer is number 242 |
| CdbReal.HashOfDb | server/cdb_hash.c:4-16 | the hash of `_DB_`, in numbers |
| CdbReal.HashOfTable | server/cdb_hash.c:4-16 | the hash of `_TABLE_`, in numbers |
| CdbReal.HashOfDelim | server/cdb_hash.c:4-16 | the hash of `_DELIM_`, in numbers |
| CdbReal.HashOfValues | server/cdb_hash.c:4-16 | the hash of `_VALUES_`, in numbers |
| CdbReal.ProbeOrder | server/cdb_find.c:81-116 | the slots of a table in the order of the search, from h / 256 modulo its size on |
| CdbReal.FileHoldsOne | server/cdb.c:107-113 | one file of 2079 bytes, written out, is well-formed and stores `_KEY_` and no other key |
| CdbReal.FileAnswers | server/cdb.c:107-113 | its data for `_KEY_` are the two bytes in that record |
| CdbReal.Search | server/cdb_find.c:50-120 | the search of that file returns 1 for `_KEY_`, with those bytes, and 0 for every other comparable key of at most 32 bytes |
| CdbReal.SearchCut | server/cdb_find.c:70-120 | the search for `_KEY_` in that file cut short anywhere returns -1 |
| Separated.JoinSplit | server/cdb.c:248-258 | joining the split fields gives the record back, and no field holds a separator |
| Separated.SplitJoin | client/nastapi.c:181-189 | splitting undoes joining for a non-empty list without separators |
| Separated.SplitCount | server/cdb.c:179-184 | one more field than there are separators |
| Separated.ItemsVersusFields | server/nastdio.c:370-378 | the items are the fields if no field is empty, and are fewer otherwise |
| Separated.ItemsOfJoined | server/nastdio.c:370-378 | the server recovers a joined list, or just its length, exactly when no item is empty |
| Separated.ItemsOfAnyList | server/nastdio.c:370-378 | for every list of values: how many items the server makes of it, and that joined again they are the list without a last empty value whose separator ended an item |
| Separated.NothingLost | server/nastdio.c:370-378 | without empty values each is an item of its own and none is lost |
| Separated.ItemsNonEmpty | server/nastdio.c:370-378 | the server never makes an empty item |
| Separated.ItemsRejoined | server/nastdio.c:370-378 | joining the items gives the text back but for one trailing separator |
| ConfigScan.GetLineLen | libconfig/Parser.m:14-57 | the least position of a `;` outside quotes and with both counts zero, or the whole length |
| ConfigScan.LineLenLeast | libconfig/Parser.m:21-24 | every position before the result does not stop the scan, and the result does if it is not the end |
| ConfigScan.IntactMeans | libconfig/Parser.m:21-56 | a text is passed over whole exactly when it has no stopping position |
| ConfigInert.QuotedInert | libconfig/Parser.m:21-53 | every text: quoted, it leaves the scanner as it was in every context if and only if its braces balance, its quotes pair up and no `;` of it is exposed |
| ConfigInert.KeyInert | libconfig/Parser.m:21-53 | every text: as a key it leaves the scanner as it was at every depth inside a dictionary if and only if its braces balance there, its quotes pair up and no `;` of it is exposed |
| ConfigInert.WalkApart | libconfig/Parser.m:26-53 | the scanner's quote flag and two counts do not depend on each other |
| ConfigNum.DecimalParses | libconfig/NumData.m:20-40 | for every 64-bit long, strtol with base 0 reads what `%ld` printed, and all of it |
| ConfigNumbers.NumeralReads | libconfig/NumData.m:29-40 | every numeral, with white space, sign, `0x`, `0X` or `0` before hexadecimal digits in either case, octal or decimal ones, is read as the sum of its digits at their places, within the bounds of a long |
| ConfigNumbers.OnlyNumerals | libconfig/NumData.m:29-40 | every other text without a NUL, but the empty one, is not a number |
| ConfigNumbers.EmptyIsZero | libconfig/NumData.m:29-40 | the empty text is the number 0 |
| ConfigNumbers.UpToNul | libconfig/NumData.m:29-40 | a NUL ends the number, whatever is behind it |
| ConfigParser.GetDataFrom | libconfig/Parser.m:69-94 | the dispatching, recursive parser computes GetData of the text, and ends; `ConfigRoundTrip.DataParses`, `ConfigNumbers.NumeralReads` and `ConfigSample.FileReads` say what that is |
| ConfigParser.DictSetFromBuffer | libconfig/DictData.m:64-150 | the dictionary loop over a moving offset computes ParseDict |
| ConfigParser.ArraySetFromBuffer | libconfig/ArrayData.m:64-120 | the array loop computes ParseArray |
| ConfigParser.StringSetFromBuffer | libconfig/StringData.m:66-89 | the quote search from both ends computes ParseStr |
| ConfigParser.NumSetFromBuffer | libconfig/NumData.m:29-40 | strtol with base 0 of the text, or nothing if characters are left over; what that is, `ConfigNumbers.NumeralReads` and `OnlyNumerals` say without it |
| ConfigParser.FindBody | libconfig/DictData.m:76-96 | white space and braces taken off both ends, or an error for a missing partner |
| ConfigParser.NextEntry | libconfig/DictData.m:105-124 | the key and the value text of one entry, and where the next begins |
| ConfigParser.TakeKey | libconfig/DictData.m:114-116 | the key before the equals sign without the spaces after it, but never without its first character |
| ConfigParser.NextItem | libconfig/ArrayData.m:102-107 | the text of one array item, and where the next begins |
| ConfigParser.Children.AddChild | libconfig/DictData.m:43-62 | the contents grow by the child, across reallocations of the array |
| ConfigParser.FindChild | libconfig/DictData.m:157-165 | the first entry with the key, or none exactly when no entry has it |
| ConfigParse.CutEntry | libconfig/DictData.m:105-124 | every entry leaves strictly less to read, and its value is shorter than the text it is in |
| ConfigParse.CutItem | libconfig/ArrayData.m:102-107 | the same for an array item; so the recursion ends |
| ConfigParse.LastQuote | libconfig/StringData.m:77-79 | the last quote after the first, or the first if there is no other |
| ConfigPrint.PrintInert | libconfig/Parser.m:21-56 | the printed text of every writable tree passes the scanner unharmed |
| ConfigRoundTrip.DataParses | libconfig/Parser.m:69-94 | parsing the printed text of a writable tree gives back exactly that tree, at any depth and with any white space |
| ConfigRoundTrip.EntriesParse | libconfig/DictData.m:98-146 | the dictionary loop reads printed entries back, in order |
| ConfigRoundTrip.ItemsParse | libconfig/ArrayData.m:98-116 | the array loop reads printed items back, in order |
| ConfigRoundTrip.StringParses | libconfig/StringData.m:66-89 | a quoted text reads as its content, even with quotes inside it |
| ConfigSafety.FileParses | libconfig/DictData.m:64-150 | a printed file of plain keys and writable values parses back exactly when its first key does not start with a brace |
| ConfigSafety.StringSafe | libconfig/Parser.m:21-53 | every string: it is not empty and quotable if and only if it is writable, if and only if three small configurations that hold it parse back |
| ConfigSafety.UnsafeProbe | libconfig/Parser.m:21-53 | for every other string, one of the three that does not |
| ConfigSafety.EmptyUnsafe | libconfig/StringData.m:77-84 | the empty string has balanced braces and is not read back at all |
| ConfigSafety.QuoteUnsafe | libconfig/Parser.m:47-52 | a lone quote has balanced braces and makes the scanner swallow the next item |
| ConfigSafety.CutsInside | libconfig/Parser.m:21-24 | an exposed terminator ends the string early, and the configuration does not parse back |
| ConfigSafety.RunsOn | libconfig/Parser.m:21-24 | after a string that leaves a brace or a quote open, the next item is swallowed |
| ConfigSafety.CutsShortArray | libconfig/ArrayData.m:86-91 | a string that closes its array's bracket makes the parse fail |
| ConfigSafety.CutsShortDict | libconfig/DictData.m:86-91 | the same for a dictionary |
| ConfigKeys.KeySafe | libconfig/DictData.m:105-124 | every key: it can be written if and only if four small configurations that hold it parse back |
| ConfigKeys.UnsafeKey | libconfig/DictData.m:105-124 | for every other key, one of the four that does not |
| ConfigKeys.LostInDict | libconfig/Parser.m:21-53 | a key that leaves the scanner elsewhere, or stops it, loses its dictionary |
| ConfigKeys.LostDeeper | libconfig/Parser.m:21-53 | a key that merges two brace depths makes the parse fail in a deeper dictionary |
| ConfigKeys.LostInArray | libconfig/Parser.m:21-53 | one that merges two bracket depths makes it fail in an array |
| ConfigKeys.BracedKeyLost | libconfig/DictData.m:86-91 | the key `{}` is safe in a dictionary, and a file it comes first in is not read back |
| ConfigKeys.MissingEquals | libconfig/DictData.m:108-113 | a text with no equals sign is not a dictionary |
| ConfigKeys.QuoteNeedsPartner | libconfig/StringData.m:66-84 | a text that starts with its only quote is an error |
| ConfigKeys.NoQuoteNoString | libconfig/StringData.m:66-76 | so is, for a string, a text without any |
| ConfigKeys.KeyBeforeIs | libconfig/DictData.m:114-116 | the key before an equals sign loses white space at its end, all of it, and never its first character |
| ConfigSample.FileReads | libconfig/Parser.m:69-94 | one configuration, character by character, and the tree it is read as |
| ConfigTail.UnfinishedFileReads | libconfig/DictData.m:98-124 | a file without its last `;` is read as it is, but for the last character of its last value |
| ConfigTail.LastReadIs | libconfig/DictData.m:122 | what that makes of a value: a number loses its last digit, a dictionary or array is an error, a string is never itself |
| ConfigTail.UnfinishedFileParses | libconfig/DictData.m:98-124 | such a file is read as it was meant if and only if its last value is the number 0 |
| Md5.Md5Calc | server/md5.c:92-101 | for every input the output starts with the encoding of the folded, padded message, as far as there is room, and is otherwise unchanged; `Md5Pad` says in bytes which message, which words and how far |
| Md5Pad.PaddedIsPad | server/md5.c:158-176 | a text is the padded message if and only if it is the message, the byte 128 and zeros, as short as a multiple of 64 can be with at least nine bytes added, and its last eight bytes weighted by powers of 256 are eight times the length modulo 2^64 |
| Md5Pad.StartsWith | server/md5.c:106-115 | the four words it starts with, as the sixteen bytes of RFC 1321, section 3.3 |
| Md5Pad.FoldIs | server/md5.c:139-144 | a message is folded in block by block, from the first |
| Md5Pad.OutputIs | server/md5.c:158-180 | the digest is the sixteen bytes whose four words, low-order byte first, are the chaining variables |
| Md5Pad.CalcIs | server/md5.c:92-101 | what md5_calc leaves in its output, in these terms: the four words, and then what was there before |
| Md5Pad.RoomFor | server/md5.c:277-291 | how many bytes of a digest are written for each room |
| Md5.Md5Ctx.Init | server/md5.c:106-115 | the context of the empty message |
| Md5.Md5Ctx.Update | server/md5.c:122-152 | chaining state, counter and live buffer bytes are those of Absorb |
| Md5.Md5Ctx.CountBits | server/md5.c:130-134 | the carry found by comparison makes the two words a 64-bit addition |
| Md5.Md5Ctx.TransformBlocks | server/md5.c:139-144 | every whole block is folded in, in order, and less than a block is left |
| Md5.Md5Ctx.Final | server/md5.c:158-180 | the digest of the finished context, written as far as there is room, and the context zeroed |
| Md5.Encode | server/md5.c:277-291 | whole words, low byte first, that fit; the comparison is unsigned, so a room under four bytes is no limit |
| Md5.Decode | server/md5.c:297-307 | the words that Encode would write as these bytes |
| Md5.BytesDetermineWords | server/md5.c:277-307 | different words are written as different bytes, so decoding undoes encoding |
| Md5.OverrunExactly | server/md5.c:143 | the transform loop's guard is true after the last whole block if and only if the 32-bit sum wraps |
| Md5.OverrunHappens | server/md5.c:143 | with one byte in the buffer and 2^32 - 1 more it does |
| Md5Spec.AbsorbIsAppend | server/md5.c:122-152 | updating the context of m with an input gives the context of m followed by the input |
| Md5Spec.ChunksDoNotMatter | server/md5.c:122-152 | any way of cutting a message into updates gives the same context |
| Md5Spec.FinishDigests | server/md5.c:158-176 | padding by the counter's index and appending the saved counter digests the padded message of RFC 1321, with nothing left in the buffer |
| Md5Spec.CounterIsBitCount | server/md5.c:130-134 | the two words are eight times the bytes taken in, modulo 2^64 |
| Md5Spec.CarryIsAddition | server/md5.c:131-134 | shifted sum, carry by comparison and top three bits are one 64-bit addition |
| RwMutex.RwMutexT.constructor | server/thread.c:64-87 | a new lock is free and nobody waits |
| RwMutex.RwMutexT.TryRead | server/thread.c:101-109 | a reader's critical section: the lock is taken, or nothing changes and it waits |
| RwMutex.RwMutexT.TryWrite | server/thread.c:127-137 | a writer's: taken, or counted as blocked |
| RwMutex.RwMutexT.ResumeWrite | server/thread.c:128-137 | a writer after the wait is uncounted, then tests again |
| RwMutex.RwMutexT.ReleaseLock | server/thread.c:143-171 | the new state and whom it signals: a writer if one is blocked, else all readers after a write |
| RwProtocol.StepKeepsInv | server/thread.c:89-171 | every critical section, by any thread in any order, keeps the counts and loses no wakeup |
| RwProtocol.RunKeepsInv | server/thread.c:89-171 | so does every run |
| RwProtocol.MutualExclusion | server/thread.c:101-167 | state is -1 exactly when one writer and no reader holds the lock, and otherwise the number of readers; blocked_writers counts the writers inside the wait |
| RwProtocol.SleepersHaveReason | server/thread.c:102-167 | an unsignalled reader implies a writer, and an unsignalled writer at a free lock a woken one |
| RwProtocol.SomeoneCanMove | server/thread.c:89-171 | whenever some thread is asleep a holder can unlock or a woken writer can take the lock |
| RwProtocol.WhoEnters | server/thread.c:101-137 | a reader gets the lock at once exactly if no writer has it or waits for it, a writer exactly if nobody has it |
| RwProtocol.WhomUnlockWakes | server/thread.c:155-166 | an unlock by a holder returns 0; it signals a writer exactly if the lock is then free and a writer is inside the wait, and all readers exactly if a writer leaves and none is |
| RwProtocol.RefusedIffFree | server/thread.c:155-170 | 22 is returned exactly if nobody has the lock, and then nothing changes and nobody is signalled |
| RwProtocol.NoReaderEnters | server/thread.c:101-109 | while a writer is blocked no step adds a reader |
| RwProtocol.WritersGoFirst | server/thread.c:101-109 | over a run with a writer blocked the readers only leave, each by one unlock |
| RwProtocol.LastReaderWakesWriter | server/thread.c:155-158 | after as many read unlocks as there were readers the lock is free and a writer has been woken |
| RwProtocol.SettlingEnds | server/thread.c:89-171 | a run without arrivals and spurious wakeups is no longer than a budget fixed at its start |
| RwProtocol.SettledMeansAllServed | server/thread.c:89-171 | such a run can stop only when every thread has had the lock and left |
| Fqm.FqmT.Append | server/fqm.c:434-440 | the linked list from sreq to ereq grows by the request at its end, even when ereq is stale |
| Fqm.FqmT.Push | server/fqm.c:423-446 | refused exactly at maxitems, and otherwise queued last |
| Fqm.FqmT.Take | server/fqm.c:73-85 | the first request is unlinked and returned, or null if there is none |
| FqmRun.SharedQueue.CheckRoom | server/fqm.c:426-429 | on the list, the check is the Check step of the pool, and full exactly when the pusher does not go on |
| FqmRun.SharedQueue.PushLocked | server/fqm.c:431-445 | the critical section of a push is the pool's Push step, and the request gets the next ticket |
| FqmRun.SharedQueue.PopLocked | server/fqm.c:66-85 | up to the wait, or to the end, a pop is the pool's Pop step, and the worker has the request of its ticket or none |
| FqmRun.SharedQueue.ResumeLocked | server/fqm.c:73-85 | after the wait, it is the Resume step, with the request of its ticket or none |
| FqmProtocol.StepKeepsInv | server/fqm.c:54-122 | every step of every pusher and worker keeps order, conservation and the wakeup invariant |
| FqmProtocol.RunKeepsInv | server/fqm.c:54-122 | so does every run |
| FqmProtocol.NoMissedWakeup | server/fqm.c:66-85 | if a worker sleeps, at most as many requests are queued as workers are ready or woken, despite the single `if` and spurious wakeups |
| FqmProtocol.EachRequestOnce | server/fqm.c:73-113 | requests are taken in the order of acceptance, and each accepted one is queued, with exactly one worker, or finished; nitems is the length of the queue |
| FqmProtocol.BoundForOnePusher | server/fqm.c:426-440 | from the start, with at most one pusher between check and lock, nitems never passes maxitems |
| FqmProtocol.NoBoundForTwoPushers | server/fqm.c:426-440 | for every n a run with two pushers in flight that queues at least n requests |
| FqmProtocol.BoundIffOnePusher | server/fqm.c:426-440 | the bound holds in every run with at most p pushers in flight if and only if p is at most one, or there are no places |
| FqmProtocol.DrainingEnds | server/fqm.c:54-114 | without new requests and spurious wakeups every run is no longer than a budget fixed at its start |
| FqmProtocol.DrainedMeansFinished | server/fqm.c:54-114 | and where it can go no further every accepted request is finished |
| MemDb.HashKey | server/memdb.c:55-65 | the bucket is the first word of the key's digest modulo the table size |
| MemDb.BucketIs | server/memdb.c:55-65 | the bucket is the first chaining variable of the key's digest modulo 1024 |
| MemDb.MemDbT.constructor | server/memdb.c:83-131 | an empty map over 1024 separate buckets |
| MemDb.MemDbT.Get | server/memdb.c:324-397 | exactly the map effect and answer of CacheSpec.Get; every other key untouched |
| MemDb.MemDbT.Add | server/memdb.c:158-271 | exactly the map effect of CacheSpec.Add |
| MemDb.MemDbT.Update | server/memdb.c:399-450 | exactly the map effect and result of CacheSpec.Update |
| MemDb.MemDbT.Delete | server/memdb.c:273-322 | the map effect of CacheSpec.Delete; a missing key is added first |
| MemDb.Bucket.Find | server/memdb.c:332-338 | the entry with the key and the one before it, or none exactly when the chain has no such key |
| MemDb.Bucket.FindOrLast | server/memdb.c:224-231 | the entry with the key, or else the last of the chain |
| MemDb.Bucket.Get | server/memdb.c:340-396 | an out-of-date entry is unlinked and not found, a deleted one is found without values |
| MemDb.Bucket.Unlink | server/memdb.c:357-362 | the chain without that entry, still linked, with the other keys' entries |
| MemDb.Bucket.Add | server/memdb.c:218-265 | insert into an empty bucket, replace an expiring or deleted entry in place, leave an updated one alone, or append |
| MemDb.Bucket.Replace | server/memdb.c:246-253 | the new entry stands where the old one was |
| MemDb.Bucket.Append | server/memdb.c:263 | the chain with the entry at its end |
| MemDb.Bucket.Refill | server/memdb.c:429-441 | the entry has the new values and time, and the type of an update |
| CacheRuns.UpdateSticks | server/memdb.c:256-261 | an updated entry survives every run that leaves the key alone, late adds included |
| CacheRuns.GetAfterUpdate | server/memdb.c:399-450 | after a successful update at t every get returns its values until the database is newer than t, and then misses unless the key was added again |
| CacheRuns.GetAfterAdd | server/memdb.c:216-265 | an answer of the fallthrough that finds the key free is served like an update |
| CacheRuns.GetAfterEmptyAdd | server/memdb.c:350-367 | an empty answer is served until it expires and not after, over every run that leaves the key alone |
| CacheRuns.DeletedIsEmpty | server/memdb.c:345-349 | a deleted key is found, without values, whatever its entry still holds |
| CacheRuns.GetAfterDelete | server/memdb.c:238-254 | a deleted key is found without values at any time and for any database, until an answer of the fallthrough replaces it |
| CacheRuns.MissThenAdd | server/memdb.c:350-387 | a get that misses leaves the key out of the cache, so that a later answer of the fallthrough is kept and served, whatever was there before |
| CacheRuns.KeysAreApart | server/memdb.c:158-450 | what the cache says of a key depends on what it said of it before and on the operations on that key alone |
| Wire.FramesOfConcat | server/nastdio.c:523-530 | frames sent back to back are received as those frames, in order |
| Wire.WholeIsCovered | server/nastdio.c:523-530 | whole frames in a buffer are found as such, whatever follows it in memory |
| Wire.CommandReads | server/nastdio.c:523-545 | a received command has the request id, code and arguments it was sent with |
| Wire.ResponseReads | client/nastapi.c:360-378 | a received response has the request id, code and data it was sent with |
| WireBytes.FrameBytes | client/nastapi.c:741-750 | the texts that are frames: two bytes of length, two of request id, the high one first, then the body, and no other |
| WireBytes.ReadsBytes | server/nastdio.c:523-530 | what the receivers read as length and id |
| WireBytes.GetBytes | client/nastapi.c:730-752 | a get command in bytes: 255, 4, the query, whose 506th byte is replaced by 0 |
| WireBytes.UpdateBytes | client/nastapi.c:778-821 | an update command in bytes: 255, 3, the key, 252, the values with 252 between them; and that there is none exactly if key and values need more than 505 bytes |
| WireBytes.BareBytes | client/nastapi.c:754-776 | the bytes 255, 15 of a die command, and 255, 32 of a stats command |
| WireBytes.ResponseBytes | server/nastdio.c:39-100 | a response in bytes |
| Codec.PackItems | server/nastdio.c:61-77 | succeeds exactly when the joined items fit, and then has written just them, touching nothing before |
| Codec.SplitAll | client/nastapi.c:181-189 | the fields of the data; joined, they give it back |
| Codec.BuildArray | server/nastdio.c:357-383 | the items of the text, in the server's sense |
| Codec.ScanKey | server/nastdio.c:393-396 | the length of the key before the first separator |
| Client.NastGet | client/nastapi.c:730-752 | the frame of a get command; a query of 506 bytes, the longest that stays in the buffer, loses its last byte |
| Client.NastUpd | client/nastapi.c:778-821 | the frame of an update command, or refused exactly when it does not fit, for keys of any length |
| Client.NastStats | client/nastapi.c:823-845 | the frame of a stats command |
| Client.NastDie | client/nastapi.c:754-776 | the frame of a die command |
| Client.Sphincter.Prepare | client/nastapi.c:139-161 | the thread has an empty slot and the other slots are unchanged |
| Client.Sphincter.AddResponse | client/nastapi.c:194-228 | kept in the slot of its request id, or dropped if there is none |
| Client.Sphincter.Receive | client/nastapi.c:347-380 | every response before the first munged length is delivered, in order, a length without room for data included; an error exactly for a short read or a munged length |
| Client.Sphincter.GetResult | client/nastapi.c:245-258 | the decoded result of the thread's slot, or none if the slot is marked empty, by comparison of shorts |
| Client.GotAmongOthers | client/nastapi.c:194-258 | the thread that sent a command gets its response, among any for other threads, if and only if its id is not 65535 |
| WireBytes.LastIsGot | client/nastapi.c:194-258 | of several responses to a thread the last is got, after any others: its code 241, 242 or another as error code and its fields, and an error without data if it was too short for any |
| WireBytes.NothingYet | client/nastapi.c:230-258 | what a slot held before a command is not taken for its answer |
| WireBytes.OthersKept | client/nastapi.c:139-161 | making room for a thread leaves what every other has got, or has not, as it was |
| WireBytes.BogusEnds | client/nastapi.c:360-380 | responses up to a length that is 0, 32768 or more, or more than was received are delivered, and that length is an error |
| WireBytes.ShortGoesOn | client/nastapi.c:360-380 | a length of one to four is believed: it makes a response without data, and the loop goes on |
| Client.WholeIsRead | client/nastapi.c:360-380 | whole responses back to back are all delivered |
| ServerRun.Session.constructor | server/nastdio.c:630-639 | a connection starts with the default options |
| ServerRun.Session.SendResponse | server/nastdio.c:39-100 | one frame written, or nothing if the items do not fit |
| ServerRun.Session.DoUpdate | server/nastdio.c:385-434 | the effect on cache and socket of the update handler |
| ServerRun.Session.DoGet | server/nastdio.c:280-355 | cache, then database, then queue, as the options say; `Answers.GetIsAnswered` gives the bytes of the answer |
| ServerRun.Session.QueueRequest | server/nastdio.c:326-345 | a request is queued last, or refused with an error when the queue is full |
| ServerRun.Session.TakeRequest | server/fqm.c:73-85 | the oldest request goes from the queue to the worker |
| ServerRun.Session.DoFallthrough | server/nastdio.c:244-278 | a request that some worker has taken is answered on the connection that asked, whatever others have been, and its answer cached only if it could be sent; `Answers.FallthroughIsAnswered` gives the bytes |
| ServerRun.Session.DoOptSet | server/nastdio.c:123-182 | options are set pair by pair, an odd one with the byte that follows, and those before an unknown one have taken effect; `Answers.OneOption` says which byte sets which |
| ServerRun.Session.DoOptGet | server/nastdio.c:184-242 | the six options, as code and flag |
| ServerRun.Session.Command | server/nastdio.c:531-574 | one frame is dispatched to its handler, and the return code says whether to go on, end the connection, or give up the buffer |
| Answers.GetIsAnswered | server/nastdio.c:280-355 | under every setting of the options, the bytes a get is answered with, which of cache and database they come from, and when it is queued or refused: 241 and the values, 241 and nothing for a miss that may not fall through, 242 and the message for a full queue |
| Answers.UpdateIsAnswered | server/nastdio.c:385-434 | an update without a separator is answered 242 and a message, and changes nothing |
| Answers.UpdateIsDone | server/nastdio.c:385-434 | any other is answered 241 and stored if it has as many items as fields, and else answered 242 and a message |
| Answers.StatsAreAnswered | server/nastdio.c:436-505 | stats are answered 241 and the statistics |
| Answers.OptionsAreAnswered | server/nastdio.c:184-242 | the twelve bytes that an options command is answered with |
| Answers.SettingIsAnswered | server/nastdio.c:123-182 | a set command is answered 241, or 242 and a message if an option is not known |
| Answers.OneOption | server/nastdio.c:132-174 | each option byte sets its own option and no other, to anything but 0 |
| Answers.UnknownOption | server/nastdio.c:132-174 | which bytes are options; setting another changes nothing |
| Answers.OptionsInTurn | server/nastdio.c:123-182 | options are set one after the other, up to the first unknown one |
| Answers.OptionsRoundTrip | server/nastdio.c:123-242 | setting what a server says its options are gives every connection those options |
| Answers.OthersAreNotAnswered | server/nastdio.c:531-574 | add and delete commands change nothing and are not answered, a die command ends the connection, and anything else is an error |
| Answers.FallthroughIsAnswered | server/nastdio.c:244-278 | what the client is sent when the SQL server has no answer, 241 and nothing, or one, or one too long, and that only one that was sent is cached |
| Answers.WroteDecodes | client/nastapi.c:194-228 | what the client library makes of each of these answers |
| Answers.NewConnection | server/nastdio.c:630-639 | a connection starts with cache and database on and the other options off |
| ServerRun.Session.ProcessCmd | server/nastdio.c:507-578 | every frame from the start of the buffer is dispatched in order, the last one even if it runs on past the buffer; 1 is returned exactly if the loop comes to a die command, and -1 exactly if another frame stops it or the buffer is shorter than a head |
| EndToEnd.ManyCommandsInOneBuffer | server/nastdio.c:507-578 | any client commands in one buffer are carried out as exactly those commands, in order, with their ids and arguments |
| History.DispatchRunsOps | server/nastdio.c:280-434 | the cache changes of a command are those of a short run of cache operations |
| History.EventsRunOps | server/nastdio.c:244-434 | any history of connections that come and go, of received buffers, of requests taken by workers and of answers in any order acts on the shared cache as a run of cache operations |
| EndToEnd.ResponseDecodes | client/nastapi.c:163-192 | a response decodes to the list that was sent if and only if the list has items and none holds a separator; no items decode as one empty one |
| EndToEnd.UpdateAccepted | server/nastdio.c:385-434 | for every list of values, an update is answered OK and stored if and only if the values make as many groups as the database has fields, and otherwise changes nothing; what is stored has no empty value and is the list sent if and only if that has none |
| EndToEnd.EmptyValueTaken | server/nastdio.c:370-378 | three values, one of them empty, make two groups, the second holding a separator |
| EndToEnd.UpdateThenGet | server/nastdio.c:280-434 | after every update answered OK, a get by any client decodes to the values sent, but for a last empty one if its separator ended an item, whatever came between on any connection that leaves the key alone, until the database is newer |
| EndToEnd.WhatIsUpdatedIsGot | client/nastapi.c:730-821 | the same from the buffers the clients send to what a caller gets among responses for other threads: those values, if and only if the id of its thread is not 65535 |
| EndToEnd.DatabaseThenGet | server/nastdio.c:310-318 | a stored, comparable key that is not cached is answered with the fields of its first record |
| EndToEnd.MissIsQueued | server/nastdio.c:310-345 | a get goes to the fallthrough queue, with nothing written, if and only if the cache misses and the database does not store the key or cannot be searched for it |
| EndToEnd.FallthroughThenGet | server/nastdio.c:244-278 | the answer of the fallthrough is written to the connection that asked and to no other, and unless the key was updated meanwhile every later get by any client decodes to it |
| EndToEnd.EmptyAnswerExpires | server/memdb.c:350-367 | an empty answer is what a get is answered with until it expires, and from then on the cache has nothing |
| Replies.OneReply | server/nastdio.c:507-578 | each get, update, stats or option command the loop comes to has one frame with its request id or is queued, unless its answer is too long, adds and deletes have none; and the exact condition for the loop to go on |
| Replies.ReachedIffPassed | server/nastdio.c:523-574 | the loop comes to a frame if and only if every frame before it goes on |
| Replies.ProcessEnds | server/nastdio.c:507-578 | the loop ends the connection exactly if it comes to a frame with 255 and 15, and gives up exactly if it comes to another that stops it |
| Replies.NoneLost | server/nastdio.c:523-574 | no reply of a buffer is missing if and only if every command in it that asks is reached and its answer fits |
| Replies.CommandIsDropped | server/nastdio.c:547-550 | a command behind an unknown option has no reply and is not kept |
| Replies.OddOptionReadsOn | server/nastdio.c:129-135 | an odd option is set by the byte behind its command |
| ReplyHistory.AnsweredIffServed | server/nastdio.c:507-578 | a received command that asks has a reply, written or to come, if and only if every command before it goes on and its own answer fits |
| ReplyHistory.RepliesBalance | server/nastdio.c:244-578 | over every history, on every connection, the replies written or to come are one for each command received that asks, by request id, but for those counted as lost |
| ReplyHistory.AllReplied | server/nastdio.c:244-578 | once nothing of a connection is queued or with a worker, each id has been replied to as often as it was asked with if and only if every command was served and every answer could be written |
| ReplyHistory.RequestsKnown | server/nastdio.c:262-267 | every request belongs to a connection there is or was |
| ReplyHistory.OpenUnlessDie | server/nastdio.c:622-623 | a connection is open after a received buffer if and only if the loop comes to no frame with 255 and 15 |
| ReplyHistory.TakenInOrder | server/fqm.c:73-85 | over every history the requests are taken in the order in which they were queued, whoever queued them, and none is skipped |

## Left out

- The 64 steps and constants of `MD5Transform`: the block transform is a parameter, and every result holds for any.
- Sockets, `select`, partial frames and partial writes, timeouts, logging, `mmap` and `stat`: buffers, images, the clock and the modification time are parameters; each handler reads one clock value.
- ServerRun.Session.ProcessCmd: every length field it meets covers at least the six bytes of a head. For less, `len-l` underflows or the loop does not move on, and the code does not check it.
- ServerRun.Session.Command: takes frames of at least a head, for the same reason, and a well-formed database.
- ServerRun.Session.DoGet: takes a well-formed database, whose answer is known; what a lookup in any other image can return is stated for `CdbFind` and `CdbGet`.
- Client.Sphincter.Receive: a response with request id 0 is excluded; it addresses the slot before the first, whose content is not defined. `thread_id` gives 0 to a process whose id is a multiple of 65536 (client/thread.c:44-48). A frame too short for data leaves a slot without a buffer, which is modelled as an empty one.
- Client.Sphincter.AddResponse: excludes request id 0, for the same reason.
- Client.Sphincter.Prepare: excludes thread id 0, for the same reason.
- Client.Sphincter.GetResult: excludes thread id 0, for the same reason.
- EndToEnd.WhatIsUpdatedIsGot: excludes thread id 0, for the same reason; the database has at least one field, as every one that `cdb_new` loads.
- EndToEnd.UpdateThenGet: the database has at least one field, as every one that `cdb_new` loads.
- Client.NastGet: a query of more than 506 bytes would be sent from beyond the buffer.
- Client.NastUpd: so would a key of more than 505 bytes without any values.
- Md5.Md5Ctx.Update: excludes exactly the inputs for which the transform loop reads past their end, where the result is not defined.
- Md5.Md5Ctx.TransformBlocks: excludes the same inputs.
- Connections have names of their own. A socket number that is used again while a request of the closed connection is pending would get its answer.
- Codec.PackItems: the separator after an item that exactly fills the buffer is written without a check for room, here into one extra byte of the array; the next item then fails.
- MySQL: a fallthrough answer is an arbitrary list of values or none.
- The concurrency of the cache: its operations are sequential, and `memdb_del` has its map effect without its locking.
- memdbsize, the rate counters and the texts of statistics: the statistics are an arbitrary list.
- malloc failures and freeing of memory; error returns of `pthread_cond_wait` and of the mutexes.
- Buckets are objects that hold the head of a chain, where the code has a bare pointer in the array.
- The class hierarchy of configuration objects: a parsed tree is a datatype, and only the growing child array is an object. Key and text are C strings that end where their length says.
- CdbWitness.LongKeyIsLost: says that the search does not succeed; whether it returns 0 or -1 depends on the memory after the key.
- CdbFind.CdbFind: on a malformed image a success says nothing about the declared data length, as in the code.
- `fqm_delete`, `dieflag` and `fqm_changemaxitems`: shutdown deliberately drops requests.
- The client's options calls and the options codec: fixed-size and easy. The server's side of it is modelled.
- The SQL, logging, periodic, start-up and Perl parts, and the tools.
