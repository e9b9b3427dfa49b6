# Nut/OS runtime and driver logic in Dafny

A verification project for the parts of the Nut/OS C runtime and drivers that hold self-contained logic:
reference-counted network buffers, calendar and time zone arithmetic, formatted output and input, the
persistent environment, the JTAG TAP driver with its bit queue, the configuration store in serial flash, the
chat matcher, and two hand-overs between interrupt handlers and threads.

Each area has a specification (functions on values), the source's functions as methods that change arrays,
fields and linked nodes in place and are proved to do what the specification says, and lemmas about the
specification that say what it is for. `dafny verify dfyconfig.toml` checks the whole project.

| files | area |
|---|---|
| `NetBuf`, `NetBufOps`, `NetBufRuns`, `NetBufHeap` | network buffers: the heap and its invariant, the operations, collecting and whole histories, the functions in place |
| `Calendar`, `Timezone` | breaking down time stamps; daylight saving rule and local time |
| `Numeral`, `Putf`, `Getf`, `GetfRun`, `Directives`, `RoundTrip`, `FieldTrip`, `SizeTrip`, `Grammar`, `Conform` | numbers as text, printing, scanning, what the modifiers mean, reading back what was printed, and the C standard's text of a field |
| `EnvModel`, `EnvStore`, `EnvRuns`, `EnvList` | environment: ordered list and map, encoding in memory, runs over restarts, the linked list |
| `JtagTap`, `JtagCable` | TAP controller, path table and driver; packed TMS queue |
| `NvMem`, `FlashConfig` | flat memory; configuration area in paged flash |
| `Chat` | incremental matching of expected and abort strings |
| `TxQueue`, `GenChar` | transmit queue of the Ethernet driver; receive buffer of the character driver |

## What the proofs found

Some properties hold only under a condition; the condition is proved exact where the table says "if and only
if".

- A printed list of numbers is read back with its own format if and only if it has at most one number or the
  separator is none of the characters the integer scanner swallows (digits, `A`-`F`, `a`-`f`, `x`, `X`, `+`,
  `-`): such a character ends a number without being kept for the literal that follows. The 8-bit counter
  makes the returned count right only up to 255 numbers.
- `%d`, `%i` and `%u` print what section 7.19.6.1 of ISO/IEC 9899:1999 asks for, with every flag, width and
  precision. `%o` does so if and only if it is not `#` with precision 0 applied to 0. `%x` and `%X` without `#`
  do so if and only if they are not applied to 0 with precision 0; with `#`, if and only if the number is not 0,
  the precision is at most its number of digits, and no zeros are to fill the width: the prefix is counted among
  the digits and put behind the zeros, and 0 gets one, too (`0x0`).
- An integer conversion takes the longest start of the text that is well-formed in its base. In base 16 an x needs no
  0 in front of it, and a sign may stand behind it; `strtol` makes 0 of that.
- Texts above 2^31 - 1 are cut by `strtol`, for `%u`, `%o` and `%x`, too.
- A character that already waits, as behind a number or behind white space in the format, is dropped by `%c`: the
  conversion is counted and nothing is stored.
- Removing the only environment variable is not stored, and the variable is back at the next look-up. A name
  that is empty hides everything behind it after a restart. A stored list is loaded inside the memory allocated
  for it if and only if no string up to the first empty name has more than 65 characters, one more than
  `MAX_ENVIRON_ITEM_SIZE`; `setenv` stores longer ones with success. `setenv` returns 0 when not even the magic
  word could be stored, although the documentation promises -1 for errors; it does so whenever the value is
  unchanged, too.
- `localtime_r` is right near the ends of the epoch if and only if the local date is not before 31 December
  1969.
- `SpiAt45dConfigWrite` succeeds if and only if the data lies in the configuration area, is not empty (its
  description does not say so) and no failure is reported below. Reported are commands and allocations that fail
  and a chip that stays busy for 1001 queries. A status query that fails on the bus is not: its -1 is cut to 0xFF,
  which reads as ready. So a block can be stored with success though no query ever told that the page was
  finished. What is read after a success is what was written.
- The expected string of `NutChatExpectString` is found at its first occurrence on every line if and only if it
  repeats itself with the distance at which its first character recurs.
- An abort string of 256 or more characters is never reported, since its counter has 8 bits.
- When `NutChatExpectString` reports an abort string it leaves that counter one short of the string's length and
  does not advance the later ones. The counters are true of what was read if and only if the reported string
  without its last character, and what is counted as matched of every later string, consist of the last character
  read only. If the next call reads the same character first, it reports a string again: one before the first
  one, rightly, or the same one, which is right if and only if the whole string consists of that character.
- Every path of the TAP driver's table is a shortest one, if and only if it does not lead from Exit1 back to Shift of
  the same register: those two go through Update.
- The TAP driver loses track of the controller exactly by a final transfer of no bits. Over the GPIO cable a
  flush of a queue that ends on a byte boundary clocks eight stray bits behind the queue: the byte that an earlier
  queue has left there. Over every run the driver keeps track if and only if for every transfer these bits and
  the transfer lead from the shift state to the state expected. A second transfer in a row to the same register
  has such bits. It keeps track if and only if the walk of the first one started in one of seven states for the
  data register, or six for the instruction register, and it is no final transfer of no bits; or if the walk
  started in the unknown state and the transfer has at least one bit, or two for the instruction register. After
  a final instruction, data in two pieces loses track.
- A packet of length 0 accepted while another one is with the chip stops the transmitter: until the next reset
  neither it nor any packet accepted later is started. Nothing else breaks the queue's invariant.
- `NutNetBufAlloc` keeps the heap sound if and only if it does not replace an owned block that is too small while
  a clone borrows it, `NutNetBufCollect` if and only if the head's application block is not owned and still
  borrowed once the run has been released; otherwise a clone is left without its data. A history of two
  operations leads there.

## Model

| member | source | states |
|---|---|---|
| NetBuf.CountUp | dev/netbuf.c:331-334 | counting a reference up stays in the three count bits and changes no ownership flag, unless the count is saturated |
| NetBuf.CountDown | dev/netbuf.c:368-369 | counting down, likewise, if the count is not zero |
| NetBuf.SetFlagFacts | dev/netbuf.c:227-235 | marking a part as owned changes neither the count nor the other parts |
| NetBuf.ReleaseInv | dev/netbuf.c:364-388 | releasing a handle, with the recursive release of originals, keeps the ownership, sharing and count invariant with that handle gone |
| NetBuf.ReleaseKeeps | dev/netbuf.c:364-388 | a release changes nothing but counts in surviving structures, and no surviving block |
| NetBuf.ReleaseKeepsData | dev/netbuf.c:364-388 | releasing an original never changes or removes the data of a buffer that is still live, clones included |
| NetBuf.NothingLeft | dev/netbuf.c:364-388 | when no handle is left, no structure and no block is left |
| NetBufOps.AllocInv | dev/netbuf.c:173-239 | allocation, whatever the reference count, yields the part asked for, and keeps the invariant in every branch, out of memory included, if and only if it takes no block that a clone borrows |
| NetBufOps.AllocExact | dev/netbuf.c:173-239 | allocation fails if and only if there is no memory for a structure or block that is needed; else it returns the buffer given or the new one, with the part as its old block cut to size or as the new block, and nothing else about it changed |
| NetBufOps.AllocKeepsData | dev/netbuf.c:173-239 | allocation, with a new structure or an existing one, changes no data but that of the part asked for, if it takes nothing that is lent |
| NetBufOps.DetachDangles | dev/netbuf.c:205-224 | emptying a part leaves some part of some buffer outside the live blocks if and only if it is owned and borrowed |
| NetBufOps.AllocDangles | dev/netbuf.c:173-239 | what is lost otherwise: some part is then outside the live blocks, and only then |
| NetBufOps.NotSaturated | dev/netbuf.c:261-263 | a saturated buffer is copied deeply, so its count is never raised |
| NetBufOps.CloneInv | dev/netbuf.c:255-337 | cloning keeps the invariant in every branch; one plus the count stays the number of handles and clones |
| NetBufOps.CloneExact | dev/netbuf.c:255-337 | cloning fails, changing nothing, if and only if there is no memory for the structure or for a part to be copied; else which parts the clone owns and which it borrows, and that it refers to the original, and is counted there, if and only if it borrows |
| NetBufOps.CloneData | dev/netbuf.c:255-337 | a clone reads the same bytes as its original in every part, and nobody else's data changes |
| NetBufRuns.FitIsLongest | dev/netbuf.c:397-412 | exactly the longest run of followers that fits in the total is taken |
| NetBufRuns.CollectInv | dev/netbuf.c:397-428 | whatever the reference counts, the head's application part becomes its own followed by that of the run, the run is released and the rest stays linked; the invariant is kept if and only if the head's own block is not taken while it is lent |
| NetBufRuns.CollectKeepsData | dev/netbuf.c:397-428 | all other data is as before, if nothing that is lent is taken |
| NetBufRuns.CollectDangles | dev/netbuf.c:397-428 | what is lost otherwise: some part is then outside the live blocks, and only then |
| NetBufRuns.CloneLosesData | dev/netbuf.c:205-224 | an instance: from the empty heap, allocating four bytes, cloning, and allocating eight in the original leaves the clone without a block |
| NetBufRuns.HistorySound | dev/netbuf.c:173-428 | over every history of allocation, cloning, release and collection the invariant holds throughout if and only if no operation takes a block that is lent |
| NetBufRuns.EveryHistory | dev/netbuf.c:173-428 | from the empty heap, over all such histories: every non-empty part is in a live block owned by its buffer or on its chain of originals, one plus the count is handles plus clones, and giving back all handles leaves nothing |
| NetBufHeap.NutHeap.AllocData | dev/netbuf.c:144-158 | a new block of the size asked for, or the error |
| NetBufHeap.NutHeap.NetBufAlloc | dev/netbuf.c:173-239 | the function in place does what the specification says, whatever the reference count |
| NetBufHeap.NutHeap.NetBufClonePart | dev/netbuf.c:255-337 | likewise, over its loop and its error path |
| NetBufHeap.NutHeap.NetBufFree | dev/netbuf.c:364-388 | likewise; the recursion terminates and every block and structure released is live |
| NetBufHeap.NutHeap.NetBufCollect | dev/netbuf.c:397-428 | likewise, copying and releasing in one loop, whatever the reference counts |
| Calendar.CivilOrder | crt/gmtime.c:100-176 | calendar fields determine the time stamp, and compare as time stamps do |
| Calendar.YearStart | crt/gmtime.c:110-133 | the days before each year of a four-year cycle |
| Calendar.DayTables | crt/gmtime.c:77-82 | both month tables hold the days of the year before each month, less one |
| Calendar.SplitYear | crt/gmtime.c:115-139 | the year a time stamp lies in, whether it is a leap year, and the seconds into it |
| Calendar.GmtimeR | crt/gmtime.c:100-176 | for every time stamp from 0 to 2^31 - 1 all fields are in range, weekday and day of the year are right, and the fields stand for that time stamp; the month search stays in its table |
| Timezone.TransitionDay | crt/tzset.c:83-122 | the day a rule names: the given weekday in the given week of the month, the last one for week 5 |
| Timezone.TransitionsDecide | crt/tzset.c:194-224 | comparing cached day and millisecond is comparing time stamps |
| Timezone.Timezone.Cvtdate | crt/tzset.c:77-162 | the cached date of a transition, the end corrected by the bias over day boundaries |
| Timezone.Timezone.IsInDst | crt/tzset.c:165-226 | whatever was asked before, daylight saving is reported if and only if standard local time lies from 02:00 on the last Sunday of March up to the corrected 02:00 on the last Sunday of October |
| Timezone.LocalTimeUnique | crt/localtim.c:84-180 | a standard time stamp has one local time, so both branches compute the same function |
| Timezone.Carry | crt/localtim.c:129-149 | truncating division with the code's correction splits off a field that is in range |
| Timezone.AdjustFields | crt/localtim.c:125-175 | the carries move seconds, minutes, hours and date by the time zone |
| Timezone.NotDstInWinter | crt/localtim.c:125-128 | the boundary branch never meets daylight saving time |
| Timezone.BoundaryLocal | crt/localtim.c:110-175 | the carried fields are the local time if and only if the date has not gone back further than 31 December 1969 |
| Timezone.Timezone.LocaltimeR | crt/localtim.c:84-180 | the result is the local time if and only if that is not before 31 December 1969, in both branches |
| Timezone.TwoDaysWest | crt/localtim.c:110-175 | an instance: time stamp 0 in a zone two days to the west does not give the local time |
| Numeral.NumTextValue | crt/putf.c:354-407 | the digits printed denote the number in its base |
| Numeral.NumTextFits | crt/putf.c:134-193 | 32 bits need at most 11 octal, 10 decimal or 8 hexadecimal digits |
| Numeral.NumTextShortest | crt/putf.c:354-407 | no digits for the same number are fewer |
| Putf.PutDigits | crt/putf.c:354-407 | written backwards from the end of the 16-byte buffer, the digits never pass its start, prefix included |
| Putf.ConvertNumber | crt/putf.c:354-413 | the characters of %d, %o, %x and %X with their prefixes |
| Putf.PutPad | crt/putf.c:149-157 | padding in pieces of 16 gives the number of characters asked for |
| Putf.EmitLength | crt/putf.c:528-557 | what is counted for a field is what is put out, for every width, precision and flag |
| Putf.PutField | crt/putf.c:528-557 | padding, sign, zeros and digits come out in order, and their number is returned |
| Putf.ReadModifiers | crt/putf.c:233-284 | flags, widths and precisions, from the format or the arguments, as ModifiersAre says |
| Directives.ModifiersAre | crt/putf.c:233-284 | for every string of flags, every width and precision in digits or by a star, and every length: a flag holds if and only if its character occurs, '+' beats ' ', and what a star takes from the arguments |
| Directives.TextPrinted | crt/putf.c:297-331 | %s and %P print a text or (null), cut to the precision and filled to the width |
| Directives.CharPrinted | crt/putf.c:290-294 | %c prints the character of the low byte, filled to the width |
| Directives.PointerPrinted | crt/putf.c:384-393 | %p prints what %#x prints |
| Directives.OtherPrinted | crt/putf.c:505-525 | any other conversion prints its character, %% too, and only those for floating point use up an argument |
| Putf.Putf | crt/putf.c:178-560 | the text put out is that of the specification, and the count returned is its length |
| Putf.Vsprintf | crt/vsprintf.c:63-91 | the same into a string, with the terminator behind the text |
| Getf.ScanBase | crt/getf.c:312-376 | when a digit has been taken the base is known |
| GetfRun.ReadInteger | crt/getf.c:308-357 | the characters taken for an integer fit the buffer, and base, flags and lookahead are those of the specification |
| GetfRun.Convert | crt/getf.c:168-378 | a conversion, with suppression, width and the waiting character |
| GetfRun.StringSource.Getb | crt/vsscanf.c:67-80 | up to the number of characters asked for are taken from the string |
| GetfRun.Vsscanf | crt/getf.c:119-423 | the whole scan returns and stores what the specification says, for every format and input |
| RoundTrip.PrintedList | crt/putf.c:337-365 | "%d" or "%ld" with separators prints the numbers in shortest decimal notation |
| RoundTrip.ScanLong | crt/getf.c:308-378 | a printed number followed by nothing or by a character foreign to integers is read back, and that character waits |
| RoundTrip.SkipSeparator | crt/getf.c:144-165 | the waiting character is used by the literal, or passed by white space |
| RoundTrip.LongUses | crt/getf.c:308-378 | a number read uses up at least as many characters as it is printed with |
| RoundTrip.RunKeeps | crt/getf.c:119-423 | what has been stored stays stored |
| RoundTrip.ListRoundTrip | crt/getf.c:156-378 | a list printed with "%d" or "%ld" is read back, in four bytes each, if and only if it has at most one number or the separator is foreign to integers; the count is right if and only if it is also at most 255 |
| SizeTrip.SizedRoundTrip | crt/getf.c:361-378 | numbers printed with %d, %u, %o, %x, %X and read with no length, h, hh or l: 4, 2, 1 or 4 bytes are stored, with the low bits of the number |
| SizeTrip.ConversionRead | crt/getf.c:181-200 | suppression, width and length of a conversion |
| SizeTrip.WidthRoundTrip | crt/getf.c:308-378 | with a width at most so many digits are read, and never more than 15; with * nothing is stored |
| SizeTrip.CharStep | crt/getf.c:244-264 | %c with a width and suppression, whether or not a character waits: what is read, counted and stored, and when it fails |
| SizeTrip.CharsRead | crt/getf.c:244-264 | on its own, %c takes so many characters, or what there is |
| SizeTrip.WordExact | crt/getf.c:280-303 | a word reaches up to the next white space, the width or the end, and that white space is used up |
| SizeTrip.WordRead | crt/getf.c:280-303 | %s with a width, suppressed or not |
| SizeTrip.LiteralsRun | crt/getf.c:144-165 | literal text, percent signs doubled, matches its own characters; a text that ends too early yields the end of the input unless there has been a conversion, one that differs does not |
| SizeTrip.SpaceStep | crt/getf.c:129-142 | white space in a format passes any white space, and the character behind it waits |
| SizeTrip.WaitingMatched | crt/getf.c:144-153 | a literal takes a character that waits |
| SizeTrip.NoConversion | crt/getf.c:203-214 | modifiers without a conversion yield the end of the input |
| Grammar.TakenIff | crt/getf.c:312-346 | a character is taken if and only if the text goes on to be well-formed in its base |
| Grammar.IntegerTaken | crt/getf.c:308-378 | for every text: the integer conversions take the longest start of it, within the width and 15 characters, that is well-formed in their base, and store it if and only if there is a digit in it |
| Grammar.BareX | crt/getf.c:338-343 | an x without a 0 in front of it makes the number 0 |
| SizeTrip.WaitingCharLost | crt/getf.c:244-264 | behind a number and white space in the format %c is counted and stores nothing, for every number and character |
| RoundTrip.DecimalFound | crt/getf.c:312-376 | "%li" reads back every number printed with "%ld" |
| RoundTrip.AlternateFound | crt/getf.c:312-376 | "%li" reads back "%#lo", "%#lx" and "%#lX" if and only if the number is at most 2^31 - 1 |
| Conform.DecimalFollows | crt/putf.c:346-365 | %d, %i and %u print the text section 7.19.6.1 of ISO/IEC 9899:1999 asks for, with any flags, width and precision |
| Conform.OctalFollows | crt/putf.c:380-394 | %o does, for any flags, width, precision and 32-bit number, if and only if it is not # with precision 0 applied to 0 |
| Conform.HexFollowsIff | crt/putf.c:395-413 | %x and %X do if and only if, without #, precision and number are not both 0, and with # the number is not 0, the precision is at most its digits and no zeros fill the width |
| Conform.ConformsIff | crt/putf.c:337-557 | the exact condition for all six integer conversions |
| Conform.FormatConformsIff | crt/putf.c:178-560 | the same for a call with such a conversion as its format: every string of flags, every width and precision, in digits or from the arguments, and every length |
| RoundTrip.HexOfZero | crt/putf.c:404-412 | an instance: zero is printed as 0x0 by %#lx and as 0 by %.0x, where the decimal conversion prints nothing |
| FieldTrip.EmitParts | crt/putf.c:528-552 | every field, whatever its conversion, is blanks, its sign, as many zeros as precision and zero padding ask for, its characters, blanks |
| FieldTrip.PrintedParts | crt/putf.c:528-552 | a number printed with any flags, width and precision is blanks, a sign, zeros, digits and blanks |
| FieldTrip.FieldRoundTrip | crt/getf.c:308-378 | printed by one %d with any flags, width, precision and length, a number is read back if and only if it is printed at all and, unless it is 0, has at most 15 characters from its sign on |
| FieldTrip.WordRoundTrip | crt/getf.c:280-303 | "%s" reads back what "%s" printed if and only if it is a non-empty word of at most 65535 characters |
| EnvModel.GetEnvIsLookup | crt/getenv.c:45-56 | getenv looks up a finite map |
| EnvModel.SetEnvIsUpdate | crt/setenv.c:96-153 | setenv updates the map, leaving an existing value alone without force, and no other entry changes |
| EnvModel.SetEnvSorted | crt/setenv.c:113-138 | the list stays strictly ascending by name |
| EnvModel.LessIs | crt/setenv.c:113 | the order used is that of strcmp: behind a common start the first name ends or has the smaller character |
| EnvModel.SetEnvAscends | crt/setenv.c:113-138 | in that order, setenv keeps the names ascending, a new one behind all that precede it and in front of all that it precedes |
| EnvModel.UnsetEnvIsRemoval | crt/setenv.c:167-190 | unsetenv removes the name from the map |
| EnvModel.WalkVisitsAll | crt/getenv.c:68-81 | iterating nextenv visits every name once, ascending in the order of strcmp, and stops |
| EnvStore.LoadSaved | crt/environ.c:81-137 | loading what was saved, whatever the memory held and however long the strings: it stays inside its memory if and only if no string up to the first empty name has more than 65 characters, and then yields the variables before that name |
| EnvStore.LongValueOverruns | crt/environ.c:48-71 | an instance: a value of 66 characters |
| EnvStore.RoundTripIff | crt/environ.c:81-137 | the same list comes back, safely, if and only if every variable has a name and no string has more than 65 characters |
| EnvStore.PassesAgree | crt/environ.c:100-135 | both decoding passes end at the same address, if no string is above the limit of the first one |
| EnvStore.ImageLayout | crt/setenv.c:47-84 | the bytes stored: the magic word at address 256, from 260 on each name and value with a zero behind it, and a zero at the end |
| EnvStore.NoMagic | crt/environ.c:90-98 | without the magic word nothing is loaded |
| EnvRuns.StepStores | crt/setenv.c:47-217 | after every operation the memory holds the list; removing the last variable leaves both as they were |
| EnvRuns.StepRefinesMap | crt/setenv.c:47-217 | an operation does to the map what it is to do if and only if it does not remove the last variable |
| EnvRuns.RunRefinesMap | crt/setenv.c:47-217 | over any run, restarts included, the environment is the map written to, sorted and stored, and can be loaded inside its memory |
| EnvRuns.LastValueStored | crt/setenv.c:96-153 | getenv yields the last value stored, over anything done to other variables and any restart |
| EnvRuns.RestartUnseen | crt/environ.c:90-137 | leaving all restarts out of a run, whatever it sets and removes, changes neither the environment nor the memory |
| EnvRuns.RemovedComesBack | crt/setenv.c:51 | a concrete run in which the only variable, removed, comes back |
| EnvList.Environ.ReadText | crt/environ.c:48-71 | a string is read as the specification says, up to its limit; whether it and its terminator overrun the caller's buffer |
| EnvList.Environ.ReadStored | crt/environ.c:113-135 | the nodes hold the list decoded, and memory is overrun if and only if the specification says so |
| EnvList.Environ.FindEnv | crt/environ.c:81-144 | loads the list in two passes if there is none, and finds the node of the first variable of that name |
| EnvList.Environ.SaveEnv | crt/setenv.c:47-84 | the image is stored, or as much as fits with -1, or nothing with 0 if the magic word does not fit |
| EnvList.Environ.Insert | crt/setenv.c:113-138 | the new node is linked in front of the first name that it precedes in the order of strcmp, at either end or in the middle |
| EnvList.Environ.SetEnv | crt/setenv.c:96-153 | list, memory and result; a step of the run where the memory is large enough |
| EnvList.Environ.UnsetEnv | crt/setenv.c:167-190 | likewise for unlinking |
| EnvList.Environ.GetEnv | crt/getenv.c:45-56 | the value found, the list loaded if need be |
| EnvList.Environ.NextEnv | crt/getenv.c:68-81 | the name after the given one; for the first name the list is not loaded |
| JtagTap.PathLeads | dev/jtag_tap.c:58-91 | each of the 256 table paths leads the controller of clause 6 of IEEE Std 1149.1-2001 from its row's state to its column's |
| JtagTap.PathShortest | dev/jtag_tap.c:58-91 | no shorter sequence leads there, if and only if the path does not lead from Exit1 back to Shift of the same register |
| JtagTap.FiveOnesReset | dev/jtag_tap.c:156-159 | five ones reach Test-Logic-Reset from every state |
| JtagTap.StepTracks | dev/jtag_tap.c:135-220 | a call keeps the driver's state equal to the controller's if and only if it is not a final transfer of no bits |
| JtagTap.RunTracks | dev/jtag_tap.c:135-220 | so does every run without such transfers, from any unknown start |
| JtagTap.JtagTap.StateWalk | dev/jtag_tap.c:152-164 | exactly the path's bits are queued; a step of the run over the cable |
| JtagTap.JtagTap.Data | dev/jtag_tap.c:195-202 | a step of the run over the cable; data goes out and comes back in order |
| JtagTap.JtagTap.Instruction | dev/jtag_tap.c:213-220 | likewise for the low bits of an instruction code |
| JtagTap.JtagTap.Transfer | dev/jtag_tap.c:195-202 | the bits clocked are the queue, the walk, the byte stale behind them if they end on a byte boundary, and the data's TMS bits; the driver, tracking before, tracks the controller if and only if these lead from the shift state to the state expected |
| JtagTap.TransferTracks | dev/jtag_gpio0.c:214-255 | the same of the model, and that without stray bits only a final transfer of no bits loses track |
| JtagTap.RunTracksOverCable | dev/jtag_gpio0.c:214-335 | over every run of driver and GPIO cable, track is never lost if and only if the stray bits of every transfer fit |
| JtagTap.ResetResyncs | dev/jtag_tap.c:156-163 | lost track is found again by a walk to Test-Logic-Reset, and by any walk from the unknown state |
| JtagTap.FirstWalkIs | dev/jtag_tap.c:152-164 | the byte that a first walk from the unknown state leaves for the next flush |
| JtagTap.SecondTransferTracksIff | dev/jtag_gpio0.c:214-255 | for a first walk from each of the sixteen states and the unknown one, both registers and all lengths: whether the bits of a second transfer in a row lead to the state expected |
| JtagTap.TwoTransfersTrack | dev/jtag_tap.c:195-220 | two transfers in a row from any state: the first one keeps track, the second one exactly under a condition on registers, start, length and last bit |
| JtagTap.TwoTransfers | dev/jtag_tap.c:195-220 | the same for two calls of the driver |
| JtagTap.PiecesTrack | dev/jtag_tap.c:195-202 | a data register in any number of pieces: all keep track if and only if each gets back |
| JtagTap.LoseTrack | dev/jtag_gpio0.c:214-255 | an instance: two transfers of one bit to the instruction register leave the controller in Capture-IR, where the driver expects Shift-IR |
| JtagTap.LoseTrackInPieces | dev/jtag_tap.c:195-220 | an instance: a four-bit instruction and two bytes of data leave the controller in Run-Test/Idle, where the driver expects Shift-DR |
| JtagCable.CableInfo.TmsPut | dev/jtag_gpio0.c:304-335 | appends exactly the given bits, least significant first; the rest of the last byte is zero, and what is behind it is as before |
| JtagCable.CableInfo.TmsFlush | dev/jtag_gpio0.c:214-255 | clocks the queued bits in order and empties the queue; if and only if the bit counter was zero, the byte stale behind them is clocked, too |
| JtagCable.MemoryIs | dev/jtag_gpio0.c:304-335 | a buffer in which only the bytes of the queue have changed holds the queue, zeros up to the byte boundary, and the rest as it was |
| JtagCable.CableInfo.TransferData | dev/jtag_gpio0.c:354-393 | after the flush TMS is low and goes high on the last bit of a last transfer, the data goes out on TDI least significant bits first, and the bytes returned hold what TDO showed |
| NvMem.OverwriteRead | dev/nvmem_at45d.c:157-173 | in the flat memory a range stored is read back; WriteAndRead says so of the flash |
| FlashConfig.At45d.WaitReady | dev/spi_at45d.c:143-188 | fails if and only if 1001 queries in a row are answered with the chip busy; a query that fails on the bus passes for ready |
| FlashConfig.At45d.PageRead | dev/spi_at45d.c:322-343 | reads across page boundaries; fails if and only if the page is not there or a command fails |
| FlashConfig.At45d.PageWrite | dev/spi_at45d.c:362-415 | programs page after page and counts what is known to be stored; that is everything if no failure is reported and the data ends inside the chip, and never if one is |
| FlashConfig.At45d.ConfigRead | dev/nvmem_at45d.c:157-175 | the requested part of the area; fails if and only if that is not inside the area, or an allocation or a command fails |
| FlashConfig.At45d.ConfigWrite | dev/nvmem_at45d.c:187-241 | succeeds if and only if the data is not empty, lies in the area, and no allocation, command or wait is reported to fail; success overwrites exactly the given range, failure leaves every byte old or new; only pages with a byte to change are programmed |
| FlashConfig.At45d.WriteAndRead | dev/nvmem_at45d.c:157-241 | what a successful write stores a successful read returns, and both succeed when no failure is reported |
| FlashConfig.UnnoticedFailure | dev/spi_at45d.c:143-188 | an instance: every status query fails on the bus, and a byte is stored with success |
| FlashConfig.NothingToDo | dev/nvmem_at45d.c:187-241 | storing what is already there programs nothing |
| Chat.StepSound | dev/chat.c:172-182 | one step of the matcher: what is counted as matched is what the characters read end with |
| Chat.CompleteIffSelfRepeating | dev/chat.c:131-220 | the first occurrence is found on every line if and only if the string repeats itself with the distance at which its first character recurs |
| Chat.LongStringIgnored | dev/chat.c:187-202 | an abort string of 256 or more characters is never reported |
| Chat.MissedOccurrence | dev/chat.c:131-220 | for any other string, a line on which it is missed |
| Chat.AbortStepFacts | dev/chat.c:187-202 | one step of an abort string and its 8-bit counter |
| Chat.EndsAgain | dev/chat.c:187-202 | characters at the end of what was read are there again after one more if and only if they are all that character |
| Chat.SoundAfterAbort | dev/chat.c:187-202 | when an abort string has fired, the counters are true of what was read if and only if the counted parts of that string and of every later one consist of the last character read |
| Chat.NutChat.CheckAborts | dev/chat.c:187-202 | the first abort string that fires is reported, earlier counters are advanced, and the counters left are true exactly as SoundAfterAbort says |
| Chat.NutChat.ExpectString | dev/chat.c:131-220 | whatever the counters: success means that the characters read end with the string, a timeout that the matcher never completed; if they are true, over any number of calls, an abort means that what was read ends with that string, and recognisable abort strings are not missed; after an abort they are true exactly as SoundAfterAbort says |
| Chat.ReportedAgain | dev/chat.c:131-220 | two calls in a row that read the same character first, for all abort strings and true counters: if the first reports a string, so does the second, that one or one before it; one before it rightly, the same one if and only if it consists of that character |
| Chat.StaleAfterAbort | dev/chat.c:131-220 | an instance: from a fresh matcher "AB" is reported twice on the line "ABB" |
| TxQueue.TxLenExact | dev/dm9000.c:693-699 | within the limit a packet is sent in full, rounded up to an even length |
| TxQueue.SenderServed | dev/dm9000.c:919-948 | a sender with the mutex may put its packet if and only if at most one is queued; at most 1500 bytes on a sane chip are accepted with their length rounded up to even, and started at once if and only if nothing was queued |
| TxQueue.ResetRecovers | dev/dm9000.c:888-900 | an error can be found in whatever state, and the reset then leaves the queue empty and the chip sane |
| TxQueue.StepKeeps | dev/dm9000.c:450-957 | a step of senders, interrupt and reset keeps the queue invariant if and only if it does not accept an empty packet behind another one |
| TxQueue.RunKeeps | dev/dm9000.c:450-957 | over all interleavings at most two packets are counted, the length is non-zero exactly for two, and a packet is counted exactly while the chip sends or reports, throughout if and only if no empty packet is accepted behind another one |
| TxQueue.StartedInOrder | dev/dm9000.c:465-478 | between resets, whatever the packets, they start in the order of acceptance, each once with its own length; only one may still be to start, unless an empty one has been accepted behind another |
| TxQueue.StartsWhenIdle | dev/dm9000.c:465-478 | no packet is started while the chip is sending |
| TxQueue.Drains | dev/dm9000.c:465-478 | after at most two completed transmissions all accepted packets have been started |
| TxQueue.StuckForever | dev/dm9000.c:465-478 | with a packet counted, an idle chip and no report pending no run without a reset starts anything |
| TxQueue.EmptyPacketStays | dev/dm9000.c:465-478 | after an empty packet has been accepted behind another one no run without a reset starts anything |
| TxQueue.EmptyPacketExample | dev/dm9000.c:465-478 | an instance: a packet, an empty one, and the first one sent |
| TxQueue.NicInfo.Interrupt | dev/dm9000.c:450-486 | the handler's transmitter part, through the two length registers |
| TxQueue.NicInfo.PutPacket | dev/dm9000.c:681-741 | acceptance, rejection, and the 16-bit length; the event of the machine |
| GenChar.StepKeeps | dev/genchar.c:103-285 | every step of interrupt and reader keeps bytes in order, none lost or repeated |
| GenChar.RunKeeps | dev/genchar.c:103-285 | over any interleaving bytes taken followed by bytes buffered are the bytes accepted |
| GenChar.WholeRead | dev/genchar.c:229-286 | a read takes the oldest bytes, as many as the caller asks for or as there are, and leaves the rest |
| GenChar.SampleBounds | dev/genchar.c:250-264 | the number is settled when the counter is looked at: the smaller of what is there and what is asked for |
| GenChar.ReceivedAnytime | dev/genchar.c:110-121 | a byte can come at any time and is stored unless 16 are there |
| GenChar.ReaderServed | dev/genchar.c:235-260 | a reader goes on if and only if something is there; giving up takes nothing, and discarding takes all |
| GenChar.Dcb.Receive | dev/genchar.c:110-121 | a byte is appended unless the buffer is full; the event is posted at the first one |
| GenChar.Dcb.Remove | dev/genchar.c:270-283 | the rest of the buffer moves to the front in place |

## Left out

- AllocKeepsData: nothing that is lent is taken; AllocDangles says what happens otherwise.
- CollectKeepsData: nothing that is lent is taken; CollectDangles says what happens otherwise.
- EveryHistory: histories that never take what is lent, since the invariant is lost otherwise, exactly as HistorySound says.
- AllocData: the address answered is not in use when the operation starts, so a block is not put where one was just freed; a new block reads as zeros; the source leaves its contents as they are. The allocator's answers are parameters.
- NutNetBufClone and its siblings that only pass flags on to the functions above.
- GmtimeR: time stamps from 0 to 2^31 - 1; negative ones are outside the source's promise.
- Cvtdate: integers are unbounded, and the years are 1970 to 2095; the bias is at most one day.
- LocaltimeR: time zones of at most three days either way; beyond these the first branch can leave the range of gmtime_r.
- Putf: integers and pointers have 32 bits, so the length modifiers make no difference; widths and precisions are unbounded. Arguments a format asks for but does not get are undefined in C and read as 0 here. The magnitude of -2^31 is taken to wrap to 2^31.
- Floating-point conversions and the variants for program space, in output and input; without floating point the letters print themselves, as in the source.
- Vsprintf: the size of the caller's buffer; strings stand for their characters up to the terminator.
- Vsscanf: the memory the results are stored in; they are recorded in order with their sizes. A string longer than the caller's buffer is the caller's fault in C.
- ListRoundTrip: a percent sign as separator would be read as part of the next conversion.
- strtol is taken from section 7.20.1.4 of ISO/IEC 9899:1999 for a 32-bit long; the library itself is not part of this model.
- SetEnv: allocation succeeds; the half-built entries the source leaves otherwise are not modelled.
- UnsetEnv: the POSIX form; the other one returns nothing and does the same.
- LoadSaved: what is loaded after memory has been overrun.
- PassesAgree: with a string of 65 characters the first pass can end elsewhere; LoadSaved says that it does no harm.
- TmsPut: the buffer does not fill; the flush inside the function runs with a stale bit counter and reads past the buffer.
- StateWalk: a queue with room for the walk, for the same reason.
- Transfer: requires the same.
- Data: requires the same.
- TransferData: the clock's delays; the levels on TDO are a parameter.
- Instruction: requires the same; the instruction register has at most 32 bits, the size of the code.
- RunTracks: over the cable's contract that TMS bits arrive as given; TmsFlush says when the GPIO cable keeps it.
- PageRead: a length past the end of the chip, where the contents are the chip's business.
- PageWrite: a page outside the chip, which the source does not check before the first page.
- WaitReady: a bus that fails does so with -1; what the chip makes of commands given while it is still busy.
- ConfigWrite: finding the device, the page and the size of the area, which is taken to lie inside the chip; the bus and the allocator may fail at any call.
- ExpectString: reporting of connection strings, tracing, and the script interpreter around it; abort strings are not empty.
- PutPacket: the transfer of the data and the wait at the end, which only reads the counter.
- DmOutput and NicRxLanc appear as the steps of TxQueue; their waiting times are not modelled.
- GenCharRead appears as steps; the transmit half of the driver never sends, since nothing sets its length.
- Hardware registers, SPI and GPIO signals, PHY set-up, kernel events and threads, except as steps or answers.
- The other drivers and the thin layers of the C library: dispatch and straight-line code.
