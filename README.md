# wind, modelled in Dafny

wind is a reactor-style networking library written in C++. Each event loop waits on epoll for ready descriptors, dispatches them to channels, and runs timers through a timerfd. Around that core sit connection objects (a client `Connector`, a `TcpConnection` with send and receive buffers), byte buffers with a big-endian integer codec, a logging front end, and descriptor-owning wrappers. A few Python scripts bootstrap gn, run ninja and run clang-format over the sources.

This project models the sequential bookkeeping of that core and proves what it promises. The model has one Dafny module per source component:

- **Byte buffers.** `ConnBuffer` models the growable connection buffer: its indices, compaction or reallocation, and the network-order integer codec. `Endian` models the conversions to and from network byte order (big-endian, Appendix B of RFC 791). `FixedSizeBuffer` and `LegacyBuffer` model the truncating log buffers.
- **Log formatting.** `LogStream` and `LegacyLogStream` model the record formatter: decimal and hexadecimal conversion through a digit table, output, flush, and the chunked append. `Log` models the levels, the filtering macros, the level read from the environment, the source-file base name and the end of a record. `Numerals` gives the reference definition of positional numerals that these conversions are proved against.
- **Descriptor ownership.** `UniqueFd` and `Utils` (`closeFd`, `ScopedFd`, `AutoFreeBuf`) run over the descriptor table of `Descriptors`. That table records every close(2), so "each valid descriptor is closed at most once" can be stated and proved.
- **Timers.** `TimerId`, `Timer` and `TimerEntries` (the ordered set) model timer identity and ordering. `TimerManager` and `LegacyTimerManager` model adding, cancelling and splitting off expired timers, running them, and re-arming the kernel timer.
- **Connections.** `Connector` models the connect state machine with errno classification and exponential back-off. `TcpConnection` models the connection states and the send path.
- **Event dispatch.** `Epoll` holds the event bits and the callback order. `EventChannel` and `LegacyEventChannel` model the interest mask and dispatch. `EventPoller` models the fd→channel registry and `pollOnce`. `EventLoopThreadPool` models the round-robin choice of loop.
- **Time stamps.** `TimeStamp` models the seconds-and-fraction text at four precisions, using C's truncating division (`CInt`).
- **Build scripts.** `BuildScript`, `FormatCodes` and `FormatSrcs` model option handling, path derivation and fail-fast command sequencing. They rely on `OsPath`, `DirWalk` and a `Shell` that logs prints and commands and supplies exit statuses.

Syscalls and clock readings are inputs or logs:
- the `readv` and `write` counts, errno values and `epoll_wait` results are parameters;
- `epoll_ctl` calls, timerfd re-arms, closes, callbacks run and commands run are recorded in logs;
- `now()` is a parameter.

The host byte order is a parameter, `hostLittle`, so each byte-order statement covers both kinds of host.

## Model

| member | source | states |
|---|---|---|
| BuildScript.PrintHelps | build/scripts/build.py:39-43 | -h prints exactly the four help lines, in order, and nothing else |
| BuildScript.CapitalizeIdempotent | build/scripts/build.py:118 | str.capitalize applied twice equals applied once |
| BuildScript.CapitalizeSame | build/scripts/build.py:118 | two texts capitalize to the same word exactly when they agree up to letter case |
| BuildScript.CapitalizeAccepts | build/scripts/build.py:117-119 | -b is accepted as Debug iff its value is "debug" in any letter case, and likewise Release |
| BuildScript.PyInt | build/scripts/build.py:116 | int() on empty text fails (ValueError) |
| BuildScript.Strip | build/scripts/build.py:116 | int() ignores surrounding white space: the stripped text neither starts nor ends with a blank |
| BuildScript.PyIntOfSignedDec | build/scripts/build.py:116 | int() reads the decimal text of every integer back as that integer |
| BuildScript.PyIntOfDigits | build/scripts/build.py:116 | a run of digits, with or without a leading minus, reads as its value or its negation |
| BuildScript.PyIntRefusesWords | build/scripts/build.py:116 | words, blanks and a lone minus are refused |
| BuildScript.ApplyOption | build/scripts/build.py:111-123 | one pass of the option loop (long options under their declared names): help iff -h/--help; a valid build type stays valid |
| BuildScript.ApplyOptionAsWritten | build/scripts/build.py:107-122 | as written, a pass for --build-type or --format-codes continues with the settings unchanged |
| BuildScript.LongOptionsIgnoredAsWritten | build/scripts/build.py:107-122 | as written, --build-type and --format-codes change nothing; the declared reading sets format-only mode |
| BuildScript.BuildTypeReleaseDropped | build/scripts/build.py:107-118 | counterexample: `--build-type release` leaves Debug as written, Release when honoured |
| BuildScript.AsWrittenAgreesOtherwise | build/scripts/build.py:111-123 | for every other option name the written and the corrected loop bodies agree |
| BuildScript.StopIsFinal | build/scripts/build.py:111-121 | once an option makes main return, the options after it are never examined |
| BuildScript.HelpFirst | build/scripts/build.py:112-114 | -h as the first option means help whatever follows |
| BuildScript.BuildTypeStaysValid | build/scripts/build.py:109-121 | main only goes on with build type Debug or Release |
| BuildScript.ParseOptions | build/scripts/build.py:107-123 | the loop's result is the left-to-right fold of the options from (cpu count, Debug, no format) and it prints only the help or rejection text |
| BuildScript.OptionPass | build/scripts/build.py:111-123 | one loop pass computes ApplyOption and prints only when main returns |
| BuildScript.IsDebugText | build/scripts/build.py:65-67 | is_debug is "true" iff the build type is "debug" or "Debug", else "false" |
| BuildScript.GnNinjaCommand | build/scripts/build.py:53 | the gn build command is "ninja -C out -j " followed by the job count |
| BuildScript.WindGenCommand | build/scripts/build.py:64-71 | the configure command is the gn binary, " gen ", the output directory and "/ --args='is_debug=", and the text after "is_debug=" starts with "true" iff the build type is "debug" or "Debug" |
| BuildScript.WindNinjaCommand | build/scripts/build.py:75 | the wind build command is "ninja -C <wind out> -j " followed by the job count |
| BuildScript.NinjaJobsReadBack | build/scripts/build.py:53-75 | the text after "-j " in both ninja commands reads back through int() as exactly the job count |
| BuildScript.OutputPaths | build/scripts/build.py:83-98 | gn goes to <root>/out/<type>/gn, its binary to …/gn/gn, the wind build to <root>/out/<type>/wind, with a single '/' after the root "/" |
| BuildScript.GnOutParent | build/scripts/build.py:83-93 | the parent of <root>/out/<type>/gn is <root>/out/<type>, the directory whose absence makes os.mkdir raise |
| BuildScript.BuildGn | build/scripts/build.py:46-61 | gen then ninja; -1 at the first non-zero status; after both succeed a missing output directory whose parent is also missing makes os.mkdir raise FileNotFoundError, otherwise the binary is copied and 0 returned |
| BuildScript.InstallGn | build/scripts/build.py:57-59 | mkdir only when the directory is missing; it succeeds iff the directory or its parent exists, and only then is the binary copied |
| BuildScript.BuildWind | build/scripts/build.py:64-79 | gen failure returns -1 after one command; otherwise ninja runs and its own status is returned |
| BuildScript.BuildAll | build/scripts/build.py:82-103 | raises FileNotFoundError, running nothing, iff neither <root>/out/<type>/gn nor <root>/out/<type> exists; otherwise the four commands run fail-fast in order, 0 iff all four succeed, else -1 |
| BuildScript.BuildPipeline | build/scripts/build.py:91-103 | with the gn output directory present: build_gn then build_wind, no wind command after a gn failure, 0 iff all four commands succeed, and no directory is made |
| BuildScript.WindStage | build/scripts/build.py:98-103 | after both gn commands succeeded, build_wind completes the fail-fast pipeline and 0 means all four succeeded |
| BuildScript.BuildFailureExitsZero | build/scripts/build.py:136-139 | a failed build and a good one both exit with status 0 |
| BuildScript.FormatPart | build/scripts/build.py:132-133 | formatting one directory runs all its format commands, or a prefix of them when it exits, and it exits iff one of the commands it ran failed |
| BuildScript.RunFormat | build/scripts/build.py:128-134 | format-only mode runs wind's then samples' format commands (a prefix of them on exit) and no build command, and exits iff one of the commands it ran failed |
| BuildScript.RunBuild | build/scripts/build.py:136-139 | build_all either raises (neither "Build done." nor "Build failed." is printed) or runs its fail-fast pipeline and prints "Build done." iff every command succeeded, else "Build failed." |
| BuildScript.RunScript | build/scripts/build.py:106-139 | help, rejection and bad -j run no command; format-only mode makes no directory; otherwise build_all under the root two levels above the script, fail-fast unless os.mkdir raised; the process exit status is non-zero iff int() refuses the -j value, a format command fails, or neither <root>/out/<type>/gn nor <root>/out/<type> exists, so a failed build exits 0 |
| OsPath.JoinShape | build/scripts/build.py:83-98 | os.path.join ends with its last part, keeps an absolute last part alone, and puts one '/' between relative parts |
| OsPath.JoinName | build/scripts/build.py:83-98 | a name joined under a directory gets exactly one '/', none after "/" or the empty path, and the result is again a directory |
| OsPath.ParentOfJoin | build/scripts/build.py:126 | the parent of dir/name is dir, for every normalised directory including the root "/" (os.path.dirname("/name") is "/") |
| OsPath.ProjectRootOfScriptDir | build/scripts/build.py:125-126 | the script in <root>/build/scripts finds <root>, for every normalised root including "/" |
| OsPath.ProjectRootAtFilesystemRoot | build/scripts/build.py:125-126 | a checkout at the filesystem root finds "/" as its root, and its output directory is "/out" |
| DirWalk.MatchExtension | build/scripts/format_codes.py:43-47 | the extension loop finds a match iff the path ends with one of the extensions |
| DirWalk.SelectMembership | build/scripts/format_codes.py:39-48 | a file is selected iff it is in the walk and has one of the extensions |
| DirWalk.SelectAppend | build/scripts/format_codes.py:39-48 | selection keeps walk order: the picks of a + b are those of a, then those of b |
| DirWalk.WalkFilesAppend | build/scripts/format_codes.py:39-42 | the walk's files split the way the walk does, directory by directory |
| DirWalk.Commands | build/scripts/format_codes.py:49 | one command per picked file, the command text followed by the path, in order |
| FormatCodes.CommandIffPicked | build/scripts/format_codes.py:32-49 | a file gets a command iff it is in the walk and ends with .c, .cc, .cxx, .cpp, .h or .hpp |
| FormatCodes.FormatCommands | build/scripts/format_codes.py:35-51 | one format command per selected file of the walk |
| FormatCodes.FormatFile | build/scripts/format_codes.py:42-51 | an unselected file runs nothing; a selected one runs "clang-format -style=file -i <path>" and exits with the message iff it fails |
| FormatCodes.FormatNext | build/scripts/format_codes.py:41-51 | one more file either keeps every command so far successful or stops the process |
| FormatCodes.FormatDir | build/scripts/format_codes.py:39-51 | one directory's files, in order, stopping at the first failure |
| FormatCodes.Format | build/scripts/format_codes.py:35-52 | either every picked file's command ran and succeeded, in walk order, between the start and done lines, or the process exited at the first failure after a successful prefix, without the done line |
| FormatSrcs.SameFilesPicked | format_srcs.py:29 | the same six extensions as format_codes.py, so the same files are picked |
| FormatSrcs.EchoesRunInOrder | format_srcs.py:43-45 | every command is run in order, between its echo and its done line |
| FormatSrcs.FormatFile | format_srcs.py:35-45 | a picked file's "clang-format -i <path>" is printed, run and printed with " done."; others do nothing |
| FormatSrcs.FormatNext | format_srcs.py:34-45 | one more file extends the log of every file so far |
| FormatSrcs.FormatDir | format_srcs.py:33-45 | every file of one directory, in order |
| FormatSrcs.FormatSrcs | format_srcs.py:31-45 | every picked file of the walk gets its command, in walk order, whatever the statuses |
| FormatSrcs.FormatWind | format_srcs.py:47-49 | the entry point formats <script dir>/wind |
| Shell.Shell.Execute | build/scripts/build.py:50-53 | a command is logged and its status is the next one of the given statuses |
| Shell.Shell.constructor | build/scripts/build.py:106-139 | the script starts with no action and no command, the given exit statuses and the directories that exist |
| Shell.Shell.Print | build/scripts/build.py:47 | print appends exactly its text to the log |
| Shell.Shell.ChangeDir | build/scripts/build.py:48 | os.chdir is logged and changes nothing else |
| Shell.Shell.MakeDir | build/scripts/build.py:93 | os.mkdir succeeds iff the path is absent and its parent exists; otherwise it raises FileExistsError or FileNotFoundError and no directory is made |
| Shell.Shell.CopyFile | build/scripts/build.py:59 | shutil.copy is logged with its source and destination |
| Shell.Shell.Exit | build/scripts/format_codes.py:51 | sys.exit is logged with its message |
| Endian.FromLEOfLE | wind/conn/Endian.h:33-91 | reading back the n little-endian bytes of an n-byte value gives the value |
| Endian.LEOfFromLE | wind/conn/Endian.h:33-91 | re-encoding decoded bytes at their width gives the bytes back |
| Endian.FromBEOfBE | wind/conn/Endian.h:31-61 | reading back the most-significant-first bytes of a value gives the value |
| Endian.BEOfFromBE | wind/conn/Endian.h:31-61 | re-encoding a big-endian decoding gives the bytes back |
| Endian.HostToNet | wind/conn/Endian.h:33-61 | hostToNet on 16, 32 and 64 bits: the result lies in host memory as the value's bytes most significant first, on either host byte order |
| Endian.NetToHost | wind/conn/Endian.h:63-91 | netToHost: the value whose most-significant-first bytes are what the input holds in host memory |
| Endian.NetToHostOfHostToNet | wind/conn/Endian.h:33-91 | netToHost(hostToNet(x)) == x for every unsigned width and host byte order |
| Endian.HostToNetOfNetToHost | wind/conn/Endian.h:33-91 | hostToNet(netToHost(y)) == y: the two are mutual inverses |
| Endian.SignedRoundTrip | wind/conn/Endian.h:38-91 | two's complement reinterpretation as unsigned and back gives the signed value |
| Endian.UnsignedRoundTrip | wind/conn/Endian.h:38-91 | reinterpretation as signed and back gives the unsigned bits |
| Endian.HostToNetSigned | wind/conn/Endian.h:38-61 | hostToNet on int16/32/64 converts the bits as unsigned: the result's bytes in memory are the value's bits most significant first |
| Endian.NetToHostSigned | wind/conn/Endian.h:68-91 | netToHost on int16/32/64 reads the bits back the same way |
| Endian.NetToHostOfHostToNetSigned | wind/conn/Endian.h:38-91 | netToHost(hostToNet(v)) == v for signed values of every width, -1, MIN and MAX included |
| Endian.HostToNetOfNetToHostSigned | wind/conn/Endian.h:38-91 | hostToNet(netToHost(w)) == w for signed values |
| ConnBuffer.DecodeEncode | wind/conn/Buffer.h:93-260 | what a write of any width and signedness puts on the wire reads back as the value |
| ConnBuffer.EncodeDecode | wind/conn/Buffer.h:93-260 | every byte string is the wire form of exactly the value read from it |
| ConnBuffer.DecodeFront | wind/conn/Buffer.h:150-260 | a mixed sequence of writes reads back value by value in write order |
| ConnBuffer.MemcpyToHost | wind/conn/Buffer.h:93-148 | memcpy of the readable bytes then netToHost (raw byte for 1-byte types) is the big-endian value of the bytes, on either host |
| ConnBuffer.Buffer.constructor | wind/conn/Buffer.cpp:29-31 | data has prependSize + initialSize zero bytes and both indices are prependSize |
| ConnBuffer.Buffer.Default | wind/conn/Buffer.h:37-40 | a default buffer: 0 readable, 8 prepend bytes, 1016 writable |
| ConnBuffer.Buffer.Copy | wind/conn/Buffer.h:43 | the defaulted copy has the same data and indices |
| ConnBuffer.Buffer.MoveFrom | wind/conn/Buffer.cpp:40-42 | the move constructor takes the data and indices; the source keeps its indices over an empty vector |
| ConnBuffer.Buffer.PrependBytes | wind/conn/Buffer.h:71-74 | prependBytes is the room before the readable bytes |
| ConnBuffer.Buffer.BytesReadable | wind/conn/Buffer.h:75-79 | bytesReadable is the number of readable bytes, writeIdx_ - readIdx_ |
| ConnBuffer.Buffer.BytesWritable | wind/conn/Buffer.h:80-84 | prepend + readable + writable is the whole vector |
| ConnBuffer.Buffer.Swap | wind/conn/Buffer.cpp:33-38 | swap exchanges data, readIdx_ and writeIdx_ |
| ConnBuffer.Buffer.MoveAssign | wind/conn/Buffer.cpp:44-48 | move assignment is swap |
| ConnBuffer.Buffer.ResumeAll | wind/conn/Buffer.h:87-91 | both indices become the constant PREPEND_SIZE; nothing is readable |
| ConnBuffer.Buffer.Resume | wind/conn/Buffer.cpp:50-58 | len below readable advances readIdx_ by len and the readable bytes lose their first len; len at or above readable (the ASSERT compiled out) resets both indices and leaves nothing readable |
| ConnBuffer.Buffer.MakeMoreSpace | wind/conn/Buffer.cpp:60-79 | afterwards writable >= len and the readable bytes are unchanged; the grow branch sizes the vector writeIdx_ + len and keeps every old byte; the compaction branch holds only when readIdx_ > PREPEND_SIZE and moves the readable bytes to PREPEND_SIZE |
| ConnBuffer.Buffer.Append | wind/conn/Buffer.cpp:81-90 | the readable bytes become the old ones followed by the data, in each of the three cases (room, grow, compact) |
| ConnBuffer.Buffer.PeekInt | wind/conn/Buffer.h:93-148 | peekX needs sizeof(X) readable bytes and returns the value of the first of them in network byte order |
| ConnBuffer.Buffer.ReadInt | wind/conn/Buffer.h:150-197 | readX returns peekX and consumes exactly sizeof(X) bytes |
| ConnBuffer.Buffer.WriteInt | wind/conn/Buffer.h:217-260 | writeX appends the value's bytes most significant first (the raw byte for 1-byte types) |
| ConnBuffer.Buffer.ReadBytes | wind/conn/Buffer.h:198-205 | read(len) returns the first len readable bytes and consumes them; past the compiled-out ASSERT a larger len returns and consumes every readable byte |
| ConnBuffer.Buffer.ReadAll | wind/conn/Buffer.h:206-209 | readAll returns every readable byte and leaves none |
| ConnBuffer.Buffer.HandleSocketRead | wind/conn/Buffer.cpp:93-115 | a negative readv result saves errno and changes nothing; otherwise the n bytes read are appended in order, spilling past the writable area through append |
| FixedSizeBuffer.StrLen | wind/base/FixedSizeBuffer.h:94-100 | strlen is the position of the first NUL |
| FixedSizeBuffer.FixedSizeBuffer.Length | wind/base/FixedSizeBuffer.h:64-67 | length never exceeds the capacity |
| FixedSizeBuffer.FixedSizeBuffer.Available | wind/base/FixedSizeBuffer.h:60-71 | length + available == capacity |
| FixedSizeBuffer.FixedSizeBuffer.ToString | wind/base/FixedSizeBuffer.h:105-108 | toString has exactly length characters: data_[0..length) |
| FixedSizeBuffer.FixedSizeBuffer.constructor | wind/base/FixedSizeBuffer.h:37-112 | a new buffer is zero-filled, with length 0 and available == capacity == BUF_SIZE |
| FixedSizeBuffer.FixedSizeBuffer.Grow | wind/base/FixedSizeBuffer.h:50-54 | grow(len) needs len < available, strictly, and advances the write position by len |
| FixedSizeBuffer.FixedSizeBuffer.Reset | wind/base/FixedSizeBuffer.h:73-76 | reset makes length 0 and available the capacity |
| FixedSizeBuffer.FixedSizeBuffer.Clean | wind/base/FixedSizeBuffer.h:78-83 | clean zeroes every character and resets |
| FixedSizeBuffer.FixedSizeBuffer.Append | wind/base/FixedSizeBuffer.h:85-93 | a null pointer or an empty text changes nothing; otherwise min(len, available) characters are copied at the write position, the rest dropped, and nothing after them changes |
| FixedSizeBuffer.FixedSizeBuffer.AppendCStr | wind/base/FixedSizeBuffer.h:94-100 | a null C string adds nothing; otherwise its characters up to the NUL, truncated to what fits |
| FixedSizeBuffer.FixedSizeBuffer.AppendString | wind/base/FixedSizeBuffer.h:101-104 | a string's characters, truncated to what fits |
| LegacyBuffer.FixedSizeBuffer.Length | wind/Buffer.h:20 | length never exceeds the capacity |
| LegacyBuffer.FixedSizeBuffer.Available | wind/Buffer.h:19-21 | length + available == capacity |
| LegacyBuffer.FixedSizeBuffer.ToString | wind/Buffer.h:37 | toString has exactly length characters |
| LegacyBuffer.FixedSizeBuffer.constructor | wind/Buffer.h:13-41 | a fresh buffer has capacity == available == N and length 0, its characters unspecified |
| LegacyBuffer.FixedSizeBuffer.Reset | wind/Buffer.h:23 | reset restores length 0 and available N |
| LegacyBuffer.FixedSizeBuffer.Clear | wind/Buffer.h:24-28 | clear zeroes every character and resets |
| LegacyBuffer.FixedSizeBuffer.Append | wind/Buffer.h:30-36 | append (no null or zero guard) copies min(len, available) characters, so successive appends concatenate and 12 characters into 10 keep the first 10 |
| CInt.Div | wind/base/LogStream.cpp:69-70 | C's `/`: the quotient's magnitude is the magnitudes' quotient and it has the dividend's sign (truncation toward zero) |
| CInt.Rem | wind/base/LogStream.cpp:69-70 | C's `%`: quotient times divisor plus remainder is the dividend, and the remainder has the dividend's sign |
| Numerals.ValueOfText | wind/base/LogStream.cpp:61-96 | reading the digit text of n back in its base gives n |
| Numerals.TextLeadingDigit | wind/base/LogStream.cpp:82-96 | the text has no leading zero, and zero is the single digit "0" |
| Numerals.TextLength | wind/base/LogStream.cpp:59-60 | a number below base^k needs at most k digits |
| LogStream.DigitToChar | wind/base/LogStream.cpp:40-47 | for -10 < i < 10 the symmetric table gives the digit of abs(i) |
| LogStream.HexDigitToChar | wind/base/LogStream.cpp:49-57 | index 0..15 gives the lower- or upper-case hexadecimal digit; index 16 gives the terminator |
| LogStream.SignedDecLength | wind/base/LogStream.cpp:38-80 | the decimal text of any int64 or uint64 has at most 20 characters, below MAX_NUMERIC_SIZE (32) |
| LogStream.HexLength | wind/base/LogStream.cpp:82-96 | the hexadecimal text of a 64-bit pointer has at most 16 characters |
| LogStream.DecimalDigitsBackwards | wind/base/LogStream.cpp:67-72 | the do-while writes the magnitude's decimal digits least significant first, using C division, so INT64_MIN works |
| LogStream.HexDigitsBackwards | wind/base/LogStream.cpp:86-91 | the do-while writes the hexadecimal digits least significant first |
| LogStream.SignedDigitsBackwards | wind/base/LogStream.cpp:67-75 | the digits and then '-' for a negative value: the decimal text back to front |
| LogStream.ReverseBackwards | wind/base/LogStream.cpp:78 | std::reverse turns the backwards text into the text and touches nothing else |
| LogStream.ConvertDigitToString | wind/base/LogStream.cpp:61-80 | writes exactly the decimal text of any int64/uint64 ('-' for negatives) at the position, NUL-terminates it, returns its length and leaves the rest of the buffer alone |
| LogStream.ConvertPointerToString | wind/base/LogStream.cpp:82-96 | writes the lower-case hexadecimal text with no leading zeros ("0" for 0), NUL-terminated, and returns its length |
| LogStream.NullSinkNeverTerminates | wind/base/LogStream.cpp:122-126 | with a null output function, after one round of the chunk loop the state no longer changes and the loop condition still holds: append would never end |
| LogStream.SinkMakesProgress | wind/base/LogStream.cpp:200-206 | with an output function, every round empties the buffer and advances the offset by the free space |
| LogStream.Sinks.SetOutputFunc | wind/base/LogStream.cpp:102-105 | setOutputFunc changes only which output function is set |
| LogStream.Sinks.SetFlushFunc | wind/base/LogStream.cpp:107-110 | setFlushFunc changes only which flush function is set |
| LogStream.LogStream.Output | wind/base/LogStream.cpp:122-130 | output() hands exactly the buffered text to the output function and empties the buffer; with none set nothing changes |
| LogStream.LogStream.Flush | wind/base/LogStream.cpp:137-147 | flush() outputs the buffered text before the flush function runs |
| LogStream.LogStream.Destroy | wind/base/LogStream.cpp:112-115 | the destructor outputs whatever is buffered |
| LogStream.LogStream.PreProcessWithNumericInput | wind/base/LogStream.cpp:154-160 | the buffer is output first exactly when fewer than 32 characters are free |
| LogStream.LogStream.Append | wind/base/LogStream.cpp:195-212 | the text output during the call followed by the final buffer is the old buffer followed by the data; only output calls happen, and none when the data fits; needs an output function when it does not fit |
| LogStream.LogStream.AppendInChunks | wind/base/LogStream.cpp:199-211 | the do-while: fill, output, repeat while the rest does not fit, then store the rest |
| LogStream.LogStream.WriteDecimal | wind/base/LogStream.cpp:165-166 | convertDigitToString then grow: the buffer gains exactly the decimal text |
| LogStream.LogStream.WriteHex | wind/base/LogStream.cpp:182-183 | convertPointerToString then grow: the buffer gains exactly the hexadecimal text |
| LogStream.LogStream.PutInteger | wind/base/LogStream.cpp:162-176 | operator<< on an integer logs its decimal text, outputting the buffer first exactly when fewer than 32 characters are free; without an output function it reports whether the text fit, and logs nothing when it did not |
| LogStream.LogStream.PutPointer | wind/base/LogStream.cpp:178-185 | operator<< on a pointer logs "0x" and then the address in hexadecimal; without an output function it reports whether the address fit and logs only "0x" when it did not |
| LogStream.LogStream.Endl | wind/base/LogStream.h:132-136 | endl logs a newline and then flushes, the flush function being the last call |
| LegacyLogStream.ConvertDigitToString | wind/LogStream.cpp:52-70 | writes exactly the decimal text with '-' for negatives and returns its length, without a terminator |
| LegacyLogStream.LogStream.Output | wind/LogStream.cpp:97-105 | output() hands the buffered text to the output function and empties the buffer; with none set nothing changes |
| LegacyLogStream.LogStream.Flush | wind/LogStream.cpp:112-122 | flush() outputs the buffered text before the flush function runs |
| LegacyLogStream.LogStream.Destroy | wind/LogStream.cpp:87-90 | the destructor outputs whatever is buffered |
| LegacyLogStream.LogStream.PreProcessWithNumericInput | wind/LogStream.cpp:129-135 | the buffer is output first exactly when fewer than 32 characters are free |
| LegacyLogStream.LogStream.Append | wind/LogStream.cpp:161-178 | emitted chunks followed by the final buffer equal the old buffer followed by the data; needs an output function when the data does not fit |
| LegacyLogStream.LogStream.AppendInChunks | wind/LogStream.cpp:165-177 | the do-while chunk loop with output between rounds |
| LegacyLogStream.LogStream.WriteDecimal | wind/LogStream.cpp:140-141 | the buffer gains exactly the decimal text |
| LegacyLogStream.LogStream.PutInteger | wind/LogStream.cpp:137-151 | operator<< on an integer logs its decimal text after the 32-character check; without an output function it reports whether the text fit, logging nothing when it did not |
| LogStream.Sinks.constructor | wind/base/LogStream.cpp:99-100 | both the output and the flush function start as the defaults, and nothing has been emitted |
| LogStream.LogStream.constructor | wind/base/LogStream.h:62 | a new stream has an empty buffer on the shared sinks |
| LogStream.LogStream.Store | wind/base/LogStream.cpp:197-198 | text that fits is appended to the buffer and to what the stream has logged |
| LogStream.LogStream.AppendChunk | wind/base/LogStream.cpp:202-205 | a chunk that fills the buffer exactly is written out together with what was buffered, leaving the buffer empty |
| LegacyLogStream.LogStream.constructor | wind/LogStream.h:56 | a new stream has an empty buffer on the shared sinks |
| LegacyLogStream.LogStream.Store | wind/LogStream.cpp:163-164 | text that fits is appended to the buffer and to what the stream has logged |
| LegacyLogStream.LogStream.AppendChunk | wind/LogStream.cpp:168-171 | a chunk that fills the buffer exactly is written out together with what was buffered, leaving the buffer empty |
| Descriptors.FdTable.Close | wind/base/UniqueFd.h:42-48 | close(2) succeeds exactly on an open descriptor, which is then closed and owned by nobody; every call is logged |
| Descriptors.Replay | wind/base/UniqueFd.h:83-89 | the descriptors still open after a log of closes: none of the closed ones |
| Descriptors.AtMostOnce | wind/base/UniqueFd.h:55-89 | in a consistent close log, a descriptor closed once is never closed successfully again |
| UniqueFd.InvalidSentinel | wind/base/UniqueFd.h:32-40 | INVALID_FD(fd) iff fd < 0, and INVALID_FD() == -1 is invalid (the same in wind/UniqueFd.h:16-24) |
| UniqueFd.UniqueFd.Empty | wind/base/UniqueFd.h:53-91 | a default wrapper holds -1 (likewise wind/UniqueFd.h:40) |
| UniqueFd.UniqueFd.constructor | wind/base/UniqueFd.h:54 | the explicit constructor holds fd and owns it when valid |
| UniqueFd.UniqueFd.MoveFrom | wind/base/UniqueFd.h:58 | move construction transfers the descriptor and leaves the source at -1, closing nothing (wind/UniqueFd.h:45) |
| UniqueFd.UniqueFd.Close | wind/base/UniqueFd.h:83-89 | close() closes the held descriptor iff it is valid, and that close succeeds |
| UniqueFd.UniqueFd.Reset | wind/base/UniqueFd.h:65-69 | reset(fd) closes the held descriptor iff valid, then holds fd (wind/UniqueFd.h:52-56) |
| UniqueFd.UniqueFd.Release | wind/base/UniqueFd.h:71-76 | release() returns the held descriptor open and unowned, leaves -1 and closes nothing (wind/UniqueFd.h:58-63) |
| UniqueFd.UniqueFd.MoveAssign | wind/base/UniqueFd.h:59-63 | move assignment closes the destination's old valid descriptor and takes the source's, leaving it -1; a self-move closes nothing and keeps the descriptor (wind/UniqueFd.h:46-50) |
| UniqueFd.UniqueFd.Destroy | wind/base/UniqueFd.h:55 | the destructor closes a still-held valid descriptor exactly once (wind/UniqueFd.h:42) |
| UniqueFd.Exclusive | wind/base/UniqueFd.h:50-92 | two live wrappers never hold the same valid descriptor, so no descriptor is closed by two owners |
| Utils.CloseFd | src/base/Utils.cpp:14-22 | a negative fd is left alone and nothing is closed; otherwise close is called once, and the variable becomes -1 even when the close fails |
| Utils.CloseFdTwice | src/base/Utils.cpp:14-22 | closeFd is idempotent: a second call on its result closes nothing |
| Utils.ScopedFd.constructor | src/base/include/Utils.h:32 | ScopedFd(fd = -1) holds fd |
| Utils.ScopedFd.Reset | src/base/include/Utils.h:35-38 | reset(fd) closes the old value through closeFd when it is non-negative, then holds fd |
| Utils.ScopedFd.Destroy | src/base/include/Utils.h:33 | the destructor is reset(): the held descriptor is closed and -1 is held |
| Utils.AutoFreeBuf.constructor | src/base/include/Utils.h:47-51 | an array is allocated iff the size is positive, and then it has that size |
| Utils.AutoFreeBuf.Destroy | src/base/include/Utils.h:52-57 | the destructor deletes the array iff there is one, and forgets it |
| Utils.AutoFreeBufLifetime | src/base/include/Utils.h:46-57 | from construction to destruction, the array allocated for a positive size is deleted exactly once, and nothing is deleted for any other size |
| TimerId.Make | wind/base/TimerId.h:32 | the constructor stores the sequence number and the Timer address unchanged |
| TimerId.EqIsEquality | wind/base/TimerId.h:35 | `operator==` holds exactly when both fields are equal, so it is equality of the pair |
| TimerId.Hash | wind/base/TimerId.h:41-48 | the hash is the 64-bit XOR of the id and the address; with a null address it is the id itself |
| TimerId.HashRespectsEq | wind/base/TimerId.h:41-48 | TimerIds that compare equal hash equally |
| TimerId.Eq | wind/base/TimerId.h:35 | operator== holds exactly for identical ids |
| TimerId.Less | wind/base/TimerId.h:36 | the operator< as written is irreflexive |
| TimerId.LexLess | wind/base/TimerId.h:36 | the lexicographic order is irreflexive and implies the written operator< |
| TimerId.LessIrreflexive | wind/base/TimerId.h:36 | `operator<` as written never puts a TimerId below itself |
| TimerId.LessNotAsymmetric | wind/base/TimerId.h:36 | `operator<` as written holds both ways for (1, 0x2000) and (2, 0x1000) |
| TimerId.LessBothWays | wind/base/TimerId.h:36 | whenever one id is smaller and its address is larger, `operator<` as written holds both ways between two unequal TimerIds |
| TimerId.LexLessStrictTotal | wind/base/TimerId.h:36 | the corrected order (by id, then by address) is irreflexive, asymmetric, transitive and total on distinct TimerIds |
| TimerId.LexLessAgrees | wind/base/TimerId.h:36 | wherever the as-written order holds only one way, the corrected order agrees with it |
| Timer.ExecuteSpec | wind/Timer.cpp:46-61 | executing keeps id, interval and callback; a one-shot timer keeps its expiry, a repeating one moves to now + interval, strictly after now |
| Timer.RepeatIsLater | wind/Timer.cpp:57-61 | a repeating timer restarted at now is not due at now and still repeats |
| Timer.IdGenerator.constructor | wind/Timer.cpp:35-39 | the process-wide sequence counter starts at 0 |
| Timer.IdGenerator.GenSequenceId | wind/Timer.cpp:35-39 | fetch_add(1) returns the previous counter value and advances the counter by one, so no id is handed out twice |
| Timer.Timer.constructor | wind/Timer.cpp:42-44 | a new timer stores callback, expiry and interval, repeats exactly when the interval is positive and takes the next sequence number as its id |
| Timer.Timer.Execute | wind/Timer.cpp:46-55 | a set callback runs exactly once and the new state is the execute specification of the old one |
| Timer.Timer.Restart | wind/Timer.cpp:57-61 | only a repeating timer restarts, and its expiry becomes now + interval |
| TimerEntries.BeforeTransitive | wind/base/TimerManager.cpp:92 | the pair order of the timer-entry set is a strict order (transitive and irreflexive) |
| TimerEntries.Insert | wind/base/TimerManager.cpp:92 | `std::set::insert` keeps the entries sorted, holds exactly the old ones plus the new one, and its first entry is the smaller of the new entry and the old first |
| TimerEntries.Remove | wind/base/TimerManager.cpp:122 | `std::set::erase` keeps the entries sorted, removes exactly the given entry, shrinks by one when it was present and keeps the first entry unless that was the one erased |
| TimerEntries.BeforePivot | wind/base/TimerManager.cpp:139 | an entry is before the pivot (receivedTime, TimerId(0, nullptr)) exactly when its time is earlier than receivedTime |
| TimerEntries.LowerBound | wind/base/TimerManager.cpp:140 | `lower_bound(pivot)` returns the first position whose entry is not before the pivot, with every earlier entry before it |
| TimerEntries.LowerBoundSplits | wind/base/TimerManager.cpp:140-143 | in a sorted entry set the entries before the lower bound expire before receivedTime and all later ones at or after it |
| TimerEntries.SortedDistinct | wind/base/TimerManager.cpp:92 | a sorted entry set holds each (time, TimerId) pair at most once |
| TimerManager.GenerateTimerSpec | wind/base/TimerManager.cpp:43-55 | the itimerspec is normalised (0 <= tv_nsec < 10^9, tv_sec >= 0) and encodes max(1, dst - now) microseconds exactly |
| TimerManager.MicrosToSpec | wind/base/TimerManager.cpp:52-53 | splitting a microsecond delay into seconds and nanoseconds loses nothing |
| TimerManager.SpecPositive | wind/base/TimerManager.cpp:48-50 | the programmed delay is never zero, so the kernel timer always fires |
| TimerManager.Ids | wind/base/TimerManager.cpp:92-93 | every entry's TimerId is among the collected ids, and there are no more ids than entries |
| TimerManager.IdsIndex | wind/base/TimerManager.cpp:92-93 | every collected TimerId comes from some entry |
| TimerManager.InIds | wind/base/TimerManager.cpp:92-93 | an entry's TimerId is among the collected ids |
| TimerManager.FiledEntry | wind/base/TimerManager.cpp:92-93 | while the containers agree, every live timer is filed under its own expiry, in the entry set or among the expired entries being dispatched |
| TimerManager.Fire | wind/base/TimerManager.cpp:159-165 | after one expired timer executes, a repeating one is stored with its new expiry and a one-shot one is erased from `timers_` |
| TimerManager.Refile | wind/base/TimerManager.cpp:161-162 | a repeating timer is re-inserted under its new expiry; a one-shot one adds nothing |
| TimerManager.AgreeInsert | wind/base/TimerManager.cpp:92-93 | filing a new timer in both containers keeps them in agreement |
| TimerManager.AgreeRemove | wind/base/TimerManager.cpp:121-122 | a live timer's entry is in the entry set, and erasing it from both containers keeps them in agreement |
| TimerManager.ExpiredSplit | wind/base/TimerManager.cpp:139-143 | getExpiredTimers splits the entries into the prefix that expires before receivedTime and the rest, which still agree with `timers_` with the prefix pending |
| TimerManager.AgreeSplit | wind/base/TimerManager.cpp:142-143 | taking the first k entries out for dispatch keeps agreement, with those entries pending |
| TimerManager.SameIdSameEntry | wind/base/TimerManager.cpp:92-93 | while the containers agree, two entries with the same TimerId are the same entry |
| TimerManager.SplitDisjoint | wind/base/TimerManager.cpp:142-143 | no TimerId is both in the taken prefix and in what remains |
| TimerManager.SplitDistinct | wind/base/TimerManager.cpp:142-143 | the taken prefix carries each TimerId at most once |
| TimerManager.SplitCovers | wind/base/TimerManager.cpp:142-143 | every live timer is in the taken prefix or in what remains |
| TimerManager.AgreeFire | wind/base/TimerManager.cpp:155-165 | executing the first expired timer keeps agreement, with the other expired timers still pending |
| TimerManager.RefiledAgree | wind/base/TimerManager.cpp:159-165 | after one execution every entry is filed in `timers_` under its own time |
| TimerManager.RefiledApart | wind/base/TimerManager.cpp:159-165 | no re-inserted entry is still pending |
| TimerManager.RefiledCovers | wind/base/TimerManager.cpp:159-165 | every timer still live after one execution is re-filed or still pending |
| TimerManager.Dispatch | wind/base/TimerManager.cpp:155-166 | dispatching the expired entries in order leaves agreeing containers, never adds a timer and runs at most one callback per expired entry |
| TimerManager.NotPendingTail | wind/base/TimerManager.cpp:155 | dropping the first pending entry changes nothing for any other TimerId |
| TimerManager.HeadNotPending | wind/base/TimerManager.cpp:155 | the first expired TimerId does not recur among the later expired entries |
| TimerManager.Resume | wind/base/TimerManager.cpp:155-166 | prefixing callbacks already run keeps both containers and adds their count to the runs |
| TimerManager.DispatchStep | wind/base/TimerManager.cpp:155-166 | one loop turn executes the first expired timer, re-files or erases it, and dispatches the rest |
| TimerManager.DispatchUntouched | wind/base/TimerManager.cpp:155-166 | a timer that is not among the expired entries keeps its state |
| TimerManager.DispatchExecuted | wind/base/TimerManager.cpp:155-166 | every expired timer has executed once: a repeating one is kept with its new state, a one-shot one is erased |
| TimerManager.DispatchRuns | wind/base/TimerManager.cpp:155-166 | a callback runs exactly for the expired timers that have one |
| TimerManager.FireOthers | wind/base/TimerManager.cpp:159-165 | executing one timer leaves every other timer as it was |
| TimerManager.RunsStep | wind/base/TimerManager.cpp:155-166 | the runs of one loop turn are the head's callback followed by the rest's, which run exactly for the pending timers with a callback |
| TimerManager.HandleReadSpec | wind/base/TimerManager.cpp:148-171 | handleRead leaves the containers in agreement |
| TimerManager.Due | wind/base/TimerManager.cpp:139-142 | the entries handleRead dispatches are a prefix of the entry set |
| TimerManager.DueIffEarlier | wind/base/TimerManager.cpp:139-142 | a timer is dispatched exactly when its expiry is earlier than receivedTime |
| TimerManager.HandleReadUntouched | wind/base/TimerManager.cpp:148-171 | a timer that is not yet due is left exactly as it was |
| TimerManager.HandleReadExecuted | wind/base/TimerManager.cpp:148-171 | a due timer has executed once, and is kept with its new expiry only if it repeats |
| TimerManager.HandleReadRuns | wind/base/TimerManager.cpp:148-171 | exactly the due timers that have a callback have run it |
| TimerManager.HandleReadLeavesOne | wind/base/TimerManager.cpp:169 | if some timer is not yet due, or repeats, an entry remains for the re-arm to read |
| TimerManager.HandleReadLeavesSome | wind/base/TimerManager.cpp:169 | the same, stated for some timer rather than a given one |
| TimerManager.HandleReadEmpties | wind/base/TimerManager.cpp:153-169 | when every timer is due and none repeats, handleRead leaves no entry for cbegin() to read |
| TimerManager.HandleReadLeavesIff | wind/base/TimerManager.cpp:153-169 | an entry remains after handleRead exactly when some timer is not yet due or repeats |
| TimerManager.SingleOneShotEmptiesSet | wind/base/TimerManager.cpp:153-169 | a lone one-shot timer that fires leaves the set empty before the cbegin() re-arm |
| TimerManager.HandleReadIsDispatch | wind/base/TimerManager.cpp:153-166 | the outcome of handleRead is the dispatch of the expired prefix, with the rest of the entries kept |
| TimerManager.RunStep | wind/base/TimerManager.cpp:155-166 | one loop turn preserves agreement and the outcome of the whole dispatch |
| TimerManager.ResumeTwice | wind/base/TimerManager.cpp:155-166 | resuming twice is resuming once with the callbacks concatenated |
| TimerManager.RunExpired | wind/base/TimerManager.cpp:155-166 | the loop over the expired entries computes exactly the dispatch of them |
| TimerManager.TimerManager.constructor | wind/base/TimerManager.cpp:58-65 | a new manager has no timers, no entries, no re-arms, no callbacks run and no timerfd reads |
| TimerManager.TimerManager.AddTimerInLoop | wind/base/TimerManager.cpp:83-98 | the timer is filed in both containers, and the timerfd is re-armed to its expiry exactly when there was no entry or it expires before the first one |
| TimerManager.TimerManager.CancelTimerInLoop | wind/base/TimerManager.cpp:105-127 | a null or unknown TimerId changes nothing; otherwise the timer leaves both containers, and the timerfd is re-armed to the new first entry exactly when the cancelled entry was first |
| TimerManager.TimerManager.GetExpiredTimers | wind/base/TimerManager.cpp:135-146 | the returned entries are the prefix expiring before receivedTime, the entry set keeps the rest, and the two concatenate to the old set |
| TimerManager.TimerManager.HandleRead | wind/base/TimerManager.cpp:148-171 | one timerfd read, the new state is the handleRead specification, and the timerfd is re-armed to the new first entry when one remains (corrected; see Findings) |
| TimerManager.TimerManager.DispatchExpired | wind/base/TimerManager.cpp:153-167 | the expired timers are dispatched as handleRead specifies, and an entry remains exactly when some timer was not yet due or repeats |
| LegacyTimerManager.GenerateTimerSpec | wind/TimerManager.cpp:41-55 | the itimerspec is normalised and encodes the delay in nanoseconds exactly when it is at least 1000 ns, and exactly 1000 ns otherwise |
| LegacyTimerManager.SpecPositive | wind/TimerManager.cpp:47-50 | the programmed delay is never zero, so the kernel timer always fires |
| LegacyTimerManager.Addrs | wind/TimerManager.cpp:107 | every pair's Timer address is among the collected addresses, and there are no more addresses than pairs |
| LegacyTimerManager.AddrsIndex | wind/TimerManager.cpp:107 | every collected address comes from some pair |
| LegacyTimerManager.Insert | wind/TimerManager.cpp:107 | `std::set::insert` keeps the pairs sorted, holds exactly the old ones plus the new one, and its first pair is the smaller of the new pair and the old first |
| LegacyTimerManager.AddrsInsert | wind/TimerManager.cpp:107 | inserting a pair adds exactly its Timer's address |
| LegacyTimerManager.LowerBound | wind/TimerManager.cpp:124 | `lower_bound(pivot)` returns the first position whose pair is not before the pivot, with every earlier pair before it |
| LegacyTimerManager.LowerBoundSplits | wind/TimerManager.cpp:124-127 | in a sorted set no pair from the lower bound on is before the pivot |
| LegacyTimerManager.Dispatch | wind/TimerManager.cpp:139-146 | running the expired pairs in order leaves the set filed and keeps every Timer's state in the model's heap |
| LegacyTimerManager.FiledStep | wind/TimerManager.cpp:139-146 | executing the first expired Timer, and re-inserting it if it repeats, keeps the rest filed |
| LegacyTimerManager.FiledEntriesStep | wind/TimerManager.cpp:141-145 | after one execution every pair in the set matches its Timer's expiry |
| LegacyTimerManager.FiledPendingStep | wind/TimerManager.cpp:141-145 | after one execution the other expired Timers are still out of the set and unchanged |
| LegacyTimerManager.PendingTail | wind/TimerManager.cpp:139 | dropping the first expired pair changes nothing for any other address |
| LegacyTimerManager.DispatchEffect | wind/TimerManager.cpp:139-146 | a Timer not among the expired pairs is untouched; an expired one has executed once and is back in the set exactly when it repeats; a callback ran exactly for the expired Timers that have one |
| LegacyTimerManager.FiledSplit | wind/TimerManager.cpp:126-127 | taking the first k pairs out keeps the rest filed, with the taken pairs pending |
| LegacyTimerManager.HandleReadSpec | wind/TimerManager.cpp:132-150 | handleRead leaves the set filed and keeps every Timer's state in the model's heap |
| LegacyTimerManager.DueIffBefore | wind/TimerManager.cpp:123-127 | a filed Timer is taken out exactly when its pair is before the pivot, and otherwise stays in the set |
| LegacyTimerManager.HandleReadEffect | wind/TimerManager.cpp:132-150 | an unfiled Timer is untouched and not run; a filed Timer not yet due stays; a due one has executed once, is back in the set exactly when it repeats and ran its callback exactly when it has one |
| LegacyTimerManager.HandleReadLeavesOne | wind/TimerManager.cpp:149 | if some pair is not before the pivot, or its Timer repeats, a pair remains for the re-arm to read |
| LegacyTimerManager.HandleReadLeavesSome | wind/TimerManager.cpp:149 | the same, stated for some pair rather than a given one |
| LegacyTimerManager.HandleReadEmpties | wind/TimerManager.cpp:132-149 | when every pair is before the pivot and no Timer repeats, handleRead leaves no pair for cbegin() to read |
| LegacyTimerManager.HandleReadLeavesIff | wind/TimerManager.cpp:132-149 | a pair remains after handleRead exactly when some pair is not before the pivot or its Timer repeats |
| LegacyTimerManager.SingleOneShotEmptiesSet | wind/TimerManager.cpp:132-149 | a lone one-shot Timer that fires leaves the set empty before the cbegin() re-arm |
| LegacyTimerManager.Resume | wind/TimerManager.cpp:139-146 | prefixing callbacks already run keeps the set and the Timers and adds their count to the runs |
| LegacyTimerManager.ResumeTwice | wind/TimerManager.cpp:139-146 | resuming twice is resuming once with the callbacks concatenated |
| LegacyTimerManager.RunStep | wind/TimerManager.cpp:139-146 | one loop turn keeps the set filed and the outcome of the whole dispatch |
| LegacyTimerManager.RunExpired | wind/TimerManager.cpp:139-146 | the loop over the expired pairs computes exactly their dispatch |
| LegacyTimerManager.FiledAdd | wind/TimerManager.cpp:107 | inserting a new Timer's pair keeps the set filed |
| LegacyTimerManager.TimerManager.constructor | wind/TimerManager.cpp:58-64 | a new manager has no pairs, no Timers, no re-arms, no callbacks run and no timerfd reads |
| LegacyTimerManager.TimerManager.AddTimerInLoop | wind/TimerManager.cpp:83-112 | a null Timer changes nothing; otherwise its pair is inserted, and the timerfd is re-armed to its expiry exactly when the set was empty or the first pair expires later |
| LegacyTimerManager.TimerManager.GetExpiredTimers | wind/TimerManager.cpp:120-130 | the returned pairs are the prefix before the pivot and the set keeps the rest, none of it before the pivot |
| LegacyTimerManager.TimerManager.HandleRead | wind/TimerManager.cpp:132-151 | one timerfd read, the new state is the handleRead specification, and the timerfd is re-armed to the new first pair when one remains (corrected; see Findings) |
| LegacyTimerManager.TimerManager.DispatchExpired | wind/TimerManager.cpp:137-147 | the expired pairs are dispatched as handleRead specifies, and a pair remains exactly when some pair was not before the pivot or its Timer repeats |
| Connector.Classify | wind/conn/Connector.cpp:338-356 | errno 0 establishes; EINPROGRESS and EISCONN go on connecting; EAGAIN, EADDRINUSE, EADDRNOTAVAIL, ECONNREFUSED and ENETUNREACH retry; every other errno is a plain failure, each case exactly |
| Connector.Backoff | wind/conn/Connector.cpp:318-319 | every retry delay lies between 500 ms and 30 s |
| Connector.BackoffClosedForm | wind/conn/Connector.cpp:318-319 | after k retries the delay is min(30000, 500 * 2^k) ms |
| Connector.BackoffValues | wind/conn/Connector.h:39-41 | the delays are 500, 1000, 2000, 4000, 8000 and 16000 ms, then 30 s from the sixth retry on |
| Connector.BackoffCapped | wind/conn/Connector.cpp:318-319 | from the sixth retry on the delay stays at the 30 s cap |
| Connector.StateString | wind/conn/Connector.cpp:275-290 | each state has its own upper-case name, and the name determines the state |
| Connector.LocalPath | wind/conn/Connector.cpp:184 | the local socket path is the remote path, a '-', then the pid text |
| Connector.LockFileName | wind/conn/Connector.cpp:166 | the lock file is the socket path followed by ".lock" |
| Connector.Connector.constructor | wind/conn/Connector.cpp:41-63 | a new connector is DISCONNECTED and not started, with a 500 ms delay, no channel, no retry timer and no lock file |
| Connector.Connector.SetOnConnectedCallback | wind/conn/Connector.cpp:70-78 | the callback is replaced only while the connector is not started |
| Connector.Connector.RemoveChannel | wind/conn/Connector.cpp:203-212 | the channel is dropped |
| Connector.Connector.Stop | wind/conn/Connector.cpp:80-93 | the connector is no longer started; when CONNECTING it becomes DISCONNECTED, drops its channel and cancels a pending retry timer; otherwise nothing else changes |
| Connector.Connector.Retry | wind/conn/Connector.cpp:309-320 | the connector becomes DISCONNECTED; when started, a retry timer is scheduled after the current delay (in microseconds) and the delay doubles up to 30 s; when not, nothing is scheduled |
| Connector.Connector.Establish | wind/conn/Connector.cpp:192-201 | the connector becomes CONNECTED and the socket goes to the callback when there is one, and is closed otherwise |
| Connector.Connector.Connecting | wind/conn/Connector.cpp:322-332 | from DISCONNECTED with no channel, the connector becomes CONNECTING with a channel on the socket |
| Connector.Connector.HandleConnectResult | wind/conn/Connector.cpp:334-357 | each errno class leads to its state: CONNECTED, CONNECTING on the socket, or DISCONNECTED with the socket closed and, for the retried errnos only, a retry scheduled |
| Connector.Connector.StartInLoop | wind/conn/Connector.cpp:124-190 | not started or of unknown type: nothing changes; a local connector locks the path `remote-pid.lock`; otherwise the attempt's errno decides as in handleConnectResult |
| Connector.Connector.Start | wind/conn/Connector.cpp:109-117 | a second start changes nothing; the first one marks the connector started and makes an attempt |
| Connector.Connector.Restart | wind/conn/Connector.cpp:95-107 | the connector is started afresh with the delay back at 500 ms, so a retried attempt is scheduled after 500 ms and leaves the delay at 1000 ms |
| Connector.Connector.OnChannelWritable | wind/conn/Connector.cpp:232-256 | the channel is dropped; when CONNECTING, SO_ERROR 0 without a self-connect establishes and anything else closes the socket and retries; in any other state the socket is closed and the connector DISCONNECTED with nothing scheduled |
| Connector.Connector.OnChannelError | wind/conn/Connector.cpp:258-273 | when CONNECTING, the channel is dropped, its socket closed and a retry made; otherwise the connector becomes DISCONNECTED and keeps its channel |
| Connector.Connector.Destroy | wind/conn/Connector.cpp:65-68 | the destructor drops the channel |
| TcpConnection.StateString | wind/conn/TcpConnection.cpp:71-98 | each state has its own capitalised name, and the name determines the state |
| TcpConnection.SplitSend | wind/conn/TcpConnection.cpp:160-184 | writing a prefix directly (only with nothing queued) and queueing the rest keeps the byte order of everything sent |
| TcpConnection.TcpConnection.constructor | wind/conn/TcpConnection.cpp:53-67 | a new connection is CONNECTING with a channel on its socket that has all four handlers and no events, and with empty send and receive buffers |
| TcpConnection.TcpConnection.OnEstablished | wind/conn/TcpConnection.cpp:123-132 | from CONNECTING: the channel is tied and starts reading, the state becomes CONNECTED and the connection callback reports it |
| TcpConnection.TcpConnection.OnRemoved | wind/conn/TcpConnection.cpp:134-144 | a CONNECTED connection becomes DISCONNECTED, its channel drops every event and leaves the loop, and the callback reports it; in any other state nothing happens |
| TcpConnection.TcpConnection.SendInLoop | wind/conn/TcpConnection.cpp:151-185 | not connected: nothing changes; otherwise the message is appended to everything sent, written directly only when nothing is queued and the channel is not writing, with the rest queued and the channel waiting for writability |
| TcpConnection.TcpConnection.QueueRest | wind/conn/TcpConnection.cpp:179-184 | the unwritten rest is appended to the send buffer and the channel waits for writability, updated only if it was not already writing |
| TcpConnection.TcpConnection.HandleWrite | wind/conn/TcpConnection.cpp:204-223 | a writing channel sends a prefix of the queue, which is consumed, and stops writing once the queue is empty; a failed write or a channel not writing changes nothing; the bytes sent overall never change |
| TcpConnection.TcpConnection.HandleClose | wind/conn/TcpConnection.cpp:227-238 | the connection becomes DISCONNECTED, its channel drops every event, and the connection callback runs, then the close callback when there is one |
| TcpConnection.TcpConnection.HandleRead | wind/conn/TcpConnection.cpp:187-202 | reading 0 bytes closes the connection; a positive read appends the bytes and calls the message callback, whose default drops everything; an error changes nothing |
| TcpConnection.TcpConnection.DefaultMessageCallback | wind/conn/TcpConnection.cpp:41-50 | the default message callback empties the receive buffer |
| Epoll.DecodeBits | wind/base/EventChannel.cpp:111-141 | a hang-up counts only without EPOLLIN, an error is EPOLLERR, input is any of EPOLLIN, EPOLLPRI and EPOLLRDHUP, and output is EPOLLOUT |
| Epoll.Decode | wind/base/EventChannel.cpp:111-141 | an event with EPOLLIN is readable and never a hang-up |
| Epoll.Fired | wind/base/EventChannel.cpp:107-148 | a close or error callback runs alone; otherwise at most the read and the write callback run |
| Epoll.FiredMembers | wind/base/EventChannel.cpp:107-148 | the close callback runs exactly on a hang-up without input when it is set; the error callback exactly on an error when set and no close ran; read and write exactly on their bits when set and neither close nor error ran |
| Epoll.FiredOrder | wind/base/EventChannel.cpp:133-147 | no callback runs twice, and read always runs before write |
| Epoll.SetBits | wind/base/EventChannel.cpp:52-77 | the bits of the mask are set and every other bit is kept |
| Epoll.ClearBits | wind/base/EventChannel.cpp:61-86 | the bits of the mask are cleared and every other bit is kept |
| EventChannel.EventChannel.constructor | wind/base/EventChannel.cpp:31-35 | a new channel listens to nothing, has received nothing, has no callbacks and is neither added to a loop nor tied |
| EventChannel.EventChannel.Queries | wind/base/EventChannel.h:89-100 | isReading tests exactly EPOLLIN or EPOLLPRI, isWriting exactly EPOLLOUT, and a channel with no events does neither |
| EventChannel.EventChannel.SetReadCallback | wind/base/EventChannel.h:69-72 | only the read callback changes |
| EventChannel.EventChannel.SetWriteCallback | wind/base/EventChannel.h:74-77 | only the write callback changes |
| EventChannel.EventChannel.SetErrorCallback | wind/base/EventChannel.h:79-82 | only the error callback changes |
| EventChannel.EventChannel.SetCloseCallback | wind/base/EventChannel.h:84-87 | only the close callback changes |
| EventChannel.EventChannel.Tie | wind/base/EventChannel.h:118-122 | the owner is recorded and the channel is tied |
| EventChannel.EventChannel.SetReceivedEvents | wind/base/EventChannel.h:135-138 | the received events are stored as given |
| EventChannel.EventChannel.Remove | wind/base/EventChannel.cpp:45-50 | only a channel with no events is removed: it leaves the loop and one remove request is sent |
| EventChannel.EventChannel.Update | wind/base/EventChannel.cpp:97-105 | a channel with no events is removed; any other is marked added and one update request is sent |
| EventChannel.EventChannel.EnableReading | wind/base/EventChannel.cpp:52-59 | the read bits are set and the others kept; with toUpdate the channel is registered, without it the loop hears nothing |
| EventChannel.EventChannel.DisableReading | wind/base/EventChannel.cpp:61-68 | the read bits are cleared and the others kept; with toUpdate a channel left with nothing is removed and any other re-registered |
| EventChannel.EventChannel.EnableWriting | wind/base/EventChannel.cpp:70-77 | the write bit is set and the others kept; with toUpdate the channel is registered, without it the loop hears nothing |
| EventChannel.EventChannel.DisableWriting | wind/base/EventChannel.cpp:79-86 | the write bit is cleared and the others kept; with toUpdate a channel left with nothing is removed and any other re-registered |
| EventChannel.EventChannel.DisableAll | wind/base/EventChannel.cpp:88-95 | no events remain, and with toRemove the channel leaves the loop |
| EventChannel.EventChannel.HandleEvent | wind/base/EventChannel.cpp:107-148 | the callbacks run are exactly those the received events select; after a close or error callback the channel drops every event and leaves the loop, and otherwise its registration is untouched |
| EventChannel.EventChannel.HandleEventInner | wind/base/EventChannel.cpp:111-147 | the same dispatch, on the decoded events |
| LegacyEventChannel.EventChannel.constructor | wind/EventChannel.cpp:34-38 | a new channel listens to nothing, has received nothing, has no callbacks and is not added to a loop |
| LegacyEventChannel.EventChannel.Queries | wind/EventChannel.h:103-105 | isReading tests exactly EPOLLIN or EPOLLPRI, isWriting exactly EPOLLOUT, and a channel with no events does neither |
| LegacyEventChannel.EventChannel.SetReadCallback | wind/EventChannel.h:62-65 | only the read callback changes |
| LegacyEventChannel.EventChannel.SetWriteCallback | wind/EventChannel.h:72-75 | only the write callback changes |
| LegacyEventChannel.EventChannel.SetErrorCallback | wind/EventChannel.h:82-85 | only the error callback changes |
| LegacyEventChannel.EventChannel.SetCloseCallback | wind/EventChannel.h:92-95 | only the close callback changes |
| LegacyEventChannel.EventChannel.SetReceivedEvents | wind/EventChannel.h:130 | the received events are stored as given |
| LegacyEventChannel.EventChannel.Remove | wind/EventChannel.cpp:48-53 | only a channel with no events is removed: it leaves the loop and one remove request is sent |
| LegacyEventChannel.EventChannel.Update | wind/EventChannel.cpp:100-108 | a channel with no events is removed; any other is marked added and one update request is sent |
| LegacyEventChannel.EventChannel.EnableReading | wind/EventChannel.cpp:55-62 | the read bits are set and the others kept; with toUpdate the channel is registered |
| LegacyEventChannel.EventChannel.DisableReading | wind/EventChannel.cpp:64-71 | the read bits are cleared and the others kept; with toUpdate a channel left with nothing is removed and any other re-registered |
| LegacyEventChannel.EventChannel.EnableWriting | wind/EventChannel.cpp:73-80 | the write bit is set and the others kept; with toUpdate the channel is registered |
| LegacyEventChannel.EventChannel.DisableWriting | wind/EventChannel.cpp:82-89 | the write bit is cleared and the others kept; with toUpdate a channel left with nothing is removed and any other re-registered |
| LegacyEventChannel.EventChannel.DisableAll | wind/EventChannel.cpp:91-98 | no events remain, and with toRemove the channel leaves the loop |
| LegacyEventChannel.EventChannel.HandleEvent | wind/EventChannel.cpp:110-147 | the callbacks run are exactly those the received events select; after a close or error callback the loop is asked to remove the channel, whose interest bits stay as they were |
| LegacyEventChannel.EventChannel.HandleEventInner | wind/EventChannel.cpp:114-146 | the same dispatch, on the decoded events |
| EventPoller.EpollOperationToString | wind/EventPoller.cpp:35-43 | ADD, MOD and DEL each get their own name, and exactly every other operation is "UnknownEpollCtl" |
| EventPoller.GuardIntended | wind/EventPoller.cpp:66-69 | the intended guard skips exactly the fds that are not registered and never throws |
| EventPoller.GuardAsWritten | wind/EventPoller.cpp:66 | the guard as written never skips an entry |
| EventPoller.GuardAsWrittenNeverSkips | wind/EventPoller.cpp:66-69 | the guard as written never skips: it throws exactly for an unregistered fd and otherwise agrees with the intended one |
| EventPoller.UnknownFdThrows | wind/EventPoller.cpp:66-69 | an fd 7 returned while only fd 3 is registered makes the written guard throw where the intended one skips |
| EventPoller.Active | wind/EventPoller.cpp:63-74 | pollOnce appends at most one channel per ready entry, each a registered channel |
| EventPoller.ActiveAllRegistered | wind/EventPoller.cpp:63-74 | with every returned fd registered, pollOnce appends exactly the channel of each entry's fd, in order |
| EventPoller.LastEvents | wind/EventPoller.cpp:72 | a channel whose fd was not returned keeps the events it had |
| EventPoller.LastEventsOfLastEntry | wind/EventPoller.cpp:72 | a channel whose fd was returned ends up with the events of its last entry |
| EventPoller.SharedEventSize.constructor | wind/EventPoller.cpp:46 | the shared event-array size starts at 32 |
| EventPoller.EventPoller.constructor | wind/EventPoller.cpp:48-52 | a new poller has no channels, has made no epoll_ctl calls and has an event array of the current shared size |
| EventPoller.EventPoller.RemoveChannel | wind/EventPoller.cpp:129-140 | an unknown fd changes nothing; a known one is deleted from epoll with its interest bits and erased from the registry |
| EventPoller.EventPoller.UpdateChannel | wind/EventPoller.cpp:105-127 | null changes nothing; a channel with no events is removed; a new fd is added to epoll and registered; a known fd is modified in epoll with the registered channel's bits and the registry is unchanged |
| EventPoller.EventPoller.PollOnce | wind/EventPoller.cpp:56-83 | on error nothing changes; the result reports overflow exactly when epoll_wait returns more entries than this poller's array holds; otherwise the registered channels of the ready entries are appended in order, each takes its last entry's events, and a full event array doubles the shared size |
| EventPoller.SharedSizeOutgrowsArray | wind/EventPoller.cpp:46-80 | after one poller fills its 32 entries the shared size is 64 while a second poller's array still holds 32 |
| EventPoller.EventPoller.RecordReady | wind/EventPoller.cpp:63-74 | the loop over the ready entries appends their registered channels and stores each channel's last events |
| EventLoopThreadPool.ThreadNamesDistinct | wind/base/EventLoopThreadPool.cpp:60 | different threads of one pool get different names `name_loop_i` |
| EventLoopThreadPool.Advance | wind/base/EventLoopThreadPool.cpp:75-78 | the next index stays below the thread count |
| EventLoopThreadPool.Schedule | wind/base/EventLoopThreadPool.cpp:65-80 | k calls hand out k loops |
| EventLoopThreadPool.ScheduleCycles | wind/base/EventLoopThreadPool.cpp:75-78 | from index idx the calls hand out the loops from idx to the end, then start again from the first loop: round robin |
| EventLoopThreadPool.EventLoopThreadPool.constructor | wind/base/EventLoopThreadPool.cpp:27-33 | a new pool is not running, has no loops and no threads, and starts at index 0 |
| EventLoopThreadPool.EventLoopThreadPool.Start | wind/base/EventLoopThreadPool.cpp:44-63 | a second start changes nothing; the first starts one thread per slot, thread i named `name_loop_i` and loop i that thread's loop |
| EventLoopThreadPool.EventLoopThreadPool.GetNextLoop | wind/base/EventLoopThreadPool.cpp:65-80 | not running or without threads: the main loop; otherwise the loop at the current index, which then advances round robin |
| EventLoopThreadPool.EventLoopThreadPool.Destroy | wind/base/EventLoopThreadPool.cpp:35-42 | the destructor leaves the pool not running, at index 0, with no threads and no loops |
| Log.Ordinal | wind/base/Log.h:39-45 | the levels have the values 1 to 5 |
| Log.LevelOfOrdinal | wind/base/Log.cpp:79 | casting a value in [1, 5] gives the level with that value |
| Log.OrdinalOrder | wind/base/Log.h:39-45 | TRACE < DEBUG < INFO < WARN < ERROR, distinct levels have distinct values, and the cast inverts the value |
| Log.EmitsByLevel | wind/base/Log.h:119-135 | LOG_TRACE to LOG_WARN produce a record exactly when the current level is at most theirs; LOG_ERROR and LOG_SYS_FATAL always; LOG_FATAL_IF exactly when its condition holds |
| Log.Emits | wind/base/Log.h:119-135 | LOG_ERROR and LOG_SYS_FATAL always produce a record, and at level TRACE every macro except LOG_FATAL_IF does |
| Log.EmitsMonotone | wind/base/Log.h:119-135 | lowering the current level never silences a macro |
| Log.FatalMacros | wind/base/Log.h:131-135 | the aborting macros carry ERROR, and LOG_ERROR carries ERROR without aborting |
| Log.DefaultLogLevel | wind/base/Log.cpp:33-40 | the default level is INFO exactly in an NDEBUG build, and DEBUG otherwise |
| Log.LevelToString | wind/base/Log.cpp:42-58 | each level has a name of at least four characters |
| Log.NameRoundTrip | wind/base/Log.cpp:62-67 | the name table maps exactly each level's name to that level, the inverse of logLevelToString |
| Log.LevelFromName | wind/base/Log.cpp:62-67 | a name found in the table is the printed name of the level it maps to |
| Log.SkipSpaces | wind/base/Log.cpp:74 | atoi's leading white space is dropped, leaving a suffix that starts with no space |
| Log.LeadingDigits | wind/base/Log.cpp:74 | atoi reads the longest prefix of digits |
| Log.LeadingDigitsOfDigits | wind/base/Log.cpp:74 | a text of digits only is read entirely |
| Log.AtoiOfDec | wind/base/Log.cpp:74 | atoi reads the decimal text of n as strtol does, clamped to the long range and then cut to 32 bits, which is n itself when n fits an int |
| Log.Strtol | wind/base/Log.cpp:74 | strtol gives the decimal reading when it fits a long and LONG_MAX or LONG_MIN past either end |
| Log.Atoi | wind/base/Log.cpp:74 | atoi always gives a 32-bit int, the decimal reading itself whenever that fits |
| Log.ReadDecimalOfDigits | wind/base/Log.cpp:74 | a text of digits starting with a digit reads as its decimal value before clamping |
| Log.SkipSpacesNone | wind/base/Log.cpp:74 | a text not starting with a space keeps every character |
| Log.AtoiNonNumeric | wind/base/Log.cpp:74 | a text starting with anything but white space, a sign or a digit reads as 0 |
| Log.LevelFromEnv | wind/base/Log.cpp:60-83 | with WIND_LOG_LEVEL unset the level is the default |
| Log.LevelFromEnvNamed | wind/base/Log.cpp:73-82 | a level's name selects that level, and text that is no name and reads as 0 selects the default |
| Log.NoNumericName | wind/base/Log.cpp:62-67 | no level name starts with a digit |
| Log.LevelFromEnvNumeric | wind/base/Log.cpp:73-80 | a number selects the level whose value atoi gives when that is 1 to 5 and the default otherwise; the digits of 1 to 5 select that level, and 0 or 6 to INT_MAX the default |
| Log.WrappedNumberSelectsTrace | wind/base/Log.cpp:74-80 | a number within the long range that is 1 more than a multiple of 2^32 selects TRACE, because atoi keeps only the low 32 bits |
| Log.LogLevelSetting.constructor | wind/base/Log.cpp:85 | the process-wide level starts as the one read from the environment |
| Log.LogLevelSetting.SetLogLevel | wind/base/Log.cpp:88-96 | the level read next is the one set, and every macro emits as that level decides |
| Log.LastSlash | wind/base/Log.h:76 | strrchr finds the last '/' or reports that there is none |
| Log.StartAsWrittenNeverNull | wind/base/Log.h:76-79 | the pointer tested by the guard is never null; it is one past null exactly when the path has no '/' |
| Log.BareFileNamePassesGuard | wind/base/Log.h:76-79 | for the path "Log.cpp" the guard lets a pointer one past null through to the copy |
| Log.BaseName | wind/base/Log.h:74-85 | the base name exists exactly when the path has a '/', contains no '/', and is what follows a directory ending in '/' |
| Log.CopiedTextIsBaseName | wind/base/Log.h:50-60 | the copied text is the base name, followed by the terminator when the length counts it, and nothing when the path has no '/' |
| Log.SourceFileName.FromPointer | wind/base/Log.h:50-54 | built from a C string, the buffer holds the base name |
| Log.SourceFileName.FromArray | wind/base/Log.h:56-60 | built from a literal, the buffer holds the base name followed by the terminator that the array length counts |
| Log.SourceFileName.Append | wind/base/Log.h:74-85 | the buffer ends up holding the text copied for the path and length |
| Log.RecordEnd | wind/base/Log.cpp:105-115 | the record always ends in a newline |
| Log.RecordEndReadsBack | wind/base/Log.cpp:107-110 | " -- ", the file name, ':' and the line number can each be read back from the end of a record |
| Log.RecordStart | wind/base/Log.cpp:98-103 | the record's head ends in ": " after the level's name |
| Log.RegroupFileLine | wind/base/Log.cpp:108-110 | writing the file and line piece by piece gives the same text as writing the record end at once |
| Log.Logger.constructor | wind/base/Log.cpp:98-103 | the new stream holds what was emitted before followed by the record's head |
| Log.Logger.Finish | wind/base/Log.cpp:105-120 | the destructor appends the record end; a fatal record is flushed last and aborts |
| Log.Logger.WriteFileLine | wind/base/Log.cpp:108-110 | " -- ", the file name, ':' and the signed decimal line are appended |
| TimeStamp.Fraction | wind/TimeStamp.cpp:33-52 | the printed fraction is 0 at SECOND, below 10^3, 10^6 or 10^9 in magnitude at the other precisions, and never negative for a non-negative stamp |
| TimeStamp.Seconds | wind/TimeStamp.cpp:32 | the seconds are the stamp divided by 10^9 truncated toward zero: the remainder is below 10^9 and has the stamp's sign |
| TimeStamp.ToString | src/base/TimeStamp.cpp:28-57 | the text starts with the signed seconds followed by a point |
| TimeStamp.SignedDecLength | wind/TimeStamp.cpp:35-50 | a number of magnitude below 10^k prints in at most k digits, plus a sign when negative |
| TimeStamp.PaddedLength | wind/TimeStamp.cpp:35-50 | "%0<w>d" of a value below 10^w in magnitude is w characters for a non-negative value, and at most one more otherwise |
| TimeStamp.ToStringFits | wind/TimeStamp.cpp:29-56 | for every 64-bit stamp and precision the text is shorter than the 31 characters snprintf is given, so it is never cut |
| TimeStamp.DotAfter | wind/TimeStamp.cpp:35-50 | the first point of seconds text followed by a point is right after the seconds |
| TimeStamp.TruncateMilli | wind/TimeStamp.cpp:39 | whole seconds plus whole milliseconds of the rest are the stamp minus its sub-millisecond part |
| TimeStamp.TruncateMicro | wind/TimeStamp.cpp:44 | whole seconds plus whole microseconds of the rest are the stamp minus its sub-microsecond part |
| TimeStamp.TruncateWithin | wind/TimeStamp.cpp:39-44 | truncating to a unit and then the rest to a unit dividing it truncates to the smaller unit |
| TimeStamp.Recombine | wind/TimeStamp.cpp:32-52 | the seconds and the printed fraction recombine to the stamp truncated to the precision |
| TimeStamp.ReadBackParts | wind/TimeStamp.cpp:35-50 | digits, a point and at most nine more characters read back as the two parts combined |
| TimeStamp.ToStringReadsBack | wind/TimeStamp.cpp:29-56 | the text of a non-negative stamp reads back as the stamp truncated to the precision |
| TimeStamp.ToStringOfNat | wind/TimeStamp.cpp:29-56 | a non-negative stamp prints its seconds without a sign, a point and the padded fraction |
| TimeStamp.FractionFits | wind/TimeStamp.cpp:39-49 | the fraction of a non-negative stamp fits the width it is padded to |
| TimeStamp.NumbersReadBack | wind/TimeStamp.cpp:35-50 | seconds digits, a point and a fraction padded to w digits read back as the nanoseconds they stand for |
| TimeStamp.NanoRoundTrip | wind/TimeStamp.cpp:48-51 | the NANO text of a non-negative stamp reads back as exactly that stamp |
| CInt.ToInt32 | wind/TimeStamp.cpp:78 | static_cast<int> gives a 32-bit signed value congruent to its operand mod 2^32, the operand itself when it fits |
| TimeStamp.FormattedFraction | wind/TimeStamp.cpp:64-106 | the fraction toFormattedString prints is below 10^9 in magnitude and below 1000 at MILLI |
| TimeStamp.FormattedFractionAgrees | wind/TimeStamp.cpp:78-106 | the cast in toFormattedString never changes the remainder, so it prints the same fraction as toString |

## Left out

- Concurrency is not modelled: the EventLoop functor queue and wake-ups, the thread pools' workers, EventLoopThread, the LogDaemon, and the mutex, condition and latch classes. Atomics and mutexes inside the modelled classes are plain fields. Connector::stop's wait on its future is dropped, and runInLoop/queueInLoop calls run their functor at once.
- Syscalls and socket helpers are not modelled as code: Socket, SockAddr, Acceptor, CurrentThread, eventfd, timerfd_settime, epoll_ctl, epoll_wait, readv, write and close. Their results are parameters and their calls are logs.
- The clock is not modelled: every now() reading is a parameter. One handleRead of a timer manager uses a single reading for all the timers it restarts.
- Floating-point output is not modelled: the double and float overloads of LogStream, Fmt, and the load percentage used by the thread pool.
- The calendar fields of TimeStamp::toFormattedString (gmtime/localtime) and the Logger prefix (time, pid, tid) are not modelled. Only the sub-second fields are.
- The Python scripts' environment is a supplied value rather than code: getopt's parsing (its (name, value) result is the input), os.walk (a given list of directory entries), and the commands run through cmd_utils.execute (a supplied sequence of exit statuses). os.mkdir is modelled against the set of directories that exist when the script starts: it raises FileExistsError on an existing path and FileNotFoundError when the parent is missing, and the model stops the script there as the uncaught exception does. Which files shutil.copy overwrites is not modelled.
- TcpServer, TcpClient, Singleton, NonCopyable, the samples and the test programs are callback wiring or demos. They are not part of this model.
- wind/base/TimerManager.h and wind/base/Timer.h describe an older design that disagrees with wind/base/TimerManager.cpp. The model follows the .cpp: an ordered set of (expiry, TimerId) entries and a TimerId-keyed map.
- wind/conn/TcpConnection.h and wind/base/EventChannel.h lack members that their .cpp files use. The state is derived from the .cpp files.
- Timer.IdGenerator.GenSequenceId: the 64-bit counter is a natural number, so the model does not capture wrap-around after 2^64 timers.
- TimerId.Hash: the hash is the XOR of the two 64-bit fields only for values that fit 64 bits (TimerId.InRange).
- Connector.Connector.RemoveChannel: the source defers `channel_ = nullptr` to a functor queued on the loop, while the model drops the channel at once. The pending functor is not modelled.
- ConnBuffer.Buffer.constructor: the model requires prependSize + initialSize >= 8. resumeAll moves both indices to the constant PREPEND_SIZE (8) whatever prepend size the buffer was built with, so a smaller buffer would leave its indices past the end of its storage.
- LogStream.LogStream.AppendChunk and LegacyLogStream.LogStream.AppendChunk require an output sink whenever the data does not fit. The source's loop never terminates without one.
- FixedSizeBuffer.FixedSizeBuffer.Grow requires len < available, strictly, as the source's assertion does.
- TimerManager.TimerManager.CancelTimerInLoop requires that cancelling the earliest entry leaves another entry behind. The source then re-arms from cbegin(), which is undefined on an empty set.
- TimerManager.TimerManager.HandleRead and LegacyTimerManager.TimerManager.HandleRead re-arm the timerfd only when a timer stays filed after the dispatch, the corrected behaviour of the Findings table; the source reads cbegin() unconditionally, which is undefined on the empty set (TimerManager.SingleOneShotEmptiesSet, LegacyTimerManager.SingleOneShotEmptiesSet).
- LegacyTimerManager.Dispatch and LegacyTimerManager.HandleReadSpec keep every Timer's state in the model's heap. In the source a one-shot Timer that has fired is not re-inserted, and it is destroyed when expiredTimers, its last owner, goes out of scope; that release is not modelled.
- BuildScript.PyInt: int() also accepts underscores between digits and non-ASCII decimal digits; the model accepts only ASCII digits, so such -j values are refused where Python reads them.
- BuildScript.Capitalize: str.capitalize is Unicode-aware (it maps 'ß' to "Ss", for example); the model changes letter case for ASCII letters only.
- LogStream.LogStream.PutInteger, LogStream.LogStream.PutPointer and LegacyLogStream.LogStream.PutInteger: without an output function and with too little room, the source writes past the end of its buffer; the model writes nothing beyond the buffer and reports written == false instead of modelling the overrun.
- EventPoller.EventPoller.PollOnce: when another poller has grown the shared eventSize_, epoll_wait may write more entries than this poller's vector holds; the model reports this as overflowed and leaves its state unchanged, and does not model the memory it overwrites.
- TimerManager.TimerManager.CancelTimerInLoop: wind/base/TimerManager.cpp:114 reads timer->expireTime() before checking that the TimerId is still filed, so a TimerId whose timer already ran and was deleted is a use after free; the model treats such a cancel as a no-op, because it checks membership first.
- TimerManager.TimerManager.GetExpiredTimers: the ASSERT at wind/base/TimerManager.cpp:141 dereferences the lower bound before comparing it with cend(), which is undefined when every entry has expired; the model leaves the ASSERT out, as release builds do.
- LegacyTimerManager.TimerManager.GetExpiredTimers leaves out the debug ASSERT at wind/TimerManager.cpp:125, `receivedTime < it->first || it == timers_.cend()`, as release builds do. The ASSERT reads it->first before it tests cend(), which is undefined when every pair has expired. Its comparison is also strict: a pair (receivedTime, address) whose address is above the pivot's fresh Timer is not before the pivot, so a debug build aborts on it, where the model keeps that pair in the set.
- TimerEntries.Insert, TimerEntries.Remove and TimerEntries.LowerBound order entries by expiry and then by TimerId.LexLess, the corrected order of the Findings table, not by the written TimerId operator<, which is no strict weak order for std::set.
- BuildScript.ParseOptions runs the corrected option pass BuildScript.ApplyOption of the Findings table, so --build-type and --format-codes take effect; as written, build.py:117 and 122 compare against --build_type and --format_codes and ignore both (BuildScript.ApplyOptionAsWritten).
- BuildScript.OptionPass is one pass of the corrected loop body, with --build-type and --format-codes honoured; the written body at build.py:111-123 ignores both long options.
- BuildScript.RunScript runs the corrected option loop, so --build-type release builds Release and --format-codes formats; as written, both options leave the Debug build unchanged (BuildScript.BuildTypeReleaseDropped).
- EventPoller.EventPoller.PollOnce skips a ready entry whose fd is not registered, through the corrected guard EventPoller.GuardIntended of the Findings table; wind/EventPoller.cpp:66 throws std::out_of_range out of pollOnce there (EventPoller.UnknownFdThrows).
- EventPoller.EventPoller.RecordReady is the loop of pollOnce with the corrected guard EventPoller.GuardIntended: it appends only registered channels, where wind/EventPoller.cpp:66 throws on an unregistered fd.
- BuildScript.RunBuild and BuildScript.RunScript take os.cpu_count() as an int and assume os.chdir and shutil.copy succeed. In Python, os.cpu_count() may return None, and then the "%d" formatting at build.py:53 raises TypeError; os.chdir (build.py:48) and shutil.copy (build.py:59) raise on a missing path. None of these raises is modelled.
- Log.SourceFileName.FromPointer, Log.SourceFileName.FromArray and Log.SourceFileName.Append require the copied text to fit the 256-byte buffer, as the source's ASSERT does; a release build, where the ASSERT is compiled out, copies a longer name past the end of buf_, and that overrun is not modelled.
- Log.SourceFileName.FromPointer, Log.SourceFileName.FromArray and Log.SourceFileName.Append use the corrected guard Log.BaseName of the Findings table: a path without '/' leaves the name empty, where wind/base/Log.h:76-83 copies from one past NULL (Log.BareFileNamePassesGuard).
- Callbacks are opaque. The model records which callback ran. It does not model what a callback does: a callback that re-enters its channel, connection or timer manager is not captured.

## Findings

| source | as written | input that shows it | evidently intended | confidence | as-written member | corrected member |
|---|---|---|---|---|---|---|
| wind/base/TimerId.h:36 | `a < b` is `a.id < b.id \|\| a.timer < b.timer`, which is not asymmetric and so not a strict weak order for the ordered containers keyed on it | TimerId(1, 0x2000) and TimerId(2, 0x1000): each is below the other | lexicographic order on (id, timer) | not executed | TimerId.LessNotAsymmetric | TimerId.LexLessStrictTotal |
| wind/EventPoller.cpp:66 | the unknown-fd guard `count(fd) == 0 && at(fd) == nullptr` calls at() on a missing key, so it throws | an fd that epoll reports after it left the registry (7 with only 3 registered) | skip the entry with a warning | not executed | EventPoller.UnknownFdThrows | EventPoller.GuardIntended |
| wind/base/Log.h:76-79 | the NULL check is made on `strrchr(data, '/') + 1`, so it never fires, and a path without '/' is copied from an address outside it | the file name "Log.cpp" | test strrchr's result before adding one, and leave the name empty when there is no '/' | not executed | Log.BareFileNamePassesGuard | Log.BaseName |
| wind/base/TimerManager.cpp:169 | handleRead re-arms from `timerEntries_.cbegin()->first` without checking that an entry is left | a single one-shot timer that fires: the set is empty when cbegin() is read | re-arm only when an entry remains | not executed | TimerManager.SingleOneShotEmptiesSet | TimerManager.TimerManager.HandleRead |
| wind/TimerManager.cpp:149 | handleRead re-arms from `timers_.cbegin()->first` without checking that a pair is left | a single one-shot Timer that fires: the set is empty when cbegin() is read | re-arm only when a pair remains | not executed | LegacyTimerManager.SingleOneShotEmptiesSet | LegacyTimerManager.TimerManager.HandleRead |
| build/scripts/build.py:107-122 | getopt declares `build-type=` and `format-codes`, but main compares against `--build_type` and `--format_codes`, so both long options are ignored | `--build-type release` builds Debug | honour the long options under their declared names | not executed | BuildScript.LongOptionsIgnoredAsWritten | BuildScript.ApplyOption |
