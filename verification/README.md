# Verified model of go-syslog

A Dafny model of go-syslog: the RFC 5424 parser and message builder, the framings that carry
syslog messages over a stream, and the detection of the message format. `dafny verify
dfyconfig.toml` checks all of it.

## The RFC 5424 core

The parser (`rfc5424/machine.go`) and the builder (`rfc5424/builder.go`) are two separately
generated machines of about 600 states each.

- `Automaton` is the parser's machine as a function over octets. A state that the generated code
  unrolls, such as the 255 states of a host name, is one state with a count; the source's state
  numbers are in the comments. The first error ends a run with its kind, its column and the
  message so far.
- `Machines` is the parser object: its fields, the loop, the fail state, the actions at the end of
  the input and `Parse`, proved to answer what `Automaton` says, whatever earlier parses left in
  the fields.
- `Grammar` has the syntax trees of section 6 of RFC 5424 as the code reads it: in a parameter
  value every `"`, `\` and `]` is escaped and every backslash starts an escape, element
  identifiers are distinct, a repeated parameter name overwrites. `Completeness` and `Soundness`
  prove that the parser accepts exactly the texts of the trees and returns what they mean.
- `Diagnosis` says which error a rejected input gets, by its text alone: the text of a tree up to
  some place, and at the place something the grammar does not go on with.
- `Invariants` has what every step keeps, `Numerals` the PRIVAL and VERSION states, `Stability`
  what later octets cannot change: rejections, VERSION and header fields, the best effort message.
  `Salvage` has the structured data and the MSG of that message.
- `Builder` is the builder's machine, the setters and `String` over the fields of a
  `SyslogMessage`. `Agreement` runs both machines in lock step. `RoundTrip` has the builder's
  invariant and the round trips between `String` and `Parse`.
- `Utf8`, `Escaping`, `Timestamps`, `Ordering`, `Functions`, `Messages` and `Bytes` are what these
  rest on: UTF-8 (section 4 of RFC 3629), the escaping of values, timestamps, the order in which
  `String` prints, the loops of `common/functions.go` and the message record.

## Streams and formats

- `OctetCounting`: the scanner and the parser loop of section 3.4.1 of RFC 6587.
- `NonTransparent`: the accumulator of candidates of section 3.4.2 of RFC 6587.
- `Beep`: the scanner of BEEP frames, section 2.2.1 of RFC 3080 and section 3.1.3 of RFC 3081.
- `Detection` and `Auto`: telling the two message formats apart, and the machine that does.
- `EndToEnd`: from the builder over a framed stream to the parser and back.

## Where the code is followed against its own text

- The comment at `rfc5424/builder.go:9322` says that `SetParameter` discards a name that exists.
  The code overwrites the value, and a value that is refused leaves the empty string
  (`RoundTrip.SetParameterExactly`, `SetParameterOverwrites`). The comment holds exactly when the
  value is already the one that would be stored (`SetParameterOnExisting`).
- `auto/errors.go` says that the error of a `ParseError` is that of the last parser attempted. The
  code reports that of the first one (`auto/machine.go:146-147` and 173-174), which is the same
  exactly without fallback or with best effort (`Auto.FirstErrorReported`, `NotTheLastError`).
- `SetMessage` with an empty string and header setters with `-` are accepted and change nothing
  (`Agreement.SetterAgrees`).
- `ErrMsg` is never reported: without the compliant option no octet stops a MSG, and with it the
  error is `ErrMsgNotCompliant` (`Diagnosis.NoMsgError`). A parameter value that breaks off inside
  a character of several octets has the error of the parameter, any other the error of escaping.
- After the announced length and a space, best effort in octet counting tries whatever token comes
  as a message: a single octet, a second length, even the text of the scanner's own error
  (`OctetCounting.NoMessageFound`, `SecondLength`, `SecondLengthRefused`). A NUL right after a
  length is read with it (`NoSpace`).
- An LF after the last frame of an octet-counted stream gives an extra error result
  (`OctetCounting.FramingRoundTrip`), and a NUL octet there reads as the end of the stream: the
  frames after it are dropped without an error (`NulEndsStream`).
- When the input ends right after the second or third digit of VERSION, the best effort message has
  the version of one digit less (`Stability.VersionOfParse`, `VersionOneShort`).
- Inside a parameter, from its equals sign on, the current parameter need not be one of the current
  element (`Salvage.CurrentParamMissing`); `Salvage.CurrentParamInside` says when it is, and the
  error exits of those states delete at most an earlier value of that name.

## Model

| member | source | states |
|---|---|---|
| Functions.UnsafeUTF8DecimalCodePointsToInt | common/functions.go:10-19 | the right-to-left loop computes the positional value of the digits |
| Functions.NumDec | common/functions.go:10-19 | the value of a printed decimal is the number, for every number |
| Functions.DecNum | common/functions.go:10-19 | every numeral without leading zeros is the decimal of its value |
| Functions.RemoveBytes | common/functions.go:22-30 | the shifting deletions on a copy leave exactly the octets whose index is not among the positions, counted from the offset |
| Escaping.EscapeBytes | common/functions.go:33-43 | the loop over the runes writes each rune with a backslash before the three special ones, and U+FFFD for an octet that starts no rune |
| Escaping.EscapeInvalid | common/functions.go:33-43 | an octet that starts no character is written as the three octets of U+FFFD, and what follows as it would be alone |
| Escaping.RemovalUnescapes | rfc5424/machine.go:2832-2848 | deleting the recorded backslashes of a raw value by their positions is unescaping it |
| Escaping.EscapingRoundTrip | common/functions.go:33-43 | escaping any octets gives a raw value that is accepted, and unescaping it gives them back exactly when they are UTF-8 |
| Escaping.EscapeUnescape | rfc5424/machine.go:2767-2891 | escaping the unescaped form of any accepted raw value gives the raw value |
| Escaping.RawIsText | rfc5424/machine.go:2727-2848 | an accepted raw value and the value it stands for are well-formed UTF-8 |
| Escaping.RawIsEscapedText | rfc5424/machine.go:2727-3013 | the accepted raw values are exactly the escaped forms of UTF-8 texts |
| Utf8.AutomatonAcceptsUtf8 | rfc5424/machine.go:2916-3013 | the automaton of characters ends between two of them exactly on the encodings of texts of RFC 3629 |
| Utf8.TablesAgree | rfc5424/builder.go:7276-7437 | the state tables of parameter values and of MSG in the parser and of values in the builder, each with its own numbers, step as that automaton does |
| Utf8.TablesAcceptUtf8 | rfc5424/machine.go:9743-9839 | each of the three tables ends between two characters exactly on the encodings of texts of RFC 3629 |
| Utf8.ScalarEncodes | rfc5424/builder.go:7349-7437 | the octets accepted as a character are the encoding of its scalar value |
| Utf8.EncodedChar | rfc5424/machine.go:9743-9839 | the encoding of every scalar value is accepted as one character and decodes to it |
| Timestamps.RunsAgree | rfc5424/builder.go:1263-1673 | the builder's timestamp states are the parser's under a renaming, on every input |
| Timestamps.TimestampTable | rfc5424/machine.go:9191-9587 | the timestamp states accept exactly FULL-DATE "T" FULL-TIME of section 6 of RFC 5424 |
| Timestamps.ParseStamp | rfc5424/machine.go:1790-1809 | an accepted timestamp is read as its calendar fields, and fails exactly when the month does not have the day |
| Timestamps.Calendar | rfc5424/machine.go:1790-1809 | the months that decide whether a day exists make up a calendar: years of 365 or 366 days, the closed form of the days before a year, 146097 days in any 400 years |
| Timestamps.MonthLengths | rfc5424/machine.go:1790-1809 | the length of each month in numbers, February having 29 days exactly in the years of 366 |
| Timestamps.StampExample | rfc5424/machine.go:1790-1809 | the fields, microseconds and negative offset of `2003-08-24T05:14:15.000003-07:00` |
| Timestamps.ParseFormat | rfc5424/builder.go:9362-9364 | a printed timestamp is accepted by the states and read back, without trailing zeros of the fraction and with Z for a zero offset |
| Timestamps.FormatIsShortest | rfc5424/builder.go:9362-9364 | of all accepted timestamps with the same value the printed one is the shortest, and no other has its length |
| Completeness.ReadPri | rfc5424/machine.go:1373-1754 | the PRI states read the text of every priority from 0 to 191 and store it |
| Completeness.ReadVersion | rfc5424/machine.go:1750-1778 | the VERSION states read the decimal of every version from 1 to 999 and store it |
| Completeness.ReadTime | rfc5424/machine.go:1778-1809 | the timestamp part is read as its value, and the nil value as none |
| Completeness.ReadField | rfc5424/machine.go:1814-1937 | a header field of 1 to its maximum of visible octets is read up to the space and stored |
| Completeness.ReadParam | rfc5424/machine.go:2056-2891 | a parameter is read and its unescaped value stored under its name, over an earlier one |
| Completeness.ReadElements | rfc5424/machine.go:1984-2915 | elements with fresh and distinct identifiers are read and all added to the map |
| Completeness.ReadMsg | rfc5424/machine.go:9672-9839 | a MSG is read whole: any octets, or in compliant mode those without a BOM or with UTF-8 after it |
| Completeness.ParseText | rfc5424/machine.go:119-12070 | the parser accepts the text of every syntax tree and returns what the tree means |
| Completeness.ParseExample | rfc5424/machine.go:119-12070 | what `<165>1 - h a 7 m [x y="\"z"] hi` is parsed to, in octets |
| Soundness.Tree | rfc5424/machine.go:119-12070 | every accepted input is the text of a syntax tree, and its result is what the tree means |
| Soundness.ParseIsGrammar | rfc5424/machine.go:1373-12070 | the parser accepts an input with a result exactly when some tree of the grammar, with distinct identifiers, has that text and that meaning |
| Diagnosis.ErrorKindOf | rfc5424/machine.go:1373-12069 | an input is rejected with an error kind exactly when it is the text of a tree up to a place where it does not go on as the grammar asks, and the kind is the one of that place: PRI, VERSION, timestamp, its day, each header field, SD part, identifier, duplicate, name, value, MSG, before the end and at the end of the input |
| Diagnosis.FieldErrors | rfc5424/machine.go:11806-11880 | each of the four header field errors is reported exactly when everything before the field is read and no field of its length with its space follows |
| Diagnosis.NoMsgError | rfc5424/machine.go:1688-1708 | the error of the general MSG is never reported |
| Diagnosis.HostnameDue | rfc5424/machine.go:11820-11827 | `<1>1 - ` is rejected for its host name at column 7 |
| Numerals.PrivalIsDecimal | rfc5424/machine.go:1717-1754 | the PRIVAL states read exactly the canonical decimals of 0 to 191, and the narrowed conversion is their value |
| Numerals.VersionIsDecimal | rfc5424/machine.go:9587-9620 | the VERSION states read exactly the canonical decimals of 1 to 999, and the narrowed conversion is their value |
| Invariants.StepInvariant | rfc5424/machine.go:1373-9851 | every step keeps the counts of the unrolled states, the backslash positions increasing inside the token, the elements flag true exactly when there are elements, the current element a key of the map inside an element and, once there are elements, between two, and the current parameter one of the current element between two parameters once it has any |
| Invariants.ExactNarrowing | rfc5424/machine.go:1737-1773 | in every state of PRIVAL and VERSION the conversions to 8 and 16 bits lose nothing |
| Invariants.StaleRun | rfc5424/machine.go:1534-1631 | runs that differ only in names nothing refers to yet end the same, with the same error and message |
| Invariants.ReuseIsFresh | rfc5424/machine.go:119-135 | a parse that starts with any element and parameter names from earlier ones ends as that of a fresh machine |
| Machines.Machine.Parse | rfc5424/machine.go:119-12070 | from any field values, the loop over the goto states terminates and returns the message and the error of the automaton for the options; what these are by the text of the input is stated in Soundness.ParseIsGrammar and Diagnosis.ErrorKindOf |
| Machines.Machine.Init | rfc5424/machine.go:119-135 | what Parse resets before its loop, and that the two names stay |
| Stability.FinalRejection | rfc5424/machine.go:1378-1708 | an error before the end repeats with its kind, column and message on every input that shares the octets up to it |
| Stability.Rejection | rfc5424/machine.go:1373-12069 | the column of an error is that of the octet which the state reached there cannot take, or the end of the input |
| Stability.RunCarries | rfc5424/machine.go:1774-1937 | after the first digit of VERSION every run keeps the priority and the header fields read before it, after its space the VERSION too, and a rejection leaves a minimal message |
| Stability.MinimalOnRejection | rfc5424/syslog_message.go:26-34 | the draft of a rejected input is minimal exactly when the input has a valid PRI, or none where it is optional, and then a digit from 1 to 9 |
| Stability.VersionOfParse | rfc5424/machine.go:11908-11917 | the VERSION that any parse past its first digit leaves is the number of the digits read, exactly unless the input ends right after the second or third digit; then it is the number of one digit less |
| Stability.VersionOneShort | rfc5424/machine.go:11908-11917 | `<1>12` is rejected at its end with VERSION 1 |
| Stability.BestEffort | rfc5424/machine.go:12061-12069 | best effort answers as strict mode on accepted inputs; on rejected ones it has the same error, and a message exactly when the input gets past the first digit of VERSION |
| Stability.BestEffortFields | rfc5424/machine.go:1432-1531 | the PRI of that message, its VERSION when the error is past the space, and each timestamp or header field it has, are those of every accepted input that shares the octets before the error |
| Stability.NothingLost | rfc5424/machine.go:12061-12067 | nothing of the header that was read before the error is missing or changed in the result, VERSION included once its space was read |
| Salvage.StepStores | rfc5424/machine.go:1534-1631 | what every octet does to the structured data, as an equation: a new empty element, a parameter, nothing, or what a stop leaves |
| Salvage.LossIsLast | rfc5424/machine.go:1534-1542 | what a stop leaves is the structured data without the element stored last where an identifier was expected, without the parameter stored last between two parameters, without an earlier value of the name just read after a name, and whole elsewhere |
| Salvage.RejectedElements | rfc5424/machine.go:1605-1631 | the structured data of every rejected input, before or at its end, is exactly what had been stored before the error without the one item that the stop discards |
| Salvage.SalvagedElements | rfc5424/machine.go:12061-12067 | the elements and parameter names left by a rejected input are among those of every accepted input that shares the octets before the error |
| Salvage.SalvagedMessage | rfc5424/machine.go:1688-1708 | an error in the MSG leaves the octets from its first to the error, with which the MSG of every accepted input that shares them starts; any other error leaves none |
| Salvage.CurrentParamInside | rfc5424/machine.go:2709-2847 | from the equals sign to the end of a value the current parameter is one of an element with parameters exactly when the name read is one of its names already |
| Salvage.CurrentParamMissing | rfc5424/machine.go:2709-2711 | after `[a x="1" y=` the current parameter is none of the current element |
| Ordering.AscendingUnique | rfc5424/builder.go:9378-9383 | a set of names has one ascending list, so the printed order does not depend on the order of the map |
| Ordering.LessIsComesBefore | rfc5424/builder.go:9383-9394 | the order of the strings is that of their first difference: equal up to a place, where the one ends or has the smaller octet |
| Ordering.InOrderIsSorted | rfc5424/builder.go:9383-9394 | the sorted list of a set is the one list of its members in which each comes before the next |
| Ordering.SortStrings | rfc5424/builder.go:9383-9383 | sorting distinct names gives the sorted list of their set |
| Builder.MachineIsLegal | rfc5424/builder.go:1250-7437 | each entry point of the builder's machine ends in a storing state exactly on the values of its grammar: lengths, alphabets, UTF-8 with escapes, timestamps |
| Builder.RecordedSlashes | rfc5424/builder.go:7227-7339 | the backslash positions recorded over a raw value are those of its escapes |
| Builder.SyslogMessage.SetWithCtx | rfc5424/builder.go:67-9263 | a set stores the value in its field when the grammar has it and otherwise leaves the whole message as it was |
| Builder.SyslogMessage.Store | rfc5424/builder.go:9165-9255 | what each final state writes, and into which field |
| Builder.SyslogMessage.SetPriority | rfc5424/builder.go:9268-9274 | a priority up to 191 is stored with its eighth as the facility and the remainder as the severity, any other ignored |
| Builder.SyslogMessage.SetVersion | rfc5424/builder.go:9279-9285 | a version from 1 to 999 is stored, another ignored |
| Builder.SyslogMessage.SetTimestamp | rfc5424/builder.go:9288-9290 | only the timestamp may change, as Agreement.TimestampCall says |
| Builder.SyslogMessage.SetHostname | rfc5424/builder.go:9293-9295 | the host name, and nothing else, is set to 1 to 255 visible octets other than `-`; other values change nothing |
| Builder.SyslogMessage.SetAppname | rfc5424/builder.go:9298-9300 | the app name likewise, with at most 48 octets |
| Builder.SyslogMessage.SetProcID | rfc5424/builder.go:9303-9305 | the process identifier likewise, with at most 128 octets |
| Builder.SyslogMessage.SetMsgID | rfc5424/builder.go:9308-9310 | the message identifier likewise, with at most 32 octets |
| Builder.SyslogMessage.SetElementID | rfc5424/builder.go:9315-9317 | only the structured data may change, as Agreement.OtherCalls says |
| Builder.SyslogMessage.SetParameter | rfc5424/builder.go:9323-9340 | element, then name with the empty string, then value, each only if the one before exists |
| Builder.SyslogMessage.SetMessage | rfc5424/builder.go:9343-9345 | any message but the empty one is stored |
| Builder.SyslogMessage.String | rfc5424/builder.go:9347-9407 | the printed text is a function of the message alone, with escaped structured data in the order of Builder.PrintedInOrder, and there is none without a valid PRI and VERSION |
| Builder.SyslogMessage.SdString | rfc5424/builder.go:9376-9402 | the loops over the map's keys, in whatever order they come, print the elements in that order |
| Builder.PrintedInOrder | rfc5424/builder.go:9376-9402 | the elements are printed in the one list of the identifiers in which each comes before the next octet by octet, and the parameters of each in that of its names |
| Builder.KeysInOrder | rfc5424/builder.go:9378-9394 | there is such a list for every map |
| Builder.PrintedTwo | rfc5424/builder.go:9383-9386 | elements `a` and `b` are printed as `[a][b]` |
| Builder.PrintedExample | rfc5424/builder.go:9352-9407 | a message with PRI 1, VERSION 1 and host name `h` is printed as `<1>1 - h - - - -`, without a trailing space |
| Agreement.MachinesAgree | rfc5424/builder.go:1250-7437 | for every field, the builder stores a value exactly when the parser's states for that field read it and may leave them, and exactly when the grammar has it |
| Agreement.SetterAgrees | rfc5424/builder.go:9288-9345 | each plain call writes the field of its name when the parser in its state for that field would accept the value and it is not a nil value, an empty message or a missing day; else nothing at all changes |
| Agreement.FieldCalls | rfc5424/builder.go:9293-9310 | what the four header calls do to a message, with their lengths and alphabet in numbers |
| Agreement.OtherCalls | rfc5424/builder.go:9268-9345 | what the calls for priority, version, element and MSG do to a message, in numbers |
| Agreement.TimestampCall | rfc5424/builder.go:9288-9290 | the text of a timestamp sets its value exactly when the month has the day, and any other text sets nothing |
| Agreement.MsgAccepted | rfc5424/machine.go:9672-9839 | a MSG is accepted in compliant mode exactly when it does not start with a BOM or is UTF-8 after it, section 6.4 of RFC 5424, and always without that mode |
| RoundTrip.ApplyKeeps | rfc5424/builder.go:9268-9345 | no setter call breaks the invariant of a message |
| RoundTrip.BuilderInvariant | rfc5424/builder.go:9165-9345 | after any calls every field satisfies its grammar, structured data is not empty when set, and the priority is 8 times the facility plus the severity |
| RoundTrip.SetParameterExactly | rfc5424/builder.go:9323-9340 | SetParameter touches no other element or parameter, and what it does to the one in every case of legal and illegal arguments |
| RoundTrip.SetParameterOnExisting | rfc5424/builder.go:9319-9340 | for a name that exists the message stays as it was exactly when its value already is the new one, or empty where the new one is refused |
| RoundTrip.SetParameterOverwrites | rfc5424/builder.go:9319-9340 | two calls with the same name and the values `1` and `2`: the second changes the message |
| RoundTrip.RoundTrip | rfc5424/builder.go:9265-9407 | for every sequence of setter calls that gives PRI and VERSION, parsing the printed text returns the message; with the compliant option, exactly when its MSG is compliant |
| RoundTrip.ParsedIsBuilt | rfc5424/syslog_message.go:37-67 | every message the parser returns satisfies the builder's invariant |
| RoundTrip.NormalForm | rfc5424/syslog_message.go:37-67 | for every accepted input with PRI, parsing what String prints for the result answers as parsing the input did |
| OctetCounting.Scanner.Scan | octetcounting/scanner.go:110-150 | the next token and state of the scanner for any octets: lengths, spaces, line feeds, messages, NUL as the end |
| OctetCounting.Scanner.ScanMsgLen | octetcounting/scanner.go:152-192 | the digit loop reads the whole length, which is refused above 64 bits and above the maximum |
| OctetCounting.LexFacts | octetcounting/scanner.go:139-227 | a length token sets its value, from 1 to the maximum; a message token has exactly the length that was set and clears it |
| OctetCounting.Parser.Parse | octetcounting/parser.go:175-178 | on every stream the loop terminates with the results of its octets, every message has the announced length from 1 to the maximum and fits buffer and int, and nothing is left pushed back |
| OctetCounting.Parser.Run | octetcounting/parser.go:180-258 | the loop with its pushed-back token emits the results that reading token after token gives; for framed and for broken streams these are stated below |
| OctetCounting.Parser.ParseMessage | octetcounting/parser.go:261-278 | the inner parser is given the message as it is, or in the stripping variants without its one line ending |
| OctetCounting.StripsLineEnding | octetcounting/parser.go:262-271 | of a body and a line ending, CRLF or LF alone or none, the body is left |
| OctetCounting.LineEndingStripped | octetcounting/parser.go:262-271 | every message is one body and one line ending in one way only, and stays as it is exactly when it ends in no LF |
| OctetCounting.BodiesDelivered | octetcounting/parser.go:241-278 | in the stripping variants the results of a framed stream are those of the bodies |
| OctetCounting.FramingRoundTrip | octetcounting/parser.go:180-258 | for every non-empty list of payloads that start with `<` and have 1 to maximum octets, with or without an LF after each frame, there is one result for each in order up to the first failure in strict mode, and one error more for an LF after the last |
| OctetCounting.AllDelivered | octetcounting/parser.go:241-258 | when every payload parses, or with best effort, the results are those of all payloads |
| OctetCounting.NulEndsStream | octetcounting/scanner.go:96-126 | a NUL octet after any list of frames gives the results of these frames alone, whatever frames follow it |
| OctetCounting.OnlyLastFails | octetcounting/parser.go:180-258 | on every stream only the last result may be a framing error, and in strict mode only the last may have any error |
| OctetCounting.StreamThen | octetcounting/parser.go:180-258 | the results of whole frames, up to the first failure in strict mode, come before those of whatever follows them |
| OctetCounting.Underflow | octetcounting/parser.go:221-241 | when the stream ends before the announced octets are there, strict mode gives the error alone; best effort gives what the inner parser makes of the octets, with its error or else this one |
| OctetCounting.LengthRefused | octetcounting/parser.go:186-203 | a length above the maximum, 8192 by default, and one above 64 bits, end the stream with their own errors |
| OctetCounting.NoLengthFound | octetcounting/parser.go:205-211 | where a length should be, any other octet ends the stream with an error that names it |
| OctetCounting.NoSpace | octetcounting/parser.go:213-219 | after a length, and a NUL that is read with it, anything but a space ends the stream with an error that names it |
| OctetCounting.NoMessageFound | octetcounting/parser.go:221-241 | after a length and a space an octet that starts no message ends the stream; with best effort that octet alone is still tried when more were announced |
| OctetCounting.SecondLength | octetcounting/parser.go:221-241 | after a length and a space a second length ends the stream with an error that counts the second one's octets |
| OctetCounting.SecondLengthRefused | octetcounting/parser.go:221-241 | a second length that is refused likewise, with the text of the refusal as the token, and without an attempt when the length does not fit an int |
| Beep.FieldsOfJoined | rfc3195/frame.go:130-133 | visible words joined by single spaces are split into the same words |
| Beep.FieldsOfSpread | rfc3195/frame.go:130-133 | visible words between runs of ASCII white space of any length are split into the same words |
| Beep.SpaceSkipped | rfc3195/frame.go:130-133 | the code points that are skipped as white space, in numbers, and that no other is |
| Beep.HeaderFits | rfc3195/frame.go:119-122 | every canonical header within the bounds fits the limit of 128 octets |
| Beep.Scanner.Scan | rfc3195/frame.go:110-261 | reading line, payload and trailer in turn gives the next frame or error of the octets left and leaves the rest; which of these it is for any octets is stated in Beep.FrameIsRead and Beep.FrameIsRefused |
| Beep.FrameRoundTrip | rfc3195/frame.go:110-298 | a frame within the bounds of RFC 3080 and RFC 3081 is read back from its canonical text and leaves exactly the octets after it, whatever its payload |
| Beep.StreamRoundTrip | rfc3195/frame.go:110-146 | whole lists of frames are read back up to the end of the stream |
| Beep.ReadIsValid | rfc3195/frame.go:148-284 | every frame that is read from any octets is within the bounds and the limit, and its size is that of its payload |
| Beep.FrameTakes | rfc3195/frame.go:110-261 | a frame that is read takes the line up to the first LF, its payload, its trailer and nothing else from the stream |
| Beep.FrameIsRead | rfc3195/frame.go:110-298 | a frame is read exactly when the first line has at most 128 octets and CRLF, its 4, 6 or 7 words are the keyword of the type in octets and numbers in range with the values of the fields, `*` or `.` for the continuation, the rules for NUL and the limit hold, and payload and trailer follow |
| Beep.FrameIsRefused | rfc3195/frame.go:110-298 | each error is given, and what it leaves is left, exactly for the first thing that is wrong: end, line, length, CRLF, no words, keyword, number of words, the first bad word, NUL with more or size, limit, payload, trailer |
| Beep.UnknownFoo | rfc3195/frame.go:135-139 | `FOO 0 1 . 52 0` is refused for its keyword, and what follows the line is left |
| NonTransparent.Machine.Exec | nontransparent/parser.go:34-173 | the states, the candidate and the messages handed on after one chunk of any octets |
| NonTransparent.Machine.Parse | nontransparent/parser.go:184-187 | chunk after chunk, then completion, with one result for each message handed on |
| NonTransparent.ChunkTaken | nontransparent/parser.go:53-154 | a chunk that ends with its trailer continues the candidate, or ends it and starts the next one |
| NonTransparent.Conservation | nontransparent/parser.go:34-187 | the messages handed on, each with its one trailer put back, are the input; there is one for each chunk that starts with `<` |
| NonTransparent.FramingRoundTrip | nontransparent/parser.go:34-187 | messages that start with `<` and do not contain the trailer are handed on one by one as they were sent |
| NonTransparent.TwoMessages | nontransparent/parser.go:34-187 | `<1>a` and `<2>b` with an octet 10 after each, or an octet 0 for the other trailer, are handed on as two messages |
| NonTransparent.NeverStarted | nontransparent/parser.go:34-60 | when the first chunk does not start with `<` nothing is ever handed on |
| NonTransparent.UnterminatedChunk | nontransparent/parser.go:53-154 | a chunk without its trailer is lost, and hands on the candidate before it exactly when it starts with `<` |
| EndToEnd.CountedStream | octetcounting/parser.go:37-57 | messages built by any setter calls, printed, framed by octet counting and read with the RFC 5424 machine come back one for one |
| EndToEnd.TrailedStream | nontransparent/parser.go:203-225 | the same over trailers, for texts that do not contain the trailer |
| Detection.Detect | auto/detect.go:6-69 | the loops find the end of the PRI and of the digits after it, and classify by what follows |
| Detection.DetectionAgrees | auto/detect.go:6-98 | every input that the RFC 5424 parser accepts, with PRI or without where it is optional, is classified as RFC 5424 |
| Detection.OldByShape | auto/detect.go:6-98 | an input is classified as RFC 3164 exactly when after its `<` and first `>` there is a letter, space, `*`, `0`, four digits, or fewer digits and a colon; or without these octets when it starts with an English month and a space or with four digits and a dash |
| Detection.OldExample | auto/detect.go:28-33 | `<34>Oct 11` is classified as RFC 3164 |
| Auto.SafeMachineOptions | auto/machine.go:14-27 | wrapped options keep their effect and may be given to both machines |
| Auto.FilterBestEffort | auto/machine.go:32-53 | the loop drops exactly the options that enable best effort |
| Auto.FilteredIsStrict | auto/machine.go:95-98 | the filtered options configure the same machine in strict mode, and keep every other setting |
| Auto.AutoMachine.constructor | auto/machine.go:71-102 | best effort in either list of options is promoted, with strict machines first and best effort machines with the same options behind them |
| Auto.AutoMachine.WithBestEffort | auto/machine.go:108-117 | enabling best effort changes nothing else and keeps the machines consistent |
| Auto.AutoMachine.Parse | auto/machine.go:133-180 | strict primary, strict fallback, best effort primary, then the error of the primary, of either format, with the input |
| Auto.ModernWins | auto/machine.go:133-149 | an input that the strict RFC 5424 machine accepts gives its message whatever the fallback, best effort and the other parser |
| Auto.ErrorlessIffAccepted | auto/machine.go:145-157 | there is no error exactly when one of the strict parsers in use accepts the input |
| Auto.FirstErrorReported | auto/machine.go:146-179 | a failure reports an error that is that of the last parser attempted exactly without fallback or with best effort |
| Auto.NotTheLastError | auto/machine.go:173-179 | with fallback and without best effort the empty input, refused by both, fails with another error than the last one |
| Auto.BestEffortIsLast | auto/machine.go:159-178 | best effort changes only what would have failed, and never into a success |
| Auto.LegacyTaken | auto/machine.go:145-157 | a message that the RFC 3164 parser takes and the RFC 5424 parser refuses is returned when RFC 3164 is detected or fallback is on |
| Auto.ThirdAttempt | auto/machine.go:159-180 | when every strict parser in use refuses, best effort returns the partial message of the detected format with its error, for RFC 5424 exactly when the input gets past the first digit of VERSION; otherwise the error and the input are returned |

## Left out

- Timestamps.ParseTime: models time.Parse and Format on the layout of the repository over calendar fields only, on texts that the state tables accepted; locations and the inside of time.Time are not modelled.
- Functions.UnsafeUTF8DecimalCodePointsToInt: does not model the wrap-around of Go's int, because the parser passes at most three digits.
- Machines.Machine.Parse: the message is a value; that the result shares strings and the map with the parser's draft is not modelled, and error texts are an error kind and a column.
- Builder.SyslogMessage.String: the order in which Go iterates over a map is any order, and the error text is not modelled.
- Builder.SyslogMessage.SetParameter: the setters return the receiver in Go, for chaining; here they return nothing.
- OctetCounting.Parser.Parse: the inner parser is any function of the payload; readers, buffer pools and read errors other than the end of the stream are not modelled.
- NonTransparent.Conservation: one Exec for each chunk that ends with its trailer, on a machine that has parsed nothing; the library that drives Exec, and reuse of a machine, whose candidate is not cleared at completion, are not part of this model.
- Auto.AutoMachine.Parse: the RFC 3164 grammar is not modelled; its parser takes an input or refuses it with an error, and best effort adds what there is of a message to that error, as `rfc3164/machine.go:74273-74281` does.
- Auto.FilterBestEffort: an option that panics on the probing machine is one that only the RFC 3164 machine has; other panics and their recovery are not modelled.
- The library that generates the machines, the listener callbacks, option closures and trailer names as text.
- The COOKED and RAW profiles of RFC 3195, which rest on an XML library or on the frames above.
- Facility and severity names, Cisco options, year operators and String methods of tokens and frame types, which would only add easy members.
- Use of one message or one parser by several goroutines at once, which the repository does not support.
