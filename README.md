# debugnet session lifecycle and message pipeline, modelled in Dafny

debugnet is a small remote-logging client for a console target. A process
sets up one UDP socket towards a listening host. The library keeps two
process-wide globals: `dconfig` points to the current configuration record
`{debugnet_initialized, SocketFD, logLevel}`, and `debugnet_external_conf`
records that the caller supplied that record. When a record exists, every
log call first checks its level against the record's threshold, and only a
call that passes formats its line and sends it as one datagram; with no
record, no check is made. This project models the lifecycle calls (create,
init, adopt, get, change level, finish) and the pipeline (`debugNetPrintf`,
`debugNetUDPPrintf`) of `source/debugnet.c`, and proves what they do.

Files:

- `config.dfy`, module `Configuration`: the level constants NONE=0 < INFO=1
  < ERROR=2 < DEBUG=3 and the record, as class `Config`. It is a class
  because the library keeps a pointer to the record and changes its fields
  in place. A record adopted from a caller is the same object the caller
  holds, so the caller sees every change the library makes to it.
- `format.dfy`, module `Format`: pure text handling.
  - `Snprintf` is what `vsnprintf` leaves in a buffer of a given size.
  - `CString` is what `strlen` and `"%s"` read from a buffer: everything
    before the first NUL.
  - `Tag` gives the severity tag of a level.
  - `Wire` is the payload `debugNetUDPPrintf` sends. `Formatted` is the text
    `debugNetPrintf` hands it. `Payload` composes the two.
  - `Decimal` renders a number for `"%d"`.
  - Two partner definitions are not in the library: `Decode`, how a log host
    reads a datagram back, and `ParseDecimal`. Round-trip lemmas connect
    each to the corresponding operation.
- `debugnet.dfy`, module `DebugNet`: class `Session`.
  - Its fields are the two globals (`conf`, `external`) and `sent`. `sent` is
    every datagram handed to the send primitive, in order, each with the
    socket it went out on.
  - `Sends(threshold, fd, level, text)` gives the datagrams one
    `debugNetPrintf` call emits while a record exists. It is the
    specification function that `Printf`, `Init` and `InitWithConf` are
    proved against.
  - `AdoptReport` is the line of decimal fields `debugNetInitWithConf`
    sends for an adopted record.
  - `Valid()` is the lifecycle invariant every operation preserves. An
    adopted record is never null. A record the library owns is either live
    (flag 1) or reset (flag 0, `SocketFD` -1).
- `scenarios.dfy`, module `Scenarios`: client programs that use only the
  method contracts. They cover: init twice, gating at ERROR, send order,
  the "ready" round trip, adopted records surviving finish, init through an
  adopted record, finish then re-init, and adopting a live record.

What the code does in the cases that deserve a note:

- With no record (`dconfig == NULL`), `debugNetPrintf` skips the level check
  (source/debugnet.c:70-74). For every level other than NONE it then calls
  `debugNetUDPPrintf`, which reads `dconfig->SocketFD` through the null
  pointer (source/debugnet.c:53). `Session.Printf` therefore requires a
  record unless the level is NONE, the one level that reaches no send. The
  stdio fallback for this case (source/debugnet.c:49-52) is commented out.
- `debugNetInitWithConf` and an early-returning `debugNetInit` return the
  record's `debugnet_initialized` value itself, which for a caller's record
  can be any non-zero int, not a normalised 1.
- `debugNetInit` on a caller's record that is not yet initialized (possible
  after `debugNetSetConf`) bootstraps that record through the shared pointer.
  `debugNetFinish` then still leaves it alone (`Scenarios.AdoptedThenInit`).
- A negative message level passes even a NONE threshold and is sent
  untagged (`DebugNet.SendsNone`).

## Model

| member | source | states |
|---|---|---|
| `Configuration.Config.constructor` | include/debugnet.h:25-30 | a record holds exactly the three int fields it is given |
| `Format.Snprintf` | source/debugnet.c:43-46 | the buffer contents are a prefix of the expanded text that leaves room for the terminator; the whole text when it fits, otherwise exactly size - 1 characters |
| `Format.NulIndex` | source/debugnet.c:53 | the count strlen makes: the first position holding a NUL, or the buffer's end, with no NUL before it |
| `Format.CString` | source/debugnet.c:53 | the string read up to strlen is a NUL-free prefix of the buffer that stops at the buffer's end or at a NUL |
| `Format.CStringUnique` | source/debugnet.c:53 | those properties determine the C-string reading |
| `Format.CStringOfNulFree` | source/debugnet.c:53 | a NUL-free buffer is read whole |
| `Format.CStringOfSnprintf` | source/debugnet.c:76-83 | cutting to the buffer size and reading up to the first NUL commute |
| `Format.Tag` | source/debugnet.c:80-95 | tags are NUL-free and shorter than 20 characters; the tag is empty exactly for levels other than INFO, ERROR and DEBUG |
| `Format.Formatted` | source/debugnet.c:77-94 | the text handed to debugNetUDPPrintf begins with the level's tag, holds no NUL, and is shorter than the tag plus 0x800 |
| `Format.Wire` | source/debugnet.c:41-54 | the sent payload is a NUL-free prefix of the expanded text, shorter than 0x800; a short NUL-free text is sent whole |
| `Format.Payload` | source/debugnet.c:76-95 | a debugNetPrintf payload is NUL-free and at most 2047 characters |
| `Format.PayloadShape` | source/debugnet.c:76-95 | the two truncations and the two C-string reads amount to: the tag, then the message up to its first NUL, cut so the payload fits in 2047 characters |
| `Format.PayloadStartsWithTag` | source/debugnet.c:80-95 | every payload begins with its level's tag, and what follows the tag is a prefix of the message |
| `Format.PayloadVerbatim` | source/debugnet.c:76-95 | a NUL-free message that fits beside its tag is sent as tag + message |
| `Format.DecodeTagged` | source/debugnet.c:82-90 | the INFO, ERROR and DEBUG tags are told apart by a reader: tag + m decodes to that level and m |
| `Format.DecodePayload` | source/debugnet.c:76-95 | decoding the payload of a severity level gives back the level and the part of the message that was sent |
| `Format.Digits` | source/debugnet.c:194 | the decimal digits of a natural number are non-empty, all digits, and begin with '0' only for zero |
| `Format.Decimal` | source/debugnet.c:194 | the %d rendering is an optional minus sign and digits, NUL-free, with the sign exactly for negative numbers |
| `Format.DigitsRoundTrip` | source/debugnet.c:194 | parsing the digits of n gives n back |
| `Format.DecimalRoundTrip` | source/debugnet.c:194 | parsing the %d rendering of any int gives it back |
| `DebugNet.Sends` | source/debugnet.c:70-95 | at most one datagram; one exactly when the level is not NONE and not above the threshold, and then it carries that call's payload on the current socket |
| `DebugNet.AdoptReport` | source/debugnet.c:194 | the report line of an adopted record holds no NUL and ends with a newline |
| `DebugNet.AdoptReportFlag` | source/debugnet.c:194 | the record's flag follows the `debugnet_initialized=` label and parses back to the flag's value; the rest of the line is `ReportTail` of the socket and the threshold |
| `DebugNet.TailFields` | source/debugnet.c:194 | in that tail, the socket's decimal follows ` SocketFD=` and the threshold's decimal follows ` logLevel=`, and each parses back to its value |
| `DebugNet.SendsMonotone` | source/debugnet.c:70-74 | raising the threshold never silences a message that was sent |
| `DebugNet.SendsSeverity` | source/debugnet.c:70-95 | a call sends at most one datagram; an INFO, ERROR or DEBUG message within the threshold is sent once, on the current socket, and decodes to its own level |
| `DebugNet.SendsNone` | source/debugnet.c:70-95 | level NONE never sends; a NONE threshold silences every severity level; a negative level passes any non-negative threshold and is sent untagged |
| `DebugNet.Session.constructor` | source/debugnet.c:26-27 | program start: no record, not external, nothing sent |
| `DebugNet.Session.UdpPrintf` | source/debugnet.c:41-54 | appends exactly one datagram on the current socket carrying the bounded, NUL-cut payload; needs a record |
| `DebugNet.Session.Printf` | source/debugnet.c:66-96 | appends exactly the datagrams `Sends` gives for the current threshold and socket, so nothing above the threshold or at NONE; without a record nothing is sent, and only level NONE is defined there |
| `DebugNet.Session.PrintfInfo3` | source/debugnet.c:157-159 | three INFO messages append exactly their `Sends` datagrams, in call order |
| `DebugNet.Session.SetLogLevel` | source/debugnet.c:107-113 | with a record, only its threshold changes; without one, nothing changes; preserves the invariant |
| `DebugNet.Session.CreateConf` | source/debugnet.c:205-221 | with no record, installs a fresh `{0, -1, INFO}` record and answers 0; otherwise keeps the record unchanged and answers 1 exactly when it is initialized; preserves the invariant |
| `DebugNet.Session.Init` | source/debugnet.c:129-165 | on a live record: answers its flag and changes nothing, so no new socket and no datagram, and the answer is 1 for a record the library owns; otherwise: same or fresh record, level, new socket, flag 1, answer 1, and the three boot lines gated by the new level appended in order; preserves the invariant |
| `DebugNet.Session.GetConf` | source/debugnet.c:167-174 | answers the current record (or null) and changes nothing |
| `DebugNet.Session.SetConf` | source/debugnet.c:176-185 | null: answers 0, nothing changes; otherwise the given object becomes the current record by reference, the external flag is set, the answer is its flag, nothing is sent |
| `DebugNet.Session.InitWithConf` | source/debugnet.c:187-203 | adopts as SetConf does; for a live record sends the banner, the decimal report of its fields and the ready line at INFO; never opens a socket; answers the record's flag (0 for null) |
| `DebugNet.Session.Finish` | source/debugnet.c:231-240 | an adopted record is untouched; an owned live record is reset to flag 0 and socket -1 with its level kept; an owned reset record is untouched; needs a record unless external |
| `Scenarios.InitTwice` | source/debugnet.c:133-136 | a second init answers 1, keeps the first socket and sends nothing more |
| `Scenarios.GateAtError` | source/debugnet.c:70-95 | at threshold ERROR: DEBUG sends nothing, ERROR sends one datagram, NONE sends nothing |
| `Scenarios.LogThree` | source/debugnet.c:66-96 | three INFO messages at an admitting threshold append three datagrams in call order |
| `Scenarios.InOrder` | source/debugnet.c:66-96 | after init, three messages arrive as the next three datagrams in call order |
| `Scenarios.ReadyLine` | source/debugnet.c:157-159 | init at INFO then "ready" at INFO: the banner, copyright and ready boot lines as INFO payloads on the new socket, in that order, then exactly "[PROSPERO][INFO]: ready" |
| `Scenarios.AdoptedSurvivesFinish` | source/debugnet.c:231-240 | finish leaves an adopted live record's flag and socket as they were |
| `Scenarios.AdoptedThenInit` | source/debugnet.c:129-165 | init bootstraps an adopted uninitialized record, seen by its owner, and finish leaves it live |
| `Scenarios.FinishThenReinit` | source/debugnet.c:231-240 | finish keeps the record object and its level; a later init re-bootstraps on the new socket |
| `Scenarios.AdoptLive` | source/debugnet.c:187-203 | adopting a live record answers 1 and sends three lines, the second being the fields' decimal report |

## Left out

- The socket primitives `sceNetSocket`, `sceNetHtons`, `sceNetInetPton` and `sceNetConnect` are foreign console SDK calls. The handle `sceNetSocket` returns is the `socket` parameter of `Session.Init`, and it may be any int, an error code included. Address parsing, port byte order and the connect call are not modelled, so `serverIp` and `port` are unused in the model.
- `sceNetSend` is foreign too. It is modelled as appending `Datagram(socket, payload)` to `sent`, where the payload length is the `strlen` of the buffer. The library ignores the send result and always passes `MSG_NOSIGNAL`; neither affects the payload, and neither is modelled.
- Expansion of `vsnprintf` directives belongs to the C library. Each log call takes the already-expanded message as its `text`. A `%` inside a caller's message is therefore not interpreted. The one expansion the library itself determines, the `%d` report in `debugNetInitWithConf`, is modelled by `Decimal`.
- `malloc` failure is left out: `debugNetCreateConf` does not check the result, and the model assumes the allocation succeeds.
- The commented-out globals and the commented-out stdio fallback are not live code.
- Thread safety is left out. The library has no concurrency and assumes a single caller.
- C `int` width: the record's fields and the levels are unbounded integers in the model. The library does no arithmetic on them, so no wrap-around can occur. `Decimal` renders any integer.
- A `char` of a Dafny `string` stands for one byte of a C string. No character encoding is modelled.
