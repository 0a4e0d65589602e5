# CH9141 BLE client for Linux: the ATT exchange, modelled in Dafny

The Linux client talks to a CH9141 Bluetooth LE serial module over an L2CAP
socket on the Attribute Protocol channel. After connecting to the module it
writes `01 00` to the peer's Client Characteristic Configuration descriptor
(handle 0x002E) to enable notifications. It can then send a message with
CR LF appended to handle 0x0031, as a run of Write Commands of at most 20
value bytes each. It can also wait for one line of text that arrives as
Handle Value Notifications, printing the printable bytes of that line.

The model has five modules:

- `Att` (`att.dfy`): the byte and handle types, the ATT constants and the
  layout of a write PDU. Write Request and Write Command are described in
  sections 3.4.5.1 and 3.4.5.3 of Vol 3, Part F of the Bluetooth Core
  Specification.
- `Link` (`link.dfy`): the socket, as a class `Transport` whose fields
  record what the client can observe:
  - whether the connection is open;
  - how many times connecting was tried;
  - which PDUs the client tried to write, and which of them the socket
    accepted, in order;
  - how many write attempts were made;
  - the wake-ups still to come from `select`/`read`.

  Whether connecting succeeds and which write attempts fail are fixed
  parameters of a `Transport`.
- `Tx` (`tx.dfy`): `ble_att_write_req` and `ble_att_write_cmd`. Each fills a
  `3 + MAX_LINE` byte array in place and makes one write. This module also
  has `ble_send_to_tx`, a loop that cuts the data into 20-byte pieces and
  stops at the first failed write. `Chunks`, `WriteCommands` and
  `FirstRejected` specify that loop.
- `Rx` (`rx.dfy`): `ble_readline` as a loop over wake-ups (`ReadLine`),
  specified by:
  - the recursive function `ReadLoop`;
  - an independent description over the stream of notification values
    received before the first failure (`Stream`, `FirstFatal`, `Agrees`);
  - a proof that the two descriptions agree.
- `Session` (`session.dfy`): `main` after option parsing. It covers:
  - the two argument checks;
  - connecting;
  - the configuration write;
  - sending the message;
  - the optional wait;
  - the `close` on every way out after the connection was made.

`Scenarios` (`scenarios.dfy`) works out concrete sessions from the
contracts.

## Model

| member | source | states |
|---|---|---|
| `Att.EncodeWrite` | src/linux/main.c:85-89 | a write PDU is 3 + len bytes long. Byte 0 is the opcode and bytes 1-2 are the handle, low byte first, so that a receiver reads back exactly the handle. The data follows unchanged. |
| `Att.NotificationRoundTrip` | src/linux/main.c:154-157 | a notification PDU with the write layout is acted on exactly when it carries at least one value byte, and its value is read back unchanged |
| `Link.Received` | src/linux/main.c:149 | `read` into the 512-byte buffer keeps the first min(len, 512) bytes of a packet |
| `Link.Transport.Connect` | src/linux/main.c:243-246 | connecting either opens the socket or fails, leaving nothing open. Every call is counted. |
| `Link.Transport.Write` | src/linux/main.c:91-94 | a write attempt either appends the PDU to what the socket accepted or fails and adds nothing. Every attempt and its PDU are logged. |
| `Link.Transport.Await` | src/linux/main.c:142-152 | each wake-up is consumed once, in order |
| `Link.Transport.Close` | src/linux/main.c:275 | closing leaves the socket closed |
| `Tx.AttWrite` | src/linux/main.c:80-116 | data longer than MAX_LINE returns -1 without any write. Otherwise there is exactly one write attempt, of the encoded PDU assembled in the buffer, and the result is 0 exactly when that write succeeds. |
| `Tx.AttWriteReq` | src/linux/main.c:80-97 | the same, with opcode 0x12 (Write Request) |
| `Tx.AttWriteCmd` | src/linux/main.c:99-116 | the same, with opcode 0x52 (Write Command) |
| `Tx.ChunksConcat` | src/linux/main.c:118-131 | the pieces the fragmenter cuts, joined in order, give back the data exactly |
| `Tx.ChunksShape` | src/linux/main.c:120-128 | there are ceil(len / 20) pieces. Each is non-empty and at most 20 bytes, and every piece but the last is exactly 20 bytes. |
| `Tx.WriteCommandsCarry` | src/linux/main.c:125 | each PDU the fragmenter sends is a Write Command to `handle_tx` carrying its piece unchanged |
| `Tx.SendRoundTrip` | src/linux/main.c:118-131 | a receiver that joins the values of the Write Commands gets the data back. Empty data sends nothing. |
| `Tx.FirstRejected` | src/linux/main.c:125-126 | the number of writes that go through before the first rejected one: none of them is rejected, and the next one is |
| `Tx.SendToTx` | src/linux/main.c:118-131 | it returns 0 exactly when every piece was written. The socket then holds the Write Commands of the pieces before the first failed write, in order. The loop's last attempt is the piece that failed, and it makes no attempt after that. |
| `Rx.IndexOfLF` | src/linux/main.c:159-163 | the position of the first line feed: no line feed comes before it, and the byte there is a line feed unless there is none |
| `Rx.PrintablesArePrintable` | src/linux/main.c:165-167 | filtering keeps only bytes 32..126 and never lengthens |
| `Rx.Classify` | src/linux/main.c:142-157 | a wake-up ends the wait with -1 exactly when `select` or `read` failed, or `read` returned 0. Its value is passed on exactly when it is a Handle Value Notification longer than 3 bytes. The value is the bytes after the header, taken from at most the first 512 bytes received. |
| `Rx.ReadLoop` | src/linux/main.c:133-172 | the reader is still waiting only once every wake-up is consumed; otherwise it stopped at one of the wake-ups it was given |
| `Rx.ScanValue` | src/linux/main.c:159-168 | the inner loop over a value reports a line feed exactly when the value holds one. It prints the printable bytes before the first line feed, or of the whole value when there is none. |
| `Rx.ReadLoopRest` | src/linux/main.c:136-172 | the reader consumes wake-ups only from the front |
| `Rx.ReadLoopMatchesStream` | src/linux/main.c:133-172 | the reader agrees with the stream description: 0 exactly when the values before the first failure contain a line feed; -1 exactly when they contain none and a failure came; the output is the printable bytes before the first line feed |
| `Rx.ReadLineOutcome` | src/linux/main.c:133-172 | the same, stated with line-feed membership: the output is the printable bytes up to the first line feed, or of everything received when no line feed came |
| `Rx.EmittedIsPrintable` | src/linux/main.c:165-167 | everything the reader prints is printable ASCII |
| `Rx.IgnoredWakeup` | src/linux/main.c:148-156 | a wake-up that neither fails nor carries a notification value (standard input, another opcode, a PDU of 3 bytes or fewer) changes neither the result nor the output |
| `Rx.ReadLine` | src/linux/main.c:133-172 | the loop over wake-ups ends as the specification `ReadLoop` says, with the same output, leaving the same unconsumed wake-ups |
| `Session.CrLfLine` | src/linux/main.c:255-258 | the message with CR LF appended, cut to the 1023 bytes that fit before the terminating NUL: a prefix of message + CR LF, NUL-free, exactly message + CR LF when it fits |
| `Session.LongMessageTruncated` | src/linux/main.c:255-258 | a message of 1022 bytes or more loses its line ending: only CR is kept at 1022 bytes, and neither is kept beyond that |
| `Session.Requested` | src/linux/main.c:231-241 | there is nothing to do without a MAC address, or with neither a message nor --wait. A MAC address with a message, or with --wait, is enough. |
| `Session.RunSession` | src/linux/main.c:231-276 | exit 1 without a MAC address, or without a message and without --wait, and then `ble_connect` is never called; otherwise it is called exactly once. A failed connection exits -1 with nothing sent. Otherwise the first write attempt is the CCC Write Request, and if it fails the run ends with -1 and no further attempt. The message is sent only after that write succeeded, with -1 on the first failed piece and no attempt after it. The wait exits 0 with the line followed by CR LF, or -1 with what was printed. The socket is closed on every exit after connecting. |
| `Scenarios.MessageDelivered` | src/linux/main.c:254-262 | a message that fits reaches the peer whole, CR LF included, in ceil((len + 2) / 20) Write Commands of at most 20 bytes |
| `Scenarios.FortyFiveBytes` | src/linux/main.c:118-131 | a 45-byte message goes out as three Write Commands |
| `Scenarios.LineOverTwoNotifications` | src/linux/main.c:136-168 | "AB" then "C" LF in two notifications is read as the line "ABC" |

## Left out

- `ble_connect` (src/linux/main.c:22-78): address parsing, adapter lookup,
  socket creation, bind, security level and connect are reduced to one
  success or failure, the `connects` parameter of a `Transport`. An invalid
  MAC string is one of the ways it fails. The MAC text itself is not
  interpreted.
- Option parsing and help (src/linux/main.c:175-229): `getopt_long` and
  `show_help` are left out, and the model starts from the parsed options.
  The option string is `"h?"` without a leading `:`. So `-h`, `-?`, an
  unknown option and an option missing its argument all print the help
  and exit 0 (main.c:219-224). The `default` branch that exits 1
  (main.c:225-227) cannot be reached. The messages printed to stderr and by
  `show_help` are not modelled.
- Short writes: `write` is modelled as all or nothing. A positive return
  smaller than the PDU is treated by the source as success; that case is
  not separated out.
- `select`, `read` and the actual socket I/O are replaced by a scripted
  sequence of wake-ups. Timing and concurrency are not modelled.
- Standard input is added to the `select` set but never read, so once it is
  readable every later `select` returns at once. The model has one
  `InputOnly` wake-up for each such return; it does not capture the busy
  loop's CPU use.
- A wait that never ends: when no wake-up is left, the real call would block
  for ever. The model reports this as status `Blocked` and exit `None`,
  with the socket still open.
- Output: `putchar` and `printf("\r\n")` are collected as a byte sequence.
  stdio buffering is not modelled.
- Exit values are the `int` that `main` returns (-1 rather than the
  process status 255).
- The message is a NUL-free byte string, as a command-line argument is. The
  `%s` conversion of `snprintf` is modelled directly, without any
  formatting machinery.
- `close` results are ignored by the source and not modelled.
- `ATT_OP_ERROR_RSP` and the responses to the Write Request are never read
  by the source except as ignored PDUs while waiting, and the model does
  the same.
