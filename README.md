# brother-scand, modelled in Dafny

brother-scand is a daemon that lets the scan button of a networked Brother
scanner send scans to a Linux machine. The device handler registers the
machine with each scanner's button over SNMP. It pings the scanners on a
schedule and watches for button events. A button event starts a scan on the
device's data channel. The data channel is a TCP protocol:
- a welcome exchange;
- two parameter exchanges built from `id=value` records;
- a stream of ten-byte chunk headers and chunk payloads, page by page.

A small Python tool turns the scanner's run-length page data into a
multi-page TIFF.

This project models the core of that daemon and proves properties of the
model. Each module follows one source file:

| Dafny module | file | source |
|---|---|---|
| `Bytes` | bytes.dfy | C library behaviour the code relies on: little-endian integers, NUL-terminated strings in fixed slots, `strcpy`, `"%ld"` and `strtol` |
| `ConQueue` | con_queue.dfy | the ring buffer of con_queue.c; concurrent_queue.c is the same code over `struct concurrent_queue` |
| `Connection` | connection.dfy | the buffered TCP reader of connection.c |
| `Config` | config.dfy | config.c: scan functions, default preset, list searches, the line dispatch of `config_init` |
| `ScanParams` | scan_params.dfy | the `id=value\n` records of `read_scan_params` and `write_scan_params` |
| `Exchange` | exchange.dfy | `exchange_params1`, `exchange_params2` and `data_channel_send_scan_params` |
| `Pages` | pages.dfy | the page-stream callbacks of data_channel.c |
| `DataChannel` | data_channel.dfy | `struct data_channel` as a class, one method per callback, and `data_channel_loop` |
| `DeviceHandler` | device_handler.dfy | the password encoding, string extraction, the ping and registration schedule, and `register_scanner_driver` |
| `RleToTiff` | rle_to_tiff.dfy | the PackBits decoder, the IFD entry packer and `TiffWriter` |

Code that changes state in place is modelled imperatively:
- `Queue`, `Conn`, `Channel`, `Device` and `TiffWriter` are classes whose
  methods update their fields.
- `rle_decode`, `encode_password`, `read_scan_params`, `write_scan_params`,
  `config_init`, the strtol loop and `register_scanner_driver` are methods
  with loops.

Each such method is proved against a specification function. Lemmas then
state the source's promises about that function: round trips, error
cases, the worked examples of the unit tests, and invariants.

The data channel's callback pointer is the datatype `Callback`. Each
callback of a scan in progress is a pure function in `Pages` from the
channel's state to a return code and a new state. The `Channel` methods are
proved to follow those functions.

The outside world comes in as parameters:
- the bytes the socket delivers, or None when a poll or receive fails;
- whether a send, `tmpfile()`, the page's `fopen` and the hook succeed;
- the current time and the printer status SNMP reports;
- the acknowledgement of each SNMP registration packet.

Where the code and its documented design differ, the model follows the code. The exceptions are the
R and A fix-ups of the parameter exchanges, which write past their slots as written: the
exchanges build on the corrected fix-ups; the Findings and Left out sections below say
where that matters. The differences from the design are:
- A page narrower than 8 pixels raises `ZeroDivisionError`. A negative width
  raises `struct.error` when the first IFD entry is packed. No separate
  validation error is raised.
- `tiff_tag` with no values packs 8 bytes, not a padded 12.
- The `PageNumber` entry takes the page index and count as parameters.
  In the script these are the module-level `i` and `len(filenames)`, not
  `self.page` and `self.pages`. They agree only under the script's own
  `__main__` loop.
- The pointer written before each page doubles as the previous IFD's
  "next IFD" field. The last IFD therefore has no zero terminator.
- `XResolution` and `YResolution` are SHORT entries, as the script writes
  them. They are not RATIONAL.
- `exchange_params2` accepts one trailing comma after the seventh field.
  `strtol`'s end pointer steps over it, and only text after that comma is
  refused (`Exchange.Exchange2OfJoined`, `Exchange.Exchange2TooLong`).

## Model

| member | source | states |
|---|---|---|
| Bytes.Le | rle_to_tiff.py:135 | x as n little-endian bytes, exactly n of them |
| Bytes.FromLe | data_channel.c:344-349 | the value of little-endian bytes, below 256^n |
| Bytes.LeRoundTrip | rle_to_tiff.py:135 | reading back the bytes `struct.pack('<…')` wrote gives the value |
| Bytes.FromLeRoundTrip | data_channel.c:344-349 | re-encoding a decoded little-endian field gives the same bytes |
| Bytes.CStr | data_channel.c:132 | what `strlen` sees: the prefix before the first NUL, which holds no NUL and is followed by one unless it fills the buffer |
| Bytes.CStrOfTerminated | data_channel.c:115 | a NUL written after s makes the buffer read back as s |
| Bytes.StrCpy | config.c:225 | `strcpy` into a slot: s, its NUL, then the slot's old bytes; it reads back as s |
| Bytes.Strtol | data_channel.c:487 | `strtol(s + i, &end, 10)`: end stays in the string, and nothing read means value 0 |
| Bytes.StrtolOfDigits | data_channel.c:487 | strtol over an optional '-' and n digits reads their value and stops right after them |
| Bytes.StrtolOfFormat | data_channel.c:487 | strtol reads back what "%ld" printed and stops right after it |
| ConQueue.Next | con_queue.c:9-13 | the next slot is below size and wraps to 0 exactly after size - 1 (also concurrent_queue.c:9-11) |
| ConQueue.RingLength | con_queue.c:16-45 | the queue holds (tail - head) mod size elements, at most size - 1 |
| ConQueue.FullIff | con_queue.c:18-23 | next(tail) == head exactly when size - 1 elements are queued |
| ConQueue.PushRing | con_queue.c:25-28 | storing at tail and advancing tail appends the element |
| ConQueue.PopRing | con_queue.c:40-43 | a non-empty queue's oldest element is at head, and advancing head removes it |
| ConQueue.Queue.constructor | con_queue.h:13-17 | a zeroed queue of `size` slots is empty |
| ConQueue.Queue.Push | con_queue.c:16-30 | -1 and no change exactly when full; otherwise the element is appended and head is kept (also concurrent_queue.c:13-25) |
| ConQueue.Queue.Pop | con_queue.c:32-45 | None and no change exactly when empty; otherwise it returns the oldest element, `data[head]`, and removes it (also concurrent_queue.c:27-38) |
| ConQueue.FifoExample | con_queue.c:16-45 | two elements pushed come out in the order they went in |
| Connection.Take | connection.c:310-311 | a receive hands over a prefix of the waiting bytes, min(waiting, room) of them |
| Connection.Room | connection.c:302-311 | the room offered to recv, after compaction when fewer than len bytes remain behind position |
| Connection.AfterPeekExtends | connection.c:308-317 | a peek only adds bytes behind the unread ones; it receives nothing when len bytes are there or the receive fails |
| Connection.Conn.DataAvailable | connection.c:272-274 | `buf_filled - buf_position` in size_t arithmetic: the difference when ordered, wrapped modulo 2^64 otherwise |
| Connection.Conn.constructor | connection.c:44-47 | a fresh 2048-byte buffer, position and filled at 0, nothing unread |
| Connection.Conn.Compact | connection.c:302-307 | the unread bytes move to the front and position becomes 0; the unread bytes are unchanged |
| Connection.Conn.Receive | connection.c:308-316 | a successful recv appends what arrived, up to the room behind filled; a failed one changes nothing |
| Connection.Conn.Peek | connection.c:292-318 | refused for UDP or len > 2048; otherwise position stays, the unread bytes gain at most one receive, and success is reported even when fewer than len bytes are there |
| Connection.Conn.ReadAsWritten | connection.c:320-326 | read as written: a successful peek, then position += len, even past the filled end |
| Connection.Conn.Read | connection.c:320-326 | read as intended: the first len unread bytes come out in arrival order and are consumed, and otherwise nothing is consumed |
| Connection.Conn.FillBufferAsWritten | connection.c:276-290 | fill_buffer as written: 0 without receiving when size bytes are there; otherwise it only peeks for size - available bytes |
| Connection.Conn.FillBuffer | connection.c:276-290 | fill_buffer as intended: 0 exactly when size bytes are unread afterwards; no receive when they already were |
| Connection.ChunkedReads | connection_test.cpp:22-35 | reads of 2, 4 and 4 bytes over arrivals "ABCD", "EFGH", "IJKL" give "AB", "CDEF", "GHIJ" |
| Connection.ArrivalsAppended | connection_test.cpp:29-34 | the buffered bytes before the second and third reads of that test |
| Connection.FillBufferShort | connection.c:285-286 | as written, fill_buffer(10) with 6 bytes buffered reports success with only 6 |
| Connection.FillBufferFixed | connection.c:276-290 | as intended, the same call receives and leaves 10 |
| Connection.ReadPastFilled | connection.c:320-326 | as written, read(4) with only "AB" arriving succeeds, and data_available wraps to 2^64 - 2 |
| Connection.ReadShortKept | connection.c:320-326 | as intended, the same read fails and keeps "AB" unread |
| Config.ScanFuncByName | config.c:83-96 | the index of the first name in g_scan_func_str equal to name, and -1 exactly when none is |
| Config.ScanFuncNamesDistinct | config.c:18-23 | IMAGE, OCR, EMAIL and FILE map back to 0, 1, 2, 3 |
| Config.Slot | config.c:34-37 | a calloc'ed 16-byte slot after `strcpy` |
| Config.SlotHolds | config.c:34-37 | a value shorter than 16 bytes reads back from its slot |
| Config.DefaultParams | config.c:39-52 | sixteen 16-byte slots whose ids are A B C D E F G J L M N P R T, then two empty slots |
| Config.DefaultPreset | config.c:25-55 | the default preset: the given hostname, timeouts 15 and 60, no password or command, the default parameters |
| Config.DefaultPresetValues | config.c:39-52 | R is "300,300", M is "CGRAY", P is "A4", D is "SIN", A and the unused slots are empty |
| Config.FindPreset | config.c:63-70 | the first preset in list order whose hostname is name, or None exactly when none matches |
| Config.FindByFuncAndName | config.c:72-81 | the first item whose function and hostname both match, or None exactly when none does |
| Config.ParamIndex | config.c:223-228 | the first slot with the id, or None exactly when no slot has it |
| Config.InitialState | config.c:111-118 | the state before the first line: the "default" preset and no device |
| Config.DefinePresetStep | config.c:127-131 | a `define-preset` line keeps the parser's invariant |
| Config.IpStep | config.c:132-145 | an `ip` line keeps the parser's invariant |
| Config.AddItem | config.c:165-169 | a `preset` line's new item keeps the parser's invariant |
| Config.TimeoutStep | config.c:170-175 | a `network.timeout` line keeps the parser's invariant |
| Config.SetParam | config.c:223-226 | a `scan.param` value stored in slot k keeps all sixteen slots 16 bytes long |
| Config.ApplyLine | config.c:126-249 | every line that does not make config_init fail keeps the invariant: "default" first, a valid current item, sixteen slots per item |
| Config.RunLines | config.c:126-253 | config_init returns 0 or -1 |
| Config.ConfigInit | config.c:99-254 | the line loop returns exactly what the lines applied in order until the first error give |
| Config.IpLine | config.c:132-145 | an `ip` line appends a device with timeout 5 and no items and clears the current preset, so a following `hostname` line fails |
| Config.PresetLineEffect | config.c:146-169 | a `preset` line fails without a device, with an undefined preset or an unknown function; otherwise it appends a copy of the first preset of that name with the function set |
| Config.ScanParamOverwrites | config.c:210-235 | a `scan.param` line overwrites the value of the first slot with that id and fails for an unknown id |
| Config.SeventeenthScanParam | config.c:217-221 | the 17th `scan.param` line of a file fails, because the counter is never reset |
| Config.RunStep | config.c:126-249 | after a successful line, the rest of the file is applied to the new state |
| Config.RunFails | config.c:245-253 | a failing line ends config_init with -1 and the devices read so far |
| Config.CommentSkipped | config.c:242-244 | comment and blank lines change nothing |
| Config.UnrecognisedStops | config.c:245-248 | an unrecognised line ends config_init with -1 |
| Config.FindAppended | config.c:127-131 | a preset defined under a new name is the one find_preset finds |
| Config.DefineThenParam | config.c:127-235 | `define-preset` then `scan.param`: a new preset with the default values and that one value changed |
| Config.IpThenPreset | config.c:132-169 | `ip` then `preset`: a new device whose one item is a copy of the preset with the function set |
| ScanParams.ParamIndexSameIds | data_channel.c:66-77 | get_scan_param_by_id depends only on the ids, so rewriting values never moves a parameter |
| ScanParams.SetValue | data_channel.c:104-115 | a value written into slot k changes that value only |
| ScanParams.LineEnd | data_channel.c:102 | the first 0x0a at or after i; when the records end in 0x0a it lies inside them |
| ScanParams.ReadStep | data_channel.c:88-117 | one record leaves the ids alone and, when the walk goes on, moves strictly forward |
| ScanParams.ReadFrom | data_channel.c:87-120 | the walk over the records keeps every id in its slot |
| ScanParams.ReadRecords | data_channel.c:79-121 | read_scan_params over the records keeps every id in its slot |
| ScanParams.ReadOneRecord | data_channel.c:87-117 | one `id=v` record: unknown id fails; a whitelisted v of 15 bytes or more fails; a shorter one is stored terminated; a non-whitelisted id leaves the slot empty |
| ScanParams.Record | data_channel.c:141-145 | `id=value\n` is three bytes longer than the value |
| ScanParams.WriteSkip | data_channel.c:132-139 | an empty or non-whitelisted parameter emits nothing |
| ScanParams.WriteEmit | data_channel.c:141-145 | any other emits its record, in slot order |
| ScanParams.WriteFromEnds | data_channel.c:123-149 | what write_scan_params writes ends with the 0x0a of its last record |
| ScanParams.WriteFromEmpty | data_channel.c:129-139 | it writes nothing exactly when no parameter from slot k on is emitted |
| ScanParams.ReadWriteRoundTrip | data_channel.c:79-148 | what write_scan_params emits, read back by read_scan_params, succeeds and stores each emitted value in its own slot |
| ScanParams.EmittedRMD | data_channel.c:137-139 | the "RMD" whitelist lets out exactly D, M and R of parameters laid out as the default |
| ScanParams.RecordsRMD | data_channel.c:568 | with "RMD" the records are D, M, R in slot order |
| ScanParams.DefaultRecordsRMD | data_channel_test.cpp:58 | the default parameters go out as `D=SIN\nM=CGRAY\nR=300,300\n` |
| ScanParams.CopyValue | data_channel.c:101-115 | the byte loop of one value: it overflows exactly when a whitelisted value reaches 15 bytes; otherwise it stops at the 0x0a with the value (or nothing) stored terminated |
| ScanParams.ReadStepCopied | data_channel.c:101-117 | what the byte loop leaves is one step of the record walk |
| ScanParams.ReadValue | data_channel.c:101-117 | the record at pos, read into slot k, is exactly ReadStep: go on after the 0x0a, or fail |
| Exchange.Resolution | data_channel.c:653-664 | the corrected fix-up: a value with a comma is kept; v becomes "v,v" terminated when that fits the slot; it is refused exactly when it does not |
| Exchange.DoubledAsWritten | data_channel.c:653-664 | the fix-up as written: refused only at 15 bytes or more, and it writes 2n + 1 bytes with no terminator |
| Exchange.DoubledAgreesWhenClean | data_channel.c:653-664 | when the slot is zero after the doubled value, the code as written and the corrected fix-up agree |
| Exchange.DoubledPastSlot | data_channel.c:656-663 | an eight-digit resolution is written one byte past the 16-byte slot |
| Exchange.DoubledUnterminated | data_channel.c:662-663 | "300" read over "1200,1200" doubles to "300,30000" as written, "300,300" corrected |
| Exchange.Exchange1 | data_channel.c:605-679 | exchange_params1 keeps the ids in their slots |
| Exchange.Reply1Of | data_channel.c:653-678 | the fix-up and function check keep the ids in their slots |
| Exchange.Exchange1Sends | data_channel.c:607-678 | a lone 0xD0 sends the R, M, D records; a message that is not framed (at least 5 bytes, 0x30 first, 0x0a and 0x80 last) changes and sends nothing; anything sent is `1b 49 0a`, the R, M, D records and 0x80, after a successful read, a valid R and an F naming a scan function |
| Exchange.Exchange1Doubles | data_channel.c:644-664 | a comma-less R of fewer than 8 bytes sent by the scanner is stored as "v,v" |
| Exchange.Reply1Doubles | data_channel.c:653-664 | the same on the parameters read |
| Exchange.ParseField | data_channel.c:487-497 | one strtol round: a long, followed by a comma or the end, and the next field strictly further on |
| Exchange.ParseFields | data_channel.c:486-498 | count fields, each a long, and the rest of the text |
| Exchange.FieldHead | data_channel.c:487-497 | a printed long followed by a comma or nothing reads back as itself |
| Exchange.ParseJoined | data_channel.c:486-498 | the loop reads back the integers "%ld,%ld,…" printed, and steps over one trailing comma |
| Exchange.Int32 | data_channel.c:499-502 | the long-to-int store is within int's range and keeps any value that fits |
| Exchange.Int32Wraps | data_channel.c:499-502 | it only drops multiples of 2^32 |
| Exchange.CopyBounded | data_channel.c:521-522 | strncpy of 16 and value[15] = 0 keeps at most 15 bytes, terminated |
| Exchange.StrnViewFits | data_channel.c:515 | strncmp(t, value, 16) == 0 for a text that fits says the value reads as t |
| Exchange.FixR | data_channel.c:510-523 | the R fix-up keeps the ids |
| Exchange.FixRValues | data_channel.c:513-523 | R holds "x,y" afterwards whenever that fits, and no other slot changes |
| Exchange.APrinted | data_channel.c:527 | the corrected A print: "0,0,w,h" cut to 15 bytes and terminated |
| Exchange.APrintedAsWritten | data_channel.c:527 | sprintf as written stores the whole text and its NUL, however long |
| Exchange.APrintedAgreesWhenFits | data_channel.c:527 | when "0,0,w,h" is shorter than 16 bytes, the print as written stays in the slot and reads the same as the corrected one |
| Exchange.AreaOverflows | data_channel.c:527 | a 100000 by 100000 area prints 18 bytes into the 16-byte slot |
| Exchange.FixA | data_channel.c:525-527 | the A fix-up keeps the ids |
| Exchange.FixAValues | data_channel.c:525-527 | A holds "0,0,w,h" cut to the slot, and no other slot changes |
| Exchange.Settle | data_channel.c:510-527 | both fix-ups keep the ids |
| Exchange.SettleValues | data_channel.c:510-527 | after both fix-ups, R holds "v0,v1" whenever that fits and A holds "0,0,v4,v6"; every other slot is unchanged |
| Exchange.Exchange2 | data_channel.c:450-549 | exchange_params2 keeps the ids in their slots |
| Exchange.DimsOf | data_channel.c:499-502 | xdpi, ydpi, width and height are fields 0, 1, 4 and 6 when those fit an int |
| Exchange.Reply2Of | data_channel.c:486-549 | the part after the framing checks keeps the ids |
| Exchange.Exchange2Framing | data_channel.c:451-478 | nothing is stored or sent unless the message is at least 5 bytes of 00, the length of the rest, 00 |
| Exchange.Frame2 | data_channel.c:458-478 | the framed message: 00, |t|, 00, then t |
| Exchange.Exchange2OfText | data_channel.c:480-549 | a framed text that parses as seven fields and ends there stores the dimensions, settles R and A and sends `1b 58 0a`, the R M C J B N A D G L records and 0x80 |
| Exchange.Exchange2OfJoined | data_channel.c:486-508 | seven printed integers, with or without one trailing comma, are accepted |
| Exchange.Exchange2TooLong | data_channel.c:504-508 | text after the seventh field's comma refuses the message, though the dimensions are already stored |
| Exchange.ExampleFields | data_channel_test.cpp:59 | "300,300,1,209,2480,0,0" is 22 bytes and gives 300, 300, 2480 and 0 |
| Exchange.Exchange2Example | data_channel_test.cpp:59-63 | that message leaves R = "300,300" and A = "0,0,2480,0" and sends them |
| Exchange.ReadFields | data_channel.c:482-498 | the strtol loop computes exactly the parse of seven fields |
| Exchange.FieldRead | data_channel.c:487-497 | a field strtol reads, followed by a comma or the end, is one ParseField round |
| Exchange.FieldFails | data_channel.c:488-493 | a field strtol cannot read fails the whole parse |
| Exchange.FieldStep | data_channel.c:495-497 | one loop round is one step of the parse |
| Exchange.MatchScanFunc | data_channel.c:666-677 | the strcmp loop stops at the scan function's index, and runs off the end exactly for an invalid name |
| Pages.DecodeHeader | data_channel.c:343-349 | the ten header bytes as id, magic, page id, unk2, progress and unk3, 16-bit fields little-endian |
| Pages.EncodeHeader | data_channel.c:38-45 | the ten bytes the scanner sends for a header |
| Pages.HeaderRoundTrip | data_channel.c:343-349 | decoding an encoded header gives it back |
| Pages.HeaderBytesRoundTrip | data_channel.c:343-349 | encoding a decoded header gives the ten bytes back |
| Pages.ChunkFormat | data_channel.c:358-370 | 0x40, 0x42 and 0x64 select raw, rle and jpeg; other ids select nothing |
| Pages.ReceiveInitial | data_channel.c:401-431 | 0 exactly when bytes have arrived and tmpfile() succeeds, and then a header is awaited with an empty temporary file; with nothing arrived a started scan disconnects and pauses, and one not started is left as it was; no byte is consumed and no page saved |
| Pages.ChunkHeader | data_channel.c:283-315 | consumes the two size bytes; 0 exactly for the current page id or the next, which becomes current, with the payload awaited and its little-endian 16-bit size remaining; otherwise -1 with the page id kept |
| Pages.PageEnd | data_channel.c:212-249 | 0 exactly when the id is the current page's and the save and the hook succeed; another id changes nothing; the current id counts the page (mod 2^32) and, once saved, appends the page with its number, format and the temporary file's contents, closes the file and awaits the next page |
| Pages.ProcessHeader | data_channel.c:317-399 | returns -1, 0 or 1, consumes a prefix of the pending bytes, and keeps the pages saved, adding at most one |
| Pages.ProcessPayload | data_channel.c:257-281 | 0 exactly when bytes have arrived and fwrite succeeds; min(remaining, arrived) bytes are consumed, and on success they move to the end of the temporary file and remaining goes down by as many; a failure leaves file and count as they were |
| Pages.AfterCallback | data_channel.c:736-747 | a negative code leaves the channel paused with the temporary file closed; any other keeps the state; the pending bytes and pages are never touched |
| Pages.ScanEnd | data_channel.c:251-255 | the scan end disconnects and pauses the channel |
| Pages.HeaderConsumes | data_channel.c:321-349 | process_header consumes the scan-end byte, or a whole ten-byte header, or fails pausing with nothing consumed |
| Pages.ChunkAccepted | data_channel.c:351-396 | process_header returns 0 exactly for a chunk header with magic 7 and an acceptable page id, and 1 for the scan end or a saved page end |
| Pages.HeaderRejected | data_channel.c:351-396 | a wrong magic number or an unknown id fails after consuming the header |
| Pages.ChunkPageRule | data_channel.c:293-310 | a chunk is accepted exactly for the current page id or the next one, which then becomes current |
| Pages.PageEndRule | data_channel.c:219-248 | a page end needs the current page id; then the page is saved, the page counter goes up and the temporary file is closed |
| Pages.PayloadStep | data_channel.c:257-281 | a payload step moves min(remaining, arrived) bytes into the temporary file and returns to headers exactly when none remain |
| Pages.PayloadCompletes | data_channel.c:264-279 | with the whole rest of the chunk arrived, it is written and headers come next |
| Pages.PayloadPart | data_channel.c:264-279 | with part of it arrived, that part is written and the count goes down |
| Pages.PayloadInTwo | data_channel_test.cpp:93-100 | a chunk delivered in two parts ends up in the file as one |
| Pages.ReceiveKeepsValid | data_channel.c:401-431 | receive_initial_data keeps the channel's counters in range |
| Pages.HeaderKeepsValid | data_channel.c:317-399 | process_header keeps them in range |
| Pages.ChunkKeepsValid | data_channel.c:283-315 | process_chunk_header keeps them in range |
| Pages.PageEndKeepsValid | data_channel.c:212-249 | process_page_end_header keeps them in range and closes the temporary file |
| Pages.PayloadKeepsValid | data_channel.c:257-281 | process_page_payload keeps them in range, whether fwrite succeeds or not |
| Pages.PageStep | data_channel.c:732-748 | one loop step during a scan keeps the counters in range and stays in the scan or pauses |
| Pages.ExampleHeader | data_channel_test.cpp:81-82 | the test's header is RLE, magic 7, page 1, chunk size 6 |
| Pages.ExampleChunk | data_channel_test.cpp:84-91 | on the first page that header and its six payload bytes are accepted, page 1 becomes current and headers come next |
| DataChannel.ByIndex | data_channel.c:56-64 | get_scan_param_by_index: the slot for an index below 16, nothing past them |
| DataChannel.Channel.constructor | data_channel.c:823-848 | a calloc'ed channel, all zero, whose next callback is data_channel_init |
| DataChannel.Channel.Deliver | connection.c:310-315 | a receive appends its bytes to those pending |
| DataChannel.Channel.Init | data_channel.c:764-777 | data_channel_init pauses the channel with format "unk" |
| DataChannel.Channel.Kick | data_channel.c:779-791 | only a paused channel starts connecting |
| DataChannel.Channel.SetItem | data_channel.c:793-798 | the item's parameters replace the channel's |
| DataChannel.Channel.InitConnection | data_channel.c:681-730 | the 1b 4b 0a 80 reply is sent exactly for a welcome starting with '+'; 0 and exchange_params1 next exactly when that send succeeds |
| DataChannel.Channel.GetScanParamById | data_channel.c:66-77 | the walk by index finds the first slot with the id, or none |
| DataChannel.Channel.ReadScanParams | data_channel.c:79-121 | the record loop computes exactly ReadRecords, and 0 exactly on success |
| DataChannel.Channel.WriteScanParams | data_channel.c:123-149 | the slot loop computes exactly WriteFrom |
| DataChannel.Channel.SendScanParams | data_channel.c:559-586 | sends `1b 49 0a`, the R, M, D records and 0x80, and waits for exchange_params2 when the send succeeds |
| DataChannel.Channel.ExchangeParams1 | data_channel.c:588-679 | a failed receive returns -1 and changes nothing; otherwise the parameters and the message sent are those of Exchange1; 0 and exchange_params2 next exactly when something was sent successfully |
| DataChannel.Channel.CheckParams1 | data_channel.c:653-678 | the part after read_scan_params follows Reply1Of |
| DataChannel.Channel.ExchangeParams2 | data_channel.c:433-557 | the parameters, dimensions and message sent are those of Exchange2; on success page 0, a new scan id, and receive_initial_data next |
| DataChannel.Channel.SettleParams2 | data_channel.c:499-556 | the part after the field loop follows Reply2Of |
| DataChannel.Channel.FixUpParams | data_channel.c:510-527 | the R and A fix-ups leave Settle of the old parameters |
| DataChannel.Channel.StoreDims | data_channel.c:499-502 | the four dimensions stored are DimsOf the fields |
| DataChannel.Channel.SendFinalParams | data_channel.c:529-556 | sends `1b 58 0a`, the R M C J B N A D G L records and 0x80; on success page 0, the scan id and receive_initial_data next |
| DataChannel.Channel.Read | connection.c:320-326 | n arrived bytes come out in order and are consumed |
| DataChannel.Channel.ScanEnd | data_channel.c:251-255 | disconnects and pauses |
| DataChannel.Channel.ReceiveInitialData | data_channel.c:401-431 | return code and new state are those of ReceiveInitial |
| DataChannel.Channel.ProcessChunkHeader | data_channel.c:283-315 | those of ChunkHeader |
| DataChannel.Channel.ProcessPageEndHeader | data_channel.c:212-249 | those of PageEnd |
| DataChannel.Channel.ProcessHeader | data_channel.c:317-399 | those of ProcessHeader |
| DataChannel.Channel.ProcessPagePayload | data_channel.c:257-281 | those of ProcessPayload, a failed fwrite included |
| DataChannel.Channel.Loop | data_channel.c:732-748 | one loop pass: a failure pauses the channel and closes the temporary file; a paused channel does nothing; a scan step is PageStep; the exchanges follow Exchange1 and Exchange2; the R, F and A slots stay in place |
| DataChannel.Channel.SetupStep | data_channel.c:732-748 | the pass on data_channel_init, a paused channel or data_channel_init_connection |
| DataChannel.Channel.ScanStep | data_channel.c:732-748 | the pass on a scan callback is PageStep |
| DataChannel.Channel.ExchangeStep1 | data_channel.c:732-748 | the pass on exchange_params1 follows Exchange1, and a failure pauses |
| DataChannel.Channel.ExchangeStep2 | data_channel.c:732-748 | the pass on exchange_params2 follows Exchange2, and a failure pauses |
| DeviceHandler.DigitToHex | device_handler.c:55-61 | an upper-case hex digit whose value is n & 0xf |
| DeviceHandler.HexValue | device_handler.c:58-60 | a digit's value is below 16 |
| DeviceHandler.HexDigitOfValue | device_handler.c:55-61 | each digit names exactly one nibble |
| DeviceHandler.ShuffleInjective | device_handler.c:66-71 | no two password bits go to the same scratch bit: the table is a permutation of 0..31 |
| DeviceHandler.MoveBitBits | device_handler.c:80-81 | the inner step sets bit k when the bit shifted out is 1 and keeps every other bit |
| DeviceHandler.PartialClear | device_handler.c:73-84 | a scratch bit no step has reached is still clear |
| DeviceHandler.PartialAt | device_handler.c:77-84 | once step m has run, scratch bit table[m] holds bit m % 8 of password byte m / 8 |
| DeviceHandler.WithKeyTwice | device_handler.c:86-88 | XOR with CA FE 28 A9 undoes itself |
| DeviceHandler.HexDigits | device_handler.c:90-93 | the encoding is all upper-case hex digits |
| DeviceHandler.HexAppend | device_handler.c:90-93 | each byte adds its high nibble's digit, then its low one's |
| DeviceHandler.HexByteOfDigits | device_handler.c:91-92 | the two digits of a byte spell it again |
| DeviceHandler.UnhexHex | device_handler.c:90-93 | the hex encoding of bytes decodes back to them |
| DeviceHandler.GatherPassword | device_handler.c:77-84 | the eight scratch bits assigned to byte i, gathered, are pass[i] |
| DeviceHandler.DecodeEncoded | device_handler.c:63-98 | the encoding is 8 bytes and decodes back to the four-byte password |
| DeviceHandler.EncodedPassword | device_handler.c:63-98 | eight upper-case hex digits that decode to the keyed shuffle of the password |
| DeviceHandler.EncodingInjective | device_handler.c:63-98 | different four-byte passwords encode differently |
| DeviceHandler.ShuffleByte | device_handler.c:78-83 | the inner loop ORs the eight bits of pass[i] into the scratch as the table says |
| DeviceHandler.Shuffle | device_handler.c:73-84 | the shuffle loops on a zeroed 32-byte buffer |
| DeviceHandler.ApplyKey | device_handler.c:86-88 | the key loop XORs the first four scratch bytes with the key |
| DeviceHandler.WriteHex | device_handler.c:90-93 | the hex loop writes the digits of the first n bytes and nothing past them |
| DeviceHandler.EncodePassword | device_handler.c:63-98 | returns 0 and writes the eight-digit encoding of pass[0..4] then a NUL, leaving the rest of buf |
| DeviceHandler.Find | device_handler.c:217 | strstr: the first position where pat occurs, or None exactly when it occurs nowhere |
| DeviceHandler.FindFrom | device_handler.c:224 | the first occurrence at or after i |
| DeviceHandler.FindIs | device_handler.c:217 | an occurrence with none before it is what strstr finds |
| DeviceHandler.ExtractString | device_handler.c:215-231 | None when before is missing; a value found holds no NUL and no occurrence of after but the closing one |
| DeviceHandler.ExtractHostname | device_handler.c:233-235 | the text between USER=" and the next quote of the C string at buf; it never holds a quote |
| DeviceHandler.HostnameAfter | device_handler.c:233-235 | after a prefix in which USER=" does not start, the value up to the quote is the hostname, whatever follows the quote |
| DeviceHandler.UserAfterType | device_handler.c:117-118 | USER=" does not start inside the `TYPE=BR;BUTTON=SCAN;` prefix of a button event |
| DeviceHandler.ExtractComposed | device_handler.c:215-231 | x + before + v + after + y, with no earlier before and no after inside v, extracts v |
| DeviceHandler.ExtractOf | device_handler.c:215-231 | with the first before at p and the first after past it found, the text between is extracted |
| DeviceHandler.ExtractSplits | device_handler.c:215-231 | a successful extraction splits the buffer into prefix, before, value, after, rest |
| DeviceHandler.ExtractFunc | device_handler.c:237-243 | the scan function named between FUNC= and ';', or -1 when that is missing or names none |
| DeviceHandler.HostnameMissing | device_handler_test.cpp:14 | "foobar" has no hostname |
| DeviceHandler.HostnameUnclosed | device_handler_test.cpp:15 | `abc;USER="` and a value without a quote has none |
| DeviceHandler.HostnameFound | device_handler_test.cpp:16-17 | `abc;USER="v";abc` gives v |
| DeviceHandler.HostnameExamples | device_handler_test.cpp:14-17 | the test's own strings give None and "foobar" |
| DeviceHandler.HostnameOfEvent | device_handler_test.cpp:18-21 | the test's button event gives "mymachine" |
| Bytes.CStrAfter | device_handler.c:306 | a C string that starts with NUL-free bytes keeps them, so bytes after a NUL never reach strstr |
| DeviceHandler.PingSchedule | device_handler.c:254-275 | the status is queried only once the ping time has passed; the next ping is 5 seconds on |
| DeviceHandler.RegisterSchedule | device_handler.c:277-286 | a device is registered exactly when it is reachable (10001, 10006, 40000, 40038) and the registration time has passed, which then moves 360 seconds on |
| DeviceHandler.RegisterSpacing | device_handler.c:282-285 | two turns no more than 360 seconds apart never both register |
| DeviceHandler.PingSpacing | device_handler.c:259-263 | two turns no more than 5 seconds apart query the status only once |
| DeviceHandler.DeviceTurn | device_handler.c:254-287 | a registration happens only for a reachable status and moves the registration time to now + 360; neither time ever moves back |
| DeviceHandler.Device.constructor | device_handler.c:195 | a calloc'ed device: status and both times zero |
| DeviceHandler.Device.Tick | device_handler.c:254-287 | the device's fields and the register decision after its turn are DeviceTurn |
| DeviceHandler.FirstTurn | device_handler.c:254-287 | a fresh device is registered on its first turn exactly when reachable |
| DeviceHandler.MessageHostname | device_handler.c:117-129 | extract_hostname gives the item's hostname back from its registration text whenever the hostname holds no quote and no NUL |
| DeviceHandler.Finish | device_handler.c:146-151 | a non-zero result comes only from the last packet's reply, sent when texts were pending; items and g_appnum are unchanged |
| DeviceHandler.FinishSendsPending | device_handler.c:146-151 | every pending text goes out, after the packets already sent |
| DeviceHandler.RegisterFrom | device_handler.c:109-151 | from item k on: the item count and valid scan functions are kept, g_appnum never goes down, and packets are only appended |
| DeviceHandler.Register | device_handler.c:100-152 | register_scanner_driver keeps the item count and valid scan functions and never lowers g_appnum |
| DeviceHandler.ItemStep | device_handler.c:109-145 | one item keeps the item list's length and its scan functions valid |
| DeviceHandler.ItemShape | device_handler.c:135-144 | one item sends either nothing or one full packet of four |
| DeviceHandler.PacketsNeeded | device_handler.c:135-150 | batched packets carrying n texts are ceil(n / 4) packets |
| DeviceHandler.RegisterBatches | device_handler.c:135-150 | every packet but the last carries four texts and the last one to four, all with the enabled flag |
| DeviceHandler.RegisterAcknowledged | device_handler.c:131-151 | with every packet acknowledged it fails only on a 255-character text, and otherwise sends every item's text |
| DeviceHandler.Numbering | device_handler.c:113-115 | numbering the first m items leaves the rest and never lowers g_appnum |
| DeviceHandler.ItemNumbering | device_handler.c:113-115 | one item gets the next number exactly when its appnum is 0 |
| DeviceHandler.NumberingRenumbers | device_handler.c:113-115 | items with an appnum keep it; those without get distinct new numbers in list order |
| DeviceHandler.RegisterNumbering | device_handler.c:113-115 | the items left by register_scanner_driver are so renumbered |
| DeviceHandler.SecondItemCarries | device_handler.c:105-112 | a second item without its own four-byte password is registered with the first one's encoding |
| DeviceHandler.PasswordCarriesOver | device_handler.c:105-112 | the same for two items from the start: pass_buf is never reset |
| DeviceHandler.PassBufText | device_handler.c:105-111 | pass_buf after encode_password reads as the encoding |
| DeviceHandler.FormatItem | device_handler.c:110-129 | the password is encoded when it is four bytes, appnum numbered when 0, and the registration text formatted |
| DeviceHandler.RegisterItem | device_handler.c:109-145 | the loop body is ItemStep |
| DeviceHandler.SendRest | device_handler.c:146-151 | after the loop, pending texts go out in one last packet |
| DeviceHandler.NewPassBuf | device_handler.c:105 | the zeroed nine-byte pass_buf holds the empty string |
| DeviceHandler.RegisterScannerDriver | device_handler.c:100-152 | the loop computes exactly Register |
| RleToTiff.Slice | rle_to_tiff.py:18-21 | Python slicing clamps to the bytes that exist |
| RleToTiff.ReplicateSingle | rle_to_tiff.py:18 | k copies of a one-byte string are k times that byte; of an empty one, nothing |
| RleToTiff.Next | rle_to_tiff.py:12-22 | the cursor strictly increases with every run, so decoding terminates |
| RleToTiff.DecodeFrom | rle_to_tiff.py:9-23 | nothing past the end of the data; otherwise at most 64 bytes per byte left |
| RleToTiff.Decode | rle_to_tiff.py:7-23 | the output is at most 64 bytes per input byte |
| RleToTiff.RleDecode | rle_to_tiff.py:7-23 | the loop computes exactly Decode |
| RleToTiff.DecodeFromShift | rle_to_tiff.py:9-23 | decoding never looks behind the cursor |
| RleToTiff.DecodeEmpty | rle_to_tiff.py:9-11 | empty input decodes to nothing |
| RleToTiff.DecodeNoOp | rle_to_tiff.py:14-15 | 0x80 yields nothing and consumes only itself |
| RleToTiff.DecodeRepeat | rle_to_tiff.py:16-19 | v > 0x80 then b yields b 0x101 - v times (2 to 128) and consumes two bytes |
| RleToTiff.DecodeRepeatAtEnd | rle_to_tiff.py:16-19 | a repeat control byte at the end yields nothing |
| RleToTiff.DecodeLiteral | rle_to_tiff.py:20-22 | v < 0x80 copies the next v + 1 bytes verbatim |
| RleToTiff.DecodeLiteralAtEnd | rle_to_tiff.py:20-22 | a literal run cut short copies what is left |
| RleToTiff.DecodeRun | rle_to_tiff.py:12-22 | a well-formed run decodes to its expansion, whatever follows |
| RleToTiff.DecodeEncodeRuns | rle_to_tiff.py:7-23 | a stream of well-formed runs decodes to their expansions in order |
| RleToTiff.DecodeExamples | rle_to_tiff.py:7-23 | FE AA gives AA AA AA; 05 1 2 3 4 5 6 gives 1..6; 80 gives nothing |
| RleToTiff.Pack | rle_to_tiff.py:135 | the entry is 12 bytes, or 8 with no values |
| RleToTiff.TiffTag | rle_to_tiff.py:130-135 | more than two values: AssertionError; unknown name: KeyError; out-of-range value: struct.error; otherwise the packed entry of the name's id |
| RleToTiff.PackRoundTrip | rle_to_tiff.py:135 | a TIFF reader reads the packed entry back as tag, type and values |
| RleToTiff.TiffTagRoundTrip | rle_to_tiff.py:130-135 | tiff_tag's entry reads back as the named tag with its type and values |
| RleToTiff.TiffTagTooManyValues | rle_to_tiff.py:134 | three values fail the assertion |
| RleToTiff.RoundWidth | rle_to_tiff.py:148 | `int(width) & ~7` is a multiple of 8 within 8 below the width |
| RleToTiff.PageTagsKnown | rle_to_tiff.py:26-125 | the twelve names addPage uses are in the table, with ids 0x100 to 0x129 |
| RleToTiff.HeightBound | rle_to_tiff.py:151 | the height never exceeds the data length once the width is 8 or more |
| RleToTiff.FieldPacks | rle_to_tiff.py:130-135 | a known tag packs exactly when its type and values fit |
| RleToTiff.IfdSucceeds | rle_to_tiff.py:149-162 | the IFD packs exactly when every value fits |
| RleToTiff.IfdNarrow | rle_to_tiff.py:150-151 | a width rounded to 0 fails with ZeroDivisionError, a negative one with struct.error |
| RleToTiff.PageSucceeds | rle_to_tiff.py:146-164 | addPage succeeds exactly when every value fits; a width below 8 fails |
| RleToTiff.IfdEntries | rle_to_tiff.py:149-162 | the IFD is the twelve entries in addPage's order |
| RleToTiff.Ifd | rle_to_tiff.py:149-162 | a width of 0 fails with ZeroDivisionError; a success is twelve 12-byte entries |
| RleToTiff.PageBytes | rle_to_tiff.py:163-164 | a success is 4 + len(data) + 2 + 144 bytes, with the data right after the pointer |
| RleToTiff.PageLayout | rle_to_tiff.py:163-164 | a page is 4 + len(data) + 2 + 144 bytes: a pointer to offset + 4 + len(data), the data, the count 12, the entries |
| RleToTiff.PageTags | rle_to_tiff.py:149-164 | the entries read back: width, height = len(data) * 8 // width, StripOffsets = offset + 4, StripByteCounts = len(data), PageNumber |
| RleToTiff.PageSplit | rle_to_tiff.py:163-164 | a successful page is the pointer, the data, the count and the joined entries |
| RleToTiff.TiffWriter.constructor | rle_to_tiff.py:139-144 | writes `II*\0` and starts at offset 4, page 0 |
| RleToTiff.TiffWriter.AddPage | rle_to_tiff.py:146-167 | a successful page is appended and counted, and the offset stays the length written; an exception leaves the writer unchanged |

## Left out

- Sockets, `poll`, `send` and `recv` are left out. Their outcomes are inputs: the bytes received, or None, and whether a send succeeded.
- Threads, the event thread, atomics and memory ordering are left out. The queues are modelled sequentially.
- SNMP and BER encoding are left out, including the printer-status query and the registration packet. The status and each packet's acknowledgement are inputs.
- `time()` is an input.
- Files, `tmpfile`, the page's `fopen` and the copy into `scanN.fmt` are left out, as is `fclose`. Their success is an input, and so is whether `fwrite` writes a payload part whole (data_channel.c:271-275); a failed write fails the step after the bytes were read. The temporary file is a byte sequence, and a saved page is its contents and name.
- invoke_callback is left out: fork, execve and the environment strings. Its outcome is an input to the page end. The scan end calls it too (data_channel.c:254) but ignores its result, so leaving that call out changes no modelled state.
- The progress percentage and the log output of process_chunk_header are left out.
- data_channel_init_connection's reconnect is left out: the connection is assumed to succeed. The retry on ENOTCONN is not modelled; a failed receive fails the call.
- brother_conn_open, create_socket and brother_conn_close inside the data channel are left out. data_channel_stop, device_handler_stop, device_handler_init and add_device are left out, because they allocate, connect and free.
- data_channel_kick is left out: it only queues data_channel_kick_cb on the event thread, and that callback is `Channel.Kick`.
- The button-event matching of device_handler_loop is left out. It covers the receive, the client-IP check and the search of devices by IP, function and hostname (device_handler.c:289-339). It is socket plumbing around `ExtractHostname`, `ExtractFunc` and `Config.FindByFuncAndName`, which are modelled.
- In the data channel, fill_buffer is the corrected wait: it succeeds exactly when the bytes have arrived. The gap in the code as written is modelled in `Connection.Conn.FillBufferAsWritten` and listed under Findings.
- Exchange.Exchange1: builds on the corrected R fix-up `Exchange.Resolution`. As written, a comma-less R of 8 to 14 bytes is doubled past the 16-byte slot, into the id byte of the next slot, and is sent that way; a shorter one leaves the slot's old bytes after "v,v" ("300" over "1200,1200" reads "300,30000"). `Exchange.DoubledAsWritten` models that, and `Exchange.DoubledAgreesWhenClean` shows the two agree when the slot is zero after the doubled value.
- Exchange.Reply1Of: like Exchange.Exchange1, builds on the corrected R fix-up; its R value is what the code writes only when the slot is zero after the doubled value.
- Exchange.Exchange1Sends: like Exchange.Exchange1, builds on the corrected R fix-up; its R value is what the code writes only when the slot is zero after the doubled value.
- Exchange.Exchange1Doubles: like Exchange.Exchange1, builds on the corrected R fix-up; its R value is what the code writes only when the slot is zero after the doubled value.
- Exchange.Reply1Doubles: like Exchange.Exchange1, builds on the corrected R fix-up; its R value is what the code writes only when the slot is zero after the doubled value.
- Exchange.FixA: builds on the corrected A print `Exchange.APrinted`. As written, sprintf stores the whole "0,0,w,h" and its NUL however long, 18 bytes for a 100000 by 100000 area, past the 16-byte slot. `Exchange.APrintedAsWritten` models that, and `Exchange.APrintedAgreesWhenFits` shows the two agree when the text is shorter than 16 bytes.
- Exchange.FixAValues: like Exchange.FixA, builds on the corrected A print; its A value is what the code writes only when "0,0,w,h" is shorter than 16 bytes.
- Exchange.Settle: like Exchange.FixA, builds on the corrected A print; its A value is what the code writes only when "0,0,w,h" is shorter than 16 bytes.
- Exchange.SettleValues: like Exchange.FixA, builds on the corrected A print; its A value is what the code writes only when "0,0,w,h" is shorter than 16 bytes.
- Exchange.Exchange2: like Exchange.FixA, builds on the corrected A print; its A value is what the code writes only when "0,0,w,h" is shorter than 16 bytes.
- Exchange.Reply2Of: like Exchange.FixA, builds on the corrected A print; its A value is what the code writes only when "0,0,w,h" is shorter than 16 bytes.
- Exchange.Exchange2OfText: like Exchange.FixA, builds on the corrected A print; its A value is what the code writes only when "0,0,w,h" is shorter than 16 bytes.
- DataChannel.Channel.ExchangeParams1: follows Exchange.Exchange1, so the corrected R fix-up (see Exchange.Exchange1).
- DataChannel.Channel.CheckParams1: follows Exchange.Exchange1, so the corrected R fix-up (see Exchange.Exchange1).
- DataChannel.Channel.ExchangeStep1: follows Exchange.Exchange1, so the corrected R fix-up (see Exchange.Exchange1).
- DataChannel.Channel.ExchangeParams2: follows Exchange.Settle, so the corrected A print (see Exchange.FixA).
- DataChannel.Channel.SettleParams2: follows Exchange.Settle, so the corrected A print (see Exchange.FixA).
- DataChannel.Channel.FixUpParams: follows Exchange.Settle, so the corrected A print (see Exchange.FixA).
- DataChannel.Channel.ExchangeStep2: follows Exchange.Settle, so the corrected A print (see Exchange.FixA).
- DataChannel.Channel.Loop: follows Exchange1 and Exchange2, so both corrected fix-ups (see Exchange.Exchange1 and Exchange.FixA).
- Exchange.ParseField: strtol's ERANGE is modelled as a value outside the range of a 64-bit long. errno is not modelled.
- `config_init`'s fopen and fgets are left out, and so are sscanf's pattern matching and field widths. Lines come in already split into their tokens; a `Tokenised` predicate states the widths.
- Config.ApplyLine: the `password` line is modelled as a plain copy. In the C code, `init_item_config` copies the preset's `password` pointer into each item. A later `password` line then frees memory an item still points to. That aliasing is not modelled.
- Connection.Conn.Compact: the overlapping `memcpy` of the compaction is modelled as a forward byte copy, the result `memmove` gives.
- The `__main__` block of rle_to_tiff.py is left out (argv, file reads, stdout). Its page index and page count are the parameters of `AddPage`.
- log.c, main.c, scanner_cli.c, network.c, iputils.c, snmp.c, event_thread.c and button_handler.c are not part of this model.

## Findings

| source | as written | input that shows it | evidently intended | confidence | as-written member | corrected member |
|---|---|---|---|---|---|---|
| connection.c:285-286 | fill_buffer asks peek for `size - available` more bytes. Peek compares that with all unread bytes, so it does not receive. | 6 bytes buffered, fill_buffer(10): returns 0 with 6 bytes | return 0 only once `size` bytes are buffered | high, not executed | Connection.FillBufferShort | Connection.FillBufferFixed |
| connection.c:320-326 | read moves `buf_position` by len after a peek that may have fewer than len bytes | only "AB" arrives, read(4): returns success, and data_available wraps to 2^64 - 2 | fail and consume nothing unless len bytes are buffered | high, not executed | Connection.ReadPastFilled | Connection.ReadShortKept |
| data_channel.c:656-663 | the resolution doubling only refuses values of 15 bytes or more. It writes 2n + 1 bytes and no terminator. | R = "12001200" (8 digits) is written one byte past the slot; "300" over an old "1200,1200" becomes "300,30000" | refuse values whose "v,v" does not fit in 15 bytes, and terminate the result | high, not executed | Exchange.DoubledUnterminated | Exchange.Resolution |
| data_channel.c:527 | `sprintf(param->value, "0,0,%ld,%ld", …)` into a 16-byte slot | width = height = 100000: 18 bytes are written into the 16-byte slot | a bounded print that keeps the slot terminated | medium, not executed | Exchange.AreaOverflows | Exchange.APrinted |
