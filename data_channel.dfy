// The scanner data channel (struct data_channel in data_channel.c) without
// its sockets, files, thread and hook process: a class whose callback field
// says which step runs next, and one method per step, each proved against
// the functions of ScanParams, Exchange and Pages.
//
// The channel's connection is the sequence of bytes it has received and not
// yet read; `Deliver` adds what one receive brings. A wait for n bytes
// (brother_conn_fill_buffer) succeeds exactly when n bytes are there, which
// is the buffered reader of connection.c as corrected in Connection.Conn.
// The parameter exchanges receive whole messages (brother_conn_receive),
// given here as `received`, None when the poll or the receive fails. The
// effects whose outcome the channel cannot see in advance (sending, creating
// files, running the hook, the global scan counter) are inputs.

module DataChannel {

  import opened Bytes
  import opened Config
  import opened ScanParams
  import opened Exchange
  import opened Pages

  /** The welcome reply data_channel_init_connection sends: 1b 4b 0a 80. */
  const WELCOME_REPLY: seq<byte> := [0x1b, 0x4b, 0x0a, 0x80]
  const PLUS: byte := 0x2b  // '+', the first byte of the scanner's welcome

  /** get_scan_param_by_index: the slot, or nothing past the last one. */
  function ByIndex(index: nat): (r: Option<nat>)
    ensures r.Some? <==> index < MAX_PARAMS
    ensures r.Some? ==> r.value == index
  {
    if index >= MAX_PARAMS then None else Some(index)
  }

  /** The outcome of one call of process_cb for every callback: the
      channel's inputs for that call. */
  datatype Effects = Effects(
    welcome: Option<seq<byte>>,   // the welcome message, None: no connection or no message
    received: Option<seq<byte>>,  // the message an exchange receives
    sendOk: bool,                 // brother_conn_send sends the whole message
    tmpOk: bool,                  // tmpfile() succeeds
    saveOk: bool,                 // fopen of the page's file succeeds
    hookOk: bool,                 // invoke_callback succeeds
    writeOk: bool,                // fwrite to the temporary file writes the whole chunk part
    ticket: int)                  // the value atomic_fetch_add(&scan_id, 1) returns

  /** struct data_channel, less its thread, connection handle, config and
      item pointers. */
  class Channel {
    var processCb: Callback
    /** The bytes received on the connection and not yet read. */
    var pending: seq<byte>
    var connected: bool
    /** The temporary file of the page being received and its contents. */
    var tempfile: Option<seq<byte>>
    var scanId: int
    var pageId: int
    var remainingChunkBytes: int
    var scannedPages: nat
    var params: seq<ScanParam>
    var xdpi: int
    var ydpi: int
    var width: int
    var height: int
    var fileFormat: Format
    /** The scanN files written so far. */
    var saved: seq<Page>

    /** The fields the page stream works on. */
    ghost function State(): Stream
      reads this
    {
      Stream(processCb, pending, pageId, remainingChunkBytes, fileFormat, scannedPages, tempfile, saved, connected)
    }

    ghost predicate Valid()
      reads this
    {
      ParamsShape(params) && StreamValid(State())
    }

    /** data_channel_create: a calloc'ed channel whose callback is
        data_channel_init. */
    constructor()
      ensures Valid() && processCb == Initialising && pending == [] && !connected
      ensures tempfile.None? && scanId == 0 && pageId == 0 && remainingChunkBytes == 0 && scannedPages == 0
      ensures params == seq(MAX_PARAMS, k => ScanParam(0, Zeros(VALUE_SIZE)))
      ensures xdpi == 0 && ydpi == 0 && width == 0 && height == 0 && fileFormat == Unknown && saved == []
    {
      processCb := Initialising;
      pending := [];
      connected := false;
      tempfile := None;
      scanId := 0;
      pageId := 0;
      remainingChunkBytes := 0;
      scannedPages := 0;
      params := seq(MAX_PARAMS, k => ScanParam(0, Zeros(VALUE_SIZE)));
      xdpi, ydpi, width, height := 0, 0, 0, 0;
      fileFormat := Unknown;
      saved := [];
    }

    /** One receive on the connection brings the bytes `more`. */
    method Deliver(more: seq<byte>)
      modifies this`pending
      ensures pending == old(pending) + more
    {
      pending := pending + more;
    }

    /** data_channel_init: paused, with the "unk" format. */
    method Init()
      requires Valid()
      modifies this`processCb, this`fileFormat
      ensures Valid() && processCb == Paused && fileFormat == Unknown
    {
      processCb := Paused;
      fileFormat := Unknown;
    }

    /** data_channel_kick_cb: only a paused channel starts connecting. */
    method Kick() returns (kicked: bool)
      requires Valid()
      modifies this`processCb
      ensures Valid()
      ensures kicked <==> old(processCb) == Paused
      ensures processCb == if kicked then Connecting else old(processCb)
    {
      kicked := processCb == Paused;
      if kicked {
        processCb := Connecting;
      }
    }

    /** data_channel_set_item: the item's parameters replace the
        channel's. */
    method SetItem(item: Item)
      requires Valid() && ParamsShape(item.scanParams)
      modifies this`params
      ensures Valid() && params == item.scanParams
    {
      params := item.scanParams;
    }

    /** data_channel_init_connection: a welcome message starting with '+'
        is answered with 1b 4b 0a 80, and the channel then waits for the
        scanner's parameters. */
    method InitConnection(welcome: Option<seq<byte>>, sendOk: bool) returns (rc: int, sent: Option<seq<byte>>)
      requires Valid()
      modifies this`processCb, this`connected
      ensures Valid()
      ensures sent.Some? <==> welcome.Some? && |welcome.value| >= 1 && welcome.value[0] == PLUS
      ensures sent.Some? ==> sent.value == WELCOME_REPLY
      ensures rc == 0 <==> sent.Some? && sendOk
      ensures rc != 0 ==> rc == -1
      ensures processCb == if rc == 0 then AwaitingParams1 else old(processCb)
      ensures connected == (welcome.Some? || old(connected))
    {
      rc, sent := -1, None;
      if welcome.None? {
        return;
      }
      connected := true;
      var m := welcome.value;
      if |m| < 1 || m[0] != PLUS {
        return;
      }
      sent := Some(WELCOME_REPLY);
      if !sendOk {
        return;
      }
      processCb := AwaitingParams1;
      rc := 0;
    }

    /** get_scan_param_by_id: walk the slots by index until one has the id
        or the index runs past the last slot. */
    method GetScanParamById(id: byte) returns (r: Option<nat>)
      requires Valid()
      ensures r == ParamIndex(params, id)
    {
      var i: nat := 0;
      r := ByIndex(i);
      i := i + 1;
      while r.Some? && params[r.value].id != id
        invariant 1 <= i <= MAX_PARAMS + 1
        invariant r == ByIndex(i - 1)
        invariant forall j :: 0 <= j < i - 1 ==> params[j].id != id
        decreases MAX_PARAMS + 1 - i
      {
        r := ByIndex(i);
        i := i + 1;
      }
    }

    /** read_scan_params over s, the bytes from the message's parameters up
        to and including the 0x0a at the end pointer. */
    method ReadScanParams(s: seq<byte>, whitelist: Option<seq<byte>>) returns (rc: int)
      requires Valid() && (s == [] || s[|s| - 1] == NL)
      modifies this`params
      ensures Valid()
      ensures ReadRecords(old(params), s, whitelist) == Parsed(rc == 0, params)
    {
      var pos := 0;
      while pos + 1 < |s|
        invariant pos <= |s| && Valid()
        invariant ReadRecords(old(params), s, whitelist) == ReadFrom(params, s, pos, whitelist)
        decreases |s| - pos
      {
        var id := s[pos];
        if s[pos + 1] != EQ {
          return -1;
        }
        var k := GetScanParamById(id);
        if k.None? {
          return -1;
        }
        var next, ps;
        rc, next, ps := ReadValue(params, s, pos, k.value, whitelist);
        params := ps;
        if rc != 0 {
          return;
        }
        pos := next;
      }
      rc := 0;
    }

    /** write_scan_params: the records of the non-empty, whitelisted
        parameters in slot order. */
    method WriteScanParams(whitelist: Option<seq<byte>>) returns (out: seq<byte>)
      requires Valid()
      ensures out == WriteFrom(params, 0, whitelist)
    {
      var ps := params;
      ghost var whole := WriteFrom(ps, 0, whitelist);
      out := [];
      var i := 0;
      while i < MAX_PARAMS
        invariant i <= MAX_PARAMS
        invariant out + WriteFrom(ps, i, whitelist) == whole
      {
        var value := CStr(ps[i].value);
        if |value| != 0 && Allowed(whitelist, ps[i].id) {
          AppendRecordStep(out, ps, i, whitelist);
          out := out + ([ps[i].id, EQ] + value + [NL]);
        } else {
          WriteSkip(ps, i, whitelist);
        }
        i := i + 1;
      }
    }

    // -------------------------------------------------------------------
    // The parameter exchanges.

    /** data_channel_send_scan_params: the R, M and D records are sent and
        the channel waits for the second exchange. */
    method SendScanParams(sendOk: bool) returns (rc: int, sent: Option<seq<byte>>)
      requires Valid()
      modifies this`processCb
      ensures Valid()
      ensures sent == Some(Message(INITIAL_ID, WriteFrom(params, 0, Some(RMD))))
      ensures rc == (if sendOk then 0 else -1)
      ensures processCb == if sendOk then AwaitingParams2 else old(processCb)
    {
      var records := WriteScanParams(Some(RMD));
      sent := Some([ESC, INITIAL_ID, NL] + records + [END_OF_MESSAGE]);
      if !sendOk {
        return -1, sent;
      }
      processCb := AwaitingParams2;
      rc := 0;
    }

    /** exchange_params1 on the message received, if any. */
    method ExchangeParams1(received: Option<seq<byte>>, sendOk: bool) returns (rc: int, sent: Option<seq<byte>>)
      requires Valid() && ParamIndex(params, R_ID).Some? && ParamIndex(params, F_ID).Some?
      modifies this`params, this`processCb
      ensures Valid()
      ensures received.None? ==> rc == -1 && sent.None? && params == old(params) && processCb == old(processCb)
      ensures received.Some? ==>
        var r := Exchange1(old(params), received.value);
        params == r.params && sent == r.sent
      ensures rc == 0 <==> sent.Some? && sendOk
      ensures rc != 0 ==> rc == -1
      ensures processCb == if rc == 0 then AwaitingParams2 else old(processCb)
    {
      if received.None? {
        return -1, None;
      }
      var m := received.value;
      if |m| == 1 && m[0] == NO_PARAMS {
        rc, sent := SendScanParams(sendOk);
        return;
      }
      if |m| < 5 || m[0] != PARAMS1_MARK || m[|m| - 2] != NL || m[|m| - 1] != END_OF_MESSAGE {
        return -1, None;
      }
      ghost var ps0 := params;
      var read := ReadScanParams(m[3..|m| - 1], None);
      ParamIndexSameIds(params, ps0, R_ID);
      ParamIndexSameIds(params, ps0, F_ID);
      rc, sent := CheckParams1(read == 0, sendOk);
    }

    /** The rest of exchange_params1 once read_scan_params has returned:
        the resolution fix-up, the scan-function check and the reply. */
    method CheckParams1(ok: bool, sendOk: bool) returns (rc: int, sent: Option<seq<byte>>)
      requires Valid() && ParamIndex(params, R_ID).Some? && ParamIndex(params, F_ID).Some?
      modifies this`params, this`processCb
      ensures Valid()
      ensures var r := Reply1Of(Parsed(ok, old(params)));
        params == r.params && sent == r.sent
      ensures rc == 0 <==> sent.Some? && sendOk
      ensures rc != 0 ==> rc == -1
      ensures processCb == if rc == 0 then AwaitingParams2 else old(processCb)
    {
      if !ok {
        return -1, None;
      }
      ghost var ps0 := params;
      var kr := GetScanParamById(R_ID);
      var doubled := Resolution(params[kr.value].value);
      if doubled.None? {
        return -1, None;
      }
      params := SetValue(params, kr.value, doubled.value);
      ParamIndexSameIds(params, ps0, F_ID);
      var kf := GetScanParamById(F_ID);
      var f := MatchScanFunc(CStr(params[kf.value].value));
      if f == MAX_FUNCS {
        return -1, None;
      }
      rc, sent := SendScanParams(sendOk);
    }

    /** exchange_params2 on the message received, if any. */
    method ExchangeParams2(received: Option<seq<byte>>, sendOk: bool, ticket: int) returns (rc: int, sent: Option<seq<byte>>)
      requires Valid() && ParamIndex(params, R_ID).Some? && ParamIndex(params, A_ID).Some?
      modifies this`params, this`processCb, this`xdpi, this`ydpi, this`width, this`height, this`pageId, this`scanId
      ensures Valid()
      ensures received.None? ==> rc == -1 && sent.None? && params == old(params)
      ensures received.Some? ==>
        var r := Exchange2(old(params), received.value);
        params == r.params && sent == r.sent &&
        Dims(xdpi, ydpi, width, height) == if r.dims.Some? then r.dims.value else Dims(old(xdpi), old(ydpi), old(width), old(height))
      ensures received.None? ==> xdpi == old(xdpi) && ydpi == old(ydpi) && width == old(width) && height == old(height)
      ensures rc == 0 <==> sent.Some? && sendOk
      ensures rc != 0 ==> rc == -1
      ensures rc == 0 ==> processCb == AwaitingPage && pageId == 0 && scanId == ticket
      ensures rc != 0 ==> processCb == old(processCb) && pageId == old(pageId) && scanId == old(scanId)
    {
      if received.None? {
        return -1, None;
      }
      var m := received.value;
      if |m| < 5 || m[0] != 0 || m[1] as int != |m| - 3 || m[2] != 0 {
        return -1, None;
      }
      var fields := ReadFields(CStr(m[3..]));
      rc, sent := SettleParams2(fields, sendOk, ticket);
    }

    /** The second half of exchange_params2, after the field loop. */
    method SettleParams2(fields: Option<Fields>, sendOk: bool, ticket: int) returns (rc: int, sent: Option<seq<byte>>)
      requires Valid() && ParamIndex(params, R_ID).Some? && ParamIndex(params, A_ID).Some?
      requires fields.Some? ==> |fields.value.values| == FIELDS
      modifies this`params, this`processCb, this`xdpi, this`ydpi, this`width, this`height, this`pageId, this`scanId
      ensures Valid()
      ensures var r := Reply2Of(old(params), fields);
        params == r.params && sent == r.sent &&
        Dims(xdpi, ydpi, width, height) == if r.dims.Some? then r.dims.value else Dims(old(xdpi), old(ydpi), old(width), old(height))
      ensures rc == 0 <==> sent.Some? && sendOk
      ensures rc != 0 ==> rc == -1
      ensures rc == 0 ==> processCb == AwaitingPage && pageId == 0 && scanId == ticket
      ensures rc != 0 ==> processCb == old(processCb) && pageId == old(pageId) && scanId == old(scanId)
    {
      if fields.None? {
        return -1, None;
      }
      var v := fields.value.values;
      StoreDims(v);
      if fields.value.rest != [] {
        return -1, None;
      }
      FixUpParams(v);
      rc, sent := SendFinalParams(sendOk, ticket);
    }

    /** The R and A fix-ups of exchange_params2. */
    method FixUpParams(v: seq<int>)
      requires Valid() && ParamIndex(params, R_ID).Some? && ParamIndex(params, A_ID).Some? && |v| == FIELDS
      modifies this`params
      ensures Valid() && params == Settle(old(params), v)
    {
      params := Settle(params, v);
    }

    /** exchange_params2 stores fields 0, 1, 4 and 6 as xdpi, ydpi, width
        and height. */
    method StoreDims(v: seq<int>)
      requires |v| == FIELDS
      modifies this`xdpi, this`ydpi, this`width, this`height
      ensures Dims(xdpi, ydpi, width, height) == DimsOf(v)
    {
      xdpi, ydpi, width, height := Int32(v[0]), Int32(v[1]), Int32(v[4]), Int32(v[6]);
    }

    /** The end of exchange_params2: the R, M, C, J, B, N, A, D, G and L
        records are sent, and on success a new scan starts at page 0 and
        the channel waits for its first page. */
    method SendFinalParams(sendOk: bool, ticket: int) returns (rc: int, sent: Option<seq<byte>>)
      requires Valid()
      modifies this`processCb, this`pageId, this`scanId
      ensures Valid()
      ensures sent == Some(Message(FINAL_ID, WriteFrom(params, 0, Some(RMCJBNADGL))))
      ensures rc == (if sendOk then 0 else -1)
      ensures sendOk ==> processCb == AwaitingPage && pageId == 0 && scanId == ticket
      ensures !sendOk ==> processCb == old(processCb) && pageId == old(pageId) && scanId == old(scanId)
    {
      var records := WriteScanParams(Some(RMCJBNADGL));
      sent := Some([ESC, FINAL_ID, NL] + records + [END_OF_MESSAGE]);
      if !sendOk {
        return -1, sent;
      }
      pageId := 0;
      scanId := ticket;
      processCb := AwaitingPage;
      rc := 0;
    }

    // -------------------------------------------------------------------
    // The page stream.

    /** brother_conn_read of n bytes that have arrived. */
    method Read(n: nat) returns (bytes: seq<byte>)
      requires n <= |pending|
      modifies this`pending
      ensures bytes == old(pending)[..n] && pending == old(pending)[n..]
    {
      bytes := pending[..n];
      pending := pending[n..];
    }

    /** process_scan_end_header. */
    method ScanEnd()
      modifies this`processCb, this`connected
      ensures processCb == Paused && !connected
    {
      connected := false;
      processCb := Paused;
    }

    /** receive_initial_data. */
    method ReceiveInitialData(tmpOk: bool) returns (rc: int)
      requires Valid()
      modifies this`processCb, this`connected, this`tempfile
      ensures Valid()
      ensures Outcome(rc, State()) == ReceiveInitial(old(State()), tmpOk)
    {
      if |pending| == 0 {
        if pageId != 0 {
          ScanEnd();
        }
        return -1;
      }
      if !tmpOk {
        return -1;
      }
      tempfile := Some([]);
      processCb := AwaitingHeader;
      rc := 0;
    }

    /** process_chunk_header, with the two size bytes arrived. */
    method ProcessChunkHeader(header: Header) returns (rc: int)
      requires Valid() && tempfile.Some? && |pending| >= CHUNK_SIZE_BYTES
      modifies this`pending, this`pageId, this`remainingChunkBytes, this`processCb
      ensures Valid()
      ensures Outcome(rc, State()) == ChunkHeader(old(State()), header)
    {
      var buf := Read(CHUNK_SIZE_BYTES);
      if header.pageId == pageId + 1 {
        pageId := header.pageId;
      } else if header.pageId != pageId {
        return -1;
      }
      FromLe2(buf);
      remainingChunkBytes := buf[0] as int + 256 * buf[1] as int;
      processCb := AwaitingPayload;
      rc := 0;
    }

    /** process_page_end_header: the temporary file's contents become the
        next scanN file. */
    method ProcessPageEndHeader(header: Header, saveOk: bool, hookOk: bool) returns (rc: int)
      requires Valid() && tempfile.Some?
      modifies this`scannedPages, this`saved, this`tempfile, this`processCb
      ensures Valid()
      ensures Outcome(rc, State()) == PageEnd(old(State()), header, saveOk, hookOk)
    {
      if header.pageId != pageId {
        return -1;
      }
      var number := scannedPages;
      scannedPages := (scannedPages + 1) % UINT_LIMIT;
      if !saveOk {
        return -1;
      }
      saved := saved + [Page(number, fileFormat, tempfile.value)];
      tempfile := None;
      processCb := AwaitingPage;
      rc := if hookOk then 0 else -1;
    }

    /** process_header: the scan-end byte, or a ten-byte header followed by
        a chunk or ending a page. */
    method ProcessHeader(saveOk: bool, hookOk: bool) returns (rc: int)
      requires Valid() && tempfile.Some?
      modifies this`pending, this`processCb, this`connected, this`fileFormat, this`pageId,
        this`remainingChunkBytes, this`scannedPages, this`tempfile, this`saved
      ensures Valid()
      ensures Outcome(rc, State()) == Pages.ProcessHeader(old(State()), saveOk, hookOk)
    {
      if |pending| < 1 {
        processCb := Paused;
        return -1;
      }
      if pending[0] == SCAN_END {
        var _ := Read(1);
        ScanEnd();
        return 1;
      }
      if |pending| < HEADER_SIZE {
        processCb := Paused;
        return -1;
      }
      var buf := Read(HEADER_SIZE);
      var header := Header(buf[0], buf[1] as int + 256 * buf[2] as int, buf[3] as int + 256 * buf[4] as int,
                           buf[5], buf[6] as int + 256 * buf[7] as int, buf[8] as int + 256 * buf[9] as int);
      assert header == DecodeHeader(buf);
      if header.magic != HEADER_MAGIC {
        return -1;
      }
      if header.id == RAW_CHUNK {
        fileFormat := Raw;
      } else if header.id == RLE_CHUNK {
        fileFormat := Rle;
      } else if header.id == JPEG_CHUNK {
        fileFormat := Jpeg;
      }
      if header.id == RAW_CHUNK || header.id == RLE_CHUNK || header.id == JPEG_CHUNK {
        if |pending| < CHUNK_SIZE_BYTES {
          processCb := Paused;
          return -1;
        }
        rc := ProcessChunkHeader(header);
      } else if header.id == PAGE_END {
        rc := ProcessPageEndHeader(header, saveOk, hookOk);
        if rc == 0 {
          rc := 1;
        }
      } else {
        rc := -1;
      }
    }

    /** process_page_payload: what has arrived of the chunk, up to its
        end, goes to the temporary file. */
    method ProcessPagePayload(writeOk: bool) returns (rc: int)
      requires Valid() && tempfile.Some?
      modifies this`pending, this`tempfile, this`remainingChunkBytes, this`processCb
      ensures Valid()
      ensures Outcome(rc, State()) == ProcessPayload(old(State()), writeOk)
    {
      if |pending| < 1 {
        processCb := Paused;
        return -1;
      }
      var n := Min(remainingChunkBytes, |pending|);
      var buf := Read(n);
      if !writeOk {
        return -1;
      }
      tempfile := Some(tempfile.value + buf);
      remainingChunkBytes := remainingChunkBytes - n;
      if remainingChunkBytes == 0 {
        processCb := AwaitingHeader;
      }
      rc := 0;
    }

    /** Valid, with the R, F and A slots the exchanges look up present. */
    ghost predicate Ready()
      reads this
    {
      Valid() && ParamIndex(params, R_ID).Some? && ParamIndex(params, F_ID).Some? && ParamIndex(params, A_ID).Some?
    }

    /** data_channel_loop: one call of the current callback with the
        inputs e; a negative return code closes the temporary file and
        pauses the channel. data_channel_init's connection handle is taken
        to open. */
    method Loop(e: Effects) returns (rc: int, sent: Option<seq<byte>>)
      requires Ready()
      modifies this
      ensures Ready()
      ensures rc < 0 ==> processCb == Paused && tempfile.None?
      ensures old(processCb) == Paused ==> rc == 0 && sent.None? && State() == old(State())
      ensures InScan(old(processCb)) ==>
        State() == PageStep(old(State()), e.tmpOk, e.saveOk, e.hookOk, e.writeOk) && params == old(params) && sent.None?
      ensures old(processCb) == Connecting ==>
        sent == (if e.welcome.Some? && |e.welcome.value| >= 1 && e.welcome.value[0] == PLUS then Some(WELCOME_REPLY) else None)
      ensures old(processCb) == AwaitingParams1 ==>
        if e.received.Some? then Reply1(params, sent) == Exchange1(old(params), e.received.value)
        else params == old(params) && sent.None?
      ensures old(processCb) == AwaitingParams2 ==>
        if e.received.Some? then params == Exchange2(old(params), e.received.value).params && sent == Exchange2(old(params), e.received.value).sent
        else params == old(params) && sent.None?
      ensures rc >= 0 && sent.Some? ==> e.sendOk
    {
      if InScan(processCb) {
        rc := ScanStep(e);
        sent := None;
      } else if processCb == AwaitingParams1 {
        rc, sent := ExchangeStep1(e);
      } else if processCb == AwaitingParams2 {
        rc, sent := ExchangeStep2(e);
      } else {
        rc, sent := SetupStep(e);
      }
    }

    /** The loop on data_channel_init, data_channel_set_paused and
        data_channel_init_connection. */
    method SetupStep(e: Effects) returns (rc: int, sent: Option<seq<byte>>)
      requires Ready() && (processCb == Initialising || processCb == Paused || processCb == Connecting)
      modifies this`processCb, this`connected, this`fileFormat, this`tempfile
      ensures Ready()
      ensures rc < 0 ==> processCb == Paused && tempfile.None?
      ensures old(processCb) == Paused ==> rc == 0 && sent.None? && State() == old(State())
      ensures old(processCb) == Connecting ==>
        sent == (if e.welcome.Some? && |e.welcome.value| >= 1 && e.welcome.value[0] == PLUS then Some(WELCOME_REPLY) else None)
      ensures rc >= 0 && sent.Some? ==> e.sendOk
    {
      sent := None;
      if processCb == Initialising {
        Init();
        rc := 0;
      } else if processCb == Paused {
        rc := 0;
      } else {
        rc, sent := InitConnection(e.welcome, e.sendOk);
        if rc < 0 {
          tempfile := None;
          processCb := Paused;
        }
      }
    }

    /** The loop on a callback of a scan under way. */
    method ScanStep(e: Effects) returns (rc: int)
      requires Valid() && InScan(processCb)
      modifies this`pending, this`processCb, this`connected, this`fileFormat, this`pageId,
        this`remainingChunkBytes, this`scannedPages, this`tempfile, this`saved
      ensures Valid()
      ensures State() == PageStep(old(State()), e.tmpOk, e.saveOk, e.hookOk, e.writeOk)
      ensures rc < 0 ==> processCb == Paused && tempfile.None?
    {
      ghost var s0 := State();
      ghost var o: Outcome;
      if processCb == AwaitingPage {
        rc := ReceiveInitialData(e.tmpOk);
        o := ReceiveInitial(s0, e.tmpOk);
      } else if processCb == AwaitingHeader {
        rc := ProcessHeader(e.saveOk, e.hookOk);
        o := Pages.ProcessHeader(s0, e.saveOk, e.hookOk);
      } else {
        rc := ProcessPagePayload(e.writeOk);
        o := ProcessPayload(s0, e.writeOk);
      }
      assert PageStep(s0, e.tmpOk, e.saveOk, e.hookOk, e.writeOk) == AfterCallback(o);
      assert Outcome(rc, State()) == o;
      if rc < 0 {
        tempfile := None;
        processCb := Paused;
      }
    }

    /** The loop on exchange_params1, which keeps R, F and A in place. */
    method ExchangeStep1(e: Effects) returns (rc: int, sent: Option<seq<byte>>)
      requires Ready()
      modifies this`params, this`processCb, this`tempfile
      ensures Ready()
      ensures if e.received.Some? then Reply1(params, sent) == Exchange1(old(params), e.received.value)
        else params == old(params) && sent.None?
      ensures rc < 0 ==> processCb == Paused && tempfile.None?
      ensures rc >= 0 ==> rc == 0 && sent.Some? && e.sendOk
    {
      ghost var ps0 := params;
      rc, sent := ExchangeParams1(e.received, e.sendOk);
      ParamIndexSameIds(params, ps0, R_ID);
      ParamIndexSameIds(params, ps0, F_ID);
      ParamIndexSameIds(params, ps0, A_ID);
      if rc < 0 {
        tempfile := None;
        processCb := Paused;
      }
    }

    /** The loop on exchange_params2, which keeps R, F and A in place. */
    method ExchangeStep2(e: Effects) returns (rc: int, sent: Option<seq<byte>>)
      requires Ready()
      modifies this`params, this`processCb, this`tempfile, this`xdpi, this`ydpi, this`width, this`height,
        this`pageId, this`scanId
      ensures Ready()
      ensures if e.received.Some? then params == Exchange2(old(params), e.received.value).params && sent == Exchange2(old(params), e.received.value).sent
        else params == old(params) && sent.None?
      ensures rc < 0 ==> processCb == Paused && tempfile.None?
      ensures rc >= 0 ==> rc == 0 && sent.Some? && e.sendOk
    {
      ghost var ps0 := params;
      rc, sent := ExchangeParams2(e.received, e.sendOk, e.ticket);
      ParamIndexSameIds(params, ps0, R_ID);
      ParamIndexSameIds(params, ps0, F_ID);
      ParamIndexSameIds(params, ps0, A_ID);
      if rc < 0 {
        tempfile := None;
        processCb := Paused;
      }
    }
  }
}
