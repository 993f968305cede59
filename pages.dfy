// The page stream of a scan on the data channel (receive_initial_data,
// process_header, process_chunk_header, process_page_payload,
// process_page_end_header and process_scan_end_header in data_channel.c):
// each callback as a function from the channel's state before it runs to
// its return code and the state after it.

module Pages {

  import opened Bytes

  const HEADER_SIZE: nat := 10
  const SCAN_END: byte := 0x80      // a lone 0x80 instead of a header
  const HEADER_MAGIC: nat := 0x07
  const RAW_CHUNK: byte := 0x40
  const RLE_CHUNK: byte := 0x42
  const JPEG_CHUNK: byte := 0x64
  const PAGE_END: byte := 0x82
  const CHUNK_SIZE_BYTES: nat := 2
  const UINT_LIMIT: nat := 0x1_0000_0000

  /** The function data_channel->process_cb points at. */
  datatype Callback =
    | Initialising        // data_channel_init
    | Paused              // data_channel_set_paused
    | Connecting          // data_channel_init_connection
    | AwaitingParams1     // exchange_params1
    | AwaitingParams2     // exchange_params2
    | AwaitingPage        // receive_initial_data
    | AwaitingHeader      // process_header
    | AwaitingPayload     // process_page_payload

  /** data_channel->file_format: "unk", "raw", "rle" or "jpeg". */
  datatype Format = Unknown | Raw | Rle | Jpeg

  // ---------------------------------------------------------------------
  // The ten-byte header.

  /** struct data_packet_header: two one-byte and four 16-bit fields. */
  datatype Header = Header(id: byte, magic: nat, pageId: nat, unk2: byte, progress: nat, unk3: nat)

  predicate HeaderFits(h: Header)
  {
    h.magic < 0x1_0000 && h.pageId < 0x1_0000 && h.progress < 0x1_0000 && h.unk3 < 0x1_0000
  }

  /** process_header's reading of the ten bytes: id, magic, page id, unk2,
      progress and unk3, the 16-bit ones little-endian. */
  function DecodeHeader(b: seq<byte>): (h: Header)
    requires |b| == HEADER_SIZE
    ensures HeaderFits(h) && h.id == b[0] && h.unk2 == b[5]
    ensures h.magic == b[1] as int + 256 * b[2] as int && h.pageId == b[3] as int + 256 * b[4] as int
    ensures h.progress == b[6] as int + 256 * b[7] as int && h.unk3 == b[8] as int + 256 * b[9] as int
  {
    FromLe2(b[1..3]);
    FromLe2(b[3..5]);
    FromLe2(b[6..8]);
    FromLe2(b[8..10]);
    Header(b[0], FromLe(b[1..3]), FromLe(b[3..5]), b[5], FromLe(b[6..8]), FromLe(b[8..10]))
  }

  lemma FromLe2(s: seq<byte>)
    requires |s| == 2
    ensures FromLe(s) == s[0] as int + 256 * s[1] as int
  {
    assert s[1..][1..] == [];
  }

  /** The ten bytes of a header as the scanner sends them. */
  function EncodeHeader(h: Header): (b: seq<byte>)
    requires HeaderFits(h)
    ensures |b| == HEADER_SIZE && b[0] == h.id && b[5] == h.unk2
  {
    [h.id] + Le(h.magic, 2) + Le(h.pageId, 2) + [h.unk2] + Le(h.progress, 2) + Le(h.unk3, 2)
  }

  lemma HeaderRoundTrip(h: Header)
    requires HeaderFits(h)
    ensures DecodeHeader(EncodeHeader(h)) == h
  {
    var b := EncodeHeader(h);
    assert b[1..3] == Le(h.magic, 2) && b[3..5] == Le(h.pageId, 2);
    assert b[6..8] == Le(h.progress, 2) && b[8..10] == Le(h.unk3, 2);
    LeRoundTrip(h.magic, 2);
    LeRoundTrip(h.pageId, 2);
    LeRoundTrip(h.progress, 2);
    LeRoundTrip(h.unk3, 2);
  }

  lemma HeaderBytesRoundTrip(b: seq<byte>)
    requires |b| == HEADER_SIZE
    ensures EncodeHeader(DecodeHeader(b)) == b
  {
    FromLeRoundTrip(b[1..3]);
    FromLeRoundTrip(b[3..5]);
    FromLeRoundTrip(b[6..8]);
    FromLeRoundTrip(b[8..10]);
    assert b == [b[0]] + b[1..3] + b[3..5] + [b[5]] + b[6..8] + b[8..10];
  }

  /** The format a chunk header selects; other ids leave it as it was. */
  function ChunkFormat(id: byte): (f: Option<Format>)
    ensures f.Some? <==> id == RAW_CHUNK || id == RLE_CHUNK || id == JPEG_CHUNK
    ensures f == Some(Raw) <==> id == RAW_CHUNK
    ensures f == Some(Rle) <==> id == RLE_CHUNK
    ensures f == Some(Jpeg) <==> id == JPEG_CHUNK
  {
    if id == RAW_CHUNK then Some(Raw)
    else if id == RLE_CHUNK then Some(Rle)
    else if id == JPEG_CHUNK then Some(Jpeg)
    else None
  }

  // ---------------------------------------------------------------------
  // The channel's state as the page stream sees it.

  /** A page process_page_end_header copied out as scan<number>.<format>. */
  datatype Page = Page(number: nat, format: Format, data: seq<byte>)

  /** The fields of struct data_channel the page callbacks touch. pending
      holds the bytes that arrived on the connection and were not read
      yet; temp is the temporary file (None: no file open) with what was
      written to it; saved lists the files written so far. */
  datatype Stream = Stream(
    cb: Callback,
    pending: seq<byte>,
    pageId: int,
    remaining: int,
    format: Format,
    scanned: nat,
    temp: Option<seq<byte>>,
    saved: seq<Page>,
    connected: bool)

  /** A callback's return code and the state it leaves. */
  datatype Outcome = Outcome(rc: int, s: Stream)

  /** What holds between callbacks: the counters stay in their C ranges
      and a temporary file is open while a page is being received. */
  predicate StreamValid(s: Stream)
  {
    0 <= s.remaining < 0x1_0000 && s.scanned < UINT_LIMIT &&
    ((s.cb == AwaitingHeader || s.cb == AwaitingPayload) ==> s.temp.Some?)
  }

  /** process_scan_end_header: disconnect and pause; the hook's result is
      ignored. */
  function ScanEnd(s: Stream): (s': Stream)
    ensures s' == s.(cb := Paused, connected := false)
  {
    s.(cb := Paused, connected := false)
  }

  /** receive_initial_data. With nothing pending the poll for the page
      times out: a later page means the scan is over. tmpOk says whether
      tmpfile() succeeds. */
  function ReceiveInitial(s: Stream, tmpOk: bool): (o: Outcome)
    ensures o.rc == 0 || o.rc == -1
    ensures o.rc == 0 <==> |s.pending| > 0 && tmpOk
    ensures o.s.pending == s.pending && o.s.saved == s.saved && o.s.scanned == s.scanned
    ensures o.rc == 0 ==> o.s.cb == AwaitingHeader && o.s.temp == Some([])
    ensures |s.pending| == 0 && s.pageId != 0 ==> o.s.cb == Paused && !o.s.connected
    ensures |s.pending| == 0 && s.pageId == 0 ==> o.s == s
  {
    if |s.pending| == 0 then Outcome(-1, if s.pageId != 0 then ScanEnd(s) else s)
    else if !tmpOk then Outcome(-1, s)
    else Outcome(0, s.(temp := Some([]), cb := AwaitingHeader))
  }

  /** process_chunk_header, after the two size bytes have arrived: they
      are read, the page id must be the current one or the next, and the
      chunk's size is little-endian. */
  function ChunkHeader(s: Stream, h: Header): (o: Outcome)
    requires |s.pending| >= CHUNK_SIZE_BYTES
    ensures o.s.pending == s.pending[CHUNK_SIZE_BYTES..] && o.s.saved == s.saved && o.s.temp == s.temp
    ensures o.rc == 0 <==> h.pageId == s.pageId || h.pageId == s.pageId + 1
    ensures o.rc != 0 ==> o.rc == -1 && o.s.pageId == s.pageId
    ensures o.rc == 0 ==>
      o.s.pageId == h.pageId && o.s.cb == AwaitingPayload &&
      o.s.remaining == s.pending[0] as int + 256 * s.pending[1] as int && 0 <= o.s.remaining < 0x1_0000
  {
    FromLe2(s.pending[..CHUNK_SIZE_BYTES]);
    var s' := s.(pending := s.pending[CHUNK_SIZE_BYTES..]);
    if h.pageId == s.pageId + 1 || h.pageId == s.pageId then
      Outcome(0, s'.(pageId := h.pageId, remaining := FromLe(s.pending[..CHUNK_SIZE_BYTES]), cb := AwaitingPayload))
    else Outcome(-1, s')
  }

  /** process_page_end_header. saveOk says whether the page's file can be
      created, hookOk whether invoke_callback succeeds. */
  function PageEnd(s: Stream, h: Header, saveOk: bool, hookOk: bool): (o: Outcome)
    requires s.temp.Some?
    ensures o.rc == 0 || o.rc == -1
    ensures o.rc == 0 <==> h.pageId == s.pageId && saveOk && hookOk
    ensures o.s.pending == s.pending && o.s.pageId == s.pageId
    ensures h.pageId != s.pageId ==> o.s == s
    ensures h.pageId == s.pageId ==> o.s.scanned == (s.scanned + 1) % UINT_LIMIT
    ensures h.pageId == s.pageId && saveOk ==>
      o.s.saved == s.saved + [Page(s.scanned, s.format, s.temp.value)] && o.s.temp.None? && o.s.cb == AwaitingPage
    ensures !(h.pageId == s.pageId && saveOk) ==> o.s.saved == s.saved && o.s.temp == s.temp
  {
    if h.pageId != s.pageId then Outcome(-1, s)
    else
      var s' := s.(scanned := (s.scanned + 1) % UINT_LIMIT);
      if !saveOk then Outcome(-1, s')
      else
        Outcome(if hookOk then 0 else -1,
                s'.(saved := s.saved + [Page(s.scanned, s.format, s.temp.value)], temp := None, cb := AwaitingPage))
  }

  /** process_header. */
  function ProcessHeader(s: Stream, saveOk: bool, hookOk: bool): (o: Outcome)
    requires s.temp.Some?
    ensures o.rc == -1 || o.rc == 0 || o.rc == 1
    ensures |o.s.pending| <= |s.pending| && o.s.pending == s.pending[|s.pending| - |o.s.pending|..]
    ensures |s.saved| <= |o.s.saved| <= |s.saved| + 1 && o.s.saved[..|s.saved|] == s.saved
  {
    if |s.pending| == 0 then Outcome(-1, s.(cb := Paused))
    else if s.pending[0] == SCAN_END then Outcome(1, ScanEnd(s.(pending := s.pending[1..])))
    else if |s.pending| < HEADER_SIZE then Outcome(-1, s.(cb := Paused))
    else
      var h := DecodeHeader(s.pending[..HEADER_SIZE]);
      var s1 := s.(pending := s.pending[HEADER_SIZE..]);
      if h.magic != HEADER_MAGIC then Outcome(-1, s1)
      else match ChunkFormat(h.id)
        case Some(f) =>
          var s2 := s1.(format := f);
          if |s2.pending| < CHUNK_SIZE_BYTES then Outcome(-1, s2.(cb := Paused))
          else ChunkHeader(s2, h)
        case None =>
          if h.id == PAGE_END then
            var o := PageEnd(s1, h, saveOk, hookOk);
            Outcome(if o.rc == 0 then 1 else o.rc, o.s)
          else Outcome(-1, s1)
  }

  /** process_page_payload: at least one byte must have arrived; then as
      much of the chunk as has arrived is read and goes to the temporary
      file. writeOk says whether fwrite writes it all; when it does not,
      the bytes read are lost and -1 is returned. */
  function ProcessPayload(s: Stream, writeOk: bool): (o: Outcome)
    requires s.temp.Some? && s.remaining >= 0
    ensures o.rc == 0 <==> |s.pending| > 0 && writeOk
    ensures o.rc != 0 ==> o.rc == -1 && o.s.temp == s.temp && o.s.remaining == s.remaining
    ensures |s.pending| > 0 ==> |o.s.pending| == |s.pending| - Min(s.remaining, |s.pending|)
    ensures o.rc == 0 ==>
      o.s.temp.Some? && o.s.temp.value + o.s.pending == s.temp.value + s.pending &&
      |o.s.temp.value| - |s.temp.value| == s.remaining - o.s.remaining
  {
    if |s.pending| == 0 then Outcome(-1, s.(cb := Paused))
    else
      var n := Min(s.remaining, |s.pending|);
      if !writeOk then Outcome(-1, s.(pending := s.pending[n..]))
      else
        assert s.pending[..n] + s.pending[n..] == s.pending;
        var s' := s.(pending := s.pending[n..], temp := Some(s.temp.value + s.pending[..n]), remaining := s.remaining - n);
        Outcome(0, if s'.remaining == 0 then s'.(cb := AwaitingHeader) else s')
  }

  /** data_channel_loop after a callback: a negative return code closes
      the temporary file and pauses the channel. */
  function AfterCallback(o: Outcome): (s: Stream)
    ensures o.rc < 0 ==> s.cb == Paused && s.temp.None?
    ensures o.rc >= 0 ==> s == o.s
    ensures s.pending == o.s.pending && s.saved == o.s.saved && s.scanned == o.s.scanned
  {
    if o.rc < 0 then o.s.(temp := None, cb := Paused) else o.s
  }

  // ---------------------------------------------------------------------
  // Properties.

  /** What process_header consumes: the scan-end byte, or a whole header
      and, for an accepted chunk header, its two size bytes; a header
      that has not fully arrived consumes nothing. */
  lemma HeaderConsumes(s: Stream, saveOk: bool, hookOk: bool)
    requires s.temp.Some?
    ensures var o := ProcessHeader(s, saveOk, hookOk);
      (|s.pending| == 0 || (s.pending[0] != SCAN_END && |s.pending| < HEADER_SIZE)) ==>
        o == Outcome(-1, s.(cb := Paused))
    ensures var o := ProcessHeader(s, saveOk, hookOk);
      |s.pending| > 0 && s.pending[0] == SCAN_END ==>
        o.rc == 1 && o.s == s.(pending := s.pending[1..], cb := Paused, connected := false)
    ensures var o := ProcessHeader(s, saveOk, hookOk);
      o.rc == 0 ==>
        |s.pending| >= HEADER_SIZE + CHUNK_SIZE_BYTES && o.s.pending == s.pending[HEADER_SIZE + CHUNK_SIZE_BYTES..]
  {
    var o := ProcessHeader(s, saveOk, hookOk);
    if o.rc == 0 {
      assert s.pending[HEADER_SIZE..][CHUNK_SIZE_BYTES..] == s.pending[HEADER_SIZE + CHUNK_SIZE_BYTES..];
    }
  }

  /** Which headers process_header accepts: it returns 0 exactly for a
      chunk header with magic 7, a raw, rle or jpeg id, its size bytes
      arrived and the current or the next page id, and then waits for the
      payload with that id and size and the id's format. */
  lemma ChunkAccepted(s: Stream, saveOk: bool, hookOk: bool)
    requires s.temp.Some?
    ensures var o := ProcessHeader(s, saveOk, hookOk);
      o.rc == 0 <==>
        |s.pending| >= HEADER_SIZE + CHUNK_SIZE_BYTES && s.pending[0] != SCAN_END &&
        var h := DecodeHeader(s.pending[..HEADER_SIZE]);
        h.magic == HEADER_MAGIC && ChunkFormat(h.id).Some? &&
        (h.pageId == s.pageId || h.pageId == s.pageId + 1)
    ensures var o := ProcessHeader(s, saveOk, hookOk);
      o.rc == 0 ==>
        var h := DecodeHeader(s.pending[..HEADER_SIZE]);
        o.s.cb == AwaitingPayload && o.s.pageId == h.pageId && Some(o.s.format) == ChunkFormat(h.id) &&
        o.s.remaining == FromLe(s.pending[HEADER_SIZE..HEADER_SIZE + CHUNK_SIZE_BYTES]) &&
        o.s.temp == s.temp && o.s.saved == s.saved && o.s.scanned == s.scanned
  {
    var o := ProcessHeader(s, saveOk, hookOk);
    if |s.pending| >= HEADER_SIZE + CHUNK_SIZE_BYTES {
      assert s.pending[HEADER_SIZE..][..CHUNK_SIZE_BYTES] == s.pending[HEADER_SIZE..HEADER_SIZE + CHUNK_SIZE_BYTES];
    }
  }

  /** Headers with the wrong magic number or an unknown id fail. */
  lemma HeaderRejected(s: Stream, saveOk: bool, hookOk: bool)
    requires s.temp.Some? && |s.pending| >= HEADER_SIZE && s.pending[0] != SCAN_END
    requires var h := DecodeHeader(s.pending[..HEADER_SIZE]);
      h.magic != HEADER_MAGIC || (ChunkFormat(h.id).None? && h.id != PAGE_END)
    ensures ProcessHeader(s, saveOk, hookOk) == Outcome(-1, s.(pending := s.pending[HEADER_SIZE..]))
  {
  }

  /** The page-id rule of process_chunk_header: the current id or the
      next one, which becomes current. */
  lemma ChunkPageRule(s: Stream, h: Header)
    requires |s.pending| >= CHUNK_SIZE_BYTES
    ensures ChunkHeader(s, h).rc == 0 <==> h.pageId == s.pageId || h.pageId == s.pageId + 1
    ensures ChunkHeader(s, h).rc == 0 ==> ChunkHeader(s, h).s.pageId == h.pageId
    ensures ChunkHeader(s, h).rc != 0 ==> ChunkHeader(s, h).s.pageId == s.pageId
    ensures ChunkHeader(s, h).s.pending == s.pending[CHUNK_SIZE_BYTES..]
  {
  }

  /** process_page_end_header: the page id must be the current one; then
      the page number is used up even when its file cannot be created,
      and on success the temporary file's contents become the next saved
      page under the old number and the channel waits for the next page. */
  lemma PageEndRule(s: Stream, h: Header, saveOk: bool, hookOk: bool)
    requires s.temp.Some? && s.scanned < UINT_LIMIT
    ensures var o := PageEnd(s, h, saveOk, hookOk);
      h.pageId != s.pageId ==> o == Outcome(-1, s)
    ensures var o := PageEnd(s, h, saveOk, hookOk);
      h.pageId == s.pageId ==> o.s.scanned == (s.scanned + 1) % UINT_LIMIT
    ensures var o := PageEnd(s, h, saveOk, hookOk);
      o.s.saved != s.saved <==> h.pageId == s.pageId && saveOk
    ensures var o := PageEnd(s, h, saveOk, hookOk);
      o.s.saved != s.saved ==>
        o.s.saved == s.saved + [Page(s.scanned, s.format, s.temp.value)] &&
        o.s.temp.None? && o.s.cb == AwaitingPage && (o.rc == 0 <==> hookOk)
  {
  }

  /** process_page_payload moves the first min(remaining, arrived) bytes
      to the temporary file in order, losing none, and goes back to
      waiting for a header exactly when the chunk is complete. */
  lemma PayloadStep(s: Stream)
    requires s.temp.Some? && s.cb == AwaitingPayload && s.remaining >= 0 && |s.pending| > 0
    ensures var o := ProcessPayload(s, true);
      var n := Min(s.remaining, |s.pending|);
      o.rc == 0 && o.s.temp.Some? &&
      o.s.temp.value + o.s.pending == s.temp.value + s.pending &&
      |o.s.temp.value| == |s.temp.value| + n && o.s.remaining == s.remaining - n
    ensures var o := ProcessPayload(s, true);
      o.s.cb == AwaitingHeader <==> s.remaining <= |s.pending|
    ensures var o := ProcessPayload(s, true);
      s.remaining > |s.pending| ==> o.s.pending == [] && o.s.cb == s.cb
  {
    var n := Min(s.remaining, |s.pending|);
    var o := ProcessPayload(s, true);
    assert s.pending[..n] + s.pending[n..] == s.pending;
    assert o.s.temp.value + o.s.pending == s.temp.value + (s.pending[..n] + s.pending[n..]);
  }

  /** A payload step with the whole rest of the chunk arrived (even an
      empty chunk needs one byte to have arrived). */
  lemma PayloadCompletes(s: Stream)
    requires s.temp.Some? && s.cb == AwaitingPayload && 0 <= s.remaining <= |s.pending| && |s.pending| > 0
    ensures ProcessPayload(s, true) == Outcome(0, s.(pending := s.pending[s.remaining..], temp := Some(s.temp.value + s.pending[..s.remaining]), remaining := 0, cb := AwaitingHeader))
  {
    assert Min(s.remaining, |s.pending|) == s.remaining;
  }

  /** A payload step with only part of the chunk arrived. */
  lemma PayloadPart(s: Stream)
    requires s.temp.Some? && 0 < |s.pending| < s.remaining
    ensures ProcessPayload(s, true) == Outcome(0, s.(pending := [], temp := Some(s.temp.value + s.pending), remaining := s.remaining - |s.pending|))
  {
    assert s.pending[..|s.pending|] == s.pending && s.pending[|s.pending|..] == [];
  }

  /** Split delivery: a chunk that arrives as a part p and then a rest q
      ends up in the temporary file as p + q, just as if it had arrived at
      once. */
  lemma PayloadInTwo(s: Stream, p: seq<byte>, q: seq<byte>)
    requires s.temp.Some? && s.cb == AwaitingPayload && s.pending == p
    requires 0 < |p| < s.remaining && |p| + |q| >= s.remaining
    ensures var o1 := ProcessPayload(s, true);
      var o2 := ProcessPayload(o1.s.(pending := o1.s.pending + q), true);
      o1.rc == 0 && o2.rc == 0 && o2.s.cb == AwaitingHeader && o2.s.remaining == 0 &&
      o2.s.temp == Some(s.temp.value + (p + q)[..s.remaining]) &&
      o2.s.pending == (p + q)[s.remaining..]
  {
    PayloadPart(s);
    var o1 := ProcessPayload(s, true);
    var r := s.remaining - |p|;
    var t := o1.s.(pending := o1.s.pending + q);
    assert [] + q == q;
    PayloadCompletes(t);
    SplitAt(s.temp.value, p, q, r);
  }

  lemma SplitAt(a: seq<byte>, p: seq<byte>, q: seq<byte>, r: nat)
    requires r <= |q|
    ensures (a + p) + q[..r] == a + (p + q)[..|p| + r]
    ensures q[r..] == (p + q)[|p| + r..]
  {
    assert (p + q)[..|p| + r] == p + q[..r];
  }

  /** Every callback of the page stream keeps the counters in range and a
      temporary file open while a page is in progress. */
  lemma ReceiveKeepsValid(s: Stream, tmpOk: bool)
    requires StreamValid(s)
    ensures StreamValid(AfterCallback(ReceiveInitial(s, tmpOk)))
  {
  }

  lemma HeaderKeepsValid(s: Stream, saveOk: bool, hookOk: bool)
    requires StreamValid(s) && s.temp.Some?
    ensures StreamValid(AfterCallback(ProcessHeader(s, saveOk, hookOk)))
  {
    if |s.pending| >= HEADER_SIZE && s.pending[0] != SCAN_END {
      var h := DecodeHeader(s.pending[..HEADER_SIZE]);
      var s1 := s.(pending := s.pending[HEADER_SIZE..]);
      if h.magic == HEADER_MAGIC && ChunkFormat(h.id).Some? && |s1.pending| >= CHUNK_SIZE_BYTES {
        ChunkKeepsValid(s1.(format := ChunkFormat(h.id).value), h);
      } else if h.magic == HEADER_MAGIC && h.id == PAGE_END {
        PageEndKeepsValid(s1, h, saveOk, hookOk);
      }
    }
  }

  lemma ChunkKeepsValid(s: Stream, h: Header)
    requires StreamValid(s) && s.temp.Some? && |s.pending| >= CHUNK_SIZE_BYTES
    ensures StreamValid(AfterCallback(ChunkHeader(s, h)))
  {
    assert |s.pending[..CHUNK_SIZE_BYTES]| == 2;
  }

  lemma PageEndKeepsValid(s: Stream, h: Header, saveOk: bool, hookOk: bool)
    requires StreamValid(s) && s.temp.Some?
    ensures StreamValid(AfterCallback(PageEnd(s, h, saveOk, hookOk)))
    ensures var o := PageEnd(s, h, saveOk, hookOk);
      StreamValid(AfterCallback(Outcome(if o.rc == 0 then 1 else o.rc, o.s)))
  {
  }

  lemma PayloadKeepsValid(s: Stream, writeOk: bool)
    requires StreamValid(s) && s.temp.Some?
    ensures StreamValid(AfterCallback(ProcessPayload(s, writeOk)))
  {
  }

  /** The callbacks of a scan under way: waiting for a page, a header or
      chunk data. */
  predicate InScan(cb: Callback)
  {
    cb == AwaitingPage || cb == AwaitingHeader || cb == AwaitingPayload
  }

  /** One call of process_cb while a scan is under way, followed by what
      data_channel_loop does with its return code: the counters stay in
      range, a page in progress keeps its temporary file, and the channel
      either stays in the scan or pauses. */
  function PageStep(s: Stream, tmpOk: bool, saveOk: bool, hookOk: bool, writeOk: bool): (s': Stream)
    requires StreamValid(s) && InScan(s.cb)
    ensures StreamValid(s')
    ensures InScan(s'.cb) || s'.cb == Paused
  {
    if s.cb == AwaitingPage then
      ReceiveKeepsValid(s, tmpOk);
      AfterCallback(ReceiveInitial(s, tmpOk))
    else if s.cb == AwaitingHeader then
      HeaderKeepsValid(s, saveOk, hookOk);
      AfterCallback(ProcessHeader(s, saveOk, hookOk))
    else
      PayloadKeepsValid(s, writeOk);
      AfterCallback(ProcessPayload(s, writeOk))
  }

  // ---------------------------------------------------------------------
  // The chunked-receive example: an rle chunk header for page 1 with a
  // six-byte payload.

  const EXAMPLE_HEADER: seq<byte> := [0x42, 0x07, 0x00, 0x01, 0x00, 0x84, 0x00, 0x00, 0x00, 0x00]
  const EXAMPLE_SIZE: seq<byte> := [0x06, 0x00]
  const EXAMPLE_PAYLOAD: seq<byte> := [0x81, 0x00, 0x81, 0x00, 0xcb, 0x00]

  lemma ExampleHeader()
    ensures DecodeHeader(EXAMPLE_HEADER) == Header(RLE_CHUNK, 7, 1, 0x84, 0, 0)
    ensures FromLe(EXAMPLE_SIZE) == 6
  {
    assert EXAMPLE_HEADER[1..3] == [7, 0] && EXAMPLE_HEADER[3..5] == [1, 0];
    assert EXAMPLE_HEADER[6..8] == [0, 0] && EXAMPLE_HEADER[8..10] == [0, 0];
  }

  /** On the first page the header is accepted with page id 1 and a
      six-byte chunk, and the payload step then writes the six bytes and
      waits for the next header. */
  lemma ExampleChunk(s: Stream)
    requires s.temp == Some([]) && s.pageId == 0
    requires s.pending == EXAMPLE_HEADER + EXAMPLE_SIZE + EXAMPLE_PAYLOAD
    ensures var o1 := ProcessHeader(s, true, true);
      o1.rc == 0 && o1.s.pageId == 1 && o1.s.remaining == 6 && o1.s.format == Rle &&
      var o2 := ProcessPayload(o1.s, true);
      o2.rc == 0 && o2.s.remaining == 0 && o2.s.cb == AwaitingHeader &&
      o2.s.temp == Some(EXAMPLE_PAYLOAD) && o2.s.pending == []
  {
    var p := s.pending;
    assert p[..HEADER_SIZE] == EXAMPLE_HEADER;
    assert p[HEADER_SIZE..HEADER_SIZE + CHUNK_SIZE_BYTES] == EXAMPLE_SIZE;
    assert p[HEADER_SIZE + CHUNK_SIZE_BYTES..] == EXAMPLE_PAYLOAD;
    ExampleHeader();
    ChunkAccepted(s, true, true);
    HeaderConsumes(s, true, true);
    var o1 := ProcessHeader(s, true, true);
    assert o1.rc == 0 && o1.s.pending == EXAMPLE_PAYLOAD && o1.s.temp == Some([]);
    var o2 := ProcessPayload(o1.s, true);
    assert EXAMPLE_PAYLOAD[..6] == EXAMPLE_PAYLOAD && EXAMPLE_PAYLOAD[6..] == [];
    assert [] + EXAMPLE_PAYLOAD == EXAMPLE_PAYLOAD;
    assert o2.s.temp == Some([] + EXAMPLE_PAYLOAD[..6]);
  }
}
