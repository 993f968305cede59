// The two parameter exchanges that open a scan on the data channel
// (exchange_params1, exchange_params2 and data_channel_send_scan_params in
// data_channel.c): functions from the parameters the channel holds and the
// message it received to the parameters it is left with and the message it
// sends, with the field parser and the string fix-ups they use.

module Exchange {

  import opened Bytes
  import opened Config
  import opened ScanParams

  const ESC: byte := 0x1b
  const INITIAL_ID: byte := 0x49      // data_channel_send_scan_params
  const FINAL_ID: byte := 0x58        // exchange_params2
  const END_OF_MESSAGE: byte := 0x80
  const NO_PARAMS: byte := 0xd0       // a lone 0xD0: the scanner has no parameters
  const PARAMS1_MARK: byte := 0x30    // first byte of the scanner's parameters
  const MINUS: byte := 0x2d           // '-'
  const R_ID: byte := 0x52            // 'R', the resolution
  const F_ID: byte := 0x46            // 'F', the scan function
  const A_ID: byte := 0x41            // 'A', the scan area
  const FIELDS: nat := 7              // recv_params[7]

  const INT_MIN: int := -0x8000_0000
  const INT_MAX: int := 0x7fff_ffff

  /** A message the channel sends: 1b, the packet id, 0a, the records, 80. */
  function Message(id: byte, records: seq<byte>): seq<byte>
  {
    [ESC, id, NL] + records + [END_OF_MESSAGE]
  }

  // ---------------------------------------------------------------------
  // exchange_params1

  /** The framing exchange_params1 demands of anything but a lone 0xD0: at
      least five bytes, 0x30 first, 0x0a second to last and 0x80 last. */
  predicate Framed1(m: seq<byte>)
  {
    |m| >= 5 && m[0] == PARAMS1_MARK && m[|m| - 2] == NL && m[|m| - 1] == END_OF_MESSAGE
  }

  /** The resolution fix-up as it should be: a value with a comma is kept,
      a comma-less value v becomes "v,v" with its terminator when that fits
      the 16-byte slot, and anything longer is refused. */
  function Resolution(v: seq<byte>): (r: Option<seq<byte>>)
    requires |v| == VALUE_SIZE
    ensures r.Some? ==> |r.value| == VALUE_SIZE && COMMA in CStr(r.value)
    ensures COMMA in CStr(v) ==> r == Some(v)
    ensures r.Some? && COMMA !in CStr(v) ==> CStr(r.value) == CStr(v) + [COMMA] + CStr(v)
    ensures r.None? <==> COMMA !in CStr(v) && 2 * |CStr(v)| + 1 >= VALUE_SIZE
  {
    var c := CStr(v);
    if COMMA in c then Some(v)
    else if 2 * |c| + 1 >= VALUE_SIZE then None
    else
      var d := c + [COMMA] + c;
      assert d[|c|] == COMMA;
      Some(StrCpy(v, d))
  }

  /** The same fix-up as exchange_params1 writes it: the length check only
      refuses 15 bytes or more, and the copy writes value[n] = ',' and the n
      bytes of v after it with no terminator. The result is the memory from
      value[0] on afterwards; past 16 bytes it lies beyond the slot. */
  function DoubledAsWritten(v: seq<byte>): (r: Option<seq<byte>>)
    requires |v| == VALUE_SIZE
    ensures r.None? <==> COMMA !in CStr(v) && |CStr(v)| >= VALUE_SIZE - 1
    ensures r.Some? && COMMA !in CStr(v) ==> |r.value| == Max(VALUE_SIZE, 2 * |CStr(v)| + 1)
  {
    var c := CStr(v);
    if COMMA in c then Some(v)
    else if |c| >= VALUE_SIZE - 1 then None
    else Some(c + [COMMA] + c + (if 2 * |c| + 1 < VALUE_SIZE then v[2 * |c| + 1..] else []))
  }

  function Max(a: int, b: int): int { if a >= b then a else b }

  /** Where the slot is zero past the doubled value, the code as written
      and the corrected fix-up agree. */
  lemma DoubledAgreesWhenClean(v: seq<byte>)
    requires |v| == VALUE_SIZE && COMMA !in CStr(v) && 2 * |CStr(v)| + 1 < VALUE_SIZE
    requires v[2 * |CStr(v)| + 1] == 0
    ensures DoubledAsWritten(v).Some? && Resolution(v).Some?
    ensures CStr(DoubledAsWritten(v).value) == CStr(Resolution(v).value)
  {
    var c := CStr(v);
    var w := DoubledAsWritten(v).value;
    assert w == (c + [COMMA] + c) + [0] + v[2 * |c| + 2..];
    CStrOfTerminated(c + [COMMA] + c, v[2 * |c| + 2..]);
  }

  /** A resolution of eight digits: the copy as written runs one byte past
      the 16-byte slot. */
  lemma DoubledPastSlot()
    ensures var v := Slot([0x31, 0x32, 0x30, 0x30, 0x31, 0x32, 0x30, 0x30]);
      DoubledAsWritten(v).Some? && |DoubledAsWritten(v).value| == VALUE_SIZE + 1
  {
    var s: seq<byte> := [0x31, 0x32, 0x30, 0x30, 0x31, 0x32, 0x30, 0x30];
    SlotHolds(s);
  }

  /** "300" read over a slot that held "1200,1200": the copy as written
      leaves the old bytes after it, so R reads "300,30000", while the
      corrected fix-up gives "300,300". */
  lemma DoubledUnterminated()
    ensures var v := StrCpy(Slot(RES_1200), RES_300_ONE);
      DoubledAsWritten(v).Some? && Resolution(v).Some? &&
      CStr(DoubledAsWritten(v).value) == RES_300 + [0x30, 0x30] &&
      CStr(Resolution(v).value) == RES_300
  {
    SlotHolds(RES_1200);
    var slot := Slot(RES_1200);
    assert slot[7] == 0x30 && slot[8] == 0x30 && slot[9] == 0;
    var v := StrCpy(slot, RES_300_ONE);
    assert CStr(v) == RES_300_ONE;
    assert v[4..] == slot[4..];
    var tail := v[7..];
    assert tail == [0x30, 0x30] + [0] + v[10..];
    var w := DoubledAsWritten(v).value;
    assert w == RES_300_ONE + [COMMA] + RES_300_ONE + tail;
    assert w == RES_300 + [0x30, 0x30] + [0] + v[10..];
    CStrOfTerminated(RES_300 + [0x30, 0x30], v[10..]);
  }

  const RES_300_ONE: seq<byte> := [0x33, 0x30, 0x30]  // "300"
  const RES_1200: seq<byte> := [0x31, 0x32, 0x30, 0x30, 0x2c, 0x31, 0x32, 0x30, 0x30]  // "1200,1200"

  /** What exchange_params1 leaves in the parameters, and the message it
      hands to brother_conn_send (None: it returns -1 before sending). */
  datatype Reply1 = Reply1(params: seq<ScanParam>, sent: Option<seq<byte>>)

  /** exchange_params1 on the message m: a lone 0xD0 sends the R, M and D
      records at once; otherwise the framed records between the third byte
      and the closing 0x0a are read into the parameters, R is fixed up and
      F must name a scan function before the same records are sent. */
  function Exchange1(params: seq<ScanParam>, m: seq<byte>): (r: Reply1)
    requires ParamsShape(params) && ParamIndex(params, R_ID).Some? && ParamIndex(params, F_ID).Some?
    ensures ParamsShape(r.params) && SameIds(r.params, params)
  {
    if |m| == 1 && m[0] == NO_PARAMS then Reply1(params, Some(Message(INITIAL_ID, WriteFrom(params, 0, Some(RMD)))))
    else if !Framed1(m) then Reply1(params, None)
    else
      var read := ReadRecords(params, m[3..|m| - 1], None);
      ParamIndexSameIds(read.params, params, R_ID);
      ParamIndexSameIds(read.params, params, F_ID);
      var r := Reply1Of(read);
      assert SameIds(r.params, read.params);
      r
  }

  /** The rest of exchange_params1 once the records are read: R is fixed
      up and F must name a scan function before the R, M and D records
      are sent. */
  function Reply1Of(read: Parsed): (r: Reply1)
    requires ParamsShape(read.params) && ParamIndex(read.params, R_ID).Some? && ParamIndex(read.params, F_ID).Some?
    ensures ParamsShape(r.params) && SameIds(r.params, read.params)
  {
    if !read.ok then Reply1(read.params, None)
    else
      var ps := read.params;
      var kr := ParamIndex(ps, R_ID).value;
      var res := Resolution(ps[kr].value);
      if res.None? then Reply1(ps, None)
      else
        var ps' := SetValue(ps, kr, res.value);
        ParamIndexSameIds(ps', ps, F_ID);
        var kf := ParamIndex(ps', F_ID).value;
        if ScanFuncByName(CStr(ps'[kf].value)) == SCAN_FUNC_INVALID then Reply1(ps', None)
        else Reply1(ps', Some(Message(INITIAL_ID, WriteFrom(ps', 0, Some(RMD)))))
  }

  /** The value in the first slot with the given id. */
  function ValueOf(params: seq<ScanParam>, id: byte): (v: seq<byte>)
    requires ParamIndex(params, id).Some?
    ensures v == params[ParamIndex(params, id).value].value
  {
    params[ParamIndex(params, id).value].value
  }

  /** Whatever exchange_params1 sends is the R, M and D records of the
      parameters it leaves, and it sends only after a lone 0xD0 (parameters
      untouched) or a framed message whose records all read, whose R holds a
      comma and whose F names a scan function. */
  lemma Exchange1Sends(params: seq<ScanParam>, m: seq<byte>)
    requires ParamsShape(params) && ParamIndex(params, R_ID).Some? && ParamIndex(params, F_ID).Some?
    ensures var r := Exchange1(params, m);
      r.sent.Some? ==> r.sent.value == Message(INITIAL_ID, WriteFrom(r.params, 0, Some(RMD)))
    ensures var r := Exchange1(params, m);
      r.sent.Some? && m == [NO_PARAMS] ==> r.params == params
    ensures m != [NO_PARAMS] && !Framed1(m) ==> Exchange1(params, m) == Reply1(params, None)
    ensures var r := Exchange1(params, m);
      r.sent.Some? && m != [NO_PARAMS] ==>
        Framed1(m) && ReadRecords(params, m[3..|m| - 1], None).ok &&
        ParamIndex(r.params, R_ID).Some? && COMMA in CStr(ValueOf(r.params, R_ID)) &&
        ParamIndex(r.params, F_ID).Some? && ScanFuncByName(CStr(ValueOf(r.params, F_ID))) != SCAN_FUNC_INVALID
  {
    var r := Exchange1(params, m);
    ParamIndexSameIds(r.params, params, R_ID);
    ParamIndexSameIds(r.params, params, F_ID);
    if |m| == 1 && m[0] == NO_PARAMS {
      assert m == [NO_PARAMS];
    }
    if r.sent.Some? && m != [NO_PARAMS] {
      var ps := ReadRecords(params, m[3..|m| - 1], None).params;
      ParamIndexSameIds(ps, params, R_ID);
      var kr := ParamIndex(ps, R_ID).value;
      assert ValueOf(r.params, R_ID) == Resolution(ps[kr].value).value;
    }
  }

  /** A comma-less resolution v that the scanner sends comes back as
      "v,v" whenever that fits the slot. */
  lemma Exchange1Doubles(params: seq<ScanParam>, m: seq<byte>)
    requires ParamsShape(params) && ParamIndex(params, R_ID).Some? && ParamIndex(params, F_ID).Some?
    requires Framed1(m) && ReadRecords(params, m[3..|m| - 1], None).ok
    requires var c := CStr(ValueOf(ReadRecords(params, m[3..|m| - 1], None).params, R_ID));
      COMMA !in c && 2 * |c| + 1 < VALUE_SIZE
    ensures var c := CStr(ValueOf(ReadRecords(params, m[3..|m| - 1], None).params, R_ID));
      var r := Exchange1(params, m);
      ParamIndex(r.params, R_ID).Some? && CStr(ValueOf(r.params, R_ID)) == c + [COMMA] + c
  {
    var read := ReadRecords(params, m[3..|m| - 1], None);
    ParamIndexSameIds(read.params, params, R_ID);
    ParamIndexSameIds(read.params, params, F_ID);
    assert Exchange1(params, m) == Reply1Of(read);
    Reply1Doubles(read);
  }

  /** The fix-up step of Exchange1Doubles, on the records read. */
  lemma Reply1Doubles(read: Parsed)
    requires ParamsShape(read.params) && ParamIndex(read.params, R_ID).Some? && ParamIndex(read.params, F_ID).Some?
    requires read.ok
    requires var c := CStr(ValueOf(read.params, R_ID)); COMMA !in c && 2 * |c| + 1 < VALUE_SIZE
    ensures var c := CStr(ValueOf(read.params, R_ID));
      var r := Reply1Of(read);
      ParamIndex(r.params, R_ID).Some? && CStr(ValueOf(r.params, R_ID)) == c + [COMMA] + c
  {
    var r := Reply1Of(read);
    ParamIndexSameIds(r.params, read.params, R_ID);
  }

  // ---------------------------------------------------------------------
  // exchange_params2: seven comma-separated integers.

  predicate InLong(x: int) { LONG_MIN <= x <= LONG_MAX }

  /** The integers read and the text left after them. */
  datatype Fields = Fields(values: seq<int>, rest: seq<byte>)

  /** One field read by strtol and the index where the next one starts. */
  datatype Field = Field(value: int, next: nat)

  /** One round of the loop of exchange_params2 on the C string t from
      index i: strtol must read digits, stay in the range of a long and stop
      at a comma, which is stepped over, or at the end. */
  function ParseField(t: seq<byte>, i: nat): (r: Option<Field>)
    requires i <= |t|
    ensures r.Some? ==> i < r.value.next <= |t| && InLong(r.value.value)
  {
    var p := Strtol(t, i);
    if p.end == i || (p.end < |t| && t[p.end] != COMMA) || !InLong(p.value) then None
    else Some(Field(p.value, if p.end < |t| then p.end + 1 else p.end))
  }

  /** The loop of exchange_params2: count fields read one after another
      from index i of t. */
  function ParseFields(t: seq<byte>, i: nat, count: nat): (r: Option<Fields>)
    requires i <= |t|
    ensures r.Some? ==> |r.value.values| == count && |r.value.rest| <= |t| - i
    ensures r.Some? ==> forall k :: 0 <= k < count ==> InLong(r.value.values[k])
    decreases count
  {
    if count == 0 then Some(Fields([], t[i..]))
    else match ParseField(t, i)
      case None => None
      case Some(f) => Prepend([f.value], ParseFields(t, f.next, count - 1))
  }

  /** Fields read before the rest of a parse. */
  function Prepend(values: seq<int>, r: Option<Fields>): (p: Option<Fields>)
    ensures p.Some? <==> r.Some?
    ensures p.Some? ==> p.value.values == values + r.value.values && p.value.rest == r.value.rest
  {
    match r
    case None => None
    case Some(f) => Some(Fields(values + f.values, f.rest))
  }

  /** "%ld,%ld,...": the integers in decimal, separated by commas. */
  function Joined(vs: seq<int>): (t: seq<byte>)
    requires |vs| >= 1
    ensures |t| >= 2 * |vs| - 1
  {
    if |vs| == 1 then FormatLong(vs[0]) else FormatLong(vs[0]) + [COMMA] + Joined(vs[1..])
  }

  /** What is left of a tail after the comma the parser steps over. */
  function AfterComma(tail: seq<byte>): seq<byte>
  {
    if tail == [] then [] else tail[1..]
  }

  /** A printed long followed by a comma or by nothing reads back as
      itself, and the parse goes on after the comma. */
  lemma FieldHead(t: seq<byte>, i: nat, x: int, after: seq<byte>) returns (next: nat)
    requires InLong(x) && (after == [] || after[0] == COMMA)
    requires i <= |t| && t[i..] == FormatLong(x) + after
    ensures ParseField(t, i) == Some(Field(x, next)) && next <= |t|
    ensures t[next..] == AfterComma(after)
  {
    var f := FormatLong(x);
    var e := i + |f|;
    assert t[i..e] == t[i..][..|f|];
    assert t[e..] == after;
    if e < |t| {
      assert t[e] == after[0];
    }
    StrtolOfFormat(t, i, x);
    if e < |t| {
      next := e + 1;
      assert t[next..] == after[1..];
    } else {
      next := e;
    }
  }

  /** The first field of Joined(vs) + tail reads back as vs[0], and the
      parse goes on after its comma. */
  lemma JoinedHead(vs: seq<int>, tail: seq<byte>, t: seq<byte>, i: nat) returns (next: nat)
    requires |vs| >= 1 && InLong(vs[0]) && (|vs| > 1 || tail == [] || tail[0] == COMMA)
    requires i <= |t| && t[i..] == Joined(vs) + tail
    ensures ParseField(t, i) == Some(Field(vs[0], next)) && next <= |t|
    ensures |vs| == 1 ==> t[next..] == AfterComma(tail)
    ensures |vs| > 1 ==> t[next..] == Joined(vs[1..]) + tail
  {
    if |vs| == 1 {
      next := FieldHead(t, i, vs[0], tail);
    } else {
      var rest := Joined(vs[1..]) + tail;
      assert t[i..] == FormatLong(vs[0]) + ([COMMA] + rest);
      next := FieldHead(t, i, vs[0], [COMMA] + rest);
      assert AfterComma([COMMA] + rest) == rest;
    }
  }

  /** count fields read from index i of t are vs, and rest is left. */
  ghost predicate Reads(t: seq<byte>, i: nat, count: nat, vs: seq<int>, rest: seq<byte>)
    requires i <= |t|
  {
    ParseFields(t, i, count) == Some(Fields(vs, rest))
  }

  /** A field and then the fields that follow it. */
  lemma ParseNext(t: seq<byte>, i: nat, count: nat, vs: seq<int>, next: nat, rest: seq<byte>)
    requires i <= |t| && next <= |t| && count >= 1 && |vs| >= 1
    requires ParseField(t, i) == Some(Field(vs[0], next))
    requires Reads(t, next, count - 1, vs[1..], rest)
    ensures Reads(t, i, count, vs, rest)
  {
    assert [vs[0]] + vs[1..] == vs;
  }

  /** Reading the first field of Joined(vs) + tail, then the fields of
      the rest. */
  lemma JoinedStep(vs: seq<int>, tail: seq<byte>, t: seq<byte>, i: nat, count: nat, rest: seq<byte>)
    returns (next: nat)
    requires |vs| > 1 && InLong(vs[0]) && count == |vs|
    requires i <= |t| && t[i..] == Joined(vs) + tail
    ensures next <= |t| && t[next..] == Joined(vs[1..]) + tail
    ensures Reads(t, next, count - 1, vs[1..], rest) ==> Reads(t, i, count, vs, rest)
  {
    next := JoinedHead(vs, tail, t, i);
    if Reads(t, next, count - 1, vs[1..], rest) {
      ParseNext(t, i, count, vs, next, rest);
    }
  }

  /** The parser reads back what Joined prints, and a single comma after
      the last field is stepped over like any other. */
  lemma {:induction false} ParseJoined(vs: seq<int>, tail: seq<byte>, t: seq<byte>, i: nat, count: nat)
    requires |vs| >= 1 && forall k :: 0 <= k < |vs| ==> InLong(vs[k])
    requires tail == [] || tail[0] == COMMA
    requires i <= |t| && t[i..] == Joined(vs) + tail && count == |vs|
    ensures Reads(t, i, count, vs, AfterComma(tail))
    decreases |vs|, 1
  {
    if |vs| == 1 {
      ParseOne(vs, tail, t, i, count);
    } else {
      ParseMore(vs, tail, t, i, count);
    }
  }

  /** ParseJoined for more than one field: the first, then the rest. */
  lemma {:induction false} ParseMore(vs: seq<int>, tail: seq<byte>, t: seq<byte>, i: nat, count: nat)
    requires |vs| > 1 && forall k :: 0 <= k < |vs| ==> InLong(vs[k])
    requires tail == [] || tail[0] == COMMA
    requires i <= |t| && t[i..] == Joined(vs) + tail && count == |vs|
    ensures Reads(t, i, count, vs, AfterComma(tail))
    decreases |vs|, 0
  {
    var next := JoinedStep(vs, tail, t, i, count, AfterComma(tail));
    ParseJoined(vs[1..], tail, t, next, count - 1);
  }

  /** The last field of Joined, and the comma after it if any. */
  lemma ParseOne(vs: seq<int>, tail: seq<byte>, t: seq<byte>, i: nat, count: nat)
    requires |vs| == 1 && InLong(vs[0])
    requires tail == [] || tail[0] == COMMA
    requires i <= |t| && t[i..] == Joined(vs) + tail && count == 1
    ensures Reads(t, i, count, vs, AfterComma(tail))
  {
    var next := FieldHead(t, i, vs[0], tail);
    assert ParseFields(t, next, 0) == Some(Fields([], t[next..]));
    assert [vs[0]] + [] == vs;
  }

  /** "%ld" prints no NUL. */
  lemma FormatLongNoNul(x: int)
    ensures 0 !in FormatLong(x)
  {
    var n: nat := if x < 0 then -x else x;
    FormatNatDigits(n);
    assert forall k :: 0 <= k < |FormatNat(n)| ==> FormatNat(n)[k] != 0;
  }

  lemma {:induction false} JoinedNoNul(vs: seq<int>)
    requires |vs| >= 1
    ensures 0 !in Joined(vs)
  {
    FormatLongNoNul(vs[0]);
    if |vs| > 1 {
      JoinedNoNul(vs[1..]);
    }
  }

  /** A buffer with no NUL in it reads whole as a C string. */
  lemma CStrWhole(s: seq<byte>)
    requires 0 !in s
    ensures CStr(s) == s
  {
  }

  /** int = long: the value modulo 2^32, as gcc converts. */
  function Int32(x: int): (r: int)
    ensures INT_MIN <= r <= INT_MAX
    ensures INT_MIN <= x <= INT_MAX ==> r == x
  {
    (x - INT_MIN) % 0x1_0000_0000 + INT_MIN
  }

  /** The conversion only drops multiples of 2^32. */
  lemma Int32Wraps(x: int)
    ensures (x - Int32(x)) % 0x1_0000_0000 == 0
  {
  }

  /** The bytes strncmp(a, b, n) compares: the C string with its
      terminator, cut to n bytes. */
  function StrnView(x: seq<byte>, n: nat): (r: seq<byte>)
    ensures |r| <= n
  {
    var c := CStr(x);
    if |c| < n then c + [0] else c[..n]
  }

  /** strncpy(value, s, 16) and then value[15] = 0. */
  function CopyBounded(s: seq<byte>): (r: seq<byte>)
    requires 0 !in s
    ensures |r| == VALUE_SIZE
    ensures CStr(r) == s[..Min(|s|, VALUE_SIZE - 1)]
  {
    var padded := if |s| >= VALUE_SIZE then s[..VALUE_SIZE] else s + Zeros(VALUE_SIZE - |s|);
    var r := padded[VALUE_SIZE - 1 := 0];
    var n := Min(|s|, VALUE_SIZE - 1);
    assert r == s[..n] + [0] + r[n + 1..];
    CStrOfTerminated(s[..n], r[n + 1..]);
    r
  }

  /** "%ld,%ld" of the two resolutions. */
  function RText(x: int, y: int): seq<byte>
  {
    FormatLong(x) + [COMMA] + FormatLong(y)
  }

  /** "0,0,%ld,%ld" of the width and the height. */
  function AText(w: int, h: int): seq<byte>
  {
    [ZERO_DIGIT, COMMA, ZERO_DIGIT, COMMA] + FormatLong(w) + [COMMA] + FormatLong(h)
  }

  lemma TextsNoNul(x: int, y: int)
    ensures 0 !in RText(x, y) && 0 !in AText(x, y)
  {
    FormatLongNoNul(x);
    FormatLongNoNul(y);
  }

  /** The area string printed into A as it should be, bounded by the slot
      (snprintf(value, 16, ...)): cut to 15 bytes and terminated. */
  function APrinted(slot: seq<byte>, w: int, h: int): (r: seq<byte>)
    requires |slot| == VALUE_SIZE
    ensures |r| == VALUE_SIZE
    ensures CStr(r) == AText(w, h)[..Min(|AText(w, h)|, VALUE_SIZE - 1)]
  {
    TextsNoNul(w, h);
    var t := AText(w, h);
    StrCpy(slot, t[..Min(|t|, VALUE_SIZE - 1)])
  }

  /** The same print as exchange_params2 writes it, sprintf(value, ...):
      the bytes stored from value[0] on, text and terminator, however many
      the 16-byte slot has room for. */
  function APrintedAsWritten(w: int, h: int): (r: seq<byte>)
    ensures |r| == |AText(w, h)| + 1 && r[|r| - 1] == 0
  {
    AText(w, h) + [0]
  }

  /** A 100000 by 100000 area prints 18 bytes into the 16-byte slot, where
      the bounded print keeps "0,0,100000,1000". */
  lemma AreaOverflows()
    ensures |APrintedAsWritten(100000, 100000)| == 18 > VALUE_SIZE
    ensures CStr(APrinted(Zeros(VALUE_SIZE), 100000, 100000)) == AText(100000, 100000)[..15]
  {
  }

  /** Where "0,0,w,h" fits in 15 bytes, sprintf as written and the
      bounded print leave the same string in A. */
  lemma APrintedAgreesWhenFits(slot: seq<byte>, w: int, h: int)
    requires |slot| == VALUE_SIZE && |AText(w, h)| < VALUE_SIZE
    ensures |APrintedAsWritten(w, h)| <= VALUE_SIZE
    ensures CStr(APrintedAsWritten(w, h)) == CStr(APrinted(slot, w, h)) == AText(w, h)
  {
    TextsNoNul(w, h);
    CStrOfTerminated(AText(w, h), []);
    assert AText(w, h)[..Min(|AText(w, h)|, VALUE_SIZE - 1)] == AText(w, h);
  }

  /** The R fix-up of exchange_params2: R becomes "x,y", cut to the slot,
      unless strncmp already finds that there. */
  function FixR(params: seq<ScanParam>, x: int, y: int): (r: seq<ScanParam>)
    requires ParamsShape(params) && ParamIndex(params, R_ID).Some?
    ensures ParamsShape(r) && SameIds(r, params)
  {
    var kr := ParamIndex(params, R_ID).value;
    var rtext := RText(x, y);
    TextsNoNul(x, y);
    if StrnView(rtext, VALUE_SIZE) == StrnView(params[kr].value, VALUE_SIZE) then params
    else SetValue(params, kr, CopyBounded(rtext))
  }

  /** The A fix-up of exchange_params2: A becomes "0,0,w,h". */
  function FixA(params: seq<ScanParam>, w: int, h: int): (r: seq<ScanParam>)
    requires ParamsShape(params) && ParamIndex(params, A_ID).Some?
    ensures ParamsShape(r) && SameIds(r, params)
  {
    var ka := ParamIndex(params, A_ID).value;
    SetValue(params, ka, APrinted(params[ka].value, w, h))
  }

  /** Both fix-ups for the fields v. */
  function Settle(params: seq<ScanParam>, v: seq<int>): (r: seq<ScanParam>)
    requires ParamsShape(params) && ParamIndex(params, R_ID).Some? && ParamIndex(params, A_ID).Some?
    requires |v| == FIELDS
    ensures ParamsShape(r) && SameIds(r, params)
  {
    var ps := FixR(params, v[0], v[1]);
    ParamIndexSameIds(ps, params, A_ID);
    FixA(ps, v[4], v[6])
  }

  /** What strncmp(t, value, 16) == 0 says of a text that fits: the value
      holds exactly that text. */
  lemma StrnViewFits(t: seq<byte>, value: seq<byte>)
    requires 0 !in t && |t| < VALUE_SIZE && |value| == VALUE_SIZE
    requires StrnView(t, VALUE_SIZE) == StrnView(value, VALUE_SIZE)
    ensures CStr(value) == t
  {
    CStrWhole(t);
    var c := CStr(value);
    if |c| < VALUE_SIZE {
      assert c + [0] == t + [0];
      assert c == (c + [0])[..|c|];
      assert t == (t + [0])[..|t|];
    }
  }

  /** After the R fix-up R holds "x,y" whenever that fits, and no other
      slot changes. */
  lemma FixRValues(params: seq<ScanParam>, x: int, y: int)
    requires ParamsShape(params) && ParamIndex(params, R_ID).Some?
    ensures var r := FixR(params, x, y);
      ParamIndex(r, R_ID) == ParamIndex(params, R_ID) &&
      (|RText(x, y)| < VALUE_SIZE ==> CStr(ValueOf(r, R_ID)) == RText(x, y))
    ensures var r := FixR(params, x, y);
      forall k :: 0 <= k < MAX_PARAMS && params[k].id != R_ID ==> r[k] == params[k]
  {
    var r := FixR(params, x, y);
    ParamIndexSameIds(r, params, R_ID);
    var kr := ParamIndex(params, R_ID).value;
    var rtext := RText(x, y);
    TextsNoNul(x, y);
    if |rtext| < VALUE_SIZE && StrnView(rtext, VALUE_SIZE) == StrnView(params[kr].value, VALUE_SIZE) {
      StrnViewFits(rtext, params[kr].value);
    }
  }

  /** After the A fix-up A holds "0,0,w,h" cut to the slot, and no other
      slot changes. */
  lemma FixAValues(params: seq<ScanParam>, w: int, h: int)
    requires ParamsShape(params) && ParamIndex(params, A_ID).Some?
    ensures var r := FixA(params, w, h);
      ParamIndex(r, A_ID) == ParamIndex(params, A_ID) &&
      CStr(ValueOf(r, A_ID)) == AText(w, h)[..Min(|AText(w, h)|, VALUE_SIZE - 1)]
    ensures var r := FixA(params, w, h);
      forall k :: 0 <= k < MAX_PARAMS && params[k].id != A_ID ==> r[k] == params[k]
  {
    ParamIndexSameIds(FixA(params, w, h), params, A_ID);
  }

  /** After the fix-ups, R holds "v0,v1" whenever that fits, A holds
      "0,0,v4,v6" cut to the slot, and every other slot is as it was. */
  lemma SettleValues(params: seq<ScanParam>, v: seq<int>)
    requires ParamsShape(params) && ParamIndex(params, R_ID).Some? && ParamIndex(params, A_ID).Some?
    requires |v| == FIELDS
    ensures var r := Settle(params, v);
      ParamIndex(r, R_ID) == ParamIndex(params, R_ID) && ParamIndex(r, A_ID) == ParamIndex(params, A_ID)
    ensures var r := Settle(params, v);
      |RText(v[0], v[1])| < VALUE_SIZE ==> CStr(ValueOf(r, R_ID)) == RText(v[0], v[1])
    ensures var r := Settle(params, v);
      CStr(ValueOf(r, A_ID)) == AText(v[4], v[6])[..Min(|AText(v[4], v[6])|, VALUE_SIZE - 1)]
    ensures var r := Settle(params, v);
      forall k :: 0 <= k < MAX_PARAMS && params[k].id != R_ID && params[k].id != A_ID ==> r[k] == params[k]
  {
    var ps := FixR(params, v[0], v[1]);
    FixRValues(params, v[0], v[1]);
    ParamIndexSameIds(ps, params, A_ID);
    FixAValues(ps, v[4], v[6]);
    var r := FixA(ps, v[4], v[6]);
    ParamIndexSameIds(r, ps, R_ID);
    var kr := ParamIndex(params, R_ID).value;
    var ka := ParamIndex(params, A_ID).value;
    assert params[ka].id == A_ID && params[kr].id == R_ID;
    assert r[kr] == ps[kr];
  }

  /** The screen dimensions exchange_params2 stores: xdpi, ydpi, width and
      height from fields 0, 1, 4 and 6. */
  datatype Dims = Dims(xdpi: int, ydpi: int, width: int, height: int)

  /** What exchange_params2 leaves: the parameters, the dimensions when
      all seven fields read (even if the message then runs on), and the
      message it hands to brother_conn_send. */
  datatype Reply2 = Reply2(params: seq<ScanParam>, dims: Option<Dims>, sent: Option<seq<byte>>)

  /** exchange_params2 on the message m: 00, the length of the rest, 00,
      then seven integers with nothing but an optional comma after them. */
  function Exchange2(params: seq<ScanParam>, m: seq<byte>): (r: Reply2)
    requires ParamsShape(params) && ParamIndex(params, R_ID).Some? && ParamIndex(params, A_ID).Some?
    ensures ParamsShape(r.params) && SameIds(r.params, params)
  {
    if |m| < 5 || m[0] != 0 || m[1] != |m| - 3 || m[2] != 0 then Reply2(params, None, None)
    else Reply2Of(params, ParseFields(CStr(m[3..]), 0, FIELDS))
  }

  /** xdpi, ydpi, width and height from fields 0, 1, 4 and 6 as ints. */
  function DimsOf(v: seq<int>): (d: Dims)
    requires |v| == FIELDS
    ensures INT_MIN <= v[0] <= INT_MAX ==> d.xdpi == v[0]
    ensures INT_MIN <= v[1] <= INT_MAX ==> d.ydpi == v[1]
    ensures INT_MIN <= v[4] <= INT_MAX ==> d.width == v[4]
    ensures INT_MIN <= v[6] <= INT_MAX ==> d.height == v[6]
  {
    Dims(Int32(v[0]), Int32(v[1]), Int32(v[4]), Int32(v[6]))
  }

  /** The rest of exchange_params2 once the framing holds, for what the
      field loop read: the dimensions are stored as soon as the seven
      fields are read, the fix-ups and the reply only when nothing follows
      them. */
  function Reply2Of(params: seq<ScanParam>, fields: Option<Fields>): (r: Reply2)
    requires ParamsShape(params) && ParamIndex(params, R_ID).Some? && ParamIndex(params, A_ID).Some?
    requires fields.Some? ==> |fields.value.values| == FIELDS
    ensures ParamsShape(r.params) && SameIds(r.params, params)
  {
    match fields
    case None => Reply2(params, None, None)
    case Some(f) =>
      var d := DimsOf(f.values);
      if f.rest != [] then Reply2(params, Some(d), None)
      else
        var ps := Settle(params, f.values);
        Reply2(ps, Some(d), Some(Message(FINAL_ID, WriteFrom(ps, 0, Some(RMCJBNADGL)))))
  }

  /** Nothing is stored or sent unless the message is 00, its length less
      three, 00, and whatever it sends is the R, M, C, J, B, N, A, D, G and L
      records of the parameters it leaves; those are the fixed-up ones. */
  lemma Exchange2Framing(params: seq<ScanParam>, m: seq<byte>)
    requires ParamsShape(params) && ParamIndex(params, R_ID).Some? && ParamIndex(params, A_ID).Some?
    ensures var r := Exchange2(params, m);
      r.dims.Some? ==> |m| >= 5 && m[0] == 0 && m[1] == |m| - 3 && m[2] == 0
    ensures var r := Exchange2(params, m);
      r.sent.None? ==> r.params == params
    ensures var r := Exchange2(params, m);
      r.sent.Some? ==> r.dims.Some? && r.sent.value == Message(FINAL_ID, WriteFrom(r.params, 0, Some(RMCJBNADGL)))
  {
  }

  /** The message the scanner sends for exchange_params2 around a text t:
      00, the length of t, 00, then t. */
  function Frame2(t: seq<byte>): (m: seq<byte>)
    requires |t| < 0x100
    ensures |m| == |t| + 3 && m[0] == 0 && m[1] == |m| - 3 && m[2] == 0 && m[3..] == t
  {
    var m := [0, |t| as byte, 0] + t;
    assert m[3..] == t;
    m
  }

  /** A framed text with no NUL that reads as seven fields: the dimensions
      are fields 0, 1, 4 and 6 as ints; when nothing follows the fields the
      parameters get the R and A fix-ups and the reply is sent. */
  lemma Exchange2OfText(params: seq<ScanParam>, t: seq<byte>, f: Fields)
    requires ParamsShape(params) && ParamIndex(params, R_ID).Some? && ParamIndex(params, A_ID).Some?
    requires 2 <= |t| < 0x100 && 0 !in t
    requires ParseFields(t, 0, FIELDS) == Some(f)
    ensures var d := DimsOf(f.values);
      Exchange2(params, Frame2(t)) ==
        if f.rest == [] then Reply2(Settle(params, f.values), Some(d), Some(Message(FINAL_ID, WriteFrom(Settle(params, f.values), 0, Some(RMCJBNADGL)))))
        else Reply2(params, Some(d), None)
  {
    CStrWhole(t);
  }

  /** Seven integers printed with commas, with or without one more comma,
      are accepted: the dimensions are fields 0, 1, 4 and 6 as ints and
      the parameters get the R and A fix-ups. */
  lemma Exchange2OfJoined(params: seq<ScanParam>, vs: seq<int>, tail: seq<byte>)
    requires ParamsShape(params) && ParamIndex(params, R_ID).Some? && ParamIndex(params, A_ID).Some?
    requires |vs| == FIELDS && forall k :: 0 <= k < FIELDS ==> InLong(vs[k])
    requires tail == [] || tail == [COMMA]
    requires |Joined(vs) + tail| < 0x100
    ensures Exchange2(params, Frame2(Joined(vs) + tail)) ==
      Reply2(Settle(params, vs), Some(DimsOf(vs)),
             Some(Message(FINAL_ID, WriteFrom(Settle(params, vs), 0, Some(RMCJBNADGL)))))
  {
    var t := Joined(vs) + tail;
    JoinedNoNul(vs);
    assert t[0..] == t;
    ParseJoined(vs, tail, t, 0, FIELDS);
    Exchange2OfText(params, t, Fields(vs, []));
  }

  /** More text after the seventh field and its comma: the dimensions are
      already stored, but nothing else changes and nothing is sent. */
  lemma Exchange2TooLong(params: seq<ScanParam>, vs: seq<int>, more: seq<byte>)
    requires ParamsShape(params) && ParamIndex(params, R_ID).Some? && ParamIndex(params, A_ID).Some?
    requires |vs| == FIELDS && forall k :: 0 <= k < FIELDS ==> InLong(vs[k])
    requires more != [] && 0 !in more
    requires |Joined(vs) + ([COMMA] + more)| < 0x100
    ensures Exchange2(params, Frame2(Joined(vs) + ([COMMA] + more))) ==
      Reply2(params, Some(DimsOf(vs)), None)
  {
    var tail := [COMMA] + more;
    var t := Joined(vs) + tail;
    JoinedNoNul(vs);
    assert t[0..] == t;
    ParseJoined(vs, tail, t, 0, FIELDS);
    assert AfterComma(tail) == more;
    Exchange2OfText(params, t, Fields(vs, more));
  }

  /** The fields of the example, printed. */
  const EXAMPLE: seq<int> := [300, 300, 1, 209, 2480, 0, 0]
  const EXAMPLE_AREA: seq<byte> := [0x30, 0x2c, 0x30, 0x2c, 0x32, 0x34, 0x38, 0x30, 0x2c, 0x30]  // "0,0,2480,0"

  lemma ExampleFields()
    ensures |EXAMPLE| == FIELDS && forall k :: 0 <= k < FIELDS ==> InLong(EXAMPLE[k])
    ensures |Joined(EXAMPLE) + []| == 22
    ensures Int32(EXAMPLE[0]) == 300 && Int32(EXAMPLE[1]) == 300
    ensures Int32(EXAMPLE[4]) == 2480 && Int32(EXAMPLE[6]) == 0
  {
    assert FormatLong(300) == FormatNat(30) + [0x30];
    assert |FormatLong(209)| == 3 && |FormatLong(2480)| == 4;
    assert |FormatLong(1)| == 1 && |FormatLong(0)| == 1;
  }

  lemma ExampleR()
    ensures RText(EXAMPLE[0], EXAMPLE[1]) == RES_300
  {
    assert FormatLong(300) == [0x33, 0x30, 0x30] by {
      assert FormatNat(30) == [0x33, 0x30];
    }
  }

  lemma ExampleA()
    ensures var a := AText(EXAMPLE[4], EXAMPLE[6]);
      a[..Min(|a|, VALUE_SIZE - 1)] == EXAMPLE_AREA
  {
    var a := AText(EXAMPLE[4], EXAMPLE[6]);
    assert FormatLong(2480) == [0x32, 0x34, 0x38, 0x30] by {
      assert FormatNat(248) == [0x32, 0x34, 0x38] by {
        assert FormatNat(24) == [0x32, 0x34];
      }
    }
    assert a == EXAMPLE_AREA;
    assert a[..Min(|a|, VALUE_SIZE - 1)] == a;
  }

  /** The example of the unit tests: "300,300,1,209,2480,0,0" leaves R at
      "300,300" and A at "0,0,2480,0". */
  lemma Exchange2Example(params: seq<ScanParam>)
    requires ParamsShape(params) && ParamIndex(params, R_ID).Some? && ParamIndex(params, A_ID).Some?
    ensures |Joined(EXAMPLE)| == 22
    ensures var r := Exchange2(params, Frame2(Joined(EXAMPLE)));
      r.sent.Some? && r.dims == Some(Dims(300, 300, 2480, 0)) &&
      CStr(ValueOf(r.params, R_ID)) == RES_300 && CStr(ValueOf(r.params, A_ID)) == EXAMPLE_AREA
  {
    ExampleFields();
    assert Joined(EXAMPLE) + [] == Joined(EXAMPLE);
    Exchange2OfJoined(params, EXAMPLE, []);
    SettleValues(params, EXAMPLE);
    ExampleR();
    ExampleA();
  }

  // ---------------------------------------------------------------------
  // The loops.

  /** The field loop of exchange_params2 over the C string text. */
  method ReadFields(text: seq<byte>) returns (r: Option<Fields>)
    ensures r == ParseFields(text, 0, FIELDS)
  {
    var recv: seq<int> := [];
    var i, p := 0, 0;
    ghost var left := FIELDS;
    PrependNothing(ParseFields(text, 0, left));
    while i < FIELDS
      invariant 0 <= p <= |text| && i <= FIELDS && |recv| == i && left == FIELDS - i
      invariant ParseFields(text, 0, FIELDS) == Prepend(recv, ParseFields(text, p, left))
    {
      var parsed := Strtol(text, p);
      var end := parsed.end;
      if end == p || (end < |text| && text[end] != COMMA) || !InLong(parsed.value) {
        FieldFails(text, p, left, recv);
        return None;
      }
      if end < |text| {
        end := end + 1;
      }
      FieldRead(text, p, parsed, end);
      FieldStep(text, p, end, recv, parsed.value, left);
      recv := recv + [parsed.value];
      i, p := i + 1, end;
      left := left - 1;
    }
    PrependAll(recv, text[p..]);
    r := Some(Fields(recv, text[p..]));
  }

  lemma PrependNothing(r: Option<Fields>)
    ensures Prepend([], r) == r
  {
    if r.Some? {
      assert [] + r.value.values == r.value.values;
    }
  }

  lemma PrependAll(values: seq<int>, rest: seq<byte>)
    ensures Prepend(values, Some(Fields([], rest))) == Some(Fields(values, rest))
  {
    assert values + [] == values;
  }

  /** A field strtol reads, followed by a comma or the end. */
  lemma FieldRead(text: seq<byte>, p: nat, parsed: LongParse, end: nat)
    requires p <= |text| && parsed == Strtol(text, p)
    requires parsed.end != p && (parsed.end == |text| || text[parsed.end] == COMMA) && InLong(parsed.value)
    requires end == if parsed.end < |text| then parsed.end + 1 else parsed.end
    ensures ParseField(text, p) == Some(Field(parsed.value, end))
  {
  }

  /** A field strtol cannot read fails the whole parse. */
  lemma FieldFails(text: seq<byte>, p: nat, left: nat, recv: seq<int>)
    requires p <= |text| && left >= 1 && ParseField(text, p).None?
    ensures Prepend(recv, ParseFields(text, p, left)).None?
  {
  }

  /** One round of the field loop, in terms of the parse of the rest. */
  lemma FieldStep(text: seq<byte>, p: nat, end: nat, recv: seq<int>, v: int, left: nat)
    requires p <= |text| && left >= 1
    requires ParseField(text, p) == Some(Field(v, end))
    ensures Prepend(recv, ParseFields(text, p, left)) == Prepend(recv + [v], ParseFields(text, end, left - 1))
  {
    var later := ParseFields(text, end, left - 1);
    assert ParseFields(text, p, left) == Prepend([v], later);
    if later.Some? {
      assert recv + ([v] + later.value.values) == recv + [v] + later.value.values;
    }
  }

  /** The strcmp loop of exchange_params1 over g_scan_func_str. */
  method MatchScanFunc(name: seq<byte>) returns (i: nat)
    ensures i <= MAX_FUNCS
    ensures i == MAX_FUNCS <==> ScanFuncByName(name) == SCAN_FUNC_INVALID
    ensures i < MAX_FUNCS ==> i == ScanFuncByName(name)
  {
    i := 0;
    while i < MAX_FUNCS
      invariant i <= MAX_FUNCS
      invariant ScanFuncByName(name) == ScanFuncFrom(name, i)
    {
      if name == ScanFuncNames()[i] {
        return;
      }
      i := i + 1;
    }
  }
}
